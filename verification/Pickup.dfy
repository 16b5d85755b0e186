/** Adding a stack to the inventory: first onto stacks of its kind, then into empty slots. */
module Pickup {
  import opened Bytes
  import opened Items

  const FIRST: nat := 9
  const END: nat := 45

  /** Onto the stacks of its kind from slot i on: the slots, and how many items are left. */
  function TopUp(slots: seq<Slot>, stack: Slot, left: nat, i: nat): (r: (seq<Slot>, nat))
    requires i <= END <= |slots|
    ensures |r.0| == |slots| && r.1 <= left
    decreases END - i
  {
    if i == END || left == 0 then (slots, left)
    else
      var d := slots[i];
      if SlotEmpty(d) || !SlotsSame(d, stack) || d.count >= MAX_STACK then TopUp(slots, stack, left, i + 1)
      else
        var k := if MAX_STACK - d.count < left then MAX_STACK - d.count else left;
        TopUp(slots[i := d.(count := d.count + k)], stack, left - k, i + 1)
  }

  /** Into the empty slots from slot i on. */
  function Place(slots: seq<Slot>, stack: Slot, left: nat, i: nat): (r: (seq<Slot>, nat))
    requires i <= END <= |slots|
    ensures |r.0| == |slots| && r.1 <= left
    decreases END - i
  {
    if i == END || left == 0 then (slots, left)
    else if !SlotEmpty(slots[i]) then Place(slots, stack, left, i + 1)
    else
      var k := if MAX_STACK < left then MAX_STACK else left;
      Place(slots[i := stack.(count := k)], stack, left - k, i + 1)
  }

  /** InventoryAdd: the slots, and what did not fit. */
  function Added(slots: seq<Slot>, stack: Slot): (r: (seq<Slot>, nat))
    requires END <= |slots|
    ensures |r.0| == |slots| && r.1 <= stack.count
  {
    if SlotEmpty(stack) || stack.count == 0 then (slots, 0)
    else
      var t := TopUp(slots, stack, stack.count, FIRST);
      Place(t.0, stack, t.1, FIRST)
  }

  function RoomOnTop(d: Slot, stack: Slot): nat {
    if !SlotEmpty(d) && SlotsSame(d, stack) && d.count < MAX_STACK then MAX_STACK - d.count else 0
  }

  function RoomAsEmpty(d: Slot): nat {
    if SlotEmpty(d) then MAX_STACK else 0
  }

  function TopRoom(slots: seq<Slot>, stack: Slot, i: nat): nat
    requires i <= END <= |slots|
    decreases END - i
  {
    if i == END then 0 else RoomOnTop(slots[i], stack) + TopRoom(slots, stack, i + 1)
  }

  function EmptyRoom(slots: seq<Slot>, i: nat): nat
    requires i <= END <= |slots|
    decreases END - i
  {
    if i == END then 0 else RoomAsEmpty(slots[i]) + EmptyRoom(slots, i + 1)
  }

  /** The free room there is for a stack: 64 for an empty slot, what a stack of its kind is short of 64. */
  function FreeRoom(slots: seq<Slot>, stack: Slot): nat
    requires END <= |slots|
  {
    TopRoom(slots, stack, FIRST) + EmptyRoom(slots, FIRST)
  }

  lemma {:induction false} RoomIsLocal(a: seq<Slot>, b: seq<Slot>, stack: Slot, i: nat)
    requires i <= END <= |a| == |b| && forall j | i <= j < END :: a[j] == b[j]
    ensures TopRoom(a, stack, i) == TopRoom(b, stack, i) && EmptyRoom(a, i) == EmptyRoom(b, i)
    decreases END - i
  {
    hide RoomOnTop, RoomAsEmpty;
    if i < END {
      RoomIsLocal(a, b, stack, i + 1);
    }
  }

  lemma {:induction false} EmptinessGivesRoom(a: seq<Slot>, b: seq<Slot>, i: nat)
    requires i <= END <= |a| == |b| && forall j | i <= j < END :: SlotEmpty(a[j]) <==> SlotEmpty(b[j])
    ensures EmptyRoom(a, i) == EmptyRoom(b, i)
    decreases END - i
  {
    if i < END {
      EmptinessGivesRoom(a, b, i + 1);
    }
  }

  lemma OneOnTop(d: Slot, stack: Slot, n: nat, k: Kind)
    requires !SlotEmpty(d) && CleanSlot(d) && CleanSlot(stack) && SlotsSame(d, stack) && d.count + n <= MAX_STACK
    ensures var d' := d.(count := d.count + n);
      && Amount(d', k) == Amount(d, k) + Share(stack, n, k)
      && CleanSlot(d') && (n > 0 ==> SaneSlot(d'))
  {
    SameIsSameKind(d, stack);
  }

  predicate CleanSlots(slots: seq<Slot>) {
    forall i | 0 <= i < |slots| :: CleanSlot(slots[i])
  }

  lemma {:induction false} TopUpConserves(slots: seq<Slot>, stack: Slot, left: nat, i: nat, k: Kind)
    requires i <= END <= |slots| && CleanSlots(slots) && CleanSlot(stack) && !SlotEmpty(stack)
    ensures var r := TopUp(slots, stack, left, i);
      && Total(r.0, k) + Share(stack, r.1, k) == Total(slots, k) + Share(stack, left, k)
      && CleanSlots(r.0)
    decreases END - i
  {
    hide SlotsSame, KindOf, CleanSlot, Amount, Total;
    if i < END && left > 0 {
      var d := slots[i];
      if SlotEmpty(d) || !SlotsSame(d, stack) || d.count >= MAX_STACK {
        TopUpConserves(slots, stack, left, i + 1, k);
      } else {
        var n := if MAX_STACK - d.count < left then MAX_STACK - d.count else left;
        var d' := d.(count := d.count + n);
        OneOnTop(d, stack, n, k);
        TotalOfUpdate(slots, i, d', k);
        TopUpConserves(slots[i := d'], stack, left - n, i + 1, k);
      }
    }
  }

  lemma {:induction false} TopUpLeaves(slots: seq<Slot>, stack: Slot, left: nat, i: nat)
    requires i <= END <= |slots|
    ensures var r := TopUp(slots, stack, left, i);
      && r.1 == (if left > TopRoom(slots, stack, i) then left - TopRoom(slots, stack, i) else 0)
      && (forall j | 0 <= j < |slots| :: SlotEmpty(r.0[j]) <==> SlotEmpty(slots[j]))
    decreases END - i
  {
    hide SlotsSame;
    if i < END && left > 0 {
      var d := slots[i];
      if SlotEmpty(d) || !SlotsSame(d, stack) || d.count >= MAX_STACK {
        TopUpLeaves(slots, stack, left, i + 1);
      } else {
        var n := if MAX_STACK - d.count < left then MAX_STACK - d.count else left;
        var next := slots[i := d.(count := d.count + n)];
        TopUpLeaves(next, stack, left - n, i + 1);
        RoomIsLocal(slots, next, stack, i + 1);
      }
    }
  }

  /** Slots outside 9..44 are not touched, and slots that were sane stay so. */
  lemma {:induction false} TopUpTouches(slots: seq<Slot>, stack: Slot, left: nat, i: nat, x: nat)
    requires i <= END <= |slots| && x < |slots|
    ensures var r := TopUp(slots, stack, left, i).0[x];
      && (x < i || x >= END ==> r == slots[x])
      && (SaneSlot(slots[x]) ==> SaneSlot(r))
    decreases END - i
  {
    hide SlotsSame;
    if i < END && left > 0 {
      var d := slots[i];
      if SlotEmpty(d) || !SlotsSame(d, stack) || d.count >= MAX_STACK {
        TopUpTouches(slots, stack, left, i + 1, x);
      } else {
        var n := if MAX_STACK - d.count < left then MAX_STACK - d.count else left;
        TopUpTouches(slots[i := d.(count := d.count + n)], stack, left - n, i + 1, x);
      }
    }
  }

  lemma {:induction false} PlaceIsExact(slots: seq<Slot>, stack: Slot, left: nat, i: nat, k: Kind)
    requires i <= END <= |slots| && !SlotEmpty(stack)
    ensures var r := Place(slots, stack, left, i);
      && r.1 == (if left > EmptyRoom(slots, i) then left - EmptyRoom(slots, i) else 0)
      && Total(r.0, k) + Share(stack, r.1, k) == Total(slots, k) + Share(stack, left, k)
    decreases END - i
  {
    hide KindOf, Total;
    if i < END && left > 0 {
      if !SlotEmpty(slots[i]) {
        PlaceIsExact(slots, stack, left, i + 1, k);
      } else {
        var n := if MAX_STACK < left then MAX_STACK else left;
        var d := stack.(count := n);
        assert KindOf(d) == KindOf(stack) by { SameKindAnyCount(stack, n); }
        TotalOfUpdate(slots, i, d, k);
        PlaceIsExact(slots[i := d], stack, left - n, i + 1, k);
        RoomIsLocal(slots, slots[i := d], stack, i + 1);
      }
    }
  }

  lemma SameKindAnyCount(s: Slot, n: byte)
    ensures KindOf(s.(count := n)) == KindOf(s) && (CleanSlot(s) ==> CleanSlot(s.(count := n)))
  {
  }

  lemma {:induction false} PlaceTouches(slots: seq<Slot>, stack: Slot, left: nat, i: nat, x: nat)
    requires i <= END <= |slots| && x < |slots| && CleanSlot(stack)
    ensures var r := Place(slots, stack, left, i).0[x];
      && (x < i || x >= END || !SlotEmpty(slots[x]) ==> r == slots[x])
      && (SaneSlot(slots[x]) ==> SaneSlot(r))
    decreases END - i
  {
    if i < END && left > 0 {
      if !SlotEmpty(slots[i]) {
        PlaceTouches(slots, stack, left, i + 1, x);
      } else {
        var n := if MAX_STACK < left then MAX_STACK else left;
        PlaceTouches(slots[i := stack.(count := n)], stack, left - n, i + 1, x);
      }
    }
  }

  /** What does not fit is exactly what there is no room for, and every item that does is in a slot. */
  lemma AddIsExact(slots: seq<Slot>, stack: Slot, k: Kind)
    requires END <= |slots| && CleanSlots(slots) && CleanSlot(stack) && !SlotEmpty(stack)
    ensures var r := Added(slots, stack);
      && r.1 == (if stack.count > FreeRoom(slots, stack) then stack.count - FreeRoom(slots, stack) else 0)
      && Total(r.0, k) + Share(stack, r.1, k) == Total(slots, k) + Amount(stack, k)
  {
    hide TopUp, Place, Total, KindOf, CleanSlot, TopRoom, EmptyRoom;
    if stack.count > 0 {
      var t := TopUp(slots, stack, stack.count, FIRST);
      TopUpConserves(slots, stack, stack.count, FIRST, k);
      TopUpLeaves(slots, stack, stack.count, FIRST);
      PlaceIsExact(t.0, stack, t.1, FIRST, k);
      EmptinessGivesRoom(t.0, slots, FIRST);
    }
  }

  lemma AddKeepsSane(slots: seq<Slot>, stack: Slot)
    requires END <= |slots| && SaneSlots(slots) && CleanSlot(stack)
    ensures var r := Added(slots, stack).0;
      SaneSlots(r) && forall x | 0 <= x < |slots| :: !(FIRST <= x < END) ==> r[x] == slots[x]
  {
    hide TopUp, Place, SaneSlot, CleanSlot;
    var t := TopUp(slots, stack, stack.count, FIRST);
    forall x | 0 <= x < |slots|
      ensures SaneSlot(Added(slots, stack).0[x]) && (!(FIRST <= x < END) ==> Added(slots, stack).0[x] == slots[x])
    {
      TopUpTouches(slots, stack, stack.count, FIRST, x);
      PlaceTouches(t.0, stack, t.1, FIRST, x);
    }
  }

  /** If items are left after the first pass, every stack of the kind in slots 9..44 is full. */
  lemma {:induction false} TopUpFills(slots: seq<Slot>, stack: Slot, left: nat, i: nat, x: nat)
    requires i <= x < END <= |slots| && !SlotEmpty(slots[x]) && SlotsSame(slots[x], stack)
    ensures var r := TopUp(slots, stack, left, i); r.1 > 0 ==> r.0[x].count >= MAX_STACK
    decreases END - i
  {
    hide SlotsSame;
    if left > 0 {
      var d := slots[i];
      if SlotEmpty(d) || !SlotsSame(d, stack) || d.count >= MAX_STACK {
        if i == x {
          TopUpTouches(slots, stack, left, i + 1, x);
        } else {
          TopUpFills(slots, stack, left, i + 1, x);
        }
      } else {
        var n := if MAX_STACK - d.count < left then MAX_STACK - d.count else left;
        var next := slots[i := d.(count := d.count + n)];
        if i == x {
          TopUpTouches(next, stack, left - n, i + 1, x);
        } else {
          TopUpFills(next, stack, left - n, i + 1, x);
        }
        if left - n == 0 {
          NoMoreTopUp(next, stack, 0, i + 1);
        }
      }
    }
  }

  /** An empty slot is taken only when every stack of the kind is full. */
  lemma AddPrefersStacks(slots: seq<Slot>, stack: Slot, e: nat, x: nat)
    requires END <= |slots| && CleanSlot(stack) && e < |slots| && SlotEmpty(slots[e])
    requires !SlotEmpty(Added(slots, stack).0[e])
    requires FIRST <= x < END && !SlotEmpty(slots[x]) && SlotsSame(slots[x], stack)
    ensures Added(slots, stack).0[x].count >= MAX_STACK
  {
    hide TopUp, Place, SlotsSame, CleanSlot;
    var t := TopUp(slots, stack, stack.count, FIRST);
    TopUpLeaves(slots, stack, stack.count, FIRST);
    TopUpFills(slots, stack, stack.count, FIRST, x);
    PlaceTouches(t.0, stack, t.1, FIRST, x);
    PlaceNothing(t.0, stack);
  }

  lemma PlaceNothing(slots: seq<Slot>, stack: Slot)
    requires END <= |slots|
    ensures Place(slots, stack, 0, FIRST) == (slots, 0)
  {
  }

  lemma NextTopUp(slots: seq<Slot>, stack: Slot, left: nat, i: nat)
    requires i < END <= |slots| && left > 0
    ensures var d := slots[i];
      var k := if MAX_STACK - d.count < left then MAX_STACK - d.count else left;
      TopUp(slots, stack, left, i) ==
        if SlotEmpty(d) || !SlotsSame(d, stack) || k <= 0 then TopUp(slots, stack, left, i + 1)
        else TopUp(slots[i := d.(count := d.count + k)], stack, left - k, i + 1)
  {
    hide SlotsSame;
  }

  lemma NoMoreTopUp(slots: seq<Slot>, stack: Slot, left: nat, i: nat)
    requires i <= END <= |slots| && (i == END || left == 0)
    ensures TopUp(slots, stack, left, i) == (slots, left)
  {
  }

  lemma NothingToAdd(slots: seq<Slot>, stack: Slot)
    requires END <= |slots| && stack.count == 0
    ensures TopUp(slots, stack, 0, FIRST) == (slots, 0) && Place(slots, stack, 0, FIRST) == (slots, 0)
  {
  }

  // ---------------------------------------------------------------- slot by slot

  /** Slot x after the first pass from slot i on: a stack of the kind is topped up with what those before it have no
      room for. */
  function OnTop(slots: seq<Slot>, stack: Slot, left: nat, i: nat, x: nat): Slot
    requires i <= x < END <= |slots|
  {
    var d := slots[x];
    var more := Least(RoomOnTop(d, stack), NotBelow0(left - (TopRoom(slots, stack, i) - TopRoom(slots, stack, x))));
    if more > 0 then d.(count := Least(64, d.count + more)) else d
  }

  lemma OnTopNothing(slots: seq<Slot>, stack: Slot, i: nat, x: nat)
    requires i <= x < END <= |slots|
    ensures OnTop(slots, stack, 0, i, x) == slots[x]
  {
    hide SlotsSame, RoomOnTop;
    RoomFalls(slots, stack, i, x);
  }

  /** With n items gone onto slot i, the rest goes on from slot i + 1. */
  lemma OnTopNext(slots: seq<Slot>, stack: Slot, left: nat, i: nat, x: nat)
    requires i <= x < END <= |slots| && left > 0
    ensures var n := Least(RoomOnTop(slots[i], stack), left);
      var next := if n > 0 then slots[i := slots[i].(count := Least(64, slots[i].count + n))] else slots;
      OnTop(slots, stack, left, i, x) == if i < x then OnTop(next, stack, left - n, i + 1, x) else next[i]
  {
    hide SlotsSame, RoomOnTop;
    var n := Least(RoomOnTop(slots[i], stack), left);
    var next := if n > 0 then slots[i := slots[i].(count := Least(64, slots[i].count + n))] else slots;
    if i < x {
      RoomIsLocal(slots, next, stack, i + 1);
      RoomIsLocal(slots, next, stack, x);
      RoomFalls(slots, stack, i + 1, x);
    }
  }

  lemma {:induction false} TopUpAt(slots: seq<Slot>, stack: Slot, left: nat, i: nat, x: nat)
    requires i <= x < END <= |slots|
    ensures TopUp(slots, stack, left, i).0[x] == OnTop(slots, stack, left, i, x)
    decreases END - i
  {
    hide SlotsSame, OnTop;
    if left == 0 {
      OnTopNothing(slots, stack, i, x);
    } else {
      var n := Least(RoomOnTop(slots[i], stack), left);
      var next := if n > 0 then slots[i := slots[i].(count := Least(64, slots[i].count + n))] else slots;
      OnTopNext(slots, stack, left, i, x);
      assert TopUp(slots, stack, left, i) == TopUp(next, stack, left - n, i + 1);
      if i < x {
        TopUpAt(next, stack, left - n, i + 1, x);
      } else {
        TopUpTouches(next, stack, left - n, i + 1, x);
      }
    }
  }

  lemma {:induction false} RoomFalls(slots: seq<Slot>, stack: Slot, i: nat, x: nat)
    requires i <= x <= END <= |slots|
    ensures TopRoom(slots, stack, i) >= TopRoom(slots, stack, x) && EmptyRoom(slots, i) >= EmptyRoom(slots, x)
    decreases x - i
  {
    hide RoomOnTop, RoomAsEmpty;
    if i < x {
      RoomFalls(slots, stack, i + 1, x);
    }
  }

  /** An empty slot takes what those before it do not. */
  lemma {:induction false} PlaceAt(slots: seq<Slot>, stack: Slot, left: nat, i: nat, x: nat)
    requires i <= x < END <= |slots| && CleanSlot(stack)
    ensures Place(slots, stack, left, i).0[x] ==
      var more := Least(RoomAsEmpty(slots[x]), NotBelow0(left - (EmptyRoom(slots, i) - EmptyRoom(slots, x))));
      if more > 0 then stack.(count := Least(64, more)) else slots[x]
    decreases END - i
  {
    RoomFalls(slots, stack, i, x);
    if left > 0 {
      if !SlotEmpty(slots[i]) {
        if i < x {
          PlaceAt(slots, stack, left, i + 1, x);
        } else {
          PlaceTouches(slots, stack, left, i + 1, x);
        }
      } else {
        var n := if MAX_STACK < left then MAX_STACK else left;
        var next := slots[i := stack.(count := n)];
        if i < x {
          PlaceAt(next, stack, left - n, i + 1, x);
          RoomIsLocal(slots, next, stack, i + 1);
          RoomIsLocal(slots, next, stack, x);
          RoomFalls(slots, stack, i + 1, x);
        } else {
          PlaceTouches(next, stack, left - n, i + 1, x);
        }
      }
    }
  }

  /** Slot x after adding a stack: stacks of the kind in slots 9..44 are topped up from the lowest on; what they have no
      room for goes to the empty slots among them, from the lowest on; no other slot changes. */
  lemma AddedAt(slots: seq<Slot>, stack: Slot, x: nat)
    requires 45 <= |slots| && x < |slots| && CleanSlot(stack) && stack.id != -1 && stack.count > 0
    ensures var r, s, n := Added(slots, stack).0[x], slots[x], stack.count;
      if x < 9 || x >= 45 then r == s
      else if s.id == -1 then
        var more := Least(64, NotBelow0(n - TopRoom(slots, stack, 9) - (EmptyRoom(slots, 9) - EmptyRoom(slots, x))));
        r == if more > 0 then stack.(count := more) else s
      else if SlotsSame(s, stack) && s.count < 64 then
        var more := Least(64 - s.count, NotBelow0(n - (TopRoom(slots, stack, 9) - TopRoom(slots, stack, x))));
        r == s.(count := s.count + more)
      else r == s
  {
    hide TopUp, Place, SlotsSame, CleanSlot, TopRoom, EmptyRoom;
    var t := TopUp(slots, stack, stack.count, FIRST);
    TopUpTouches(slots, stack, stack.count, FIRST, x);
    TopUpLeaves(slots, stack, stack.count, FIRST);
    PlaceTouches(t.0, stack, t.1, FIRST, x);
    if FIRST <= x < END {
      TopUpAt(slots, stack, stack.count, FIRST, x);
      if SlotEmpty(slots[x]) {
        PlaceAt(t.0, stack, t.1, FIRST, x);
        EmptinessGivesRoom(t.0, slots, FIRST);
        EmptinessGivesRoom(t.0, slots, x);
        RoomFalls(slots, stack, FIRST, x);
      }
    }
  }
}
