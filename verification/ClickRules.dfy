/** What each click does to each slot, by its buttons, modes and slot numbers: ProcessClick as a whole. */
module ClickRules {
  import opened Bytes
  import opened Items
  import opened Clicks
  import opened ClickProofs
  import opened DragProofs
  import opened ClickTheorems
  import opened ClickEffects

  /** A drag in progress is over. */
  function Rest(inv: Inv): Inv {
    if inv.dragActive then inv.(dragActive := false, dragSlots := []) else inv
  }

  /** The slots sent again because a drag was given up. */
  function GivenUp(inv: Inv): set<nat> {
    if inv.dragActive then set x | x in inv.dragSlots else {}
  }

  /** The click was refused: nothing has changed but a drag that it ended. */
  predicate Nothing(inv: Inv, r: Result) {
    !r.accepted && r.inv == Rest(inv) && r.spawned == None
  }

  /** Of the slots, only x may have changed. */
  predicate OnlySlot(inv: Inv, r: Result, x: nat)
    requires x < |inv.slots|
  {
    |r.inv.slots| == |inv.slots|
    && r.inv == Rest(inv).(slots := inv.slots[x := r.inv.slots[x]], cursor := r.inv.cursor)
  }

  /** s with n items more, as far as they fit. */
  function Topped(s: Slot, n: nat): Slot {
    s.(count := Least(64, s.count + n))
  }

  /** What is left of s when there is room for so many of its items: a stack of none if for all. */
  function LeftOver(s: Slot, room: nat): Slot {
    s.(count := if s.count > room then s.count - room else 0)
  }

  /** s with n items fewer, and nothing when that is all. */
  function Without(s: Slot, n: nat): Slot {
    if s.count <= n then NO_ITEM else s.(count := s.count - n)
  }

  predicate Alike(a: Slot, b: Slot) {
    a.id != -1 && b.id != -1 && KindOf(a) == KindOf(b)
  }

  /** Another window, an unknown mode, or a slot that is not there. */
  lemma NotOurs(inv: Inv, c: Click, entities: nat)
    requires inv.Shaped()
    ensures c.window != 0 || c.mode > 6 || (c.slot != -999 && (c.slot < 0 || c.slot > 44)) ==>
      ProcessClick(inv, c, entities) == Result(inv, false, None, {}, false)
  {
  }

  // ---------------------------------------------------------------- mode 0

  /** Button 0 on a slot: an empty hand takes all; an item goes down as far as it fits on its like, all of it into
      an empty slot; unlike stacks change places. */
  lemma LeftButton(inv: Inv, slot: nat, entities: nat)
    requires SaneInv(inv) && 1 <= slot <= 44
    ensures var r := ProcessClick(inv, Click(0, slot, 0, 0), entities);
      var s, h := inv.slots[slot], inv.cursor;
      && r.accepted && r.spawned == None && OnlySlot(inv, r, slot)
      && r.dirty == GivenUp(inv) + {slot} && r.cursorDirty
      && r.inv.slots[slot] == (if h.id == -1 then NO_ITEM
                               else if !Alike(s, h) then h
                               else Topped(s, h.count))
      && r.inv.cursor == (if h.id == -1 then s
                          else if s.id == -1 then NO_ITEM
                          else if !Alike(s, h) then s
                          else Without(h, NotBelow0(64 - s.count)))
  {
    hide KindOf, SlotsSame, CleanSlot;
    assert SaneSlot(inv.slots[slot]);
    SameIsSameKind(inv.slots[slot], inv.cursor);
  }

  /** Button 1 on a slot: an empty hand takes the larger half; one item goes down where one fits; unlike stacks
      change places. */
  lemma RightButton(inv: Inv, slot: nat, entities: nat)
    requires SaneInv(inv) && 1 <= slot <= 44
    ensures var r := ProcessClick(inv, Click(0, slot, 1, 0), entities);
      var s, h := inv.slots[slot], inv.cursor;
      && r.accepted && r.spawned == None && OnlySlot(inv, r, slot)
      && r.dirty == GivenUp(inv) + {slot} && r.cursorDirty
      && r.inv.slots[slot] == (if h.id == -1 then Without(s, (s.count + 1) / 2)
                               else if s.id == -1 then h.(count := 1)
                               else if !Alike(s, h) then h
                               else Topped(s, 1))
      && r.inv.cursor == (if h.id == -1 then s.(count := (s.count + 1) / 2)
                          else if s.id != -1 && !Alike(s, h) then s
                          else if s.id != -1 && s.count == 64 then h
                          else Without(h, 1))
  {
    hide KindOf, SlotsSame, CleanSlot;
    assert SaneSlot(inv.slots[slot]);
    SameIsSameKind(inv.slots[slot], inv.cursor);
  }

  /** Outside the window, on the crafting result, and with other buttons a plain click is refused, and only then. */
  lemma PlainAccepted(inv: Inv, slot: int, button: byte, entities: nat)
    requires inv.Shaped() && (slot == -999 || 0 <= slot <= 44)
    ensures var r := ProcessClick(inv, Click(0, slot, button, 0), entities);
      && (r.accepted <==> 1 <= slot <= 44 && button <= 1)
      && (!r.accepted ==> Nothing(inv, r))
  {
    hide LeftClick, RightClick;
  }

  // ---------------------------------------------------------------- mode 1

  /** What merging does to slot x: it is topped up with what the like stacks before it have no room for. */
  lemma {:induction false} MergeAt(slots: seq<Slot>, moving: Slot, i: nat, hi: nat, x: nat)
    requires i <= hi <= |slots| && SaneSlots(slots) && CleanSlot(moving) && !SlotEmpty(moving)
    requires moving.count <= MAX_STACK && x < |slots|
    ensures var r := MergeFrom(slots, moving, i, hi).0;
      var s := slots[x];
      if i <= x < hi && !SlotEmpty(s) && SlotsSame(s, moving)
      then r[x] == Topped(s, NotBelow0(moving.count - Room(slots, moving, i, x)))
      else r[x] == s
    decreases hi - i
  {
    hide SlotsSame, KindOf, CleanSlot, Amount;
    if i < hi {
      var d := slots[i];
      assert SaneSlot(d);
      if SlotEmpty(d) || !SlotsSame(d, moving) {
        MergeAt(slots, moving, i + 1, hi, x);
      } else {
        var n := Least(MAX_STACK - d.count, moving.count);
        var d', m' := d.(count := d.count + n), moving.(count := moving.count - n);
        MergeOne(d, moving, n, KindOf(d));
        MergeAt(slots[i := d'], m', i + 1, hi, x);
        SameIsSameKind(slots[x], moving);
        SameIsSameKind(slots[x], m');
        if i < x < hi {
          RoomDependsOnKind(slots, slots[i := d'], moving, m', i + 1, x);
        }
      }
    }
  }

  /** Where a shift-click on a slot puts things: the hotbar for 1..35, the main inventory for 36..44. */
  function From(slot: nat): (lo: nat)
    ensures lo == 36 || lo == 9
  {
    if slot <= 35 then 36 else 9
  }

  function To(slot: nat): (hi: nat)
    ensures From(slot) <= hi <= 45 && !(From(slot) <= slot < hi)
  {
    if slot <= 35 then 45 else 36
  }

  /** Slot x after a shift-click of stack s, but for s's own slot and the one that takes what is left. */
  function Merged(slots: seq<Slot>, s: Slot, lo: nat, hi: nat, x: nat): Slot
    requires lo <= hi <= |slots| && x < |slots|
  {
    if lo <= x < hi && Alike(slots[x], s) then Topped(slots[x], NotBelow0(s.count - Room(slots, s, lo, x)))
    else slots[x]
  }

  lemma MergedIs(slots: seq<Slot>, s: Slot, lo: nat, hi: nat, x: nat)
    requires SaneSlots(slots) && SaneSlot(s) && s.id != -1 && lo <= hi <= |slots| && x < |slots|
    ensures MergeFrom(slots, s, lo, hi).0[x] == Merged(slots, s, lo, hi, x)
  {
    hide KindOf, SlotsSame, CleanSlot, MergeFrom, Room;
    assert SaneSlot(slots[x]);
    SameIsSameKind(slots[x], s);
    MergeAt(slots, s, lo, hi, x);
  }

  /** A shift-click: stacks of the same kind in the target range are topped up from the lowest on; what is left
      goes to the range's first empty slot, and back where it was when there is none. */
  lemma ShiftMoves(inv: Inv, slot: nat, button: byte, entities: nat) returns (e: nat)
    requires SaneInv(inv) && 1 <= slot <= 44 && inv.slots[slot].id != -1
    ensures From(slot) <= e <= To(slot) && (forall j | From(slot) <= j < e :: inv.slots[j].id != -1)
    ensures e < To(slot) ==> inv.slots[e].id == -1
    ensures var r, s := ProcessClick(inv, Click(0, slot, button, 1), entities), inv.slots[slot];
      var left := LeftOver(s, NotBelow0(Room(inv.slots, s, From(slot), To(slot))));
      && r.accepted && r.spawned == None && |r.inv.slots| == 45
      && r.inv == Rest(inv).(slots := r.inv.slots) && r.cursorDirty == inv.dragActive
      && r.inv.slots[slot] == (if e < To(slot) then NO_ITEM else left)
      && (e < To(slot) ==> r.inv.slots[e] == left)
      && forall x: nat | x < 45 && x != slot && x != e ::
           r.inv.slots[x] == Merged(inv.slots, s, From(slot), To(slot), x)
  {
    hide KindOf, SlotsSame, CleanSlot, MergeFrom, Room, Merged, Alike, ProcessClick;
    var src, lo, hi := inv.slots[slot], From(slot), To(slot);
    assert SaneSlot(src);
    var m := MergeFrom(inv.slots, src, lo, hi);
    e := FirstEmpty(m.0, lo, hi);
    MergeLeaves(inv.slots, src, lo, hi);
    MergeConserves(inv.slots, src, lo, hi, KindOf(src));
    forall x: nat | x < 45 ensures m.0[x] == Merged(inv.slots, src, lo, hi, x) {
      MergedIs(inv.slots, src, lo, hi, x);
    }
    ShiftIs(inv, slot, button, entities);
  }

  lemma ShiftIs(inv: Inv, slot: nat, button: byte, entities: nat)
    requires inv.Shaped() && 1 <= slot <= 44 && inv.slots[slot].id != -1
    ensures var r, lo, hi := ProcessClick(inv, Click(0, slot, button, 1), entities), From(slot), To(slot);
      var m := MergeFrom(inv.slots, inv.slots[slot], lo, hi);
      var e := FirstEmpty(m.0, lo, hi);
      && r.accepted && r.spawned == None && r.cursorDirty == inv.dragActive
      && r.inv == Rest(inv).(slots := if e < hi then m.0[e := m.1][slot := NO_ITEM] else m.0[slot := m.1])
  {
    hide SlotsSame, MergeFrom, FirstEmpty;
  }

  /** Of an empty slot there is nothing to move; outside and on the crafting result a shift-click is refused. */
  lemma ShiftAccepted(inv: Inv, slot: int, button: byte, entities: nat)
    requires inv.Shaped() && (slot == -999 || 0 <= slot <= 44)
    ensures var r := ProcessClick(inv, Click(0, slot, button, 1), entities);
      && (r.accepted <==> 1 <= slot <= 44)
      && (!r.accepted ==> Nothing(inv, r))
      && (r.accepted && inv.slots[slot].id == -1 ==> r.inv == Rest(inv))
  {
    hide MergeFrom, FirstEmpty;
  }

  // ---------------------------------------------------------------- modes 2 and 3

  /** Number key `button` over a slot exchanges it with slot 36 + button: for slots 1..44 and keys 0..8, and nothing
      happens otherwise. */
  lemma NumberKey(inv: Inv, slot: int, button: byte, entities: nat)
    requires inv.Shaped() && (slot == -999 || 0 <= slot <= 44)
    ensures var r := ProcessClick(inv, Click(0, slot, button, 2), entities);
      && (r.accepted <==> 1 <= slot <= 44 && button <= 8)
      && (!r.accepted ==> Nothing(inv, r))
      && (r.accepted ==>
            && |r.inv.slots| == 45 && r.inv == Rest(inv).(slots := r.inv.slots)
            && r.spawned == None && r.dirty == GivenUp(inv) + {slot, 36 + button}
            && r.inv.slots[slot] == inv.slots[36 + button] && r.inv.slots[36 + button] == inv.slots[slot]
            && forall x | 0 <= x < 45 && x != slot && x != 36 + button :: r.inv.slots[x] == inv.slots[x])
  {
  }

  /** The middle button never does anything. */
  lemma MiddleButton(inv: Inv, slot: int, button: byte, entities: nat)
    requires inv.Shaped() && (slot == -999 || 0 <= slot <= 44)
    ensures Nothing(inv, ProcessClick(inv, Click(0, slot, button, 3), entities))
  {
  }

  // ---------------------------------------------------------------- mode 4

  /** A drop from a slot, or from the cursor at -999: one item with button 0, else the stack; it appears in the world
      unless 512 entities are there, and is gone from the inventory in any case. */
  lemma Dropped(inv: Inv, slot: int, button: byte, entities: nat)
    requires SaneInv(inv) && (slot == -999 || 0 <= slot <= 44)
    ensures var r := ProcessClick(inv, Click(0, slot, button, 4), entities);
      var s := if slot == -999 then inv.cursor else inv.slots[slot];
      var n := if button == 0 then 1 else s.count;
      var stay := Without(s, n);
      && r.accepted
      && r.spawned == (if s.id != -1 && entities < 512 then Some(s.(count := n)) else None)
      && r.inv == (if s.id == -1 then Rest(inv)
                   else if slot == -999 then Rest(inv).(cursor := stay)
                   else Rest(inv).(slots := inv.slots[slot := stay]))
  {
    assert SaneSlot(if slot == -999 then inv.cursor else inv.slots[slot]);
  }

  // ---------------------------------------------------------------- mode 6

  lemma {:induction false} MatchingFalls(slots: seq<Slot>, cursor: Slot, i: nat, x: nat)
    requires i <= x <= |slots|
    ensures Matching(slots, cursor, i) >= Matching(slots, cursor, x)
    decreases x - i
  {
    if i < x {
      MatchingFalls(slots, cursor, i + 1, x);
    }
  }

  /** Slot x after gathering from slot i on: it gives what the like stacks before it have left the cursor room
      for. */
  function Gathered(slots: seq<Slot>, h: Slot, i: nat, x: nat): Slot
    requires i <= x < |slots|
  {
    var wanted := NotBelow0(64 - h.count - (Matching(slots, h, i) - Matching(slots, h, x)));
    if Alike(slots[x], h) && wanted > 0 then Without(slots[x], wanted) else slots[x]
  }

  lemma GatheredFull(slots: seq<Slot>, h: Slot, i: nat, x: nat)
    requires i <= x < |slots| && h.count >= 64
    ensures Gathered(slots, h, i, x) == slots[x]
  {
    MatchingFalls(slots, h, i, x);
  }

  lemma {:induction false} CollectAt(slots: seq<Slot>, cursor: Slot, i: nat, x: nat)
    requires i <= x < |slots| && SaneSlots(slots) && SaneSlot(cursor) && !SlotEmpty(cursor)
    ensures Collect(slots, cursor, i).0[x] == Gathered(slots, cursor, i, x)
    decreases |slots| - i
  {
    hide SlotsSame, KindOf, CleanSlot, Gathered, Alike, Without;
    var d := slots[i];
    assert SaneSlot(d);
    if cursor.count >= MAX_STACK {
      GatheredFull(slots, cursor, i, x);
    } else if SlotEmpty(d) || !SlotsSame(d, cursor) {
      GatheredPast(slots, cursor, i, x);
      if i < x {
        CollectAt(slots, cursor, i + 1, x);
      } else {
        CollectGathersAll(slots, cursor, i + 1);
      }
    } else {
      var n := Least(MAX_STACK - cursor.count, d.count);
      var c', next := cursor.(count := cursor.count + n), slots[i := Left(d, d.count - n)];
      CollectOne(d, cursor, n, KindOf(d));
      GatheredNext(slots, cursor, i, x);
      if i < x {
        CollectAt(next, c', i + 1, x);
      } else {
        CollectGathersAll(next, c', i + 1);
      }
    }
  }

  /** Slot i gives nothing. */
  lemma GatheredPast(slots: seq<Slot>, h: Slot, i: nat, x: nat)
    requires i <= x < |slots| && SaneSlots(slots) && SaneSlot(h)
    requires SlotEmpty(slots[i]) || !SlotsSame(slots[i], h)
    ensures if i < x then Gathered(slots, h, i, x) == Gathered(slots, h, i + 1, x)
            else Gathered(slots, h, i, x) == slots[i]
  {
    hide SlotsSame, KindOf, CleanSlot;
    assert SaneSlot(slots[i]);
    SameIsSameKind(slots[i], h);
  }

  /** Slot i gives what it has or what the cursor has room for. */
  lemma GatheredNext(slots: seq<Slot>, h: Slot, i: nat, x: nat)
    requires i <= x < |slots| && SaneSlots(slots) && SaneSlot(h) && h.id != -1 && h.count < 64
    requires slots[i].id != -1 && SlotsSame(slots[i], h)
    ensures var n := Least(64 - h.count, slots[i].count);
      var c', next := h.(count := h.count + n), slots[i := Left(slots[i], slots[i].count - n)];
      if i < x then Gathered(slots, h, i, x) == Gathered(next, c', i + 1, x) else Gathered(slots, h, i, x) == next[i]
  {
    hide SlotsSame, KindOf, CleanSlot;
    assert SaneSlot(slots[i]);
    SameIsSameKind(slots[i], h);
    CountChangeKeepsKind(h);
    if i < x {
      var n := Least(64 - h.count, slots[i].count);
      var c', next := h.(count := h.count + n), slots[i := Left(slots[i], slots[i].count - n)];
      MatchingDependsOnKind(slots, next, h, c', i + 1);
      MatchingDependsOnKind(slots, next, h, c', x);
      MatchingFalls(slots, h, i + 1, x);
    }
  }

  /** A double click fills the cursor from the like stacks in slots 1..44, lowest first, and with nothing on the
      cursor does nothing. */
  lemma DoubleClicked(inv: Inv, slot: int, button: byte, entities: nat)
    requires SaneInv(inv) && (slot == -999 || 0 <= slot <= 44)
    ensures var r, h := ProcessClick(inv, Click(0, slot, button, 6), entities), inv.cursor;
      && r.accepted && r.spawned == None
      && (h.id == -1 ==> r.inv == Rest(inv))
      && (h.id != -1 ==>
            && |r.inv.slots| == 45 && r.inv == Rest(inv).(slots := r.inv.slots, cursor := r.inv.cursor)
            && r.inv.cursor == Topped(h, Matching(inv.slots, h, 1))
            && r.inv.slots[0] == inv.slots[0]
            && forall x: nat | 1 <= x <= 44 :: r.inv.slots[x] == Gathered(inv.slots, h, 1, x))
  {
    hide SlotsSame, KindOf, CleanSlot, Collect, Matching, Gathered;
    var h := inv.cursor;
    if h.id != -1 {
      CollectGathersAll(inv.slots, h, 1);
      forall x: nat | 1 <= x <= 44 ensures Collect(inv.slots, h, 1).0[x] == Gathered(inv.slots, h, 1, x) {
        CollectAt(inv.slots, h, 1, x);
      }
    }
  }
}
