/** Clicks neither make nor destroy items: exactly when, for every click in every mode, and over runs. */
module ClickProofs {
  import opened Bytes
  import opened Items
  import opened Clicks

  predicate SaneInv(inv: Inv) {
    inv.Shaped() && SaneSlots(inv.slots) && SaneSlot(inv.cursor)
  }

  function Held(inv: Inv, k: Kind): nat {
    Total(inv.slots, k) + Amount(inv.cursor, k)
  }

  function Thrown(s: Option<Slot>, k: Kind): nat {
    match s case None => 0 case Some(x) => Amount(x, k)
  }

  /** The click left as many of kind k as there were: in the slots, on the cursor and thrown out. */
  predicate Balanced(inv: Inv, r: Result, k: Kind) {
    Held(r.inv, k) + Thrown(r.spawned, k) == Held(inv, k)
  }

  ghost predicate Conserves(inv: Inv, r: Result) {
    forall k :: Balanced(inv, r, k)
  }

  // ---------------------------------------------------------------- mode 0

  lemma LeftConserved(s: Slot, cursor: Slot, k: Kind)
    requires SaneSlot(s) && SaneSlot(cursor)
    ensures var r := LeftClick(s, cursor);
      Amount(r.0, k) + Amount(r.1, k) == Amount(s, k) + Amount(cursor, k) && SaneSlot(r.0) && SaneSlot(r.1)
  {
    hide SlotsSame, KindOf, CleanSlot;
    EmptyIsSane();
    if !SlotEmpty(cursor) && !SlotEmpty(s) && SlotsSame(s, cursor) {
      var n := Least(MAX_STACK - s.count, cursor.count);
      CountChangeKeepsKind(s);
      CountChangeKeepsKind(cursor);
      SameIsSameKind(s, cursor);
    }
  }

  lemma RightConserved(s: Slot, cursor: Slot, k: Kind)
    requires SaneSlot(s) && SaneSlot(cursor)
    ensures var r := RightClick(s, cursor);
      Amount(r.0, k) + Amount(r.1, k) == Amount(s, k) + Amount(cursor, k) && SaneSlot(r.0) && SaneSlot(r.1)
  {
    hide SlotsSame, KindOf, CleanSlot;
    EmptyIsSane();
    CountChangeKeepsKind(s);
    CountChangeKeepsKind(cursor);
    if !SlotEmpty(cursor) && !SlotEmpty(s) && SlotsSame(s, cursor) {
      SameIsSameKind(s, cursor);
    }
  }

  lemma EmptyIsSane()
    ensures SaneSlot(NO_ITEM) && CleanSlot(NO_ITEM)
  {
  }

  /** A stack's count is not part of its kind. */
  lemma CountChangeKeepsKind(s: Slot)
    ensures forall n: byte :: KindOf(s.(count := n)) == KindOf(s)
    ensures forall n: byte :: CleanSlot(s.(count := n)) == CleanSlot(s)
  {
  }

  lemma PlainConserves(inv: Inv, c: Click, k: Kind)
    requires SaneInv(inv) && (c.slot == OUTSIDE || 0 <= c.slot < INV_SIZE)
    ensures var r := PlainClick(inv, c); SaneInv(r.inv) && Balanced(inv, r, k)
  {
    hide LeftClick, RightClick, Amount, Total, SaneSlot;
    if c.slot > 0 && c.button <= 1 {
      var s := inv.slots[c.slot];
      LeftConserved(s, inv.cursor, k);
      RightConserved(s, inv.cursor, k);
      var r := if c.button == 0 then LeftClick(s, inv.cursor) else RightClick(s, inv.cursor);
      TotalOfUpdate(inv.slots, c.slot, r.0, k);
    }
  }

  // ---------------------------------------------------------------- mode 1

  /** Free room in the stacks of kind like `item` among slots i..hi. */
  function Room(slots: seq<Slot>, item: Slot, i: nat, hi: nat): int
    requires i <= hi <= |slots|
    decreases hi - i
  {
    if i == hi then 0
    else
      (if !SlotEmpty(slots[i]) && SlotsSame(slots[i], item) then MAX_STACK - slots[i].count else 0)
      + Room(slots, item, i + 1, hi)
  }

  lemma {:induction false} RoomDependsOnKind(a: seq<Slot>, b: seq<Slot>, x: Slot, y: Slot, i: nat, hi: nat)
    requires |a| == |b| && i <= hi <= |a| && SaneSlots(a) && (forall j | i <= j < hi :: a[j] == b[j])
    requires CleanSlot(x) && CleanSlot(y) && KindOf(x) == KindOf(y)
    ensures Room(a, x, i, hi) == Room(b, y, i, hi) >= 0
    decreases hi - i
  {
    hide SlotsSame, KindOf, CleanSlot;
    if i < hi {
      assert SaneSlot(a[i]);
      SameIsSameKind(a[i], x);
      SameIsSameKind(a[i], y);
      RoomDependsOnKind(a, b, x, y, i + 1, hi);
    }
  }

  /** Merging moves items and neither makes nor destroys any, nor empties or fills a slot that was not. */
  lemma {:induction false} MergeConserves(slots: seq<Slot>, moving: Slot, i: nat, hi: nat, k: Kind)
    requires i <= hi <= |slots| && SaneSlots(slots) && CleanSlot(moving) && !SlotEmpty(moving)
    requires moving.count <= MAX_STACK
    ensures var r := MergeFrom(slots, moving, i, hi);
      && Total(r.0, k) + Amount(r.1, k) == Total(slots, k) + Amount(moving, k)
      && SaneSlots(r.0)
      && (forall j | 0 <= j < |slots| :: !(i <= j < hi) ==> r.0[j] == slots[j])
      && (forall j | 0 <= j < |slots| :: SlotEmpty(r.0[j]) <==> SlotEmpty(slots[j]))
    decreases hi - i
  {
    hide SlotsSame, KindOf, CleanSlot, Amount, Total;
    if i < hi {
      var d := slots[i];
      assert SaneSlot(d);
      if SlotEmpty(d) || !SlotsSame(d, moving) {
        MergeConserves(slots, moving, i + 1, hi, k);
      } else {
        var n := Least(MAX_STACK - d.count, moving.count);
        var d', m' := d.(count := d.count + n), moving.(count := moving.count - n);
        MergeOne(d, moving, n, k);
        TotalOfUpdate(slots, i, d', k);
        MergeConserves(slots[i := d'], m', i + 1, hi, k);
      }
    }
  }

  /** What is left to move is what there is no room for. */
  lemma {:induction false} MergeLeaves(slots: seq<Slot>, moving: Slot, i: nat, hi: nat)
    requires i <= hi <= |slots| && SaneSlots(slots) && CleanSlot(moving) && !SlotEmpty(moving)
    requires moving.count <= MAX_STACK
    ensures var m, room := MergeFrom(slots, moving, i, hi).1, Room(slots, moving, i, hi);
      m == moving.(count := m.count) && room >= 0 && m.count == if moving.count > room then moving.count - room else 0
    decreases hi - i
  {
    hide SlotsSame, KindOf, CleanSlot, Amount;
    if i < hi {
      var d := slots[i];
      assert SaneSlot(d);
      if SlotEmpty(d) || !SlotsSame(d, moving) {
        MergeLeaves(slots, moving, i + 1, hi);
      } else {
        var n := Least(MAX_STACK - d.count, moving.count);
        var d', m' := d.(count := d.count + n), moving.(count := moving.count - n);
        MergeOne(d, moving, n, KindOf(d));
        MergeLeaves(slots[i := d'], m', i + 1, hi);
        RoomDependsOnKind(slots, slots[i := d'], moving, m', i + 1, hi);
      }
    }
  }

  lemma MergeOne(d: Slot, moving: Slot, n: nat, k: Kind)
    requires SaneSlot(d) && CleanSlot(moving) && !SlotEmpty(d) && !SlotEmpty(moving) && SlotsSame(d, moving)
    requires d.count + n <= MAX_STACK && n <= moving.count
    ensures var d', m' := d.(count := d.count + n), moving.(count := moving.count - n);
      && SaneSlot(d') && CleanSlot(m') && KindOf(m') == KindOf(moving)
      && Amount(d', k) + Amount(m', k) == Amount(d, k) + Amount(moving, k)
  {
    SameIsSameKind(d, moving);
  }

  /** A shift-click leaves no stack of zero items behind: there is less room than there are items. */
  predicate ShiftStaysSane(inv: Inv, c: Click)
    requires inv.Shaped()
  {
    0 < c.slot < INV_SIZE && !SlotEmpty(inv.slots[c.slot]) ==>
      Room(inv.slots, inv.slots[c.slot], TargetLow(c.slot), TargetHigh(c.slot)) < inv.slots[c.slot].count
  }

  lemma ShiftConserves(inv: Inv, c: Click, k: Kind)
    requires SaneInv(inv) && (c.slot == OUTSIDE || 0 <= c.slot < INV_SIZE)
    ensures var r := ShiftClick(inv, c);
      r.inv.Shaped() && Balanced(inv, r, k) && (SaneInv(r.inv) <==> ShiftStaysSane(inv, c))
  {
    hide SlotsSame, KindOf, CleanSlot, Amount, Total, MergeFrom, FirstEmpty, Room;
    if c.slot > 0 && !SlotEmpty(inv.slots[c.slot]) {
      var src, lo, hi := inv.slots[c.slot], TargetLow(c.slot), TargetHigh(c.slot);
      assert SaneSlot(src);
      MergeConserves(inv.slots, src, lo, hi, k);
      MergeLeaves(inv.slots, src, lo, hi);
      var m := MergeFrom(inv.slots, src, lo, hi);
      var e := FirstEmpty(m.0, lo, hi);
      EmptyHoldsNone(k);
      CountChangeKeepsKind(src);
      if e < hi {
        TotalOfUpdate(m.0, e, m.1, k);
        TotalOfUpdate(m.0[e := m.1], c.slot, NO_ITEM, k);
        EmptyAmount(m.0[e], k);
        assert ShiftClick(inv, c).inv.slots[e] == m.1;
      } else {
        TotalOfUpdate(m.0, c.slot, m.1, k);
        assert ShiftClick(inv, c).inv.slots[c.slot] == m.1;
      }
    }
  }

  lemma EmptyHoldsNone(k: Kind)
    ensures Amount(NO_ITEM, k) == 0 && SaneSlot(NO_ITEM)
  {
  }

  lemma EmptyAmount(s: Slot, k: Kind)
    requires SlotEmpty(s)
    ensures Amount(s, k) == 0
  {
  }

  // ---------------------------------------------------------------- mode 2

  lemma SwapConserves(inv: Inv, c: Click, k: Kind)
    requires SaneInv(inv) && (c.slot == OUTSIDE || 0 <= c.slot < INV_SIZE)
    ensures var r := SwapClick(inv, c); SaneInv(r.inv) && Balanced(inv, r, k)
  {
    hide Amount, Total, SaneSlot;
    if c.slot > 0 && c.button <= 8 {
      var h := 36 + c.button;
      var a, b := inv.slots[c.slot], inv.slots[h];
      TotalOfUpdate(inv.slots, c.slot, b, k);
      TotalOfUpdate(inv.slots[c.slot := b], h, a, k);
    }
  }

  // ---------------------------------------------------------------- mode 4

  function DropSource(inv: Inv, c: Click): Slot
    requires inv.Shaped() && (c.slot == OUTSIDE || 0 <= c.slot < INV_SIZE)
  {
    if c.slot == OUTSIDE then inv.cursor else inv.slots[c.slot]
  }

  /** Nothing to throw, or room in the world for it. */
  predicate DropIsKept(inv: Inv, c: Click, entities: nat)
    requires inv.Shaped() && (c.slot == OUTSIDE || 0 <= c.slot < INV_SIZE)
  {
    SlotEmpty(DropSource(inv, c)) || entities < MAX_ENTITIES
  }

  lemma ThrowSplits(s: Slot, button: byte, k: Kind)
    requires SaneSlot(s) && !SlotEmpty(s)
    ensures var t := Throw(s, button);
      && Amount(t.0, k) + Amount(t.1, k) == Amount(s, k) && SaneSlot(t.1)
      && !SlotEmpty(t.0) && t.0.count > 0 && KindOf(t.0) == KindOf(s)
  {
  }

  lemma DropConserves(inv: Inv, c: Click, entities: nat, k: Kind)
    requires SaneInv(inv) && (c.slot == OUTSIDE || 0 <= c.slot < INV_SIZE)
    ensures var r := DropClick(inv, c, entities);
      && SaneInv(r.inv)
      && (DropIsKept(inv, c, entities) ==> Balanced(inv, r, k))
      && (!DropIsKept(inv, c, entities) && k == KindOf(DropSource(inv, c)) ==> !Balanced(inv, r, k))
  {
    hide KindOf, CleanSlot, Total, Throw;
    var s := DropSource(inv, c);
    if !SlotEmpty(s) {
      assert SaneSlot(s);
      ThrowSplits(s, c.button, k);
      if c.slot != OUTSIDE {
        TotalOfUpdate(inv.slots, c.slot, Throw(s, c.button).1, k);
      }
    }
  }

  // ---------------------------------------------------------------- mode 6

  lemma {:induction false} CollectConserves(slots: seq<Slot>, cursor: Slot, i: nat, k: Kind)
    requires i <= |slots| && SaneSlots(slots) && SaneSlot(cursor) && !SlotEmpty(cursor)
    ensures var r := Collect(slots, cursor, i);
      && Total(r.0, k) + Amount(r.1, k) == Total(slots, k) + Amount(cursor, k)
      && SaneSlots(r.0) && SaneSlot(r.1)
      && (forall j | 0 <= j < |slots| :: j !in r.2 ==> r.0[j] == slots[j])
    decreases |slots| - i
  {
    hide SlotsSame, KindOf, CleanSlot, Amount, Total;
    if i < |slots| && cursor.count < MAX_STACK {
      var d := slots[i];
      assert SaneSlot(d);
      if SlotEmpty(d) || !SlotsSame(d, cursor) {
        CollectConserves(slots, cursor, i + 1, k);
      } else {
        var n := Least(MAX_STACK - cursor.count, d.count);
        CollectOne(d, cursor, n, k);
        TotalOfUpdate(slots, i, Left(d, d.count - n), k);
        CollectConserves(slots[i := Left(d, d.count - n)], cursor.(count := cursor.count + n), i + 1, k);
      }
    }
  }

  lemma CollectOne(d: Slot, cursor: Slot, n: nat, k: Kind)
    requires SaneSlot(d) && SaneSlot(cursor) && !SlotEmpty(d) && !SlotEmpty(cursor) && SlotsSame(d, cursor)
    requires cursor.count + n <= MAX_STACK && n <= d.count
    ensures var d', c' := Left(d, d.count - n), cursor.(count := cursor.count + n);
      && SaneSlot(d') && SaneSlot(c')
      && Amount(d', k) + Amount(c', k) == Amount(d, k) + Amount(cursor, k)
  {
    SameIsSameKind(d, cursor);
  }
}
