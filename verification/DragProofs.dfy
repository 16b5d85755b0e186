/** Drags, and the click machine as a whole. */
module DragProofs {
  import opened Bytes
  import opened Items
  import opened Clicks
  import opened ClickProofs

  // ---------------------------------------------------------------- dealing out

  /** What a drag slot holds before it gets its share. */
  function Had(d: Slot, cursor: Slot): Slot {
    if SlotEmpty(d) then cursor.(count := 0) else d
  }

  predicate Takes(d: Slot, cursor: Slot) {
    SaneSlot(d) && (SlotEmpty(d) || SlotsSame(d, cursor))
  }

  /** Distinct slots, and from the i-th on all able to take the cursor's item. */
  predicate Ready(slots: seq<Slot>, cursor: Slot, drag: seq<nat>, i: nat) {
    && (forall j | 0 <= j < |drag| :: drag[j] < |slots|)
    && (forall j, l | 0 <= j < l < |drag| :: drag[j] != drag[l])
    && (forall j | i <= j < |drag| :: Takes(slots[drag[j]], cursor))
    && CleanSlot(cursor) && !SlotEmpty(cursor)
  }

  lemma OneShare(d: Slot, cursor: Slot, n: nat, k: Kind)
    requires Takes(d, cursor) && CleanSlot(cursor) && !SlotEmpty(cursor) && n <= MAX_STACK
    ensures var had := Had(d, cursor);
      && had.count + n < 256
      && Amount(had.(count := had.count + n), k) == Amount(d, k) + Share(cursor, n, k)
      && CleanSlot(had) && !SlotEmpty(had)
  {
    SameIsSameKind(d, cursor);
  }

  /** Slot x is one of the drag slots from the i-th on. */
  predicate Among(x: nat, drag: seq<nat>, i: nat)
    requires i <= |drag|
    decreases |drag| - i
  {
    i < |drag| && (drag[i] == x || Among(x, drag, i + 1))
  }

  lemma {:induction false} AmongMeans(x: nat, drag: seq<nat>, i: nat)
    requires i <= |drag|
    ensures Among(x, drag, i) <==> exists j :: i <= j < |drag| && drag[j] == x
    decreases |drag| - i
  {
    if i < |drag| {
      AmongMeans(x, drag, i + 1);
    }
  }

  lemma ReadyNext(slots: seq<Slot>, cursor: Slot, drag: seq<nat>, i: nat, s: Slot)
    requires i < |drag| && Ready(slots, cursor, drag, i)
    ensures Ready(slots[drag[i] := s], cursor, drag, i + 1) && Takes(slots[drag[i]], cursor)
  {
    hide Takes, CleanSlot;
  }

  /** Each drag slot ends with its share on top of what it had; the others are untouched. */
  lemma {:induction false} SpreadAt(slots: seq<Slot>, cursor: Slot, drag: seq<nat>, i: nat, per: nat, x: nat)
    requires i <= |drag| && Ready(slots, cursor, drag, i) && per <= MAX_STACK && x < |slots|
    ensures var r := Spread(slots, cursor, drag, i, per);
      var had := Had(slots[x], cursor);
      if Among(x, drag, i) then had.count + per < 256 && r[x] == had.(count := had.count + per) else r[x] == slots[x]
    decreases |drag| - i
  {
    hide KindOf, SlotsSame, CleanSlot, Ready, Takes, Amount, Share;
    if i < |drag| {
      assert drag[i] < |slots| by { ReadyNext(slots, cursor, drag, i, slots[0]); DragBounds(slots, cursor, drag, i); }
      DragBounds(slots, cursor, drag, i);
      var d := slots[drag[i]];
      var had := Had(d, cursor);
      var now := had.(count := U8(had.count + per));
      ReadyNext(slots, cursor, drag, i, now);
      ReadyCursor(slots, cursor, drag, i);
      OneShare(d, cursor, per, KindOf(cursor));
      SpreadAt(slots[drag[i] := now], cursor, drag, i + 1, per, x);
      if drag[i] == x {
        NotAgain(slots, cursor, drag, i);
      }
    }
  }

  lemma DragBounds(slots: seq<Slot>, cursor: Slot, drag: seq<nat>, i: nat)
    requires i <= |drag| && Ready(slots, cursor, drag, i)
    ensures forall j | 0 <= j < |drag| :: drag[j] < |slots|
  {
  }

  lemma ReadyCursor(slots: seq<Slot>, cursor: Slot, drag: seq<nat>, i: nat)
    requires i <= |drag| && Ready(slots, cursor, drag, i)
    ensures CleanSlot(cursor) && !SlotEmpty(cursor)
  {
  }

  lemma NotAgain(slots: seq<Slot>, cursor: Slot, drag: seq<nat>, i: nat)
    requires i < |drag| && Ready(slots, cursor, drag, i)
    ensures !Among(drag[i], drag, i + 1)
  {
    AmongMeans(drag[i], drag, i + 1);
  }

  lemma {:induction false} SpreadTotal(slots: seq<Slot>, cursor: Slot, drag: seq<nat>, i: nat, per: nat, k: Kind)
    requires i <= |drag| && Ready(slots, cursor, drag, i) && per <= MAX_STACK
    ensures Total(Spread(slots, cursor, drag, i, per), k) == Total(slots, k) + Share(cursor, per * (|drag| - i), k)
    decreases |drag| - i
  {
    hide Total, Amount, KindOf, SlotsSame, CleanSlot, Ready, Takes;
    DragBounds(slots, cursor, drag, i);
    if i < |drag| {
      var d := slots[drag[i]];
      var had := Had(d, cursor);
      var now := had.(count := U8(had.count + per));
      ReadyNext(slots, cursor, drag, i, now);
      ReadyCursor(slots, cursor, drag, i);
      OneShare(d, cursor, per, k);
      TotalOfUpdate(slots, drag[i], now, k);
      SpreadTotal(slots[drag[i] := now], cursor, drag, i + 1, per, k);
      assert per * (|drag| - i) == per + per * (|drag| - (i + 1));
    } else {
      assert per * 0 == 0;
    }
  }

  /** How far a right drag gets: to the first drag slot that is already full. */
  function Served(slots: seq<Slot>, drag: seq<nat>, i: nat): (r: nat)
    requires i <= |drag| && forall j | 0 <= j < |drag| :: drag[j] < |slots|
    ensures i <= r <= |drag|
    decreases |drag| - i
  {
    if i == |drag| || (!SlotEmpty(slots[drag[i]]) && slots[drag[i]].count >= MAX_STACK) then i
    else Served(slots, drag, i + 1)
  }

  lemma {:induction false} ServedIgnoresEarlier(a: seq<Slot>, b: seq<Slot>, drag: seq<nat>, i: nat)
    requires i <= |drag| && |a| == |b| && forall j | 0 <= j < |drag| :: drag[j] < |a|
    requires forall j | i <= j < |drag| :: a[drag[j]] == b[drag[j]]
    ensures Served(a, drag, i) == Served(b, drag, i)
    decreases |drag| - i
  {
    if i < |drag| {
      ServedIgnoresEarlier(a, b, drag, i + 1);
    }
  }

  lemma {:induction false} SowConserves(slots: seq<Slot>, cursor: Slot, drag: seq<nat>, i: nat, k: Kind)
    requires i <= |drag| && Ready(slots, cursor, drag, i) && SaneSlots(slots)
    ensures var r := Sow(slots, cursor, drag, i);
      && r.2 == Served(slots, drag, i)
      && Total(r.0, k) == Total(slots, k) + Share(cursor, r.2 - i, k)
      && r.1 == U8(cursor.count - (r.2 - i))
      && SaneSlots(r.0)
    decreases |drag| - i
  {
    hide Total, Amount, SlotsSame, CleanSlot, KindOf, Ready, Takes;
    DragBounds(slots, cursor, drag, i);
    if i < |drag| {
      var d := slots[drag[i]];
      var had := Had(d, cursor);
      if had.count < MAX_STACK {
        var c' := cursor.(count := U8(cursor.count - 1));
        var now := had.(count := had.count + 1);
        ReadyNext(slots, cursor, drag, i, now);
        ReadyCursor(slots, cursor, drag, i);
        OneShare(d, cursor, 1, k);
        CountChangeKeepsKind(cursor);
        CountChangeKeepsKind(had);
        SowReady(slots, slots[drag[i] := now], cursor, c', drag, i);
        TotalOfUpdate(slots, drag[i], now, k);
        SowConserves(slots[drag[i] := now], c', drag, i + 1, k);
        NextServed(slots, cursor, drag, i, now);
        BackWrap(cursor.count, Sow(slots, cursor, drag, i).2 - i);
      }
    }
  }

  lemma BackWrap(c: byte, n: int)
    ensures U8(U8(c - 1) - (n - 1)) == U8(c - n)
  {
  }

  lemma NextServed(slots: seq<Slot>, cursor: Slot, drag: seq<nat>, i: nat, s: Slot)
    requires i < |drag| && Ready(slots, cursor, drag, i)
    ensures Served(slots[drag[i] := s], drag, i + 1) == Served(slots, drag, i + 1)
  {
    ServedIgnoresEarlier(slots[drag[i] := s], slots, drag, i + 1);
  }

  lemma SowReady(slots: seq<Slot>, next: seq<Slot>, cursor: Slot, c': Slot, drag: seq<nat>, i: nat)
    requires i < |drag| && Ready(slots, cursor, drag, i) && |next| == |slots|
    requires forall x | 0 <= x < |slots| && x != drag[i] :: next[x] == slots[x]
    requires c' == cursor.(count := c'.count)
    ensures Ready(next, c', drag, i + 1)
  {
    hide CleanSlot, KindOf, SlotsSame;
    CountChangeKeepsKind(cursor);
    assert c' == cursor.(count := c'.count);
    forall j | i + 1 <= j < |drag| ensures Takes(next[drag[j]], c') {
      assert Takes(slots[drag[j]], cursor);
      SameIsSameKind(slots[drag[j]], cursor);
      SameIsSameKind(slots[drag[j]], c');
    }
  }

  // ---------------------------------------------------------------- mode 5

  /** No drag slot would end above a full stack. */
  predicate SpreadStaysSane(inv: Inv)
    requires inv.Shaped()
  {
    |inv.dragSlots| > 0 ==>
      var per := inv.cursor.count / |inv.dragSlots|;
      per > 0 ==> forall j | 0 <= j < |inv.dragSlots| ::
        Had(inv.slots[inv.dragSlots[j]], inv.cursor).count + per <= MAX_STACK
  }

  /** There is an item on the cursor for every slot a right drag gets to. */
  predicate SowHasEnough(inv: Inv)
    requires inv.Shaped()
  {
    Served(inv.slots, inv.dragSlots, 0) <= inv.cursor.count
  }

  lemma DragReady(inv: Inv)
    requires SaneInv(inv) && !SlotEmpty(inv.cursor) && DragFits(inv)
    ensures Ready(inv.slots, inv.cursor, inv.dragSlots, 0)
  {
    forall j | 0 <= j < |inv.dragSlots| ensures Takes(inv.slots[inv.dragSlots[j]], inv.cursor) {
    }
  }

  lemma ShareOfCursor(c: Slot, n: nat, k: Kind)
    requires !SlotEmpty(c) && n <= c.count
    ensures Amount(Left(c, c.count - n), k) + Share(c, n, k) == Amount(c, k)
    ensures SaneSlot(c) ==> SaneSlot(Left(c, c.count - n))
  {
  }

  lemma SpreadEnd(inv: Inv, k: Kind)
    requires SaneInv(inv) && !SlotEmpty(inv.cursor) && DragFits(inv) && inv.dragButton == 0
    ensures var r := DragEnd(inv);
      r.inv.Shaped() && Balanced(inv, r, k) && (SaneInv(r.inv) <==> SpreadStaysSane(inv))
  {
    hide Total, Amount, KindOf, SlotsSame, CleanSlot, Spread, Share;
    var drag := inv.dragSlots;
    if |drag| > 0 {
      var per := inv.cursor.count / |drag|;
      if per > 0 {
        assert per * |drag| <= inv.cursor.count;
        assert per <= MAX_STACK;
        DragReady(inv);
        SpreadTotal(inv.slots, inv.cursor, drag, 0, per, k);
        ShareOfCursor(inv.cursor, per * |drag|, k);
        SpreadSane(inv, per);
      }
    }
  }

  lemma SpreadSane(inv: Inv, per: nat)
    requires SaneInv(inv) && !SlotEmpty(inv.cursor) && DragFits(inv) && 0 < per <= MAX_STACK
    ensures var r := Spread(inv.slots, inv.cursor, inv.dragSlots, 0, per);
      SaneSlots(r) <==>
        forall j | 0 <= j < |inv.dragSlots| :: Had(inv.slots[inv.dragSlots[j]], inv.cursor).count + per <= MAX_STACK
  {
    hide KindOf, SlotsSame, CleanSlot, Spread, Share, Total, Ready, Among;
    var drag := inv.dragSlots;
    var r := Spread(inv.slots, inv.cursor, drag, 0, per);
    DragReady(inv);
    forall x | 0 <= x < |r|
      ensures SaneSlot(r[x]) <==> (Among(x, drag, 0) ==> Had(inv.slots[x], inv.cursor).count + per <= MAX_STACK)
    {
      SpreadAt(inv.slots, inv.cursor, drag, 0, per, x);
      CountChangeKeepsKind(Had(inv.slots[x], inv.cursor));
      CountChangeKeepsKind(inv.cursor);
    }
    forall x | 0 <= x < |r| ensures Among(x, drag, 0) <==> exists j :: 0 <= j < |drag| && drag[j] == x {
      AmongMeans(x, drag, 0);
    }
    forall j | 0 <= j < |drag| ensures Among(drag[j], drag, 0) {
    }
  }

  lemma SowEnd(inv: Inv, k: Kind)
    requires SaneInv(inv) && !SlotEmpty(inv.cursor) && DragFits(inv) && inv.dragButton != 0
    ensures var r := DragEnd(inv);
      && r.inv.Shaped()
      && (SowHasEnough(inv) ==> Balanced(inv, r, k) && SaneInv(r.inv))
      && (!SowHasEnough(inv) ==> !SaneInv(r.inv) && (k == KindOf(inv.cursor) ==> !Balanced(inv, r, k)))
  {
    hide Total, KindOf, SlotsSame, CleanSlot, Sow, Served;
    var drag := inv.dragSlots;
    DragReady(inv);
    SowConserves(inv.slots, inv.cursor, drag, 0, k);
    var s := Sow(inv.slots, inv.cursor, drag, 0);
    if |drag| == 0 {
      ServedNone(inv.slots);
      assert drag == [];
    } else {
      AtMostAll(drag, INV_SIZE);
      if SowHasEnough(inv) {
        ShareOfCursor(inv.cursor, s.2, k);
      } else {
        CountChangeKeepsKind(inv.cursor);
      }
    }
  }

  lemma ServedNone(slots: seq<Slot>)
    ensures Served(slots, [], 0) == 0
  {
  }

  function Below(n: nat): (r: set<nat>)
    ensures |r| == n && forall x: nat :: x in r <==> x < n
  {
    if n == 0 then {} else Below(n - 1) + {n - 1}
  }

  /** Distinct numbers below n: at most n of them. */
  lemma AtMostAll(drag: seq<nat>, n: nat)
    requires forall j | 0 <= j < |drag| :: drag[j] < n
    requires forall j, l | 0 <= j < l < |drag| :: drag[j] != drag[l]
    ensures |drag| <= n
  {
    DistinctCount(drag);
    assert SetOf(drag) <= Below(n);
    assert |Below(n) - SetOf(drag)| == |Below(n)| - |SetOf(drag)|;
  }

  lemma {:induction false} DistinctCount(drag: seq<nat>)
    requires forall j, l | 0 <= j < l < |drag| :: drag[j] != drag[l]
    ensures |SetOf(drag)| == |drag|
  {
    if |drag| > 0 {
      DistinctCount(drag[1..]);
      assert SetOf(drag) == SetOf(drag[1..]) + {drag[0]};
    }
  }
}
