/** What the clicks do beyond conserving items: each mode moves as much as it should and where it should. */
module ClickEffects {
  import opened Bytes
  import opened Items
  import opened Clicks
  import opened ClickProofs
  import opened DragProofs
  import opened ClickTheorems

  // ---------------------------------------------------------------- mode 0

  /** A left click with an item puts down all that fits: afterwards the slot is full or the cursor empty,
      unless the slot held something else, and then the two change places. */
  lemma LeftPutsDownAllThatFits(s: Slot, cursor: Slot)
    requires SaneSlot(s) && SaneSlot(cursor) && !SlotEmpty(cursor)
    ensures var r := LeftClick(s, cursor);
      if SlotEmpty(s) || SlotsSame(s, cursor)
      then !SlotEmpty(r.0) && KindOf(r.0) == KindOf(cursor) && (r.0.count == MAX_STACK || SlotEmpty(r.1))
      else r.0 == cursor && r.1 == s
  {
    SameIsSameKind(s, cursor);
  }

  /** With an empty cursor a left click takes everything and a right click the larger half. */
  lemma EmptyHandTakes(s: Slot, cursor: Slot)
    requires SaneSlot(s) && SlotEmpty(cursor)
    ensures LeftClick(s, cursor).1 == s && SlotEmpty(LeftClick(s, cursor).0)
    ensures var r := RightClick(s, cursor); !SlotEmpty(s) ==>
      r.1 == s.(count := r.1.count) && 0 <= r.1.count - Amount(r.0, KindOf(s)) <= 1
        && r.1.count + Amount(r.0, KindOf(s)) == s.count
  {
    CountChangeKeepsKind(s);
  }

  /** A right click with an item puts down exactly one, wherever one fits. */
  lemma RightPutsDownOne(s: Slot, cursor: Slot)
    requires SaneSlot(s) && SaneSlot(cursor) && !SlotEmpty(cursor)
    ensures var r, k := RightClick(s, cursor), KindOf(cursor);
      if SlotEmpty(s) || (SlotsSame(s, cursor) && s.count < MAX_STACK)
      then Amount(r.0, k) == Amount(s, k) + 1 && Amount(r.1, k) == cursor.count - 1
      else if SlotsSame(s, cursor) then r == (s, cursor)
      else r == (cursor, s)
  {
    SameIsSameKind(s, cursor);
    CountChangeKeepsKind(s);
    CountChangeKeepsKind(cursor);
  }

  /** Left-clicking the same slot twice is left-clicking it not at all, unless stacks merged. */
  lemma LeftTwiceIsNothing(s: Slot, cursor: Slot)
    requires SlotEmpty(s) ==> s == NO_ITEM
    requires SlotEmpty(cursor) ==> cursor == NO_ITEM
    requires !SlotEmpty(s) && !SlotEmpty(cursor) ==> !SlotsSame(s, cursor) && !SlotsSame(cursor, s)
    ensures var r := LeftClick(s, cursor); LeftClick(r.0, r.1) == (s, cursor)
  {
  }

  // ---------------------------------------------------------------- mode 2

  /** A number key pressed twice over the same slot changes nothing; once, it exchanges the two stacks. */
  lemma SwapTwiceIsNothing(inv: Inv, c: Click)
    requires inv.Shaped() && Located(c)
    ensures SwapClick(inv, c).inv.Shaped() && SwapClick(SwapClick(inv, c).inv, c).inv == inv
    ensures SwapClick(inv, c).accepted ==>
      SwapClick(inv, c).inv.slots[c.slot] == inv.slots[36 + c.button]
        && SwapClick(inv, c).inv.slots[36 + c.button] == inv.slots[c.slot]
  {
    if SwapClick(inv, c).accepted {
      var r := SwapClick(inv, c).inv;
      assert r.slots[c.slot := r.slots[36 + c.button]][36 + c.button := r.slots[c.slot]] == inv.slots;
    }
  }

  // ---------------------------------------------------------------- mode 4

  /** One item, or with another button the whole stack, goes into the world, and the rest stays. */
  lemma DropThrowsOneOrAll(inv: Inv, c: Click, entities: nat)
    requires SaneInv(inv) && Located(c) && !SlotEmpty(DropSource(inv, c)) && entities < MAX_ENTITIES
    ensures var r, s := DropClick(inv, c, entities), DropSource(inv, c);
      && r.spawned.Some? && KindOf(r.spawned.value) == KindOf(s)
      && r.spawned.value.count == (if c.button == 0 then 1 else s.count)
      && r.inv.Shaped() && Amount(DropSource(r.inv, c), KindOf(s)) == s.count - r.spawned.value.count
  {
    hide KindOf, CleanSlot;
    var s := DropSource(inv, c);
    assert SaneSlot(s);
    CountChangeKeepsKind(s);
  }

  // ---------------------------------------------------------------- mode 5

  /** A right drag gives one item to each slot it gets to, and touches no other. */
  lemma {:induction false} SowAt(slots: seq<Slot>, cursor: Slot, drag: seq<nat>, i: nat, x: nat)
    requires i <= |drag| && Ready(slots, cursor, drag, i) && x < |slots|
    ensures var r := Sow(slots, cursor, drag, i);
      && r.2 == Served(slots, drag, i)
      && r.0[x] == if Among(x, drag[..r.2], i) then OneMore(slots[x], cursor) else slots[x]
    decreases |drag| - i
  {
    hide KindOf, SlotsSame, CleanSlot, Ready, Takes, OneMore, Among;
    DragBounds(slots, cursor, drag, i);
    var r := Sow(slots, cursor, drag, i);
    if i == |drag| || Had(slots[drag[i]], cursor).count >= MAX_STACK {
      NoneAmong(x, drag[..i], i);
    } else {
      var c' := cursor.(count := U8(cursor.count - 1));
      var now := OneMore(slots[drag[i]], cursor);
      OneMoreIs(slots[drag[i]], cursor);
      ReadyNext(slots, cursor, drag, i, now);
      SowReady(slots, slots[drag[i] := now], cursor, c', drag, i);
      SowAt(slots[drag[i] := now], c', drag, i + 1, x);
      NextServed(slots, cursor, drag, i, now);
      CountDoesNotMatter(slots[x], cursor, c'.count);
      AmongNext(x, drag, i, r.2);
      if drag[i] == x {
        NotTwice(slots, cursor, drag, i, r.2);
      }
    }
  }

  function OneMore(d: Slot, cursor: Slot): Slot {
    var had := Had(d, cursor);
    if had.count < MAX_STACK then had.(count := had.count + 1) else had
  }

  lemma OneMoreIs(d: Slot, cursor: Slot)
    ensures Had(d, cursor).count < MAX_STACK ==>
      OneMore(d, cursor) == Had(d, cursor).(count := Had(d, cursor).count + 1)
  {
  }

  lemma CountDoesNotMatter(d: Slot, cursor: Slot, n: byte)
    ensures OneMore(d, cursor.(count := n)) == OneMore(d, cursor)
  {
  }

  lemma NoneAmong(x: nat, drag: seq<nat>, i: nat)
    requires i == |drag|
    ensures !Among(x, drag, i)
  {
  }

  lemma AmongNext(x: nat, drag: seq<nat>, i: nat, n: nat)
    requires i < n <= |drag|
    ensures Among(x, drag[..n], i) <==> drag[i] == x || Among(x, drag[..n], i + 1)
  {
  }

  lemma NotTwice(slots: seq<Slot>, cursor: Slot, drag: seq<nat>, i: nat, n: nat)
    requires i < n <= |drag| && Ready(slots, cursor, drag, i)
    ensures !Among(drag[i], drag[..n], i + 1)
  {
    AmongMeans(drag[i], drag[..n], i + 1);
  }

  /** A left drag gives every one of its n slots the same share, a whole n-th of the cursor's items; the
      cursor keeps the remainder. */
  lemma LeftDragSharesEvenly(inv: Inv, x: nat)
    requires SaneInv(inv) && !SlotEmpty(inv.cursor) && DragFits(inv) && inv.dragButton == 0 && |inv.dragSlots| > 0
    requires x < INV_SIZE
    ensures var r, per := DragEnd(inv).inv, inv.cursor.count / |inv.dragSlots|;
      && r.Shaped()
      && r.slots[x] ==
           (if per > 0 && Among(x, inv.dragSlots, 0) then WithShare(inv.slots[x], inv.cursor, per) else inv.slots[x])
      && r.cursor == (if per > 0 then Left(inv.cursor, inv.cursor.count % |inv.dragSlots|) else inv.cursor)
  {
    hide KindOf, SlotsSame, CleanSlot, Spread, Ready, Among, Had, DragEnd, WithShare, DragFits, Left;
    var n := |inv.dragSlots|;
    var per := inv.cursor.count / n;
    LeftDragEnd(inv);
    DragReady(inv);
    if per > 0 {
      Division(inv.cursor.count, n);
      SpreadAt(inv.slots, inv.cursor, inv.dragSlots, 0, per, x);
      ShareIs(inv.slots[x], inv.cursor, per);
    }
  }

  lemma LeftDragEnd(inv: Inv)
    requires inv.Shaped() && DragFits(inv) && inv.dragButton == 0 && |inv.dragSlots| > 0
    ensures var r, n := DragEnd(inv).inv, |inv.dragSlots|;
      var per := inv.cursor.count / n;
      r == NoDrag(if per == 0 then inv else
        inv.(slots := Spread(inv.slots, inv.cursor, inv.dragSlots, 0, per),
             cursor := Left(inv.cursor, U8(inv.cursor.count - per * n))))
  {
    hide Spread, DragFits, Left;
  }

  /** A slot's stack with `per` items more. */
  function WithShare(d: Slot, cursor: Slot, per: nat): Slot {
    Had(d, cursor).(count := U8(Had(d, cursor).count + per))
  }

  lemma ShareIs(d: Slot, cursor: Slot, per: nat)
    ensures Had(d, cursor).count + per < 256 ==>
      WithShare(d, cursor, per) == Had(d, cursor).(count := Had(d, cursor).count + per)
  {
  }

  lemma Division(a: nat, n: nat)
    requires n > 0
    ensures a - a / n * n == a % n < n && a / n <= a
  {
    Euclid(a, n, a / n, a % n);
  }

  lemma Euclid(a: nat, n: nat, q: nat, r: nat)
    requires n > 0 && a == n * q + r
    ensures a - q * n == r && q <= a
  {
    AtLeast(n, q);
  }

  lemma {:induction false} AtLeast(n: nat, q: nat)
    requires n > 0
    ensures n * q >= q
  {
    if n > 1 {
      AtLeast(n - 1, q);
      assert n * q == (n - 1) * q + q;
    }
  }

  // ---------------------------------------------------------------- mode 6

  /** How many items like the cursor's there are from slot i on. */
  function Matching(slots: seq<Slot>, cursor: Slot, i: nat): nat
    requires i <= |slots|
    decreases |slots| - i
  {
    if i == |slots| then 0
    else
      (if !SlotEmpty(slots[i]) && SlotsSame(slots[i], cursor) then slots[i].count else 0)
      + Matching(slots, cursor, i + 1)
  }

  lemma {:induction false} MatchingDependsOnKind(a: seq<Slot>, b: seq<Slot>, x: Slot, y: Slot, i: nat)
    requires |a| == |b| && i <= |a| && SaneSlots(a) && forall j | i <= j < |a| :: a[j] == b[j]
    requires CleanSlot(x) && CleanSlot(y) && KindOf(x) == KindOf(y)
    ensures Matching(a, x, i) == Matching(b, y, i)
    decreases |a| - i
  {
    hide SlotsSame, KindOf, CleanSlot;
    if i < |a| {
      assert SaneSlot(a[i]);
      SameIsSameKind(a[i], x);
      SameIsSameKind(a[i], y);
      MatchingDependsOnKind(a, b, x, y, i + 1);
    }
  }

  /** A double click gathers all there is of the cursor's kind in slots 1..44, up to a full stack. */
  lemma {:induction false} CollectGathersAll(slots: seq<Slot>, cursor: Slot, i: nat)
    requires i <= |slots| && SaneSlots(slots) && SaneSlot(cursor) && !SlotEmpty(cursor)
    ensures var r := Collect(slots, cursor, i);
      && r.1 == cursor.(count := Least(MAX_STACK, cursor.count + Matching(slots, cursor, i)))
      && forall j | 0 <= j < i :: r.0[j] == slots[j]
    decreases |slots| - i
  {
    hide SlotsSame, KindOf, CleanSlot, Amount;
    if i < |slots| && cursor.count < MAX_STACK {
      var d := slots[i];
      assert SaneSlot(d);
      if SlotEmpty(d) || !SlotsSame(d, cursor) {
        CollectGathersAll(slots, cursor, i + 1);
      } else {
        var n := Least(MAX_STACK - cursor.count, d.count);
        var c' := cursor.(count := cursor.count + n);
        CollectOne(d, cursor, n, KindOf(d));
        CountChangeKeepsKind(cursor);
        CollectGathersAll(slots[i := Left(d, d.count - n)], c', i + 1);
        MatchingDependsOnKind(slots, slots[i := Left(d, d.count - n)], cursor, c', i + 1);
      }
    }
  }
}
