/** What holds of every click in every mode, and over runs of clicks. */
module ClickTheorems {
  import opened Bytes
  import opened Items
  import opened Clicks
  import opened ClickProofs
  import opened DragProofs

  predicate Located(c: Click) {
    c.slot == OUTSIDE || 0 <= c.slot < INV_SIZE
  }

  // ---------------------------------------------------------------- mode 5

  lemma DragAddKeepsShape(inv: Inv, slot: int)
    requires inv.Shaped() && (slot == OUTSIDE || 0 <= slot < INV_SIZE)
    ensures DragAddAt(inv, slot).Shaped()
  {
  }

  /** The click that ends a drag: the inventory with the last slot added, if it is one that deals items out. */
  function Dealt(inv: Inv, c: Click): Option<Inv>
    requires inv.Shaped() && Located(c)
  {
    if (!LeftDrag(c.button) && !RightDrag(c.button)) || SlotEmpty(inv.cursor) then None
    else if c.button != 8 && c.button != 9 then None
    else if !inv.dragActive then None
    else if (LeftDrag(c.button) && inv.dragButton != 0) || (RightDrag(c.button) && inv.dragButton != 1) then None
    else if DragFits(DragAddAt(inv, c.slot)) then Some(DragAddAt(inv, c.slot))
    else None
  }

  /** A right drag with more slots to serve than items to serve them with. */
  predicate Overdrawn(inv: Inv, c: Click)
    requires inv.Shaped() && Located(c)
  {
    DragAddKeepsShape(inv, c.slot);
    match Dealt(inv, c) case None => false case Some(d) => c.button == 9 && !SowHasEnough(d)
  }

  /** A left drag onto a slot with too little room left. */
  predicate Overfilled(inv: Inv, c: Click)
    requires inv.Shaped() && Located(c)
  {
    DragAddKeepsShape(inv, c.slot);
    match Dealt(inv, c) case None => false case Some(d) => c.button == 8 && !SpreadStaysSane(d)
  }

  lemma DragConserves(inv: Inv, c: Click, k: Kind)
    requires SaneInv(inv) && Located(c)
    ensures var r := DragClick(inv, c);
      && r.inv.Shaped()
      && (!Overdrawn(inv, c) ==> Balanced(inv, r, k))
      && (Overdrawn(inv, c) && k == KindOf(inv.cursor) ==> !Balanced(inv, r, k))
      && (SaneInv(r.inv) <==> !Overdrawn(inv, c) && !Overfilled(inv, c))
  {
    hide Total, Amount, SaneSlots, SaneSlot, SlotsSame, KindOf, Spread, Sow, Served, DragEnd, SowHasEnough,
         SpreadStaysSane;
    DragAddKeepsShape(inv, c.slot);
    var d := DragAddAt(inv, c.slot);
    if Dealt(inv, c).Some? {
      if inv.dragButton == 0 {
        SpreadEnd(d, k);
      } else {
        SowEnd(d, k);
      }
    } else if c.button > 1 && !DragFits(d) {
      RejectedEnd(d);
    }
  }

  lemma RejectedEnd(inv: Inv)
    requires inv.Shaped() && !DragFits(inv)
    ensures DragEnd(inv).inv == NoDrag(inv) && DragEnd(inv).spawned == None
  {
  }

  // ---------------------------------------------------------------- one click

  /** What the click works on: a drag it does not continue is over. */
  function Before(inv: Inv, c: Click): Inv {
    if inv.dragActive && !Continues(inv, c) then NoDrag(inv) else inv
  }

  /** Nothing is thrown into a full world, and no right drag deals out more than the cursor holds. */
  predicate NothingIsLost(inv: Inv, c: Click, entities: nat)
    requires inv.Shaped()
  {
    !Refused(c) ==>
      var b := Before(inv, c);
      (c.mode == 4 ==> DropIsKept(b, c, entities)) && (c.mode == 5 ==> !Overdrawn(b, c))
  }

  /** No shift-click fills its target exactly, and no drag overfills a slot or overdraws the cursor. */
  predicate StaysSane(inv: Inv, c: Click)
    requires inv.Shaped()
  {
    !Refused(c) ==>
      var b := Before(inv, c);
      (c.mode == 1 ==> ShiftStaysSane(b, c)) && (c.mode == 5 ==> !Overdrawn(b, c) && !Overfilled(b, c))
  }

  lemma BeforeIsTheSame(inv: Inv, c: Click, k: Kind)
    requires SaneInv(inv)
    ensures SaneInv(Before(inv, c)) && Held(Before(inv, c), k) == Held(inv, k)
  {
  }

  function Lost(inv: Inv, c: Click): Slot
    requires inv.Shaped() && Located(c)
  {
    if c.mode == 4 then DropSource(inv, c) else inv.cursor
  }

  lemma ClickOf(inv: Inv, c: Click, entities: nat, k: Kind)
    requires SaneInv(inv) && !Refused(c)
    ensures var r := ByMode(inv, c, entities);
      var kept := (c.mode == 4 ==> DropIsKept(inv, c, entities)) && (c.mode == 5 ==> !Overdrawn(inv, c));
      && r.inv.Shaped()
      && (kept ==> Balanced(inv, r, k))
      && (!kept && k == KindOf(Lost(inv, c)) ==> !Balanced(inv, r, k))
      && (SaneInv(r.inv) <==>
           (c.mode == 1 ==> ShiftStaysSane(inv, c)) && (c.mode == 5 ==> !Overdrawn(inv, c) && !Overfilled(inv, c)))
  {
    hide Total, Amount, SaneSlots, SaneSlot, KindOf, PlainClick, ShiftClick, SwapClick, DropClick, DragClick, Collect,
         DropIsKept, Overdrawn, Overfilled, ShiftStaysSane;
    match c.mode
    case 0 => PlainConserves(inv, c, k);
    case 1 => ShiftConserves(inv, c, k);
    case 2 => SwapConserves(inv, c, k);
    case 3 =>
    case 4 => DropConserves(inv, c, entities, k);
    case 5 => DragConserves(inv, c, k);
    case _ =>
      if !SlotEmpty(inv.cursor) {
        CollectConserves(inv.slots, inv.cursor, 1, k);
      }
  }

  /** Every click in every mode: items are conserved, kind by kind, exactly when nothing is thrown into a
      full world and no right drag overdraws; the inventory stays sane exactly when StaysSane. */
  lemma ClickConserves(inv: Inv, c: Click, entities: nat)
    requires SaneInv(inv)
    ensures var r := ProcessClick(inv, c, entities);
      && r.inv.Shaped()
      && (Conserves(inv, r) <==> NothingIsLost(inv, c, entities))
      && (SaneInv(r.inv) <==> StaysSane(inv, c))
  {
    hide Total, Amount, SaneSlots, SaneSlot, KindOf, ByMode, DropIsKept, Overdrawn, Overfilled, ShiftStaysSane, Held;
    var r := ProcessClick(inv, c, entities);
    var b := Before(inv, c);
    if !Refused(c) {
      forall k: Kind
        ensures NothingIsLost(inv, c, entities) ==> Balanced(inv, r, k)
        ensures !NothingIsLost(inv, c, entities) && k == KindOf(Lost(b, c)) ==> !Balanced(inv, r, k)
      {
        BeforeIsTheSame(inv, c, k);
        ClickOf(b, c, entities, k);
      }
      BeforeIsTheSame(inv, c, KindOf(inv.cursor));
      ClickOf(b, c, entities, KindOf(inv.cursor));
      if !NothingIsLost(inv, c, entities) {
        assert !Balanced(inv, r, KindOf(Lost(b, c)));
      }
    }
  }

  // ---------------------------------------------------------------- runs

  /** One message from the client, and how many entities the world holds when it arrives. */
  datatype Event = Event(click: Click, entities: nat)

  /** The inventory after a run of clicks, and all that was thrown. */
  function Play(inv: Inv, es: seq<Event>): (r: (Inv, seq<Slot>))
    requires inv.Shaped()
    decreases |es|
  {
    if |es| == 0 then (inv, [])
    else
      var r := ProcessClick(inv, es[0].click, es[0].entities);
      StepShaped(inv, es[0].click, es[0].entities);
      var rest := Play(r.inv, es[1..]);
      (rest.0, (if r.spawned.Some? then [r.spawned.value] else []) + rest.1)
  }

  lemma StepShaped(inv: Inv, c: Click, entities: nat)
    requires inv.Shaped()
    ensures ProcessClick(inv, c, entities).inv.Shaped()
  {
    hide Spread, Sow, MergeFrom, Collect, FirstEmpty, SlotsSame, LeftClick, RightClick, Throw, DragFits;
  }

  /** No click of the run loses items or leaves a stack out of bounds. */
  predicate GoodRun(inv: Inv, es: seq<Event>)
    requires inv.Shaped()
    decreases |es|
  {
    if |es| == 0 then true
    else
      StepShaped(inv, es[0].click, es[0].entities);
      NothingIsLost(inv, es[0].click, es[0].entities) && StaysSane(inv, es[0].click)
      && GoodRun(ProcessClick(inv, es[0].click, es[0].entities).inv, es[1..])
  }

  /** Over a whole run the items in the slots, on the cursor and thrown out add up to what there was. */
  lemma {:induction false} RunConserves(inv: Inv, es: seq<Event>, k: Kind)
    requires SaneInv(inv) && GoodRun(inv, es)
    ensures var r := Play(inv, es); SaneInv(r.0) && Held(r.0, k) + Total(r.1, k) == Held(inv, k)
    decreases |es|
  {
    hide ProcessClick, NothingIsLost, StaysSane, Amount, SaneSlot, SaneSlots, KindOf;
    if |es| > 0 {
      var r := ProcessClick(inv, es[0].click, es[0].entities);
      ClickConserves(inv, es[0].click, es[0].entities);
      assert Balanced(inv, r, k);
      RunConserves(r.inv, es[1..], k);
      var rest := Play(r.inv, es[1..]).1;
      if r.spawned.Some? {
        assert ([r.spawned.value] + rest)[1..] == rest;
      } else {
        assert [] + rest == rest;
      }
    }
  }

  /** Clicks in modes 0, 2, 3, 4 and 6 only, never into a full world, make a good run whatever they are. */
  lemma {:induction false} QuietRunIsGood(inv: Inv, es: seq<Event>)
    requires SaneInv(inv)
    requires forall i | 0 <= i < |es| :: es[i].click.mode != 1 && es[i].click.mode != 5 && es[i].entities < MAX_ENTITIES
    ensures GoodRun(inv, es)
    decreases |es|
  {
    hide ProcessClick, SaneSlot, SaneSlots;
    if |es| > 0 {
      QuietStep(inv, es[0].click, es[0].entities);
      QuietRunIsGood(ProcessClick(inv, es[0].click, es[0].entities).inv, es[1..]);
    }
  }

  lemma QuietStep(inv: Inv, c: Click, entities: nat)
    requires SaneInv(inv) && c.mode != 1 && c.mode != 5 && entities < MAX_ENTITIES
    ensures NothingIsLost(inv, c, entities) && StaysSane(inv, c) && SaneInv(ProcessClick(inv, c, entities).inv)
  {
    hide ProcessClick, SaneSlots, SaneSlot;
    ClickConserves(inv, c, entities);
  }

  // ---------------------------------------------------------------- the client is told

  lemma {:induction false} MergeTouches(slots: seq<Slot>, moving: Slot, i: nat, hi: nat, x: nat)
    requires i <= hi <= |slots| && x < |slots|
    ensures x !in MergeFrom(slots, moving, i, hi).2 ==> MergeFrom(slots, moving, i, hi).0[x] == slots[x]
    decreases hi - i
  {
    hide SlotsSame;
    if i < hi {
      if SlotEmpty(slots[i]) || !SlotsSame(slots[i], moving) {
        MergeTouches(slots, moving, i + 1, hi, x);
      } else {
        var d := slots[i];
        var k := Least(MAX_STACK - d.count, moving.count);
        MergeTouches(slots[i := d.(count := U8(d.count + k))], moving.(count := U8(moving.count - k)), i + 1, hi, x);
      }
    }
  }

  lemma {:induction false} CollectTouches(slots: seq<Slot>, cursor: Slot, i: nat, x: nat)
    requires i <= |slots| && x < |slots|
    ensures x !in Collect(slots, cursor, i).2 ==> Collect(slots, cursor, i).0[x] == slots[x]
    decreases |slots| - i
  {
    hide SlotsSame;
    if i < |slots| && cursor.count < MAX_STACK {
      if SlotEmpty(slots[i]) || !SlotsSame(slots[i], cursor) {
        CollectTouches(slots, cursor, i + 1, x);
      } else {
        var k := Least(MAX_STACK - cursor.count, slots[i].count);
        var next := slots[i := Left(slots[i], U8(slots[i].count - k))];
        CollectTouches(next, cursor.(count := U8(cursor.count + k)), i + 1, x);
      }
    }
  }

  lemma {:induction false} SpreadTouches(slots: seq<Slot>, cursor: Slot, drag: seq<nat>, i: nat, per: nat, x: nat)
    requires i <= |drag| && x < |slots| && forall j | 0 <= j < |drag| :: drag[j] < |slots|
    ensures x !in SetOf(drag) ==> Spread(slots, cursor, drag, i, per)[x] == slots[x]
    decreases |drag| - i
  {
    if i < |drag| {
      var d := slots[drag[i]];
      var had := Had(d, cursor);
      SpreadTouches(slots[drag[i] := had.(count := U8(had.count + per))], cursor, drag, i + 1, per, x);
    }
  }

  /** A right drag touches only the slots it got to. */
  lemma {:induction false} SowTouches(slots: seq<Slot>, cursor: Slot, drag: seq<nat>, i: nat, x: nat)
    requires i <= |drag| && x < |slots| && forall j | 0 <= j < |drag| :: drag[j] < |slots|
    ensures var r := Sow(slots, cursor, drag, i);
      x !in SetOf(drag[..r.2]) ==> r.0[x] == slots[x]
    decreases |drag| - i
  {
    if i < |drag| {
      var d := slots[drag[i]];
      var had := Had(d, cursor);
      if had.count < MAX_STACK {
        var next := slots[drag[i] := had.(count := had.count + 1)];
        SowTouches(next, cursor.(count := U8(cursor.count - 1)), drag, i + 1, x);
        var n := Sow(slots, cursor, drag, i).2;
        assert drag[..n][i] == drag[i];
      }
    }
  }

  lemma DragEndTouches(inv: Inv, x: nat)
    requires inv.Shaped() && x < INV_SIZE
    ensures var r := DragEnd(inv);
      && (x !in r.dirty ==> r.inv.slots[x] == inv.slots[x])
      && (!r.cursorDirty ==> r.inv.cursor == inv.cursor)
  {
    hide Spread, Sow, DragFits;
    var drag := inv.dragSlots;
    if |drag| > 0 {
      var per := inv.cursor.count / |drag|;
      SpreadTouches(inv.slots, inv.cursor, drag, 0, per, x);
      SowTouches(inv.slots, inv.cursor, drag, 0, x);
      var n := Sow(inv.slots, inv.cursor, drag, 0).2;
      assert SetOf(drag[..n]) <= SetOf(drag);
    }
  }

  lemma ShiftTouches(inv: Inv, c: Click, x: nat)
    requires inv.Shaped() && x < INV_SIZE && Located(c)
    ensures var r := ShiftClick(inv, c);
      (x !in r.dirty ==> r.inv.slots[x] == inv.slots[x]) && r.inv.cursor == inv.cursor
  {
    hide MergeFrom, FirstEmpty;
    if c.slot > 0 {
      MergeTouches(inv.slots, inv.slots[c.slot], TargetLow(c.slot), TargetHigh(c.slot), x);
    }
  }

  /** Accepted or refused, what differs after a click is among what is sent to the client again. */
  lemma ChangesAreResent(inv: Inv, c: Click, entities: nat, x: nat)
    requires inv.Shaped() && x < INV_SIZE
    ensures var r := ProcessClick(inv, c, entities);
      && r.inv.Shaped()
      && (r.inv.slots[x] != inv.slots[x] ==> x in r.dirty)
      && (r.inv.cursor != inv.cursor ==> r.cursorDirty)
  {
    hide MergeFrom, Collect, DragEnd, ShiftClick, LeftClick, RightClick, Throw, SpawnItem;
    StepShaped(inv, c, entities);
    if !Refused(c) {
      var b := Before(inv, c);
      if c.mode == 1 {
        ShiftTouches(b, c, x);
      } else if c.mode == 5 {
        DragAddKeepsShape(b, c.slot);
        DragEndTouches(DragAddAt(b, c.slot), x);
      } else if c.mode == 6 {
        CollectTouches(b.slots, b.cursor, 1, x);
      }
    }
  }

  // ---------------------------------------------------------------- where the claims stop

  function Stack(id: int, n: byte): Slot { Slot(id, n, 0, None) }

  function Stocked(slots: map<nat, Slot>, cursor: Slot): (r: Inv)
    ensures r.Shaped()
  {
    Inv(seq(INV_SIZE, i => if i in slots then slots[i] else NO_ITEM), cursor, false, 0, [])
  }

  /** A stack merged away to nothing is still put into the first empty slot, as an item with count 0. */
  lemma ShiftLeavesNothingBehind()
    ensures var inv := Stocked(map[9 := Stack(1, 1), 36 := Stack(1, 63)], NO_ITEM);
      var r := ProcessClick(inv, Click(0, 9, 0, 1), 0);
      SaneInv(inv) && r.accepted && r.inv.slots[36].count == 64 && r.inv.slots[37] == Stack(1, 0)
  {
    hide SlotsSame, MergeFrom, FirstEmpty;
    var inv := Stocked(map[9 := Stack(1, 1), 36 := Stack(1, 63)], NO_ITEM);
    SameStacks(1, 63, 1);
    var s := inv.slots[36 := Stack(1, 64)];
    MergeOverEmpty(s, Stack(1, 0), 37, 45);
    MergeInto(inv.slots, Stack(1, 1), 36, 45);
    FullFirst(s);
  }

  lemma MergeInto(slots: seq<Slot>, moving: Slot, i: nat, hi: nat)
    requires i < hi <= |slots| && !SlotEmpty(slots[i]) && SlotsSame(slots[i], moving)
    ensures var k := Least(MAX_STACK - slots[i].count, moving.count);
      var next := slots[i := slots[i].(count := U8(slots[i].count + k))];
      var r := MergeFrom(next, moving.(count := U8(moving.count - k)), i + 1, hi);
      MergeFrom(slots, moving, i, hi) == (r.0, r.1, r.2 + {i})
  {
    hide SlotsSame;
  }

  lemma FullFirst(slots: seq<Slot>)
    requires |slots| == INV_SIZE && !SlotEmpty(slots[36]) && SlotEmpty(slots[37])
    ensures FirstEmpty(slots, 36, 45) == 37
  {
    assert FirstEmpty(slots, 37, 45) == 37;
  }

  lemma SameStacks(id: int, m: byte, n: byte)
    ensures SlotsSame(Stack(id, m), Stack(id, n))
  {
  }

  lemma {:induction false} MergeOverEmpty(slots: seq<Slot>, moving: Slot, i: nat, hi: nat)
    requires i <= hi <= |slots| && forall j | i <= j < hi :: SlotEmpty(slots[j])
    ensures MergeFrom(slots, moving, i, hi) == (slots, moving, {})
    decreases hi - i
  {
    if i < hi {
      MergeOverEmpty(slots, moving, i + 1, hi);
    }
  }

  /** The last click of a drag over two slots. */
  function Dragging(button: nat, cursor: Slot, slots: map<nat, Slot>): (r: Inv)
    ensures r.Shaped()
  {
    Stocked(slots, cursor).(dragActive := true, dragButton := button, dragSlots := [9])
  }

  /** One item on the cursor dealt out to two slots: the cursor's count wraps to 255. */
  lemma RightDragMakesItems()
    ensures var inv := Dragging(1, Stack(1, 1), map[]);
      var r := ProcessClick(inv, Click(0, 10, 9, 5), 0);
      SaneInv(inv) && r.accepted && r.inv.slots[9] == r.inv.slots[10] == Stack(1, 1) && r.inv.cursor == Stack(1, 255)
  {
    hide SlotsSame;
    var inv := Dragging(1, Stack(1, 1), map[]);
    var drag: seq<nat> := [9, 10];
    assert DragAddAt(inv, 10).dragSlots == drag;
    var s := inv.slots[9 := Stack(1, 1)];
    assert Sow(s[10 := Stack(1, 1)], Stack(1, 255), drag, 2) == (s[10 := Stack(1, 1)], 255, 2);
    assert Sow(s, Stack(1, 0), drag, 1) == (s[10 := Stack(1, 1)], 255, 2);
    assert Sow(inv.slots, Stack(1, 1), drag, 0) == (s[10 := Stack(1, 1)], 255, 2);
  }

  /** A left drag does not look at the room in a slot. */
  lemma LeftDragOverfills()
    ensures var inv := Dragging(0, Stack(1, 64), map[9 := Stack(1, 64)]);
      var r := ProcessClick(inv, Click(0, OUTSIDE, 8, 5), 0);
      SaneInv(inv) && r.accepted && r.inv.slots[9] == Stack(1, 128)
  {
    hide SlotsSame;
    var inv := Dragging(0, Stack(1, 64), map[9 := Stack(1, 64)]);
    var drag: seq<nat> := [9];
    SameStacks(1, 64, 64);
    var s := inv.slots[9 := Stack(1, 128)];
    assert Spread(s, Stack(1, 64), drag, 1, 64) == s;
    assert Spread(inv.slots, Stack(1, 64), drag, 0, 64) == s;
  }
}
