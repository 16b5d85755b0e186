/** What the clicks of a drag do, by their buttons: ProcessClick in mode 5. */
module DragRules {
  import opened Bytes
  import opened Items
  import opened Clicks
  import opened ClickProofs
  import opened DragProofs
  import opened ClickTheorems
  import opened ClickEffects
  import opened ClickRules

  /** Button 0 starts a left drag and button 1 a right one, on any slot, with an item on the cursor; another drag is
      given up for it. */
  lemma DragStarts(inv: Inv, slot: int, button: byte, entities: nat)
    requires inv.Shaped() && inv.cursor.id != -1 && (slot == -999 || 0 <= slot <= 44) && button <= 1
    ensures var r := ProcessClick(inv, Click(0, slot, button, 5), entities);
      if slot == -999 then Nothing(inv, r)
      else r.accepted && r.spawned == None
           && r.inv == inv.(dragActive := true, dragButton := button, dragSlots := [slot])
  {
  }

  /** A drag of that kind is going on. */
  predicate Dragging(inv: Inv, kind: nat) {
    inv.Shaped() && inv.cursor.id != -1 && inv.dragActive && inv.dragButton == kind <= 1
  }

  /** The drag's slots and one more, unless it is outside or there already. */
  function Added(drag: seq<nat>, slot: int): seq<nat>
    requires slot == -999 || 0 <= slot
  {
    if slot == -999 || slot in drag then drag else drag + [slot]
  }

  /** No drag is too long for another slot. */
  lemma AddsAnySlot(inv: Inv, slot: int)
    requires inv.Shaped() && (slot == -999 || 0 <= slot <= 44)
    ensures DragAddAt(inv, slot) == inv.(dragSlots := Added(inv.dragSlots, slot)) && DragAddAt(inv, slot).Shaped()
  {
    DragAddKeepsShape(inv, slot);
    if 0 <= slot && slot !in inv.dragSlots {
      var more := inv.dragSlots + [slot];
      forall j, l | 0 <= j < l < |more| ensures more[j] != more[l] {
        if l == |inv.dragSlots| {
          assert inv.dragSlots[j] in inv.dragSlots;
        }
      }
      AtMostAll(more, 45);
    }
  }

  /** Button 4 adds a slot to a left drag and button 5 to a right one. */
  lemma DragGoesOn(inv: Inv, kind: nat, slot: int, entities: nat)
    requires Dragging(inv, kind) && (slot == -999 || 0 <= slot <= 44)
    ensures ProcessClick(inv, Click(0, slot, 4 + kind, 5), entities) ==
      Result(inv.(dragSlots := Added(inv.dragSlots, slot)), true, None, {}, false)
  {
    AddsAnySlot(inv, slot);
  }

  /** With an empty cursor, another button, or a continuation of a drag that is not going on, a click of mode 5 is
      refused and ends the drag, if there is one. */
  lemma DragRefused(inv: Inv, slot: int, button: byte, entities: nat)
    requires inv.Shaped() && (slot == -999 || 0 <= slot <= 44)
    requires inv.cursor.id == -1 || button !in {0, 1, 4, 5, 8, 9}
      || (button >= 4 && !(inv.dragActive && inv.dragButton == button % 4))
    ensures Nothing(inv, ProcessClick(inv, Click(0, slot, button, 5), entities))
  {
    hide DragEnd;
  }

  // ---------------------------------------------------------------- dealing out

  /** Every slot of the drag is empty or holds what is on the cursor. */
  predicate AllTake(slots: seq<Slot>, h: Slot, drag: seq<nat>)
    requires |slots| == 45 && forall j | 0 <= j < |drag| :: drag[j] < 45
  {
    forall x | x in drag :: slots[x].id == -1 || Alike(slots[x], h)
  }

  lemma AllTakeIsFits(inv: Inv)
    requires SaneInv(inv) && inv.cursor.id != -1
    ensures AllTake(inv.slots, inv.cursor, inv.dragSlots) <==> DragFits(inv)
  {
    hide KindOf, SlotsSame, CleanSlot;
    forall j | 0 <= j < |inv.dragSlots|
      ensures Alike(inv.slots[inv.dragSlots[j]], inv.cursor) <==>
        !SlotEmpty(inv.slots[inv.dragSlots[j]]) && SlotsSame(inv.slots[inv.dragSlots[j]], inv.cursor)
    {
      assert SaneSlot(inv.slots[inv.dragSlots[j]]);
      SameIsSameKind(inv.slots[inv.dragSlots[j]], inv.cursor);
    }
    if DragFits(inv) {
      forall x | x in inv.dragSlots ensures inv.slots[x].id == -1 || Alike(inv.slots[x], inv.cursor) {
        var j :| 0 <= j < |inv.dragSlots| && inv.dragSlots[j] == x;
        assert SlotEmpty(inv.slots[inv.dragSlots[j]]) || SlotsSame(inv.slots[inv.dragSlots[j]], inv.cursor);
      }
    }
    if AllTake(inv.slots, inv.cursor, inv.dragSlots) {
      forall j | 0 <= j < |inv.dragSlots|
        ensures SlotEmpty(inv.slots[inv.dragSlots[j]]) || SlotsSame(inv.slots[inv.dragSlots[j]], inv.cursor)
      {
        assert inv.dragSlots[j] in inv.dragSlots;
      }
    }
  }

  /** What buttons 8 and 9 end the drag with: the inventory with the last slot added. */
  lemma EndIs(inv: Inv, kind: nat, slot: int, entities: nat)
    requires Dragging(inv, kind) && (slot == -999 || 0 <= slot <= 44)
    ensures var d := inv.(dragSlots := Added(inv.dragSlots, slot));
      d.Shaped() && ProcessClick(inv, Click(0, slot, 8 + kind, 5), entities) == DragEnd(d)
  {
    hide DragEnd;
    AddsAnySlot(inv, slot);
  }

  lemma InIsAmong(x: nat, drag: seq<nat>)
    ensures x in drag <==> Among(x, drag, 0)
  {
    AmongMeans(x, drag, 0);
  }

  /** Button 8 ends a left drag. If a slot cannot take the item, nothing moves and it is refused. Else each of the n
      slots gets an n-th of the cursor's items, rounded down, and the cursor keeps the remainder. */
  lemma LeftDragDeals(inv: Inv, slot: int, entities: nat)
    requires SaneInv(inv) && Dragging(inv, 0) && (slot == -999 || 0 <= slot <= 44)
    ensures var r := ProcessClick(inv, Click(0, slot, 8, 5), entities);
      var drag, h := Added(inv.dragSlots, slot), inv.cursor;
      && (forall j | 0 <= j < |drag| :: drag[j] < 45)
      && r.spawned == None && !r.inv.dragActive && r.inv.dragSlots == []
      && (r.accepted <==> AllTake(inv.slots, h, drag))
      && (!r.accepted ==> Nothing(inv, r))
      && (r.accepted && |drag| == 0 ==> r.inv == Rest(inv))
      && (r.accepted && |drag| > 0 ==>
            var per := h.count / |drag|;
            && |r.inv.slots| == 45
            && r.inv.cursor == (if per == 0 then h
                                else if h.count % |drag| == 0 then NO_ITEM else h.(count := h.count % |drag|))
            && forall x: nat | x < 45 ::
                 r.inv.slots[x] == if x in drag && per > 0 then WithShare(inv.slots[x], h, per) else inv.slots[x])
  {
    hide KindOf, SlotsSame, CleanSlot, DragEnd, DragFits, AllTake, ProcessClick, Among;
    var d := inv.(dragSlots := Added(inv.dragSlots, slot));
    EndIs(inv, 0, slot, entities);
    AllTakeIsFits(d);
    LeftEndParts(d);
    if DragFits(d) && |d.dragSlots| > 0 {
      forall x: nat | x < 45 ensures DragEnd(d).inv.slots[x] ==
        if x in d.dragSlots && d.cursor.count / |d.dragSlots| > 0
        then WithShare(d.slots[x], d.cursor, d.cursor.count / |d.dragSlots|) else d.slots[x]
      {
        LeftDragSharesEvenly(d, x);
        InIsAmong(x, d.dragSlots);
      }
      LeftDragSharesEvenly(d, 0);
    }
  }

  lemma LeftEndParts(d: Inv)
    requires d.Shaped() && d.dragButton == 0
    ensures var r := DragEnd(d);
      && r.spawned == None && !r.inv.dragActive && r.inv.dragSlots == [] && r.inv.Shaped()
      && (r.accepted <==> DragFits(d))
      && (!r.accepted || |d.dragSlots| == 0 ==> r.inv == NoDrag(d))
      && r.inv == NoDrag(d).(slots := r.inv.slots, cursor := r.inv.cursor)
  {
    hide DragFits, Spread;
  }

  /** Button 9 ends a right drag. If a slot cannot take the item, nothing moves and it is refused. Else the slots up to
      the first full one get one item each, and it is accepted if that is all of them; the cursor's count goes down
      by as many, modulo 256. */
  lemma RightDragDeals(inv: Inv, slot: int, entities: nat) returns (n: nat)
    requires SaneInv(inv) && Dragging(inv, 1) && (slot == -999 || 0 <= slot <= 44)
    ensures var drag := Added(inv.dragSlots, slot);
      && (forall j | 0 <= j < |drag| :: drag[j] < 45) && n <= |drag|
      && (forall j | 0 <= j < n :: inv.slots[drag[j]].id == -1 || inv.slots[drag[j]].count < 64)
      && (n < |drag| ==> inv.slots[drag[n]].id != -1 && inv.slots[drag[n]].count >= 64)
    ensures var r := ProcessClick(inv, Click(0, slot, 9, 5), entities);
      var drag, h := Added(inv.dragSlots, slot), inv.cursor;
      && r.spawned == None && !r.inv.dragActive && r.inv.dragSlots == []
      && (r.accepted <==> AllTake(inv.slots, h, drag) && n == |drag|)
      && (!AllTake(inv.slots, h, drag) ==> Nothing(inv, r))
      && (AllTake(inv.slots, h, drag) ==>
            && |r.inv.slots| == 45
            && r.inv.cursor == (if U8(h.count - n) == 0 then NO_ITEM else h.(count := U8(h.count - n)))
            && forall x: nat | x < 45 ::
                 r.inv.slots[x] == if x in drag[..n] then WithShare(inv.slots[x], h, 1) else inv.slots[x])
  {
    hide KindOf, SlotsSame, CleanSlot, DragEnd, DragFits, AllTake, ProcessClick, Sow, WithShare;
    var d := inv.(dragSlots := Added(inv.dragSlots, slot));
    EndIs(inv, 1, slot, entities);
    AllTakeIsFits(d);
    n := Served(d.slots, d.dragSlots, 0);
    ServedIs(d.slots, d.dragSlots, 0);
    RightEndParts(d);
    if DragFits(d) {
      SownAt(d);
    }
  }

  lemma SownAt(d: Inv)
    requires SaneInv(d) && d.cursor.id != -1 && DragFits(d)
    ensures var r, n := Sow(d.slots, d.cursor, d.dragSlots, 0), Served(d.slots, d.dragSlots, 0);
      && r.2 == n && r.1 == U8(d.cursor.count - n)
      && forall x: nat | x < 45 ::
           r.0[x] == if x in d.dragSlots[..n] then WithShare(d.slots[x], d.cursor, 1) else d.slots[x]
  {
    hide KindOf, SlotsSame, CleanSlot, DragFits, Sow, Ready, WithShare;
    DragReady(d);
    SowConserves(d.slots, d.cursor, d.dragSlots, 0, KindOf(d.cursor));
    var r, n := Sow(d.slots, d.cursor, d.dragSlots, 0), Served(d.slots, d.dragSlots, 0);
    forall x: nat | x < 45
      ensures r.0[x] == if x in d.dragSlots[..n] then WithShare(d.slots[x], d.cursor, 1) else d.slots[x]
    {
      SownSlot(d, x);
    }
  }

  lemma SownSlot(d: Inv, x: nat)
    requires SaneInv(d) && Ready(d.slots, d.cursor, d.dragSlots, 0) && x < 45
    ensures var r, n := Sow(d.slots, d.cursor, d.dragSlots, 0), Served(d.slots, d.dragSlots, 0);
      r.0[x] == if x in d.dragSlots[..n] then WithShare(d.slots[x], d.cursor, 1) else d.slots[x]
  {
    hide KindOf, SlotsSame, CleanSlot, Among, Sow, Ready;
    var n := Served(d.slots, d.dragSlots, 0);
    SowAt(d.slots, d.cursor, d.dragSlots, 0, x);
    ServedIs(d.slots, d.dragSlots, 0);
    InIsAmong(x, d.dragSlots[..n]);
    if x in d.dragSlots[..n] {
      var j :| 0 <= j < n && d.dragSlots[j] == x;
      assert d.slots[d.dragSlots[j]].id == -1 || d.slots[d.dragSlots[j]].count < 64;
    }
  }

  lemma {:induction false} ServedIs(slots: seq<Slot>, drag: seq<nat>, i: nat)
    requires i <= |drag| && forall j | 0 <= j < |drag| :: drag[j] < |slots|
    ensures var n := Served(slots, drag, i);
      && (forall j | i <= j < n :: slots[drag[j]].id == -1 || slots[drag[j]].count < 64)
      && (n < |drag| ==> slots[drag[n]].id != -1 && slots[drag[n]].count >= 64)
    decreases |drag| - i
  {
    if i < |drag| {
      ServedIs(slots, drag, i + 1);
    }
  }

  lemma RightEndParts(d: Inv)
    requires d.Shaped() && d.dragButton == 1 && SaneSlot(d.cursor) && d.cursor.id != -1
    ensures var r, s := DragEnd(d), Sow(d.slots, d.cursor, d.dragSlots, 0);
      && r.spawned == None && !r.inv.dragActive && r.inv.dragSlots == []
      && (r.accepted <==> DragFits(d) && s.2 == |d.dragSlots|)
      && (!DragFits(d) ==> r.inv == NoDrag(d))
      && (DragFits(d) ==>
            r.inv == NoDrag(d).(slots := s.0, cursor := if s.1 == 0 then NO_ITEM else d.cursor.(count := s.1)))
  {
    hide DragFits, KindOf, CleanSlot;
  }
}
