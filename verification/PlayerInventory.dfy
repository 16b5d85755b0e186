/** The click machine as server.cpp runs it, on the player's own slots and cursor. */
module PlayerInventory {
  import opened Bytes
  import opened Items
  import opened Clicks
  import opened ClickTheorems
  import opened Pickup

  /** What goes back to the client, and what is thrown into the world. */
  datatype Reply = Reply(accepted: bool, spawned: Option<Slot>, dirty: set<nat>, cursorDirty: bool)

  function After(inv: Inv, r: Reply): Result {
    Result(inv, r.accepted, r.spawned, r.dirty, r.cursorDirty)
  }

  class Player {
    const slots: array<Slot>
    var cursor: Slot
    var dragActive: bool
    var dragButton: nat
    var dragSlots: seq<nat>

    constructor ()
      ensures Valid() && fresh(slots) && State() == Inv(seq(INV_SIZE, _ => NO_ITEM), NO_ITEM, false, 0, [])
    {
      slots := new Slot[INV_SIZE](_ => NO_ITEM);
      cursor, dragActive, dragButton, dragSlots := NO_ITEM, false, 0, [];
      new;
      assert slots[..] == seq(INV_SIZE, _ => NO_ITEM);
    }

    ghost function State(): Inv
      reads this, slots
    {
      Inv(slots[..], cursor, dragActive, dragButton, dragSlots)
    }

    ghost predicate Valid()
      reads this, slots
    {
      State().Shaped()
    }

    /** Mode 0. */
    method Plain(c: Click) returns (r: Reply)
      requires Valid() && Located(c)
      modifies this`cursor, slots
      ensures Valid() && After(State(), r) == PlainClick(old(State()), c)
    {
      if c.slot == OUTSIDE || c.slot == 0 {
        return Reply(false, None, if c.slot == 0 then {0} else {}, true);
      }
      if c.button > 1 {
        return Reply(false, None, {}, false);
      }
      var i: nat := c.slot;
      if c.button == 0 {
        LeftOn(i);
      } else {
        RightOn(i);
      }
      r := Reply(true, None, {i}, true);
    }

    method LeftOn(i: nat)
      requires Valid() && i < INV_SIZE
      modifies this`cursor, slots
      ensures var was := LeftClick(old(slots[i]), old(cursor));
        State() == SetSlot(old(State()), i, was.0).(cursor := was.1)
    {
      var s := slots[i];
      if SlotEmpty(cursor) {
        cursor, slots[i] := s, NO_ITEM;
      } else if SlotEmpty(s) {
        slots[i], cursor := cursor, NO_ITEM;
      } else if SlotsSame(s, cursor) {
        var room := MAX_STACK - s.count;
        var k := if room < cursor.count then room else cursor.count;
        slots[i] := s.(count := U8(s.count + k));
        cursor := cursor.(count := U8(cursor.count - k));
        if cursor.count == 0 {
          cursor := NO_ITEM;
        }
      } else {
        slots[i], cursor := cursor, s;
      }
    }

    method RightOn(i: nat)
      requires Valid() && i < INV_SIZE
      modifies this`cursor, slots
      ensures var was := RightClick(old(slots[i]), old(cursor));
        State() == SetSlot(old(State()), i, was.0).(cursor := was.1)
    {
      var s := slots[i];
      if SlotEmpty(cursor) {
        var n := (s.count + 1) / 2;
        cursor := s.(count := n);
        slots[i] := s.(count := s.count - n);
        if slots[i].count == 0 {
          slots[i] := NO_ITEM;
        }
      } else if SlotEmpty(s) {
        slots[i] := cursor.(count := 1);
        TakeOneFromCursor();
      } else if SlotsSame(s, cursor) {
        if s.count < MAX_STACK {
          slots[i] := s.(count := s.count + 1);
          TakeOneFromCursor();
        }
      } else {
        slots[i], cursor := cursor, s;
      }
    }

    method TakeOneFromCursor()
      modifies this`cursor
      ensures cursor == Left(old(cursor), U8(old(cursor).count - 1))
    {
      cursor := cursor.(count := U8(cursor.count - 1));
      if cursor.count == 0 {
        cursor := NO_ITEM;
      }
    }

    /** try_merge over lo..hi. */
    method MergeInto(item: Slot, lo: nat, hi: nat) returns (moving: Slot, dirty: set<nat>)
      requires slots.Length == INV_SIZE && lo <= hi <= INV_SIZE && !SlotEmpty(item)
      modifies slots
      ensures (slots[..], moving, dirty) == MergeFrom(old(slots[..]), item, lo, hi)
      ensures !SlotEmpty(moving)
    {
      hide SlotsSame;
      moving, dirty := item, {};
      ghost var all := MergeFrom(slots[..], item, lo, hi);
      var i := lo;
      while i < hi && !SlotEmpty(moving)
        invariant lo <= i <= hi && !SlotEmpty(moving)
        invariant MergeFrom(slots[..], moving, i, hi).0 == all.0 && MergeFrom(slots[..], moving, i, hi).1 == all.1
        invariant MergeFrom(slots[..], moving, i, hi).2 + dirty == all.2
      {
        ghost var was := slots[..];
        var d := slots[i];
        if !SlotEmpty(d) && SlotsSame(d, moving) {
          var room := MAX_STACK - d.count;
          var k := if room < moving.count then room else moving.count;
          slots[i] := d.(count := U8(d.count + k));
          moving := moving.(count := U8(moving.count - k));
          dirty := dirty + {i};
          assert slots[..] == was[i := slots[i]];
        }
        i := i + 1;
      }
    }

    /** try_fill over lo..hi: the slot taken, if there was one. */
    method FillInto(moving: Slot, lo: nat, hi: nat) returns (rest: Slot, dirty: set<nat>)
      requires slots.Length == INV_SIZE && lo <= hi <= INV_SIZE && !SlotEmpty(moving)
      modifies slots
      ensures var e := FirstEmpty(old(slots[..]), lo, hi);
        if e < hi then slots[..] == old(slots[..])[e := moving] && rest == NO_ITEM && dirty == {e}
        else slots[..] == old(slots[..]) && rest == moving && dirty == {}
    {
      rest, dirty := moving, {};
      ghost var was := slots[..];
      ghost var e := FirstEmpty(was, lo, hi);
      var i := lo;
      while i < hi && !SlotEmpty(rest)
        invariant lo <= i <= hi
        invariant rest == moving ==> slots[..] == was && dirty == {} && FirstEmpty(was, i, hi) == e
        invariant rest != moving ==> rest == NO_ITEM && e < hi
        invariant rest != moving ==> dirty == {e} && slots[..] == was[e := moving]
      {
        if SlotEmpty(slots[i]) {
          slots[i], rest, dirty := rest, NO_ITEM, {i};
        }
        i := i + 1;
      }
    }

    /** Mode 1. */
    method Shift(c: Click) returns (r: Reply)
      requires Valid() && Located(c)
      modifies slots
      ensures Valid() && After(State(), r) == ShiftClick(old(State()), c)
    {
      hide MergeFrom, FirstEmpty;
      if c.slot == OUTSIDE || c.slot == 0 {
        return Reply(false, None, if c.slot == 0 then {0} else {}, true);
      }
      var i: nat := c.slot;
      var moving := slots[i];
      if SlotEmpty(moving) {
        return Reply(true, None, {}, false);
      }
      var lo := if i < 36 then 36 else 9;
      var hi := if i < 36 then 45 else 36;
      var merged, filled;
      moving, merged := MergeInto(moving, lo, hi);
      ghost var m := slots[..];
      moving, filled := FillInto(moving, lo, hi);
      slots[i] := moving;
      r := Reply(true, None, merged + filled + {i}, false);
      ghost var e := FirstEmpty(m, lo, hi);
      assert merged + {e} + {i} == merged + {e, i};
      assert merged + {} + {i} == merged + {i};
    }

    /** Mode 2. */
    method Swap(c: Click) returns (r: Reply)
      requires Valid() && Located(c)
      modifies slots
      ensures Valid() && After(State(), r) == SwapClick(old(State()), c)
    {
      if c.slot == OUTSIDE || c.slot == 0 || c.button > 8 {
        return Reply(false, None, if c.slot == OUTSIDE then {} else {c.slot}, false);
      }
      var i: nat, h: nat := c.slot, 36 + c.button;
      slots[i], slots[h] := slots[h], slots[i];
      r := Reply(true, None, {i, h}, false);
    }

    /** Mode 4. */
    method Drop(c: Click, entities: nat) returns (r: Reply)
      requires Valid() && Located(c)
      modifies this`cursor, slots
      ensures Valid() && After(State(), r) == DropClick(old(State()), c, entities)
    {
      if c.slot == OUTSIDE {
        if SlotEmpty(cursor) {
          return Reply(true, None, {}, false);
        }
        var e;
        if c.button == 0 {
          e := SpawnItem(cursor.(count := 1), entities);
          TakeOneFromCursor();
        } else {
          e := SpawnItem(cursor, entities);
          cursor := NO_ITEM;
        }
        return Reply(true, e, {}, true);
      }
      var i: nat := c.slot;
      var s := slots[i];
      if SlotEmpty(s) {
        return Reply(true, None, {}, false);
      }
      var e;
      if c.button == 0 {
        e := SpawnItem(s.(count := 1), entities);
        slots[i] := s.(count := U8(s.count - 1));
        if slots[i].count == 0 {
          slots[i] := NO_ITEM;
        }
      } else {
        e := SpawnItem(s, entities);
        slots[i] := NO_ITEM;
      }
      r := Reply(true, e, {i}, false);
    }

    method AddToDrag(slot: int)
      requires Valid() && (slot == OUTSIDE || 0 <= slot < INV_SIZE)
      modifies this`dragSlots
      ensures State() == DragAddAt(old(State()), slot)
    {
      if slot < 0 || slot >= INV_SIZE {
        return;
      }
      for i := 0 to |dragSlots|
        invariant dragSlots == old(dragSlots) && slot !in dragSlots[..i]
      {
        if dragSlots[i] == slot {
          return;
        }
      }
      assert dragSlots[..|dragSlots|] == dragSlots;
      if |dragSlots| < INV_SIZE {
        dragSlots := dragSlots + [slot];
      }
    }

    /** Can every drag slot take the cursor's item? */
    method TargetsFit() returns (ok: bool)
      requires Valid()
      ensures ok == DragFits(State())
    {
      hide SlotsSame;
      ok := true;
      for i := 0 to |dragSlots|
        invariant ok <==>
          forall j | 0 <= j < i :: SlotEmpty(slots[dragSlots[j]]) || SlotsSame(slots[dragSlots[j]], cursor)
      {
        var d := slots[dragSlots[i]];
        if !SlotEmpty(d) && !SlotsSame(d, cursor) {
          ok := false;
        }
      }
      assert DragFits(State()) <==>
        forall j | 0 <= j < |dragSlots| :: SlotEmpty(slots[dragSlots[j]]) || SlotsSame(slots[dragSlots[j]], cursor);
    }

    method SpreadOut(per: nat)
      requires Valid()
      modifies slots
      ensures slots[..] == Spread(old(slots[..]), cursor, dragSlots, 0, per)
    {
      var i := 0;
      while i < |dragSlots|
        invariant i <= |dragSlots|
        invariant Spread(slots[..], cursor, dragSlots, i, per) == Spread(old(slots[..]), cursor, dragSlots, 0, per)
      {
        ghost var was := slots[..];
        var s := dragSlots[i];
        var d := slots[s];
        if SlotEmpty(d) {
          d := cursor.(count := 0);
        }
        slots[s] := d.(count := U8(d.count + per));
        assert slots[..] == was[s := slots[s]];
        i := i + 1;
      }
    }

    /** One item each, until a slot is full; ok says that none was. */
    method SowOut() returns (ok: bool, served: nat)
      requires Valid() && !SlotEmpty(cursor)
      modifies slots, this`cursor
      ensures (slots[..], cursor.count, served) == Sow(old(slots[..]), old(cursor), dragSlots, 0)
      ensures cursor == old(cursor).(count := cursor.count) && ok == (served == |dragSlots|)
    {
      ok, served := true, 0;
      while served < |dragSlots|
        invariant served <= |dragSlots| && slots.Length == INV_SIZE && ok
        invariant cursor == old(cursor).(count := cursor.count)
        invariant Sow(slots[..], cursor, dragSlots, served) == Sow(old(slots[..]), old(cursor), dragSlots, 0)
      {
        ghost var was := slots[..];
        var s := dragSlots[served];
        var d := slots[s];
        if SlotEmpty(d) {
          d := cursor.(count := 0);
        }
        if d.count >= MAX_STACK {
          ok := false;
          break;
        }
        slots[s] := d.(count := d.count + 1);
        cursor := cursor.(count := U8(cursor.count - 1));
        assert slots[..] == was[s := slots[s]];
        served := served + 1;
      }
    }

    method EndDrag() returns (r: Reply)
      requires Valid() && !SlotEmpty(cursor)
      modifies this, slots
      ensures Valid() && After(State(), r) == DragEnd(old(State()))
    {
      hide Spread, Sow, DragFits;
      var ok := TargetsFit();
      var dirty: set<nat>, cursorDirty := {}, false;
      if ok && |dragSlots| > 0 {
        var n := |dragSlots|;
        if dragButton == 0 {
          var per := cursor.count / n;
          if per > 0 {
            SpreadOut(per);
            dirty := SetOf(dragSlots);
            cursor := cursor.(count := U8(cursor.count - per * n));
            if cursor.count == 0 {
              cursor := NO_ITEM;
            }
            cursorDirty := true;
          }
        } else {
          var served;
          ok, served := SowOut();
          dirty := SetOf(dragSlots[..served]);
          if cursor.count == 0 {
            cursor := NO_ITEM;
          }
          cursorDirty := true;
        }
      }
      if !ok {
        dirty, cursorDirty := SetOf(dragSlots), true;
      }
      dragActive, dragSlots := false, [];
      r := Reply(ok, None, dirty, cursorDirty);
      assert SetOf([]) == {};
    }

    /** Mode 5. */
    method Drag(c: Click) returns (r: Reply)
      requires Valid() && Located(c)
      modifies this, slots
      ensures Valid() && After(State(), r) == DragClick(old(State()), c)
    {
      hide DragEnd;
      var left := c.button == 0 || c.button == 4 || c.button == 8;
      var right := c.button == 1 || c.button == 5 || c.button == 9;
      if (!left && !right) || SlotEmpty(cursor) {
        var dirty: set<nat> := {};
        if dragActive {
          dirty := SetOf(dragSlots);
          dragActive, dragSlots := false, [];
        }
        return Reply(false, None, dirty + At(c.slot), true);
      }
      if c.button == 0 || c.button == 1 {
        if c.slot == OUTSIDE {
          return Reply(false, None, {}, true);
        }
        dragActive, dragButton, dragSlots := true, if left then 0 else 1, [];
        AddToDrag(c.slot);
        return Reply(true, None, {}, false);
      }
      if !dragActive || (left && dragButton != 0) || (right && dragButton != 1) {
        return Reply(false, None, At(c.slot), true);
      }
      DragAddKeepsShape(State(), c.slot);
      AddToDrag(c.slot);
      if c.button == 4 || c.button == 5 {
        return Reply(true, None, {}, false);
      }
      r := EndDrag();
    }

    /** Mode 6. */
    method DoubleClick() returns (r: Reply)
      requires Valid()
      modifies this`cursor, slots
      ensures Valid() && After(State(), r) == CollectClick(old(State()))
    {
      hide SlotsSame;
      if SlotEmpty(cursor) {
        return Reply(true, None, {}, false);
      }
      var dirty: set<nat> := {};
      ghost var all := Collect(slots[..], cursor, 1);
      var i := 1;
      while i < INV_SIZE && cursor.count < MAX_STACK
        invariant 1 <= i <= INV_SIZE && slots.Length == INV_SIZE && !SlotEmpty(cursor)
        invariant Collect(slots[..], cursor, i).0 == all.0 && Collect(slots[..], cursor, i).1 == all.1
        invariant Collect(slots[..], cursor, i).2 + dirty == all.2
      {
        ghost var was := slots[..];
        var d := slots[i];
        if !SlotEmpty(d) && SlotsSame(d, cursor) {
          var room := MAX_STACK - cursor.count;
          var k := if room < d.count then room else d.count;
          cursor := cursor.(count := U8(cursor.count + k));
          d := d.(count := U8(d.count - k));
          slots[i] := if d.count == 0 then NO_ITEM else d;
          dirty := dirty + {i};
          assert slots[..] == was[i := slots[i]];
        }
        i := i + 1;
      }
      r := Reply(true, None, dirty, true);
    }

    method OneClick(c: Click, entities: nat) returns (r: Reply)
      requires Valid() && !Refused(c)
      modifies this, slots
      ensures Valid() && After(State(), r) == ByMode(old(State()), c, entities)
    {
      hide PlainClick, ShiftClick, SwapClick, DropClick, DragClick, CollectClick;
      if c.mode == 0 {
        r := Plain(c);
      } else if c.mode == 1 {
        r := Shift(c);
      } else if c.mode == 2 {
        r := Swap(c);
      } else if c.mode == 3 {
        r := Reply(false, None, At(c.slot), true);
      } else if c.mode == 4 {
        r := Drop(c, entities);
      } else if c.mode == 5 {
        r := Drag(c);
      } else {
        r := DoubleClick();
      }
    }

    method OnClick(c: Click, entities: nat) returns (r: Reply)
      requires Valid()
      modifies this, slots
      ensures Valid() && After(State(), r) == ProcessClick(old(State()), c, entities)
    {
      hide ByMode;
      if c.window != 0 || c.mode > 6 || (c.slot != OUTSIDE && (c.slot < 0 || c.slot >= INV_SIZE)) {
        return Reply(false, None, {}, false);
      }
      var continues := c.mode == 5 && dragActive
        && (((c.button == 4 || c.button == 8) && dragButton == 0)
             || ((c.button == 5 || c.button == 9) && dragButton == 1));
      var dirty: set<nat>, cancelled := {}, dragActive && !continues;
      if cancelled {
        dirty := SetOf(dragSlots);
        dragActive, dragSlots := false, [];
      }
      r := OneClick(c, entities);
      if cancelled {
        r := r.(dirty := r.dirty + dirty, cursorDirty := true);
      }
    }

    method TopUpPass(stack: Slot) returns (left: nat)
      requires Valid()
      modifies slots
      ensures (slots[..], left) == TopUp(old(slots[..]), stack, stack.count, FIRST)
    {
      hide SlotsSame, TopUp;
      left := stack.count;
      var i := FIRST;
      while i < END && left > 0
        invariant FIRST <= i <= END && slots.Length == INV_SIZE && left <= stack.count
        invariant TopUp(slots[..], stack, left, i) == TopUp(old(slots[..]), stack, stack.count, FIRST)
      {
        NextTopUp(slots[..], stack, left, i);
        ghost var was := slots[..];
        var d := slots[i];
        if !SlotEmpty(d) && SlotsSame(d, stack) {
          var room := MAX_STACK - d.count;
          var k := if room < left then room else left;
          if k > 0 {
            slots[i] := d.(count := d.count + k);
            left := left - k;
            assert slots[..] == was[i := slots[i]];
          }
        }
        i := i + 1;
      }
      NoMoreTopUp(slots[..], stack, left, i);
    }

    method PlacePass(stack: Slot, n: nat) returns (left: nat)
      requires Valid() && n < 256
      modifies slots
      ensures (slots[..], left) == Place(old(slots[..]), stack, n, FIRST)
    {
      left := n;
      var i := FIRST;
      while i < END && left > 0
        invariant FIRST <= i <= END && slots.Length == INV_SIZE && left <= n
        invariant Place(slots[..], stack, left, i) == Place(old(slots[..]), stack, n, FIRST)
      {
        ghost var was := slots[..];
        if SlotEmpty(slots[i]) {
          var k := if MAX_STACK < left then MAX_STACK else left;
          slots[i] := stack.(count := k);
          left := left - k;
          assert slots[..] == was[i := slots[i]];
        }
        i := i + 1;
      }
    }

    /** The two passes over slots 9..44 that InventoryAdd and the pickup of an item entity share. */
    method PutAway(stack: Slot) returns (left: nat)
      requires Valid()
      modifies slots
      ensures var t := TopUp(old(slots[..]), stack, stack.count, FIRST);
        (slots[..], left) == Place(t.0, stack, t.1, FIRST)
    {
      hide TopUp, Place;
      left := TopUpPass(stack);
      left := PlacePass(stack, left);
    }

    method InventoryAdd(stack: Slot) returns (left: nat)
      requires Valid()
      modifies slots
      ensures (slots[..], left) == Added(old(slots[..]), stack)
    {
      hide TopUp, Place;
      if SlotEmpty(stack) || stack.count == 0 {
        return 0;
      }
      left := PutAway(stack);
    }

    /** The pickup of an item entity, whose stack SpawnItem never lets be empty: what stays with it. */
    method PickUp(stack: Slot) returns (rest: Slot, gone: bool)
      requires Valid() && !SlotEmpty(stack)
      modifies slots
      ensures slots[..] == Added(old(slots[..]), stack).0
      ensures rest == stack.(count := Added(old(slots[..]), stack).1) && gone == (rest.count == 0)
    {
      hide TopUp, Place;
      ghost var was := slots[..];
      var left := PutAway(stack);
      if stack.count == 0 {
        NothingToAdd(was, stack);
      }
      rest, gone := stack.(count := left), left == 0;
    }
  }
}
