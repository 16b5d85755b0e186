/** The inventory click machine of server.cpp on values: seven modes and a drag in progress. */
module Clicks {
  import opened Bytes
  import opened Items

  /** The inventory fields of Player. */
  datatype Inv = Inv(slots: seq<Slot>, cursor: Slot, dragActive: bool, dragButton: nat, dragSlots: seq<nat>) {
    predicate Shaped() {
      |slots| == INV_SIZE
      && (forall i | 0 <= i < |dragSlots| :: dragSlots[i] < INV_SIZE)
      && (forall i, j | 0 <= i < j < |dragSlots| :: dragSlots[i] != dragSlots[j])
    }
  }

  datatype Click = Click(window: int, slot: int, button: byte, mode: byte)

  /** After a click: the inventory, the verdict sent to the client, the stack thrown into the world if
      any, and which slots and whether the cursor are sent again. */
  datatype Result = Result(inv: Inv, accepted: bool, spawned: Option<Slot>, dirty: set<nat>, cursorDirty: bool)

  const OUTSIDE: int := -999

  function SetSlot(inv: Inv, i: nat, s: Slot): Inv
    requires i < |inv.slots|
  {
    inv.(slots := inv.slots[i := s])
  }

  /** A stack with another count; a count of zero clears it. */
  function Left(s: Slot, n: byte): Slot {
    if n == 0 then NO_ITEM else s.(count := n)
  }

  // ---------------------------------------------------------------- mode 0: plain clicks

  /** Slot and cursor after a left click on a slot. */
  function LeftClick(s: Slot, cursor: Slot): (Slot, Slot) {
    if SlotEmpty(cursor) then (NO_ITEM, s)
    else if SlotEmpty(s) then (cursor, NO_ITEM)
    else if SlotsSame(s, cursor) then
      var k := Least(MAX_STACK - s.count, cursor.count);
      (s.(count := U8(s.count + k)), Left(cursor, U8(cursor.count - k)))
    else (cursor, s)
  }

  /** And after a right click. */
  function RightClick(s: Slot, cursor: Slot): (Slot, Slot) {
    if SlotEmpty(cursor) then
      var n := (s.count + 1) / 2;
      (Left(s, s.count - n), s.(count := n))
    else if SlotEmpty(s) then (cursor.(count := 1), Left(cursor, U8(cursor.count - 1)))
    else if SlotsSame(s, cursor) then
      if s.count < MAX_STACK then (s.(count := s.count + 1), Left(cursor, U8(cursor.count - 1))) else (s, cursor)
    else (cursor, s)
  }

  function PlainClick(inv: Inv, c: Click): Result
    requires inv.Shaped() && (c.slot == OUTSIDE || 0 <= c.slot < INV_SIZE)
  {
    if c.slot == OUTSIDE then Result(inv, false, None, {}, true)
    else if c.slot == 0 then Result(inv, false, None, {0}, true)
    else if c.button > 1 then Result(inv, false, None, {}, false)
    else
      var r := if c.button == 0 then LeftClick(inv.slots[c.slot], inv.cursor)
        else RightClick(inv.slots[c.slot], inv.cursor);
      Result(SetSlot(inv, c.slot, r.0).(cursor := r.1), true, None, {c.slot}, true)
  }

  // ---------------------------------------------------------------- mode 1: shift-click

  /** try_merge over slots i..hi: the slots, what is left to move, and the slots it looked into. */
  function MergeFrom(slots: seq<Slot>, moving: Slot, i: nat, hi: nat): (r: (seq<Slot>, Slot, set<nat>))
    requires i <= hi <= |slots|
    ensures |r.0| == |slots|
    decreases hi - i
  {
    if i == hi then (slots, moving, {})
    else if SlotEmpty(slots[i]) || !SlotsSame(slots[i], moving) then MergeFrom(slots, moving, i + 1, hi)
    else
      var d := slots[i];
      var k := Least(MAX_STACK - d.count, moving.count);
      var r := MergeFrom(slots[i := d.(count := U8(d.count + k))], moving.(count := U8(moving.count - k)), i + 1, hi);
      (r.0, r.1, r.2 + {i})
  }

  /** The first empty slot in i..hi, or hi. */
  function FirstEmpty(slots: seq<Slot>, i: nat, hi: nat): (r: nat)
    requires i <= hi <= |slots|
    ensures i <= r <= hi && (r < hi ==> SlotEmpty(slots[r]))
    ensures forall j | i <= j < r :: !SlotEmpty(slots[j])
    decreases hi - i
  {
    if i == hi || SlotEmpty(slots[i]) then i else FirstEmpty(slots, i + 1, hi)
  }

  function TargetLow(slot: int): nat { if slot < 36 then 36 else 9 }

  function TargetHigh(slot: int): nat { if slot < 36 then 45 else 36 }

  /** try_fill puts all that is left into the first empty slot; the rest goes back where it came from. */
  function ShiftClick(inv: Inv, c: Click): Result
    requires inv.Shaped() && (c.slot == OUTSIDE || 0 <= c.slot < INV_SIZE)
  {
    if c.slot == OUTSIDE then Result(inv, false, None, {}, true)
    else if c.slot == 0 then Result(inv, false, None, {0}, true)
    else if SlotEmpty(inv.slots[c.slot]) then Result(inv, true, None, {}, false)
    else
      var lo, hi := TargetLow(c.slot), TargetHigh(c.slot);
      var m := MergeFrom(inv.slots, inv.slots[c.slot], lo, hi);
      var e := FirstEmpty(m.0, lo, hi);
      if e < hi then Result(inv.(slots := m.0[e := m.1][c.slot := NO_ITEM]), true, None, m.2 + {e, c.slot}, false)
      else Result(inv.(slots := m.0[c.slot := m.1]), true, None, m.2 + {c.slot}, false)
  }

  // ---------------------------------------------------------------- mode 2: number keys

  function SwapClick(inv: Inv, c: Click): Result
    requires inv.Shaped() && (c.slot == OUTSIDE || 0 <= c.slot < INV_SIZE)
  {
    if c.slot == OUTSIDE then Result(inv, false, None, {}, false)
    else if c.slot == 0 || c.button > 8 then Result(inv, false, None, {c.slot}, false)
    else
      var h := 36 + c.button;
      var a, b := inv.slots[c.slot], inv.slots[h];
      Result(inv.(slots := inv.slots[c.slot := b][h := a]), true, None, {c.slot, h}, false)
  }

  // ---------------------------------------------------------------- mode 4: drop

  /** SpawnItem: nothing for nothing, and nothing when the world is full. */
  function SpawnItem(stack: Slot, entities: nat): Option<Slot> {
    if SlotEmpty(stack) || stack.count == 0 || entities >= MAX_ENTITIES then None else Some(stack)
  }

  /** What is thrown from a stack, and what stays. */
  function Throw(s: Slot, button: byte): (Slot, Slot) {
    if button == 0 then (s.(count := 1), Left(s, U8(s.count - 1))) else (s, NO_ITEM)
  }

  function DropClick(inv: Inv, c: Click, entities: nat): Result
    requires inv.Shaped() && (c.slot == OUTSIDE || 0 <= c.slot < INV_SIZE)
  {
    var s := if c.slot == OUTSIDE then inv.cursor else inv.slots[c.slot];
    if SlotEmpty(s) then Result(inv, true, None, {}, false)
    else
      var t := Throw(s, c.button);
      var e := SpawnItem(t.0, entities);
      if c.slot == OUTSIDE then Result(inv.(cursor := t.1), true, e, {}, true)
      else Result(SetSlot(inv, c.slot, t.1), true, e, {c.slot}, false)
  }

  // ---------------------------------------------------------------- mode 5: drag

  predicate LeftDrag(button: byte) { button == 0 || button == 4 || button == 8 }

  predicate RightDrag(button: byte) { button == 1 || button == 5 || button == 9 }

  function DragAdd(drag: seq<nat>, slot: nat): seq<nat> {
    if slot in drag || |drag| >= INV_SIZE then drag else drag + [slot]
  }

  function DragAddAt(inv: Inv, slot: int): Inv
    requires slot == OUTSIDE || 0 <= slot
  {
    if slot == OUTSIDE then inv else inv.(dragSlots := DragAdd(inv.dragSlots, slot))
  }

  function NoDrag(inv: Inv): Inv {
    inv.(dragActive := false, dragSlots := [])
  }

  function SetOf(drag: seq<nat>): set<nat> {
    set s | s in drag
  }

  function At(slot: int): set<nat>
    requires slot == OUTSIDE || 0 <= slot
  {
    if slot == OUTSIDE then {} else {slot}
  }

  /** Every drag slot can take the cursor's item. */
  predicate DragFits(inv: Inv)
    requires inv.Shaped()
  {
    forall i | 0 <= i < |inv.dragSlots| ::
      SlotEmpty(inv.slots[inv.dragSlots[i]]) || SlotsSame(inv.slots[inv.dragSlots[i]], inv.cursor)
  }

  /** `per` items for each of the drag slots from the i-th on. */
  function Spread(slots: seq<Slot>, cursor: Slot, drag: seq<nat>, i: nat, per: nat): (r: seq<Slot>)
    requires i <= |drag| && forall j | 0 <= j < |drag| :: drag[j] < |slots|
    ensures |r| == |slots|
    decreases |drag| - i
  {
    if i == |drag| then slots
    else
      var d := slots[drag[i]];
      var had := if SlotEmpty(d) then cursor.(count := 0) else d;
      Spread(slots[drag[i] := had.(count := U8(had.count + per))], cursor, drag, i + 1, per)
  }

  /** One item for each drag slot from the i-th on, up to the first full one: the slots, the cursor's
      count (it wraps), and how far it got. */
  function Sow(slots: seq<Slot>, cursor: Slot, drag: seq<nat>, i: nat): (r: (seq<Slot>, byte, nat))
    requires i <= |drag| && forall j | 0 <= j < |drag| :: drag[j] < |slots|
    ensures |r.0| == |slots| && i <= r.2 <= |drag|
    decreases |drag| - i
  {
    if i == |drag| then (slots, cursor.count, i)
    else
      var d := slots[drag[i]];
      var had := if SlotEmpty(d) then cursor.(count := 0) else d;
      if had.count >= MAX_STACK then (slots, cursor.count, i)
      else
        Sow(slots[drag[i] := had.(count := had.count + 1)], cursor.(count := U8(cursor.count - 1)), drag, i + 1)
  }

  /** The end of a left drag: the cursor's items in equal parts. */
  function SpreadOut(inv: Inv): Result
    requires inv.Shaped() && |inv.dragSlots| > 0
  {
    var drag := inv.dragSlots;
    var per: nat := inv.cursor.count / |drag|;
    if per == 0 then Result(NoDrag(inv), true, None, {}, false)
    else
      var rest := Left(inv.cursor, U8(inv.cursor.count - per * |drag|));
      var next := inv.(slots := Spread(inv.slots, inv.cursor, drag, 0, per), cursor := rest);
      Result(NoDrag(next), true, None, SetOf(drag), true)
  }

  /** The end of a drag. */
  function DragEnd(inv: Inv): Result
    requires inv.Shaped()
  {
    var drag := inv.dragSlots;
    if !DragFits(inv) then Result(NoDrag(inv), false, None, SetOf(drag), true)
    else if |drag| == 0 then Result(NoDrag(inv), true, None, {}, false)
    else if inv.dragButton == 0 then SpreadOut(inv)
    else
      var s := Sow(inv.slots, inv.cursor, drag, 0);
      var next := inv.(slots := s.0, cursor := Left(inv.cursor, s.1));
      Result(NoDrag(next), s.2 == |drag|, None, SetOf(drag), true)
  }

  function DragClick(inv: Inv, c: Click): Result
    requires inv.Shaped() && (c.slot == OUTSIDE || 0 <= c.slot < INV_SIZE)
  {
    var left, right := LeftDrag(c.button), RightDrag(c.button);
    if (!left && !right) || SlotEmpty(inv.cursor) then
      Result(if inv.dragActive then NoDrag(inv) else inv, false, None,
             (if inv.dragActive then SetOf(inv.dragSlots) else {}) + At(c.slot), true)
    else if c.button <= 1 then
      if c.slot == OUTSIDE then Result(inv, false, None, {}, true)
      else
        var begun := inv.(dragActive := true, dragButton := if left then 0 else 1, dragSlots := [c.slot]);
        Result(begun, true, None, {}, false)
    else if !inv.dragActive || (left && inv.dragButton != 0) || (right && inv.dragButton != 1) then
      Result(inv, false, None, At(c.slot), true)
    else if c.button == 4 || c.button == 5 then Result(DragAddAt(inv, c.slot), true, None, {}, false)
    else DragEnd(DragAddAt(inv, c.slot))
  }

  // ---------------------------------------------------------------- mode 6: double click

  /** Collecting the cursor's kind from slot i on until the cursor is full. */
  function Collect(slots: seq<Slot>, cursor: Slot, i: nat): (r: (seq<Slot>, Slot, set<nat>))
    requires i <= |slots|
    ensures |r.0| == |slots|
    decreases |slots| - i
  {
    if i == |slots| || cursor.count >= MAX_STACK then (slots, cursor, {})
    else if SlotEmpty(slots[i]) || !SlotsSame(slots[i], cursor) then Collect(slots, cursor, i + 1)
    else
      var k := Least(MAX_STACK - cursor.count, slots[i].count);
      var next := slots[i := Left(slots[i], U8(slots[i].count - k))];
      var r := Collect(next, cursor.(count := U8(cursor.count + k)), i + 1);
      (r.0, r.1, r.2 + {i})
  }

  function CollectClick(inv: Inv): Result
    requires inv.Shaped()
  {
    if SlotEmpty(inv.cursor) then Result(inv, true, None, {}, false)
    else
      var r := Collect(inv.slots, inv.cursor, 1);
      Result(inv.(slots := r.0, cursor := r.1), true, None, r.2, true)
  }

  // ---------------------------------------------------------------- the whole machine

  /** A drag in progress survives only its own continuation. */
  predicate Continues(inv: Inv, c: Click) {
    c.mode == 5 && inv.dragActive
    && (((c.button == 4 || c.button == 8) && inv.dragButton == 0)
         || ((c.button == 5 || c.button == 9) && inv.dragButton == 1))
  }

  predicate Refused(c: Click) {
    c.window != 0 || c.mode > 6 || (c.slot != OUTSIDE && (c.slot < 0 || c.slot >= INV_SIZE))
  }

  function ByMode(inv: Inv, c: Click, entities: nat): Result
    requires inv.Shaped() && !Refused(c)
  {
    match c.mode
    case 0 => PlainClick(inv, c)
    case 1 => ShiftClick(inv, c)
    case 2 => SwapClick(inv, c)
    case 3 => Result(inv, false, None, At(c.slot), true)
    case 4 => DropClick(inv, c, entities)
    case 5 => DragClick(inv, c)
    case _ => CollectClick(inv)
  }

  /** ProcessClick. */
  function ProcessClick(inv: Inv, c: Click, entities: nat): Result
    requires inv.Shaped()
  {
    if Refused(c) then Result(inv, false, None, {}, false)
    else if inv.dragActive && !Continues(inv, c) then
      var r := ByMode(NoDrag(inv), c, entities);
      r.(dirty := r.dirty + SetOf(inv.dragSlots), cursorDirty := true)
    else ByMode(inv, c, entities)
  }
}
