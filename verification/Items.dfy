/** Item stacks: what counts as the same item, and how many of it there are. */
module Items {
  import opened Bytes
  import opened Nbt
  import opened NbtEqual

  const INV_SIZE: nat := 45
  const MAX_STACK: nat := 64
  const MAX_ENTITIES: nat := 512

  /** proto::Slot; count is a uint8_t, and id -1 means empty. */
  datatype Slot = Slot(id: int, count: byte, damage: int, nbt: Option<Val>)

  const NO_ITEM := Slot(-1, 0, 0, None)

  predicate SlotEmpty(s: Slot) {
    s.id == -1
  }

  /** SlotsSame. */
  predicate SlotsSame(a: Slot, b: Slot) {
    a.id == b.id && a.damage == b.damage
    && if a.nbt.None? || b.nbt.None? then a.nbt.None? && b.nbt.None? else Equal(a.nbt.value, b.nbt.value)
  }

  /** Cast to uint8_t. */
  function U8(n: int): byte {
    n % 256
  }

  /** What an item is, apart from how many. */
  datatype Kind = Kind(id: int, damage: int, nbt: Option<Meaning>)

  function KindOf(s: Slot): Kind {
    Kind(s.id, s.damage, match s.nbt case None => None case Some(v) => Some(Mean(v)))
  }

  /** The stack's extra data has distinct sibling names. */
  predicate CleanSlot(s: Slot) {
    s.nbt.Some? ==> Clean(s.nbt.value)
  }

  /** SlotsSame decides whether two stacks are of one kind. */
  lemma SameIsSameKind(a: Slot, b: Slot)
    requires CleanSlot(a) && CleanSlot(b)
    ensures SlotsSame(a, b) <==> KindOf(a) == KindOf(b)
  {
    if a.nbt.Some? && b.nbt.Some? {
      EqualIsSameMeaning(a.nbt.value, b.nbt.value);
    }
  }

  /** How many of kind k a slot holds. */
  function Amount(s: Slot, k: Kind): nat {
    if !SlotEmpty(s) && KindOf(s) == k then s.count else 0
  }

  /** What n items of a stack are in items of kind k. */
  function Share(stack: Slot, n: nat, k: Kind): nat {
    if KindOf(stack) == k then n else 0
  }

  function Total(slots: seq<Slot>, k: Kind): nat {
    if |slots| == 0 then 0 else Amount(slots[0], k) + Total(slots[1..], k)
  }

  lemma {:induction false} TotalOfUpdate(slots: seq<Slot>, i: nat, s: Slot, k: Kind)
    requires i < |slots|
    ensures Total(slots[i := s], k) + Amount(slots[i], k) == Total(slots, k) + Amount(s, k)
  {
    var t := slots[i := s];
    if i == 0 {
      assert t[1..] == slots[1..];
    } else {
      assert t[1..] == slots[1..][i - 1 := s];
      TotalOfUpdate(slots[1..], i - 1, s, k);
    }
  }

  /** A stack as the game means it: empty, or 1..64 items. */
  predicate SaneSlot(s: Slot) {
    CleanSlot(s) && (SlotEmpty(s) || 1 <= s.count <= MAX_STACK)
  }

  predicate SaneSlots(slots: seq<Slot>) {
    forall i | 0 <= i < |slots| :: SaneSlot(slots[i])
  }
}
