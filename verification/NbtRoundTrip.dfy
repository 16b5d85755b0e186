/** Reading back what was written: exactly which trees survive, and exactly what budget it takes. */
module NbtRoundTrip {
  import opened Bytes
  import opened Nbt

  // ---------------------------------------------------------------- well-formed trees

  /** Values the byte form can carry: fixed-width patterns in range, lengths below 2^31,
      list elements all of the list's type, END never used as a value. */
  predicate Shaped(v: Val)
    decreases v
  {
    match v
    case End => false
    case Num(k, bits) => bits < Radix(k.Width())
    case ByteArray(data) => |data| < U31
    case Text(_) => true
    case IntArray(ints) => |ints| < U31
    case List(elem, items) => |items| < U31 && (|items| > 0 ==> elem != END) && ShapedItems(elem, items)
    case Compound(fields) => ShapedFields(fields)
  }

  predicate ShapedItems(elem: Id, items: seq<Val>)
    decreases items
  {
    |items| > 0 ==> items[0].TypeId() == elem && Shaped(items[0]) && ShapedItems(elem, items[1..])
  }

  predicate ShapedFields(fields: seq<Tag>)
    decreases fields
  {
    |fields| > 0 ==> ShapedTag(fields[0]) && ShapedFields(fields[1..])
  }

  predicate ShapedTag(t: Tag)
    decreases t
  {
    Shaped(t.v)
  }

  /** Every empty list in the tree is tagged END. */
  predicate EndTagged(v: Val)
    decreases v
  {
    match v
    case List(elem, items) => (|items| == 0 ==> elem == END) && EndTaggedItems(items)
    case Compound(fields) => EndTaggedFields(fields)
    case _ => true
  }

  predicate EndTaggedItems(items: seq<Val>)
    decreases items
  {
    |items| > 0 ==> EndTagged(items[0]) && EndTaggedItems(items[1..])
  }

  predicate EndTaggedFields(fields: seq<Tag>)
    decreases fields
  {
    |fields| > 0 ==> EndTaggedTag(fields[0]) && EndTaggedFields(fields[1..])
  }

  predicate EndTaggedTag(t: Tag)
    decreases t
  {
    EndTagged(t.v)
  }

  /** A value at depth d has no node deeper than the reader's limit. */
  predicate WithinDepth(v: Val, d: nat)
    decreases v
  {
    d <= MAX_DEPTH &&
    match v
    case List(_, items) => WithinDepthItems(items, d + 1)
    case Compound(fields) => WithinDepthFields(fields, d + 1)
    case _ => true
  }

  predicate WithinDepthItems(items: seq<Val>, d: nat)
    decreases items
  {
    |items| > 0 ==> WithinDepth(items[0], d) && WithinDepthItems(items[1..], d)
  }

  predicate WithinDepthFields(fields: seq<Tag>, d: nat)
    decreases fields
  {
    |fields| > 0 ==> WithinDepthTag(fields[0], d) && WithinDepthFields(fields[1..], d)
  }

  predicate WithinDepthTag(t: Tag, d: nat)
    decreases t
  {
    WithinDepth(t.v, d)
  }

  // ---------------------------------------------------------------- what a read costs

  /** What reading something takes off the budget, and how much more than that must be available.
      There is slack because growing a compound's array is checked against its whole new size. */
  datatype Bill = Bill(spend: nat, slack: nat) {
    /** The smallest budget that will do. */
    function Need(): nat {
      spend + slack
    }

    function Then(b: Bill): Bill {
      Bill(spend + b.spend, if slack > b.spend + b.slack then slack - b.spend else b.slack)
    }
  }

  function Flat(n: nat): Bill {
    Bill(n, 0)
  }

  function Growth(len: nat, cap: nat): Bill {
    if len == cap then Bill((NextCap(cap) - cap) * PTR_SIZE, cap * PTR_SIZE) else Flat(0)
  }

  function BillVal(v: Val): Bill
    decreases v
  {
    match v
    case End => Flat(0)
    case Num(k, _) => Flat(k.Width())
    case ByteArray(data) => Flat(4 + |data|)
    case Text(text) => Flat(3 + |text|)
    case IntArray(ints) => Flat(4 + 4 * |ints|)
    case List(_, items) => Flat(5 + |items| * PTR_SIZE).Then(BillItems(items))
    case Compound(fields) => BillFields(fields, 0, 0)
  }

  function BillItems(items: seq<Val>): Bill
    decreases items
  {
    if |items| == 0 then Flat(0) else Flat(TAG_SIZE).Then(BillVal(items[0])).Then(BillItems(items[1..]))
  }

  function BillFields(fields: seq<Tag>, len: nat, cap: nat): Bill
    decreases fields
  {
    if |fields| == 0 then Flat(1)
    else
      HeadBill(fields[0].name, len, cap).Then(BillTag(fields[0]))
      .Then(BillFields(fields[1..], len + 1, CapFor(len, cap)))
  }

  function BillTag(t: Tag): Bill
    decreases t
  {
    BillVal(t.v)
  }

  /** A child's id byte, its place in the array, its tag record and its name. */
  function HeadBill(name: Name, len: nat, cap: nat): Bill {
    Flat(1).Then(Growth(len, cap)).Then(Flat(TAG_SIZE + |name| + 3))
  }

  function BillRoot(t: Tag): Bill {
    Flat(1 + TAG_SIZE + |t.name| + 3).Then(BillVal(t.v))
  }

  /** The outcome of reading val, followed by rest, with a given budget. */
  function Settle<T>(bill: Bill, val: T, rest: bytes, budget: nat): Res<T> {
    if budget >= bill.Need() then Ok(val, rest, budget - bill.spend) else Fail(OverBudget)
  }

  // ---------------------------------------------------------------- reading back the pieces

  lemma TakePrefix(a: bytes, x: bytes, budget: nat)
    ensures Take(a + x, budget, |a|) == if budget >= |a| then Ok(a, x, budget - |a|) else Fail(OverBudget)
  {
    assert (a + x)[..|a|] == a && (a + x)[|a|..] == x;
  }

  lemma TakeOne(b: byte, x: bytes, budget: nat)
    ensures Take([b] + x, budget, 1) == if budget >= 1 then Ok([b], x, budget - 1) else Fail(OverBudget)
  {
    TakePrefix([b], x, budget);
  }

  lemma NameReadsBack(n: Name, x: bytes, budget: nat)
    ensures TakeName(SerName(n) + x, budget) == Settle(Flat(|n| + 3), n, x, budget)
  {
    RadixValues();
    assert SerName(n) + x == Be(|n|, 2) + (n + x);
    TakePrefix(Be(|n|, 2), n + x, budget);
    FromBeOfBe(|n|, 2);
    assert (n + x)[..|n|] == n && (n + x)[|n|..] == x;
  }

  lemma CountReadsBack(n: nat, x: bytes, budget: nat)
    requires n < U31
    ensures TakeCount(Be(n, 4) + x, budget) == Settle(Flat(4), n, x, budget)
  {
    RadixValues();
    TakePrefix(Be(n, 4), x, budget);
    FromBeOfBe(n, 4);
  }

  lemma ByteArrayReadsBack(data: bytes, x: bytes, budget: nat)
    requires |data| < U31
    ensures ReadByteArray(SerVal(ByteArray(data)) + x, budget) == Settle(Flat(4 + |data|), ByteArray(data), x, budget)
  {
    assert SerVal(ByteArray(data)) + x == Be(|data|, 4) + (data + x);
    CountReadsBack(|data|, data + x, budget);
    assert (data + x)[..|data|] == data && (data + x)[|data|..] == x;
  }

  lemma IntArrayReadsBack(ints: seq<u32>, x: bytes, budget: nat)
    requires |ints| < U31
    ensures ReadIntArray(SerVal(IntArray(ints)) + x, budget) == Settle(Flat(4 + 4 * |ints|), IntArray(ints), x, budget)
  {
    var s := BeWords(ints);
    assert SerVal(IntArray(ints)) + x == Be(|ints|, 4) + (s + x);
    CountReadsBack(|ints|, s + x, budget);
    assert (s + x)[..4 * |ints|] == s && (s + x)[4 * |ints|..] == x;
    WordsOfBeWords(ints);
  }

  lemma NumReadsBack(k: NumKind, bits: nat, x: bytes, budget: nat)
    requires bits < Radix(k.Width())
    ensures ReadNum(k, SerVal(Num(k, bits)) + x, budget) == Settle(Flat(k.Width()), Num(k, bits), x, budget)
  {
    TakePrefix(Be(bits, k.Width()), x, budget);
    FromBeOfBe(bits, k.Width());
  }

  lemma TextReadsBack(text: Name, x: bytes, budget: nat)
    ensures ReadText(SerVal(Text(text)) + x, budget) == Settle(Flat(3 + |text|), Text(text), x, budget)
  {
    assert SerVal(Text(text)) == SerName(text);
    NameReadsBack(text, x, budget);
  }

  lemma LeafReadsBack(v: Val, x: bytes, budget: nat)
    requires Shaped(v) && !v.List? && !v.Compound?
    ensures ReadLeaf(v.TypeId(), SerVal(v) + x, budget) == Settle(BillVal(v), v, x, budget)
  {
    hide ReadNum, ReadByteArray, ReadText, ReadIntArray, SerVal;
    match v {
      case Num(k, bits) =>
        NumReadsBack(k, bits, x, budget);
        assert NumKindOf(v.TypeId()) == k;
      case ByteArray(data) => ByteArrayReadsBack(data, x, budget);
      case Text(text) => TextReadsBack(text, x, budget);
      case IntArray(ints) => IntArrayReadsBack(ints, x, budget);
    }
  }

  lemma ListHeadReadsBack(id: Id, n: nat, x: bytes, budget: nat)
    requires n < U31 && (n > 0 ==> id != END)
    ensures ReadListHead([id] + (Be(n, 4) + x), budget) == Settle(Flat(5 + n * PTR_SIZE), (id, n), x, budget)
  {
    TakeOne(id, Be(n, 4) + x, budget);
    if budget >= 1 {
      CountReadsBack(n, x, budget - 1);
    }
  }

  lemma FieldHeadReadsBack(id: Id, name: Name, x: bytes, budget: nat, len: nat, cap: nat)
    requires id != END
    ensures ReadFieldHead([id] + (SerName(name) + x), budget, len, cap)
         == Settle(HeadBill(name, len, cap), (id, name), x, budget)
  {
    TakeOne(id, SerName(name) + x, budget);
    var bill := Flat(1).Then(Growth(len, cap));
    if budget >= bill.Need() && budget >= bill.spend + TAG_SIZE {
      NameReadsBack(name, x, budget - bill.spend - TAG_SIZE);
    }
  }

  lemma ListCons(elem: Id, items: seq<Val>, s: bytes, s1: bytes, x: bytes, budget: nat, d: nat, bill: Bill)
    requires d <= MAX_DEPTH
    requires ReadListHead(s, budget) == Settle(Flat(5 + |items| * PTR_SIZE), (elem, |items|), s1, budget)
    requires budget >= 5 + |items| * PTR_SIZE ==>
      ReadItems(elem, |items|, s1, budget - 5 - |items| * PTR_SIZE, d + 1)
      == Settle(bill, items, x, budget - 5 - |items| * PTR_SIZE)
    ensures ReadVal(LIST, s, budget, d) == Settle(Flat(5 + |items| * PTR_SIZE).Then(bill), List(elem, items), x, budget)
  {
    hide ReadListHead, ReadItems;
  }

  lemma {:induction false} ListReadsBack(elem: Id, items: seq<Val>, x: bytes, budget: nat, d: nat)
    requires |items| < U31 && (|items| > 0 <==> elem != END) && d <= MAX_DEPTH
    requires ShapedItems(elem, items) && EndTaggedItems(items) && WithinDepthItems(items, d + 1)
    ensures ReadVal(LIST, [elem] + (Be(|items|, 4) + (SerItems(items) + x)), budget, d)
         == Settle(Flat(5 + |items| * PTR_SIZE).Then(BillItems(items)), List(elem, items), x, budget)
    decreases items, 1
  {
    hide ReadVal, ReadItems, ReadListHead, SerItems, BillItems;
    var s := SerItems(items) + x;
    ListHeadReadsBack(elem, |items|, s, budget);
    if budget >= 5 + |items| * PTR_SIZE {
      ItemsReadBack(elem, items, x, budget - 5 - |items| * PTR_SIZE, d + 1);
    }
    ListCons(elem, items, [elem] + (Be(|items|, 4) + s), s, x, budget, d, BillItems(items));
  }

  lemma {:induction false} ValReadsBack(v: Val, x: bytes, budget: nat, d: nat)
    requires Shaped(v) && EndTagged(v) && WithinDepth(v, d)
    ensures ReadVal(v.TypeId(), SerVal(v) + x, budget, d) == Settle(BillVal(v), v, x, budget)
    decreases v
  {
    hide ReadLeaf, ReadItems, ReadFields, ReadListHead, SerItems, SerFields, BillItems, BillFields;
    match v {
      case List(elem, items) =>
        assert SerVal(v) + x == [elem] + (Be(|items|, 4) + (SerItems(items) + x));
        ListReadsBack(elem, items, x, budget, d);
      case Compound(fields) =>
        FieldsReadBack(fields, x, budget, d + 1, 0, 0);
      case _ =>
        LeafReadsBack(v, x, budget);
    }
  }

  lemma ItemsCons(id: Id, v: Val, more: seq<Val>, s: bytes, s1: bytes, x: bytes, budget: nat, d: nat, bv: Bill,
                  bm: Bill)
    requires budget >= TAG_SIZE ==> ReadVal(id, s, budget - TAG_SIZE, d) == Settle(bv, v, s1, budget - TAG_SIZE)
    requires budget >= TAG_SIZE + bv.Need() ==>
      ReadItems(id, |more|, s1, budget - TAG_SIZE - bv.spend, d) == Settle(bm, more, x, budget - TAG_SIZE - bv.spend)
    ensures ReadItems(id, |more| + 1, s, budget, d) == Settle(Flat(TAG_SIZE).Then(bv).Then(bm), [v] + more, x, budget)
  {
  }

  /** Writing a list, or a compound, then x: the first child is written in front of the others. */
  lemma ItemsWrittenFrontFirst(items: seq<Val>, x: bytes)
    requires |items| > 0
    ensures SerItems(items) + x == SerVal(items[0]) + (SerItems(items[1..]) + x)
  {
  }

  lemma FieldsWrittenFrontFirst(fields: seq<Tag>, x: bytes)
    requires |fields| > 0
    ensures SerFields(fields) + x == TagThen(fields[0], SerFields(fields[1..]) + x)
  {
    hide SerName, SerVal, SerTag;
    var t, more := fields[0], SerFields(fields[1..]);
    assert SerFields(fields) == SerTag(t) + more;
    TagWrittenFront(t, more + x);
    assert SerTag(t) + more + x == SerTag(t) + (more + x);
  }

  lemma TagWrittenFront(t: Tag, x: bytes)
    ensures SerTag(t) + x == TagThen(t, x)
  {
    hide SerName, SerVal;
    var a, b, c := [t.v.TypeId()], SerName(t.name), SerVal(t.v);
    assert a + (b + c) + x == a + (b + (c + x));
  }

  function TagThen(t: Tag, x: bytes): bytes {
    [t.v.TypeId()] + (SerName(t.name) + (SerVal(t.v) + x))
  }

  lemma ItemsNil(id: Id, x: bytes, budget: nat, d: nat)
    ensures ReadItems(id, 0, SerItems([]) + x, budget, d) == Settle(BillItems([]), [], x, budget)
  {
    assert SerItems([]) + x == x;
  }

  lemma BillItemsFrontFirst(items: seq<Val>)
    requires |items| > 0
    ensures BillItems(items) == Flat(TAG_SIZE).Then(BillVal(items[0])).Then(BillItems(items[1..]))
  {
  }

  lemma {:induction false} ItemsReadBack(elem: Id, items: seq<Val>, x: bytes, budget: nat, d: nat)
    requires ShapedItems(elem, items) && EndTaggedItems(items) && WithinDepthItems(items, d)
    ensures ReadItems(elem, |items|, SerItems(items) + x, budget, d) == Settle(BillItems(items), items, x, budget)
    decreases items, 0
  {
    hide ReadVal, ReadItems, SerVal, SerItems, BillVal, BillItems;
    if |items| == 0 {
      assert items == [];
      ItemsNil(elem, x, budget, d);
    } else {
      var v, more := items[0], items[1..];
      var s := SerItems(more) + x;
      if budget >= TAG_SIZE {
        ValReadsBack(v, s, budget - TAG_SIZE, d);
        if budget - TAG_SIZE >= BillVal(v).Need() {
          ItemsReadBack(elem, more, x, budget - TAG_SIZE - BillVal(v).spend, d);
        }
      }
      ItemsCons(elem, v, more, SerVal(v) + s, s, x, budget, d, BillVal(v), BillItems(more));
      BillItemsFrontFirst(items);
      ItemsWrittenFrontFirst(items, x);
      assert items == [v] + more;
    }
  }

  lemma FieldsCons(t: Tag, more: seq<Tag>, s: bytes, s1: bytes, s2: bytes, x: bytes, budget: nat, d: nat,
                   len: nat, cap: nat, bh: Bill, bv: Bill, bm: Bill)
    requires t.v.TypeId() != END
    requires ReadFieldHead(s, budget, len, cap) == Settle(bh, (t.v.TypeId(), t.name), s1, budget)
    requires budget >= bh.Need() ==>
      ReadVal(t.v.TypeId(), s1, budget - bh.spend, d) == Settle(bv, t.v, s2, budget - bh.spend)
    requires budget >= bh.Need() && budget - bh.spend >= bv.Need() ==>
      ReadFields(s2, budget - bh.spend - bv.spend, d, len + 1, CapFor(len, cap))
      == Settle(bm, more, x, budget - bh.spend - bv.spend)
    ensures ReadFields(s, budget, d, len, cap) == Settle(bh.Then(bv).Then(bm), [t] + more, x, budget)
  {
    hide ReadVal, ReadFieldHead;
  }

  lemma FieldsNil(x: bytes, budget: nat, d: nat, len: nat, cap: nat)
    ensures ReadFields(SerFields([]) + x, budget, d, len, cap) == Settle(BillFields([], len, cap), [], x, budget)
  {
    TakeOne(END, x, budget);
  }

  lemma BillFieldsFrontFirst(fields: seq<Tag>, len: nat, cap: nat)
    requires |fields| > 0
    ensures BillFields(fields, len, cap)
         == HeadBill(fields[0].name, len, cap).Then(BillVal(fields[0].v))
            .Then(BillFields(fields[1..], len + 1, CapFor(len, cap)))
  {
  }

  lemma {:induction false} FieldsReadBack(fields: seq<Tag>, x: bytes, budget: nat, d: nat, len: nat, cap: nat)
    requires ShapedFields(fields) && EndTaggedFields(fields) && WithinDepthFields(fields, d)
    ensures ReadFields(SerFields(fields) + x, budget, d, len, cap) ==
      Settle(BillFields(fields, len, cap), fields, x, budget)
    decreases fields
  {
    hide ReadVal, ReadFields, SerVal, SerFields, BillVal, BillFields, ReadFieldHead, HeadBill;
    if |fields| == 0 {
      assert fields == [];
      FieldsNil(x, budget, d, len, cap);
    } else {
      var t, more, cap' := fields[0], fields[1..], CapFor(len, cap);
      var s := SerFields(more) + x;
      var bh, bv := HeadBill(t.name, len, cap), BillVal(t.v);
      assert Shaped(t.v);
      FieldHeadReadsBack(t.v.TypeId(), t.name, SerVal(t.v) + s, budget, len, cap);
      if budget >= bh.Need() {
        TagReadsBack(t, s, budget - bh.spend, d);
        if budget - bh.spend >= bv.Need() {
          FieldsReadBack(more, x, budget - bh.spend - bv.spend, d, len + 1, cap');
        }
      }
      var bm := BillFields(more, len + 1, cap');
      FieldsCons(t, more, TagThen(t, s), SerVal(t.v) + s, s, x, budget, d, len, cap, bh, bv, bm);
      BillFieldsFrontFirst(fields, len, cap);
      FieldsWrittenFrontFirst(fields, x);
      assert fields == [t] + more;
    }
  }

  lemma {:induction false} TagReadsBack(t: Tag, x: bytes, budget: nat, d: nat)
    requires ShapedTag(t) && EndTaggedTag(t) && WithinDepthTag(t, d)
    ensures ReadVal(t.v.TypeId(), SerVal(t.v) + x, budget, d) == Settle(BillTag(t), t.v, x, budget)
    decreases t
  {
    ValReadsBack(t.v, x, budget, d);
  }

  lemma RootHeadReadsBack(id: Id, name: Name, x: bytes, budget: nat)
    requires id != END
    ensures ReadRootHead([id] + (SerName(name) + x), budget)
         == Settle(Flat(1 + TAG_SIZE + |name| + 3), (id, name), x, budget)
  {
    TakeOne(id, SerName(name) + x, budget);
    if budget >= 1 + TAG_SIZE {
      NameReadsBack(name, x, budget - 1 - TAG_SIZE);
    }
  }

  /** The round trip: a well-formed tree, written and followed by any bytes, is read back exactly and
      only its own bytes are consumed, if and only if the budget reaches the tree's stated need. */
  lemma ParseOfSerialize(t: Tag, x: bytes, budget: nat)
    requires Shaped(t.v) && EndTagged(t.v) && WithinDepth(t.v, 0) && budget > 0
    ensures Parse(SerTag(t) + x, budget) == Settle(BillRoot(t), t, x, budget)
    ensures Parse(SerTag(t) + x, budget).Ok? <==> budget >= BillRoot(t).Need()
  {
    hide ReadVal, SerVal, BillVal, ReadRootHead;
    var s := SerVal(t.v) + x;
    assert SerTag(t) + x == [t.v.TypeId()] + (SerName(t.name) + s);
    RootHeadReadsBack(t.v.TypeId(), t.name, s, budget);
    if budget >= 1 + TAG_SIZE + |t.name| + 3 {
      ValReadsBack(t.v, x, budget - 1 - TAG_SIZE - |t.name| - 3, 0);
    }
  }
}
