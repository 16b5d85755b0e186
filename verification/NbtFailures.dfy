/** How reading fails: for good, for lack of input, or because a tree is too deep; and the bytes a tree is
    written as. */
module NbtFailures {
  import opened Bytes
  import opened Nbt
  import opened NbtRoundTrip
  import opened NbtAccounting

  // ---------------------------------------------------------------- failing for good

  /** r is for lack of input, or the same with more input behind. */
  predicate Final<T(==)>(r: Res<T>, more: Res<T>, x: bytes) {
    r == Fail(Truncated) || more == Extended(r, x, 0)
  }

  lemma TakeIsFinal(s: bytes, budget: nat, n: nat, x: bytes)
    ensures Final(Take(s, budget, n), Take(s + x, budget, n), x)
  {
    if Take(s, budget, n).Ok? {
      TakeExtends(s, budget, n, x, 0);
    }
  }

  lemma NameIsFinal(s: bytes, budget: nat, x: bytes)
    ensures Final(TakeName(s, budget), TakeName(s + x, budget), x)
  {
    TakeIsFinal(s, budget, 2, x);
    if TakeName(s, budget).Ok? {
      NameExtends(s, budget, x, 0);
    }
  }

  lemma CountIsFinal(s: bytes, budget: nat, x: bytes)
    ensures Final(TakeCount(s, budget), TakeCount(s + x, budget), x)
  {
    TakeIsFinal(s, budget, 4, x);
  }

  lemma LeafIsFinal(id: Id, s: bytes, budget: nat, x: bytes)
    requires id != LIST && id != COMPOUND
    ensures Final(ReadLeaf(id, s, budget), ReadLeaf(id, s + x, budget), x)
  {
    hide TakeName, TakeCount, Take;
    if ReadLeaf(id, s, budget).Ok? {
      LeafExtends(id, s, budget, x, 0);
    } else if id == END {
    } else if id <= 6 {
      TakeIsFinal(s, budget, NumKindOf(id).Width(), x);
    } else if id == TEXT {
      NameIsFinal(s, budget, x);
    } else {
      CountIsFinal(s, budget, x);
    }
  }

  lemma ListHeadIsFinal(s: bytes, budget: nat, x: bytes)
    ensures Final(ReadListHead(s, budget), ReadListHead(s + x, budget), x)
  {
    hide TakeCount;
    TakeIsFinal(s, budget, 1, x);
    if Take(s, budget, 1).Ok? {
      CountIsFinal(s[1..], budget - 1, x);
      assert (s + x)[1..] == s[1..] + x;
    }
  }

  lemma FieldHeadIsFinal(s: bytes, budget: nat, len: nat, cap: nat, x: bytes)
    ensures Final(ReadFieldHead(s, budget, len, cap), ReadFieldHead(s + x, budget, len, cap), x)
  {
    hide TakeName;
    TakeIsFinal(s, budget, 1, x);
    if ReadFieldHead(s, budget, len, cap).Ok? {
      FieldHeadExtends(s, budget, len, cap, x, 0);
    } else if Take(s, budget, 1).Ok? && s[0] != END && s[0] <= 11 {
      var left := budget - 1 - (CapFor(len, cap) - cap) * PTR_SIZE - TAG_SIZE;
      if !(len == cap && NextCap(cap) * PTR_SIZE > budget - 1) && left >= 0 {
        NameIsFinal(s[1..], left, x);
      }
      assert (s + x)[1..] == s[1..] + x;
    }
  }

  lemma RootHeadIsFinal(s: bytes, budget: nat, x: bytes)
    ensures Final(ReadRootHead(s, budget), ReadRootHead(s + x, budget), x)
  {
    hide TakeName;
    TakeIsFinal(s, budget, 1, x);
    if Take(s, budget, 1).Ok? && budget >= 1 + TAG_SIZE {
      NameIsFinal(s[1..], budget - 1 - TAG_SIZE, x);
      assert (s + x)[1..] == s[1..] + x;
    }
  }

  lemma {:induction false} ValIsFinal(id: Id, s: bytes, budget: nat, d: nat, x: bytes)
    ensures Final(ReadVal(id, s, budget, d), ReadVal(id, s + x, budget, d), x)
    decreases |s|, 1
  {
    hide ReadListHead, ReadLeaf, ReadItems, ReadFields;
    if d > MAX_DEPTH {
    } else if id == LIST {
      ListHeadIsFinal(s, budget, x);
      var h := ReadListHead(s, budget);
      if h.Ok? {
        ItemsAreFinal(h.val.0, h.val.1, h.rest, h.budget, d + 1, x);
      }
    } else if id == COMPOUND {
      FieldsAreFinal(s, budget, d + 1, 0, 0, x);
    } else {
      LeafIsFinal(id, s, budget, x);
    }
  }

  lemma {:induction false} ItemsAreFinal(id: Id, n: nat, s: bytes, budget: nat, d: nat, x: bytes)
    ensures Final(ReadItems(id, n, s, budget, d), ReadItems(id, n, s + x, budget, d), x)
    decreases |s|, 2
  {
    hide ReadVal;
    if n > 0 && budget >= TAG_SIZE {
      ValIsFinal(id, s, budget - TAG_SIZE, d, x);
      var v := ReadVal(id, s, budget - TAG_SIZE, d);
      if v.Ok? {
        ItemsAreFinal(id, n - 1, v.rest, v.budget, d, x);
      }
    }
  }

  lemma {:induction false} FieldsAreFinal(s: bytes, budget: nat, d: nat, len: nat, cap: nat, x: bytes)
    ensures Final(ReadFields(s, budget, d, len, cap), ReadFields(s + x, budget, d, len, cap), x)
    decreases |s|, 0
  {
    hide ReadVal, ReadFieldHead;
    FieldHeadIsFinal(s, budget, len, cap, x);
    var h := ReadFieldHead(s, budget, len, cap);
    if h.Ok? && h.val.0 != END {
      ValIsFinal(h.val.0, h.rest, h.budget, d, x);
      var v := ReadVal(h.val.0, h.rest, h.budget, d);
      if v.Ok? {
        FieldsAreFinal(v.rest, v.budget, d, len + 1, CapFor(len, cap), x);
      }
    }
  }

  /** A failure that is not for lack of input is the same whatever follows. */
  lemma FailureIsFinal(s: bytes, budget: nat, x: bytes)
    ensures Parse(s, budget).Fail? && Parse(s, budget).err != Truncated ==> Parse(s + x, budget) == Parse(s, budget)
  {
    hide ReadVal, ReadRootHead;
    var b := if budget == 0 then DEFAULT_BUDGET else budget;
    RootHeadIsFinal(s, b, x);
    var h := ReadRootHead(s, b);
    if h.Ok? {
      ValIsFinal(h.val.0, h.rest, h.budget, 0, x);
    }
  }

  /** A limit of 0 stands for 64 MiB. */
  lemma NoLimitIs64MiB(s: bytes)
    ensures Parse(s, 0) == Parse(s, 64 * 1024 * 1024)
  {
  }

  /** Cut anywhere within the bytes it uses, an accepted input lacks input: no more and no less. */
  lemma CutShortIsTruncated(s: bytes, budget: nat, n: nat)
    requires budget > 0 && Parse(s, budget).Ok? && n < |s| - |Parse(s, budget).rest|
    ensures Parse(s[..n], budget) == Fail(Truncated)
  {
    hide Parse;
    var r := Parse(s[..n], budget);
    assert s[..n] + s[n..] == s;
    FailureIsFinal(s[..n], budget, s[n..]);
    if r.Ok? {
      ParseExtends(s[..n], budget, s[n..], 0);
    }
  }

  /** Types above 11, or END where a value must be, are bad ids; negative lengths, a non-empty list of END and END as
      a payload are bad data; no input at all is too little. */
  lemma MalformedInputs(s: bytes, b: byte, n: u32, x: bytes, budget: nat, d: nat)
    requires d <= 512 && budget >= 64
    ensures Parse([], budget) == Fail(Truncated)
    ensures |s| > 0 && (s[0] == 0 || s[0] > 11) ==> Parse(s, budget) == Fail(BadId)
    ensures b > 11 ==> ReadVal(9, [b] + x, budget, d) == Fail(BadId) && ReadVal(10, [b] + x, budget, d) == Fail(BadId)
    ensures b <= 11 && n >= 0x8000_0000 ==> ReadVal(9, [b] + (Be(n, 4) + x), budget, d) == Fail(BadData)
    ensures 0 < n < 0x8000_0000 ==> ReadVal(9, [0] + (Be(n, 4) + x), budget, d) == Fail(BadData)
    ensures n >= 0x8000_0000 ==> ReadVal(7, Be(n, 4) + x, budget, d) == Fail(BadData)
    ensures n >= 0x8000_0000 ==> ReadVal(11, Be(n, 4) + x, budget, d) == Fail(BadData)
    ensures ReadVal(0, s, budget, d) == Fail(BadData)
  {
    hide TakeName, ReadNum, ReadText, Be, FromBe, ReadItems;
    TakeOne(b, x, budget);
    TakeOne(b, Be(n, 4) + x, budget);
    TakeOne(0, Be(n, 4) + x, budget);
    CountIs(n, x, budget);
    CountIs(n, x, budget - 1);
  }

  lemma CountIs(n: u32, x: bytes, budget: nat)
    requires budget >= 4
    ensures TakeCount(Be(n, 4) + x, budget) == if n >= U31 then Fail(BadData) else Ok(n, x, budget - 4)
  {
    hide Be, FromBe;
    RadixValues();
    TakePrefix(Be(n, 4), x, budget);
    FromBeOfBe(n, 4);
  }

  // ---------------------------------------------------------------- too deep

  lemma {:induction false} ValTooDeep(v: Val, x: bytes, budget: nat, d: nat)
    requires Shaped(v) && EndTagged(v) && !WithinDepth(v, d) && budget >= BillVal(v).Need()
    ensures ReadVal(v.TypeId(), SerVal(v) + x, budget, d) == Fail(TooDeep)
    decreases v
  {
    hide ReadItems, ReadFields, ReadListHead, SerItems, SerFields, BillItems, BillFields;
    if d <= MAX_DEPTH {
      match v {
        case List(elem, items) =>
          assert SerVal(v) + x == [elem] + (Be(|items|, 4) + (SerItems(items) + x));
          ListHeadReadsBack(elem, |items|, SerItems(items) + x, budget);
          ItemsTooDeep(elem, items, x, budget - 5 - |items| * PTR_SIZE, d + 1);
        case Compound(fields) =>
          FieldsTooDeep(fields, x, budget, d + 1, 0, 0);
      }
    }
  }

  lemma {:induction false} ItemsTooDeep(elem: Id, items: seq<Val>, x: bytes, budget: nat, d: nat)
    requires ShapedItems(elem, items) && EndTaggedItems(items) && !WithinDepthItems(items, d)
    requires budget >= BillItems(items).Need()
    ensures ReadItems(elem, |items|, SerItems(items) + x, budget, d) == Fail(TooDeep)
    decreases items
  {
    hide ReadVal, SerVal, SerItems, BillVal, BillItems;
    var v, more := items[0], items[1..];
    var s := SerItems(more) + x;
    BillItemsFrontFirst(items);
    ItemsWrittenFrontFirst(items, x);
    if WithinDepth(v, d) {
      ValReadsBack(v, s, budget - TAG_SIZE, d);
      ItemsTooDeep(elem, more, x, budget - TAG_SIZE - BillVal(v).spend, d);
    } else {
      ValTooDeep(v, s, budget - TAG_SIZE, d);
    }
  }

  lemma {:induction false} FieldsTooDeep(fields: seq<Tag>, x: bytes, budget: nat, d: nat, len: nat, cap: nat)
    requires ShapedFields(fields) && EndTaggedFields(fields) && !WithinDepthFields(fields, d)
    requires budget >= BillFields(fields, len, cap).Need()
    ensures ReadFields(SerFields(fields) + x, budget, d, len, cap) == Fail(TooDeep)
    decreases fields
  {
    hide ReadVal, SerVal, SerFields, BillVal, BillFields, ReadFieldHead, HeadBill;
    var t, more := fields[0], fields[1..];
    var s, bh := SerFields(more) + x, HeadBill(t.name, len, cap);
    ShapedIsNotEnd(t);
    BillFieldsFrontFirst(fields, len, cap);
    FieldsWrittenFrontFirst(fields, x);
    FieldHeadReadsBack(t.v.TypeId(), t.name, SerVal(t.v) + s, budget, len, cap);
    if WithinDepthTag(t, d) {
      TagReadsBack(t, s, budget - bh.spend, d);
      FieldsTooDeep(more, x, budget - bh.spend - BillVal(t.v).spend, d, len + 1, CapFor(len, cap));
    } else {
      TagTooDeep(t, s, budget - bh.spend, d);
    }
  }

  lemma ShapedIsNotEnd(t: Tag)
    requires ShapedTag(t)
    ensures t.v.TypeId() != END
  {
  }

  lemma {:induction false} TagTooDeep(t: Tag, x: bytes, budget: nat, d: nat)
    requires ShapedTag(t) && EndTaggedTag(t) && !WithinDepthTag(t, d) && budget >= BillTag(t).Need()
    ensures ReadVal(t.v.TypeId(), SerVal(t.v) + x, budget, d) == Fail(TooDeep)
    decreases t
  {
    ValTooDeep(t.v, x, budget, d);
  }

  /** How many levels of children a value has. */
  function Levels(v: Val): nat
    decreases v
  {
    match v
    case List(_, items) => LevelsOfItems(items)
    case Compound(fields) => LevelsOfFields(fields)
    case _ => 0
  }

  function LevelsOfItems(items: seq<Val>): nat
    decreases items
  {
    if |items| == 0 then 0 else Deeper(1 + Levels(items[0]), LevelsOfItems(items[1..]))
  }

  function LevelsOfFields(fields: seq<Tag>): nat
    decreases fields
  {
    if |fields| == 0 then 0 else Deeper(1 + LevelsOfTag(fields[0]), LevelsOfFields(fields[1..]))
  }

  function LevelsOfTag(t: Tag): nat
    decreases t
  {
    Levels(t.v)
  }

  function Deeper(a: nat, b: nat): nat {
    if a > b then a else b
  }

  lemma {:induction false} DepthIsLevels(v: Val, d: nat)
    requires d <= 512
    ensures WithinDepth(v, d) <==> d + Levels(v) <= 512
    decreases v
  {
    match v
    case List(_, items) => ItemLevels(items, d + 1);
    case Compound(fields) => FieldLevels(fields, d + 1);
    case _ =>
  }

  lemma {:induction false} ItemLevels(items: seq<Val>, d: nat)
    requires 1 <= d <= 513
    ensures WithinDepthItems(items, d) <==> d - 1 + LevelsOfItems(items) <= 512
    decreases items
  {
    if |items| > 0 {
      ItemLevels(items[1..], d);
      if d <= 512 {
        DepthIsLevels(items[0], d);
      }
    }
  }

  lemma {:induction false} FieldLevels(fields: seq<Tag>, d: nat)
    requires 1 <= d <= 513
    ensures WithinDepthFields(fields, d) <==> d - 1 + LevelsOfFields(fields) <= 512
    decreases fields
  {
    if |fields| > 0 {
      FieldLevels(fields[1..], d);
      if d <= 512 {
        TagLevels(fields[0], d);
      } else {
        TooLow(fields[0]);
      }
    }
  }

  lemma TooLow(t: Tag)
    ensures !WithinDepthTag(t, 513)
  {
  }

  lemma {:induction false} TagLevels(t: Tag, d: nat)
    requires d <= 512
    ensures WithinDepthTag(t, d) <==> d + LevelsOfTag(t) <= 512
    decreases t
  {
    DepthIsLevels(t.v, d);
  }

  /** With enough budget a well-formed tree is refused as too deep exactly when it has more than 512 levels of
      children. */
  lemma DepthDecides(t: Tag, x: bytes, budget: nat)
    requires Shaped(t.v) && EndTagged(t.v) && budget > 0 && budget >= BillRoot(t).Need()
    ensures Parse(SerTag(t) + x, budget) ==
      if Levels(t.v) <= 512 then Ok(t, x, budget - BillRoot(t).spend) else Fail(TooDeep)
  {
    hide ReadVal, SerVal, BillVal, ReadRootHead;
    DepthIsLevels(t.v, 0);
    if WithinDepth(t.v, 0) {
      ParseOfSerialize(t, x, budget);
    } else {
      var s := SerVal(t.v) + x;
      assert SerTag(t) + x == [t.v.TypeId()] + (SerName(t.name) + s);
      RootHeadReadsBack(t.v.TypeId(), t.name, s, budget);
      ValTooDeep(t.v, x, budget - 1 - TAG_SIZE - |t.name| - 3, 0);
    }
  }

  // ---------------------------------------------------------------- the bytes

  /** The type byte of every kind. */
  lemma TypeBytes(v: Val)
    ensures v.TypeId() == if v.End? then 0
      else if v.Num? && v.kind.KByte? then 1
      else if v.Num? && v.kind.KShort? then 2
      else if v.Num? && v.kind.KInt? then 3
      else if v.Num? && v.kind.KLong? then 4
      else if v.Num? && v.kind.KFloat? then 5
      else if v.Num? then 6
      else if v.ByteArray? then 7
      else if v.Text? then 8
      else if v.List? then 9
      else if v.Compound? then 10
      else 11
  {
  }

  /** A named tag: its type, two bytes of name length, the name, the payload. */
  lemma TagBytes(t: Tag)
    ensures SerTag(t) == [t.v.TypeId(), |t.name| / 256, |t.name| % 256] + t.name + SerVal(t.v)
  {
    hide Be, SerVal;
    TwoIsBe(|t.name|);
  }

  function Four(n: u32): bytes {
    [n / 0x100_0000, n / 0x1_0000 % 256, n / 0x100 % 256, n % 256]
  }

  lemma FourIsBe(n: u32)
    ensures Be(n, 4) == Four(n)
  {
    hide Be;
    FourBytes(n);
  }

  lemma TwoIsBe(n: nat)
    requires n < 0x1_0000
    ensures Be(n, 2) == [n / 256, n % 256]
  {
    hide Be;
    TwoBytes(n);
  }

  /** Numbers take 1, 2, 4, 8, 4 and 8 bytes, the most significant first. */
  lemma NumberBytes(k: NumKind, bits: nat, j: nat)
    ensures var w := match k case KByte => 1 case KShort => 2 case KInt => 4 case KLong => 8 case KFloat => 4
                             case KDouble => 8;
      |SerVal(Num(k, bits))| == w && (j < w ==> SerVal(Num(k, bits))[j] == bits / Radix(w - 1 - j) % 256)
  {
    if j < k.Width() {
      BeByte(bits, k.Width(), j);
    }
  }

  /** Strings have two bytes of length, arrays four. */
  lemma TextBytes(text: Name, data: bytes)
    ensures SerVal(Text(text)) == [|text| / 256, |text| % 256] + text
    ensures |data| < U31 ==> SerVal(ByteArray(data)) == Four(|data|) + data
  {
    hide Be, Four;
    TwoIsBe(|text|);
    if |data| < U31 {
      FourIsBe(|data|);
    }
  }

  /** The words of an int array are big-endian. */
  lemma IntArrayBytes(ints: seq<u32>, i: nat)
    requires i < |ints| < U31
    ensures var s := SerVal(IntArray(ints));
      |s| == 4 + 4 * |ints| && s[..4] == Four(|ints|) && s[4 + 4 * i..8 + 4 * i] == Four(ints[i])
  {
    hide BeWords, Be, Four;
    FourIsBe(|ints|);
    assert |Be(|ints|, 4)| == 4;
    WordBytes(ints, i);
    var s := SerVal(IntArray(ints));
    assert s[4 + 4 * i..8 + 4 * i] == BeWords(ints)[4 * i..4 * i + 4];
  }

  /** A list has its elements' type, or 0 for none, four bytes of length and the elements' payloads. */
  lemma ListBytes(elem: Id, items: seq<Val>)
    requires |items| < U31
    ensures SerVal(List(elem, items)) == [if |items| == 0 then 0 else elem] + Four(|items|) + SerItems(items)
  {
    hide Be, Four, SerItems;
    FourIsBe(|items|);
  }

  lemma {:induction false} WordBytes(ints: seq<u32>, i: nat)
    requires i < |ints|
    ensures BeWords(ints)[4 * i..4 * i + 4] == Four(ints[i])
  {
    if i == 0 {
      FourIsBe(ints[0]);
    } else {
      WordBytes(ints[1..], i - 1);
      var more := BeWords(ints[1..]);
      assert BeWords(ints)[4 * i..4 * i + 4] == more[4 * (i - 1)..4 * (i - 1) + 4];
    }
  }

  /** Elements come in order. */
  lemma {:induction false} ItemsInOrder(items: seq<Val>, v: Val)
    ensures SerItems(items + [v]) == SerItems(items) + SerVal(v)
  {
    hide SerVal;
    if |items| > 0 {
      assert (items + [v])[1..] == items[1..] + [v];
      ItemsInOrder(items[1..], v);
    } else {
      assert items + [v] == [v];
      assert SerItems([v]) == SerVal(v) + SerItems([]);
    }
  }

  /** Children come in order, and a zero byte closes a compound. */
  lemma {:induction false} ChildrenInOrder(fields: seq<Tag>, t: Tag)
    ensures SerVal(Compound([])) == [0]
    ensures exists front :: SerVal(Compound(fields)) == front + [0] &&
                            SerVal(Compound(fields + [t])) == front + SerTag(t) + [0]
  {
    hide SerTag;
    if |fields| > 0 {
      assert (fields + [t])[1..] == fields[1..] + [t];
      ChildrenInOrder(fields[1..], t);
      var front :| SerVal(Compound(fields[1..])) == front + [0] &&
                   SerVal(Compound(fields[1..] + [t])) == front + SerTag(t) + [0];
      var all := SerTag(fields[0]) + front;
      assert SerVal(Compound(fields)) == all + [0] && SerVal(Compound(fields + [t])) == all + SerTag(t) + [0];
    } else {
      assert fields + [t] == [t];
      assert SerFields([t]) == SerTag(t) + SerFields([]);
      assert SerVal(Compound(fields)) == [] + [0] && SerVal(Compound(fields + [t])) == [] + SerTag(t) + [0];
    }
  }
}
