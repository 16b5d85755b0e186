/** Tag trees, their byte form, and what reading that form back means: the value-level
    counterpart of src/core/src/nbt.c. The cursor-and-buffer code is in NbtIo. */
module Nbt {
  import opened Bytes

  // The tag ids of minecpp_nbt_type_t.
  const END: Id := 0
  const BYTE_ARRAY: Id := 7
  const TEXT: Id := 8
  const LIST: Id := 9
  const COMPOUND: Id := 10
  const INT_ARRAY: Id := 11
  type Id = x: int | 0 <= x <= 11

  const MAX_DEPTH: nat := 512
  const DEFAULT_BUDGET: nat := 0x400_0000
  /** sizeof(minecpp_nbt_tag_t) and sizeof(void *) on an LP64 machine. */
  const TAG_SIZE: nat := 48
  const PTR_SIZE: nat := 8

  /** A name or a string carries a u16 length. */
  type Name = s: bytes | |s| < 0x1_0000

  /** The six fixed-width kinds; their values are kept as raw bit patterns. */
  datatype NumKind = KByte | KShort | KInt | KLong | KFloat | KDouble {
    function Width(): (w: nat)
      ensures 1 <= w <= 8
    {
      match this
      case KByte => 1
      case KShort => 2
      case KInt => 4
      case KLong => 8
      case KFloat => 4
      case KDouble => 8
    }

    function TypeId(): Id {
      match this
      case KByte => 1
      case KShort => 2
      case KInt => 3
      case KLong => 4
      case KFloat => 5
      case KDouble => 6
    }
  }

  function NumKindOf(id: Id): NumKind
    requires 1 <= id <= 6
  {
    match id
    case 1 => KByte
    case 2 => KShort
    case 3 => KInt
    case 4 => KLong
    case 5 => KFloat
    case _ => KDouble
  }

  /** A named tag: the root, or a child of a compound. List elements have no name. */
  datatype Tag = Tag(name: Name, v: Val)

  datatype Val =
    | End
    | Num(kind: NumKind, bits: nat)
    | ByteArray(data: bytes)
    | Text(text: Name)
    | List(elem: Id, items: seq<Val>)
    | Compound(fields: seq<Tag>)
    | IntArray(ints: seq<u32>)
  {
    function TypeId(): Id {
      match this
      case End => END
      case Num(k, _) => k.TypeId()
      case ByteArray(_) => BYTE_ARRAY
      case Text(_) => TEXT
      case List(_, _) => LIST
      case Compound(_) => COMPOUND
      case IntArray(_) => INT_ARRAY
    }
  }

  // ---------------------------------------------------------------- writing

  function SerName(n: Name): (r: bytes)
    ensures |r| == |n| + 2
  {
    Be(|n|, 2) + n
  }

  /** A payload: what follows the type id and the name. An empty list is always tagged END. */
  function SerVal(v: Val): bytes
    decreases v
  {
    match v
    case End => []
    case Num(k, bits) => Be(bits, k.Width())
    case ByteArray(data) => Be(|data|, 4) + data
    case Text(text) => Be(|text|, 2) + text
    case IntArray(ints) => Be(|ints|, 4) + BeWords(ints)
    case List(elem, items) => [ElemByte(elem, items)] + (Be(|items|, 4) + SerItems(items))
    case Compound(fields) => SerFields(fields)
  }

  function ElemByte(elem: Id, items: seq<Val>): Id {
    if |items| == 0 then END else elem
  }

  /** List elements: bare payloads. */
  function SerItems(items: seq<Val>): bytes
    decreases items
  {
    if |items| == 0 then [] else SerVal(items[0]) + SerItems(items[1..])
  }

  /** Compound children: named tags, closed by an END byte. */
  function SerFields(fields: seq<Tag>): bytes
    decreases fields
  {
    if |fields| == 0 then [END] else SerTag(fields[0]) + SerFields(fields[1..])
  }

  /** A named tag, as minecpp_nbt_serialize writes the root. */
  function SerTag(t: Tag): bytes
    decreases t
  {
    [t.v.TypeId()] + (SerName(t.name) + SerVal(t.v))
  }

  // ---------------------------------------------------------------- reading

  datatype Err = Truncated | BadId | BadData | TooDeep | OverBudget

  /** A read either fails, or gives a value, the unread bytes and the unspent budget. */
  datatype Res<+T> = Ok(val: T, rest: bytes, budget: nat) | Fail(err: Err)

  function Take(s: bytes, budget: nat, n: nat): (r: Res<bytes>)
    ensures r.Ok? ==> |r.val| == n && s == r.val + r.rest && budget == r.budget + n
  {
    if n > |s| then Fail(Truncated)
    else if n > budget then Fail(OverBudget)
    else Ok(s[..n], s[n..], budget - n)
  }

  /** A u16-counted string. The convenience NUL is paid for as well. */
  function TakeName(s: bytes, budget: nat): (r: Res<Name>)
    ensures r.Ok? ==> |r.rest| + |r.val| + 2 == |s| && budget == r.budget + |r.val| + 3
  {
    match Take(s, budget, 2)
    case Fail(e) => Fail(e)
    case Ok(b, s1, bg) =>
      var n := FromBe(b);
      RadixValues();
      FromBeRange(b);
      if n + 1 > bg then Fail(OverBudget)
      else if n > |s1| then Fail(Truncated)
      else Ok(s1[..n], s1[n..], bg - (n + 1))
  }

  /** A big-endian i32 that must not be negative. */
  function TakeCount(s: bytes, budget: nat): (r: Res<nat>)
    ensures r.Ok? ==> |r.rest| + 4 == |s| && budget == r.budget + 4 && r.val < U31
  {
    match Take(s, budget, 4)
    case Fail(e) => Fail(e)
    case Ok(b, s1, bg) => if FromBe(b) >= U31 then Fail(BadData) else Ok(FromBe(b), s1, bg)
  }

  function ReadNum(k: NumKind, s: bytes, budget: nat): (r: Res<Val>)
    ensures r.Ok? ==> |r.rest| < |s|
  {
    match Take(s, budget, k.Width())
    case Fail(e) => Fail(e)
    case Ok(b, s1, bg) => Ok(Num(k, FromBe(b)), s1, bg)
  }

  function ReadByteArray(s: bytes, budget: nat): (r: Res<Val>)
    ensures r.Ok? ==> |r.rest| < |s|
  {
    match TakeCount(s, budget)
    case Fail(e) => Fail(e)
    case Ok(n, s1, bg) =>
      if n > |s1| then Fail(Truncated)
      else if n > bg then Fail(OverBudget)
      else Ok(ByteArray(s1[..n]), s1[n..], bg - n)
  }

  function ReadIntArray(s: bytes, budget: nat): (r: Res<Val>)
    ensures r.Ok? ==> |r.rest| < |s|
  {
    match TakeCount(s, budget)
    case Fail(e) => Fail(e)
    case Ok(n, s1, bg) =>
      if n > bg / 4 then Fail(OverBudget)
      else if n > |s1| / 4 then Fail(Truncated)
      else Ok(IntArray(Words(s1[..4 * n])), s1[4 * n..], bg - 4 * n)
  }

  function ReadText(s: bytes, budget: nat): (r: Res<Val>)
    ensures r.Ok? ==> |r.rest| < |s|
  {
    match TakeName(s, budget)
    case Fail(e) => Fail(e)
    case Ok(t, s1, bg) => Ok(Text(t), s1, bg)
  }

  /** The kinds without children. */
  function ReadLeaf(id: Id, s: bytes, budget: nat): (r: Res<Val>)
    requires id != LIST && id != COMPOUND
    ensures r.Ok? ==> |r.rest| < |s|
  {
    if id == END then Fail(BadData)
    else if id <= 6 then ReadNum(NumKindOf(id), s, budget)
    else if id == BYTE_ARRAY then ReadByteArray(s, budget)
    else if id == TEXT then ReadText(s, budget)
    else ReadIntArray(s, budget)
  }

  /** A list's element id and length, checked; the element array is paid for. */
  function ReadListHead(s: bytes, budget: nat): (r: Res<(Id, nat)>)
    ensures r.Ok? ==> |r.rest| + 5 == |s| && budget == r.budget + 5 + r.val.1 * PTR_SIZE
    ensures r.Ok? ==> (r.val.1 > 0 ==> r.val.0 != END) && r.val.1 < U31
  {
    match Take(s, budget, 1)
    case Fail(e) => Fail(e)
    case Ok(b, s1, bg1) =>
      if b[0] > 11 then Fail(BadId) else
      match TakeCount(s1, bg1)
      case Fail(e) => Fail(e)
      case Ok(n, s2, bg2) =>
        if b[0] == END && n > 0 then Fail(BadData)
        else if n > bg2 / PTR_SIZE then Fail(OverBudget)
        else Ok((b[0], n), s2, bg2 - n * PTR_SIZE)
  }

  /** A child's id (END closes the compound) and name, paid for as the next element of an array
      of capacity cap that already holds len elements. */
  function ReadFieldHead(s: bytes, budget: nat, len: nat, cap: nat): (r: Res<(Id, Name)>)
    ensures r.Ok? ==> |r.rest| < |s|
  {
    match Take(s, budget, 1)
    case Fail(e) => Fail(e)
    case Ok(b, s1, bg1) =>
      if b[0] == END then Ok((END, []), s1, bg1)
      else if b[0] > 11 then Fail(BadId)
      else if len == cap && NextCap(cap) * PTR_SIZE > bg1 then Fail(OverBudget)
      else
        var bg2 := bg1 - (CapFor(len, cap) - cap) * PTR_SIZE;
        if TAG_SIZE > bg2 then Fail(OverBudget) else
        match TakeName(s1, bg2 - TAG_SIZE)
        case Fail(e) => Fail(e)
        case Ok(name, s2, bg3) => Ok((b[0], name), s2, bg3)
  }

  function NextCap(cap: nat): (r: nat)
    ensures r > cap
  {
    if cap == 0 then 8 else cap * 2
  }

  /** The capacity after making room for one more element. */
  function CapFor(len: nat, cap: nat): (r: nat)
    ensures r >= cap
  {
    if len == cap then NextCap(cap) else cap
  }

  /** parse_payload at nesting depth `depth`. */
  function ReadVal(id: Id, s: bytes, budget: nat, depth: nat): (r: Res<Val>)
    ensures r.Ok? ==> |r.rest| < |s|
    decreases |s|, 1
  {
    if depth > MAX_DEPTH then Fail(TooDeep)
    else if id == LIST then
      match ReadListHead(s, budget)
      case Fail(e) => Fail(e)
      case Ok(h, s1, bg1) =>
        match ReadItems(h.0, h.1, s1, bg1, depth + 1)
        case Fail(e) => Fail(e)
        case Ok(items, s2, bg2) => Ok(List(h.0, items), s2, bg2)
    else if id == COMPOUND then
      match ReadFields(s, budget, depth + 1, 0, 0)
      case Fail(e) => Fail(e)
      case Ok(fields, s1, bg1) => Ok(Compound(fields), s1, bg1)
    else ReadLeaf(id, s, budget)
  }

  function ReadItems(id: Id, n: nat, s: bytes, budget: nat, depth: nat): (r: Res<seq<Val>>)
    ensures r.Ok? ==> |r.rest| <= |s| && |r.val| == n
    decreases |s|, 2
  {
    if n == 0 then Ok([], s, budget)
    else if TAG_SIZE > budget then Fail(OverBudget)
    else
      match ReadVal(id, s, budget - TAG_SIZE, depth)
      case Fail(e) => Fail(e)
      case Ok(v, s1, bg1) =>
        match ReadItems(id, n - 1, s1, bg1, depth)
        case Fail(e) => Fail(e)
        case Ok(more, s2, bg2) => Ok([v] + more, s2, bg2)
  }

  function ReadFields(s: bytes, budget: nat, depth: nat, len: nat, cap: nat): (r: Res<seq<Tag>>)
    ensures r.Ok? ==> |r.rest| < |s|
    decreases |s|, 0
  {
    match ReadFieldHead(s, budget, len, cap)
    case Fail(e) => Fail(e)
    case Ok(h, s1, bg1) =>
      if h.0 == END then Ok([], s1, bg1) else
      match ReadVal(h.0, s1, bg1, depth)
      case Fail(e) => Fail(e)
      case Ok(v, s2, bg2) =>
        match ReadFields(s2, bg2, depth, len + 1, CapFor(len, cap))
        case Fail(e) => Fail(e)
        case Ok(more, s3, bg3) => Ok([Tag(h.1, v)] + more, s3, bg3)
  }

  /** The root's id and name. */
  function ReadRootHead(s: bytes, budget: nat): (r: Res<(Id, Name)>)
    ensures r.Ok? ==> |r.rest| < |s|
  {
    match Take(s, budget, 1)
    case Fail(e) => Fail(e)
    case Ok(b, s1, bg1) =>
      if b[0] == END || b[0] > 11 then Fail(BadId)
      else if TAG_SIZE > bg1 then Fail(OverBudget)
      else
        match TakeName(s1, bg1 - TAG_SIZE)
        case Fail(e) => Fail(e)
        case Ok(name, s2, bg2) => Ok((b[0], name), s2, bg2)
  }

  /** minecpp_nbt_parse: one named tag; a zero limit means the default budget. */
  function Parse(s: bytes, maxBytes: nat): (r: Res<Tag>)
    ensures r.Ok? ==> |r.rest| < |s|
  {
    match ReadRootHead(s, if maxBytes == 0 then DEFAULT_BUDGET else maxBytes)
    case Fail(e) => Fail(e)
    case Ok(h, s1, bg1) =>
      match ReadVal(h.0, s1, bg1, 0)
      case Fail(e) => Fail(e)
      case Ok(v, s2, bg2) => Ok(Tag(h.1, v), s2, bg2)
  }
}
