/** The cursor and the growing buffer of nbt.c, refined by the functions of Nbt. */
module NbtIo {
  import opened Bytes
  import opened Nbt

  datatype Outcome<+T> = Got(val: T) | Bad(err: Err)

  /** items in front of whatever is still to be read. */
  function Prepend<T>(items: seq<T>, r: Res<seq<T>>): Res<seq<T>> {
    match r
    case Ok(more, rest, left) => Ok(items + more, rest, left)
    case Fail(e) => Fail(e)
  }

  lemma PrependNone<T>(r: Res<seq<T>>)
    ensures Prepend([], r) == r
  {
    if r.Ok? {
      assert [] + r.val == r.val;
    }
  }

  lemma PrependOne<T>(items: seq<T>, x: T, r: Res<seq<T>>)
    ensures Prepend(items, Prepend([x], r)) == Prepend(items + [x], r)
  {
    if r.Ok? {
      assert items + ([x] + r.val) == items + [x] + r.val;
    }
  }

  lemma SliceOfDrop(s: bytes, pos: nat, n: nat)
    requires pos + n <= |s|
    ensures s[pos..][..n] == s[pos..pos + n] && s[pos..][n..] == s[pos + n..]
  {
  }

  lemma WordFits(b: bytes)
    requires |b| == 4
    ensures FromBe(b) < U32
  {
    RadixValues();
    FromBeRange(b);
  }

  lemma FirstWord(s: bytes)
    requires |s| % 4 == 0 && |s| > 0
    ensures FromBe(s[..4]) < U32 && Bytes.Words(s) == [FromBe(s[..4])] + Bytes.Words(s[4..])
  {
    hide FromBe;
    WordFits(s[..4]);
  }

  lemma NoWords()
    ensures Bytes.Words([]) == []
  {
  }

  /** The i-th of the n words that start at `from` follows the i words before it. */
  lemma NextWord(data: bytes, from: nat, n: nat, i: nat, ints: seq<u32>)
    requires from + 4 * n <= |data| && i < n
    ensures var w, s := data[from + 4 * i..from + 4 * i + 4], data[from..from + 4 * n];
      && FromBe(w) < U32
      && ints + Bytes.Words(s[4 * i..]) == ints + [FromBe(w)] + Bytes.Words(s[4 * (i + 1)..])
  {
    hide FromBe, Bytes.Words;
    var s := data[from..from + 4 * n];
    assert s[4 * i..][..4] == data[from + 4 * i..from + 4 * i + 4] && s[4 * i..][4..] == s[4 * (i + 1)..];
    FirstWord(s[4 * i..]);
  }

  /** reader_t: the unread bytes are data[pos..]. */
  class Reader {
    const data: bytes
    var pos: nat
    var budget: nat
    var depth: nat

    ghost predicate Valid()
      reads this
    {
      pos <= |data|
    }

    ghost function Rest(): bytes
      requires Valid()
      reads this
    {
      data[pos..]
    }

    /** This reader now stands where `want` says, and r is its value; or both failed alike. */
    ghost predicate Did<T>(r: Outcome<T>, want: Res<T>)
      requires Valid()
      reads this
    {
      match want
      case Ok(v, rest, left) => r == Got(v) && Rest() == rest && budget == left
      case Fail(e) => r == Bad(e)
    }

    constructor (data: bytes, budget: nat)
      ensures Valid() && Rest() == data && this.data == data && this.budget == budget && depth == 0
    {
      this.data, this.pos, this.budget, this.depth := data, 0, budget, 0;
    }

    method TakeRaw(n: nat) returns (r: Outcome<bytes>)
      requires Valid()
      modifies this
      ensures Valid() && depth == old(depth) && pos >= old(pos)
      ensures Did(r, Take(old(Rest()), old(budget), n))
    {
      if n > |data| - pos { return Bad(Truncated); }
      if n > budget { return Bad(OverBudget); }
      SliceOfDrop(data, pos, n);
      r := Got(data[pos..pos + n]);
      pos, budget := pos + n, budget - n;
    }

    method TakeName() returns (r: Outcome<Name>)
      requires Valid()
      modifies this
      ensures Valid() && depth == old(depth) && pos >= old(pos)
      ensures Did(r, Nbt.TakeName(old(Rest()), old(budget)))
    {
      var b := TakeRaw(2);
      if b.Bad? { return Bad(b.err); }
      var n := FromBe(b.val);
      RadixValues();
      FromBeRange(b.val);
      if n + 1 > budget { return Bad(OverBudget); }
      if n > |data| - pos { return Bad(Truncated); }
      SliceOfDrop(data, pos, n);
      r := Got(data[pos..pos + n]);
      pos, budget := pos + n, budget - (n + 1);
    }

    method TakeCount() returns (r: Outcome<nat>)
      requires Valid()
      modifies this
      ensures Valid() && depth == old(depth) && pos >= old(pos)
      ensures Did(r, Nbt.TakeCount(old(Rest()), old(budget)))
    {
      var b := TakeRaw(4);
      if b.Bad? { return Bad(b.err); }
      var n := FromBe(b.val);
      if n >= U31 { return Bad(BadData); }
      r := Got(n);
    }

    /** The int-array loop: one charged read of four bytes per element. */
    method TakeInts(n: nat) returns (ints: seq<u32>)
      requires Valid() && 4 * n <= |data| - pos && 4 * n <= budget
      modifies this
      ensures Valid() && depth == old(depth) && pos == old(pos) + 4 * n && budget == old(budget) - 4 * n
      ensures ints == Words(old(Rest())[..4 * n])
    {
      hide Bytes.Words, FromBe;
      ints := [];
      ghost var s := Rest()[..4 * n];
      for i := 0 to n
        invariant Valid() && depth == old(depth)
        invariant pos == old(pos) + 4 * i && budget == old(budget) - 4 * i
        invariant s == data[old(pos)..old(pos) + 4 * n]
        invariant Bytes.Words(s) == ints + Bytes.Words(s[4 * i..])
      {
        SliceOfDrop(data, pos, 4);
        NextWord(data, old(pos), n, i, ints);
        var b := TakeRaw(4);
        ints := ints + [FromBe(b.val)];
      }
      assert s[4 * n..] == [];
      NoWords();
    }

    method ParseNum(k: NumKind) returns (r: Outcome<Val>)
      requires Valid()
      modifies this
      ensures Valid() && depth == old(depth) && pos >= old(pos)
      ensures Did(r, ReadNum(k, old(Rest()), old(budget)))
    {
      hide FromBe;
      var b := TakeRaw(k.Width());
      r := if b.Bad? then Bad(b.err) else Got(Num(k, FromBe(b.val)));
    }

    method ParseText() returns (r: Outcome<Val>)
      requires Valid()
      modifies this
      ensures Valid() && depth == old(depth) && pos >= old(pos)
      ensures Did(r, ReadText(old(Rest()), old(budget)))
    {
      hide Nbt.TakeName;
      var t := TakeName();
      r := if t.Bad? then Bad(t.err) else Got(Text(t.val));
    }

    method ParseByteArray() returns (r: Outcome<Val>)
      requires Valid()
      modifies this
      ensures Valid() && depth == old(depth) && pos >= old(pos)
      ensures Did(r, ReadByteArray(old(Rest()), old(budget)))
    {
      hide Nbt.TakeCount;
      var c := TakeCount();
      if c.Bad? { return Bad(c.err); }
      var n := c.val;
      if n > budget || n > |data| - pos {
        return if n > |data| - pos then Bad(Truncated) else Bad(OverBudget);
      }
      SliceOfDrop(data, pos, n);
      r := Got(ByteArray(data[pos..pos + n]));
      pos, budget := pos + n, budget - n;
    }

    method ParseIntArray() returns (r: Outcome<Val>)
      requires Valid()
      modifies this
      ensures Valid() && depth == old(depth) && pos >= old(pos)
      ensures Did(r, ReadIntArray(old(Rest()), old(budget)))
    {
      hide Nbt.TakeCount, Bytes.Words;
      var c := TakeCount();
      if c.Bad? { return Bad(c.err); }
      var n := c.val;
      if n > 0 && n > budget / 4 { return Bad(OverBudget); }
      if n > 0 && n > (|data| - pos) / 4 { return Bad(Truncated); }
      SliceOfDrop(data, pos, 4 * n);
      var ints := TakeInts(n);
      r := Got(IntArray(ints));
    }

    method ParseLeaf(id: Id) returns (r: Outcome<Val>)
      requires Valid() && id != LIST && id != COMPOUND
      modifies this
      ensures Valid() && depth == old(depth) && pos >= old(pos)
      ensures Did(r, ReadLeaf(id, old(Rest()), old(budget)))
    {
      hide ReadNum, ReadText, ReadByteArray, ReadIntArray;
      if id == END {
        r := Bad(BadData);
      } else if id <= 6 {
        r := ParseNum(NumKindOf(id));
      } else if id == BYTE_ARRAY {
        r := ParseByteArray();
      } else if id == TEXT {
        r := ParseText();
      } else {
        r := ParseIntArray();
      }
    }

    method ParseValue(id: Id) returns (r: Outcome<Val>)
      requires Valid()
      modifies this
      ensures Valid() && depth == old(depth) && pos >= old(pos)
      ensures Did(r, ReadVal(id, old(Rest()), old(budget), depth))
      decreases |data| - pos, 1
    {
      if depth > MAX_DEPTH { return Bad(TooDeep); }
      if id == LIST {
        r := ParseList();
      } else if id == COMPOUND {
        r := ParseCompound();
      } else {
        r := ParseLeaf(id);
      }
    }

    method ListHead() returns (r: Outcome<(Id, nat)>)
      requires Valid()
      modifies this
      ensures Valid() && depth == old(depth) && pos >= old(pos)
      ensures Did(r, ReadListHead(old(Rest()), old(budget)))
    {
      var b := TakeRaw(1);
      if b.Bad? { return Bad(b.err); }
      if b.val[0] > 11 { return Bad(BadId); }
      var c := TakeCount();
      if c.Bad? { return Bad(c.err); }
      if b.val[0] == END {
        return if c.val == 0 then Got((END, 0)) else Bad(BadData);
      }
      if c.val > budget / PTR_SIZE { return Bad(OverBudget); }
      budget := budget - c.val * PTR_SIZE;
      r := Got((b.val[0], c.val));
    }

    method ParseList() returns (r: Outcome<Val>)
      requires Valid() && depth <= MAX_DEPTH
      modifies this
      ensures Valid() && depth == old(depth) && pos >= old(pos)
      ensures Did(r, ReadVal(LIST, old(Rest()), old(budget), depth))
      decreases |data| - pos, 0
    {
      hide ReadListHead, ReadLeaf, ReadFields;
      var h := ListHead();
      if h.Bad? { return Bad(h.err); }
      var id, count := h.val.0, h.val.1;
      ghost var s, bg := Rest(), budget;
      var items: seq<Val> := [];
      depth := depth + 1;
      PrependNone(ReadItems(id, count, s, bg, depth));
      var i := 0;
      while i < count
        invariant Valid() && depth == old(depth) + 1 && pos > old(pos) && i <= count
        invariant ReadItems(id, count, s, bg, depth) == Prepend(items, ReadItems(id, count - i, Rest(), budget, depth))
      {
        if TAG_SIZE > budget {
          depth := depth - 1;
          return Bad(OverBudget);
        }
        budget := budget - TAG_SIZE;
        ghost var s1, bg1 := Rest(), budget;
        var c := ParseValue(id);
        if c.Bad? {
          depth := depth - 1;
          return Bad(c.err);
        }
        PrependOne(items, c.val, ReadItems(id, count - i - 1, Rest(), budget, depth));
        items := items + [c.val];
        i := i + 1;
      }
      assert items + [] == items;
      depth := depth - 1;
      r := Got(List(id, items));
    }

    method FieldHead(len: nat, cap: nat) returns (r: Outcome<(Id, Name)>)
      requires Valid()
      modifies this
      ensures Valid() && depth == old(depth) && pos >= old(pos) && (r.Got? ==> pos > old(pos))
      ensures Did(r, ReadFieldHead(old(Rest()), old(budget), len, cap))
    {
      var b := TakeRaw(1);
      if b.Bad? { return Bad(b.err); }
      if b.val[0] == END { return Got((END, [])); }
      if b.val[0] > 11 { return Bad(BadId); }
      if len == cap {
        var ncap := NextCap(cap);
        if ncap * PTR_SIZE > budget { return Bad(OverBudget); }
        budget := budget - (ncap - cap) * PTR_SIZE;
      }
      if TAG_SIZE > budget { return Bad(OverBudget); }
      budget := budget - TAG_SIZE;
      var name := TakeName();
      return if name.Bad? then Bad(name.err) else Got((b.val[0], name.val));
    }

    method RootHead() returns (r: Outcome<(Id, Name)>)
      requires Valid()
      modifies this
      ensures Valid() && depth == old(depth)
      ensures Did(r, ReadRootHead(old(Rest()), old(budget)))
    {
      var id := TakeRaw(1);
      if id.Bad? { return Bad(id.err); }
      if id.val[0] == END || id.val[0] > 11 { return Bad(BadId); }
      if TAG_SIZE > budget { return Bad(OverBudget); }
      budget := budget - TAG_SIZE;
      var name := TakeName();
      return if name.Bad? then Bad(name.err) else Got((id.val[0], name.val));
    }

    method ParseCompound() returns (r: Outcome<Val>)
      requires Valid() && depth <= MAX_DEPTH
      modifies this
      ensures Valid() && depth == old(depth) && pos >= old(pos)
      ensures Did(r, ReadVal(COMPOUND, old(Rest()), old(budget), depth))
      decreases |data| - pos, 0
    {
      hide ReadFieldHead, ReadListHead, ReadLeaf, ReadItems;
      ghost var s, bg := Rest(), budget;
      var fields: seq<Tag>, cap := [], 0;
      depth := depth + 1;
      PrependNone(ReadFields(s, bg, depth, 0, 0));
      while true
        invariant Valid() && depth == old(depth) + 1 && pos >= old(pos)
        invariant ReadFields(s, bg, depth, 0, 0) == Prepend(fields, ReadFields(Rest(), budget, depth, |fields|, cap))
        decreases |data| - pos
      {
        var h := FieldHead(|fields|, cap);
        if h.Bad? {
          depth := depth - 1;
          return Bad(h.err);
        }
        if h.val.0 == END {
          break;
        }
        var c := ParseValue(h.val.0);
        if c.Bad? {
          depth := depth - 1;
          return Bad(c.err);
        }
        cap := CapFor(|fields|, cap);
        PrependOne(fields, Tag(h.val.1, c.val), ReadFields(Rest(), budget, depth, |fields| + 1, cap));
        fields := fields + [Tag(h.val.1, c.val)];
      }
      assert fields + [] == fields;
      depth := depth - 1;
      r := Got(Compound(fields));
    }
  }

  /** minecpp_nbt_parse: the tree and how many bytes it took. */
  method ParseBytes(data: bytes, maxBytes: nat) returns (r: Outcome<Tag>, consumed: nat)
    ensures var want := Parse(data, maxBytes);
      if want.Ok? then r == Got(want.val) && consumed == |data| - |want.rest| else r == Bad(want.err)
  {
    hide ReadVal, ReadRootHead;
    consumed := 0;
    var rd := new Reader(data, if maxBytes == 0 then DEFAULT_BUDGET else maxBytes);
    var h := rd.RootHead();
    if h.Bad? { return Bad(h.err), 0; }
    var v := rd.ParseValue(h.val.0);
    if v.Bad? { return Bad(v.err), 0; }
    r, consumed := Got(Tag(h.val.1, v.val)), rd.pos;
  }

  // ---------------------------------------------------------------- the writer

  /** The writer gives up when it would have to grow beyond this. */
  const LIMIT: nat := 0x8000_0000

  /** From contents before (and a flag that may already have been up) w has been appended,
      or the flag is up because it does not fit. */
  predicate Appended(before: bytes, wasOom: bool, w: bytes, after: bytes, isOom: bool) {
    && (isOom <==> wasOom || |before| + |w| > LIMIT)
    && (!isOom ==> after == before + w)
  }

  lemma AppendedTwice(b0: bytes, o0: bool, w1: bytes, b1: bytes, o1: bool, w2: bytes, b2: bytes, o2: bool)
    requires Appended(b0, o0, w1, b1, o1) && Appended(b1, o1, w2, b2, o2)
    ensures Appended(b0, o0, w1 + w2, b2, o2)
  {
    assert b0 + (w1 + w2) == b0 + w1 + w2;
  }

  lemma NothingAppended(b: bytes, oom: bool)
    requires |b| <= LIMIT
    ensures Appended(b, oom, [], b, oom)
  {
  }

  lemma OneMoreField(done: bytes, fields: seq<Tag>, i: nat)
    requires i < |fields|
    ensures done + SerFields(fields[i..]) == done + SerTag(fields[i]) + SerFields(fields[i + 1..])
  {
    hide SerTag;
    assert fields[i..][1..] == fields[i + 1..];
  }

  lemma NoMoreFields(fields: seq<Tag>)
    ensures SerFields(fields[|fields|..]) == [END]
  {
  }

  /** writer_t over a heap buffer; buf.Length is its capacity. */
  class Writer {
    var buf: array<byte>
    var len: nat
    var oom: bool
    ghost var doublings: nat

    ghost predicate Valid()
      reads this
    {
      len <= buf.Length <= LIMIT && (buf.Length == 0 || buf.Length == Doubled(256, doublings))
    }

    ghost function Contents(): bytes
      requires Valid()
      reads this, buf
    {
      buf[..len]
    }

    constructor ()
      ensures Valid() && Contents() == [] && !oom && fresh(buf)
    {
      buf := new byte[0];
      len, oom, doublings := 0, false, 0;
    }

    method Need(n: nat)
      requires Valid()
      modifies this
      ensures Valid() && len == old(len) && (buf == old(buf) || fresh(buf))
      ensures old(oom) ==> oom && buf == old(buf)
      ensures !old(oom) ==> (oom <==> len + n > LIMIT)
      ensures !oom ==> len + n <= buf.Length && buf[..len] == old(buf[..len])
    {
      if oom || len + n <= buf.Length { return; }
      var ncap := if buf.Length != 0 then buf.Length else 256;
      ghost var k: nat := if buf.Length != 0 then doublings else 0;
      while ncap < len + n
        invariant buf == old(buf) && len == old(len) && !oom && Valid()
        invariant ncap == Doubled(256, k) && buf.Length <= ncap <= LIMIT
        decreases LIMIT - ncap
      {
        if ncap > 0x4000_0000 {
          DoubledValues();
          DoubledSkips(256, 22, k);
          oom := true;
          return;
        }
        ncap := ncap * 2;
        k := k + 1;
      }
      var nb := new byte[ncap];
      for i := 0 to len
        invariant buf == old(buf) && len == old(len) && !oom && len <= buf.Length
        invariant ncap == Doubled(256, k) && ncap <= LIMIT
        invariant nb[..i] == buf[..i]
      {
        nb[i] := buf[i];
      }
      buf, doublings := nb, k;
    }

    method Raw(d: bytes)
      requires Valid()
      modifies this, buf
      ensures Valid() && (buf == old(buf) || fresh(buf))
      ensures Appended(old(Contents()), old(oom), d, Contents(), oom)
    {
      ghost var before := Contents();
      Need(|d|);
      if oom { return; }
      ghost var b := buf;
      for i := 0 to |d|
        invariant buf == b && len == old(len) && len + |d| <= buf.Length && !oom && Valid()
        invariant buf[..len + i] == before + d[..i]
      {
        buf[len + i] := d[i];
        assert buf[..len + i + 1] == buf[..len + i] + [d[i]];
      }
      len := len + |d|;
      assert d[..|d|] == d;
    }

    method RawIfAny(d: bytes)
      requires Valid()
      modifies this, buf
      ensures Valid() && (buf == old(buf) || fresh(buf))
      ensures Appended(old(Contents()), old(oom), d, Contents(), oom)
    {
      if |d| > 0 {
        Raw(d);
      }
    }

    method Name(n: Name)
      requires Valid()
      modifies this, buf
      ensures Valid() && (buf == old(buf) || fresh(buf))
      ensures Appended(old(Contents()), old(oom), SerName(n), Contents(), oom)
    {
      hide Appended, Be;
      Raw(Be(|n|, 2));
      ghost var b1, o1 := Contents(), oom;
      RawIfAny(n);
      AppendedTwice(old(Contents()), old(oom), Be(|n|, 2), b1, o1, n, Contents(), oom);
    }

    method IntWords(ints: seq<u32>)
      requires Valid()
      modifies this, buf
      ensures Valid() && (buf == old(buf) || fresh(buf))
      ensures Appended(old(Contents()), old(oom), BeWords(ints), Contents(), oom)
    {
      hide Appended, Be;
      ghost var done: bytes := [];
      NothingAppended(Contents(), oom);
      for i := 0 to |ints|
        invariant Valid() && (buf == old(buf) || fresh(buf))
        invariant done + BeWords(ints[i..]) == BeWords(ints)
        invariant Appended(old(Contents()), old(oom), done, Contents(), oom)
      {
        ghost var b1, o1, rest := Contents(), oom, BeWords(ints[i + 1..]);
        assert ints[i..][0] == ints[i] && ints[i..][1..] == ints[i + 1..];
        assert done + (Be(ints[i], 4) + rest) == done + Be(ints[i], 4) + rest;
        Raw(Be(ints[i], 4));
        AppendedTwice(old(Contents()), old(oom), done, b1, o1, Be(ints[i], 4), Contents(), oom);
        done := done + Be(ints[i], 4);
      }
      assert done + [] == done;
    }

    method Counted(n: nat, d: bytes)
      requires Valid()
      modifies this, buf
      ensures Valid() && (buf == old(buf) || fresh(buf))
      ensures Appended(old(Contents()), old(oom), Be(n, 4) + d, Contents(), oom)
    {
      hide Appended, Be;
      Raw(Be(n, 4));
      ghost var b1, o1 := Contents(), oom;
      RawIfAny(d);
      AppendedTwice(old(Contents()), old(oom), Be(n, 4), b1, o1, d, Contents(), oom);
    }

    method CountedWords(ints: seq<u32>)
      requires Valid()
      modifies this, buf
      ensures Valid() && (buf == old(buf) || fresh(buf))
      ensures Appended(old(Contents()), old(oom), Be(|ints|, 4) + BeWords(ints), Contents(), oom)
    {
      hide Appended, Be, BeWords;
      Raw(Be(|ints|, 4));
      ghost var b1, o1 := Contents(), oom;
      IntWords(ints);
      AppendedTwice(old(Contents()), old(oom), Be(|ints|, 4), b1, o1, BeWords(ints), Contents(), oom);
    }

    method ListPayload(elem: Id, items: seq<Val>)
      requires Valid()
      modifies this, buf
      ensures Valid() && (buf == old(buf) || fresh(buf))
      ensures Appended(old(Contents()), old(oom), SerVal(List(elem, items)), Contents(), oom)
      decreases items, 1
    {
      hide Appended, Be, SerItems;
      ghost var head: bytes := [ElemByte(elem, items)];
      Raw([ElemByte(elem, items)]);
      ghost var b1, o1 := Contents(), oom;
      Raw(Be(|items|, 4));
      AppendedTwice(old(Contents()), old(oom), head, b1, o1, Be(|items|, 4), Contents(), oom);
      ghost var b2, o2 := Contents(), oom;
      Items(items);
      AppendedTwice(old(Contents()), old(oom), head + Be(|items|, 4), b2, o2, SerItems(items), Contents(), oom);
      assert SerVal(List(elem, items)) == head + Be(|items|, 4) + SerItems(items);
    }

    /** w_payload. */
    method Payload(v: Val)
      requires Valid()
      modifies this, buf
      ensures Valid() && (buf == old(buf) || fresh(buf))
      ensures Appended(old(Contents()), old(oom), SerVal(v), Contents(), oom)
      decreases v, 1
    {
      hide Appended, Be, BeWords, SerItems, SerFields;
      match v {
        case End => NothingAppended(Contents(), oom);
        case Num(k, bits) => Raw(Be(bits, k.Width()));
        case ByteArray(data) => Counted(|data|, data);
        case Text(text) => Name(text);
        case IntArray(ints) => CountedWords(ints);
        case List(elem, items) => ListPayload(elem, items);
        case Compound(fields) => Fields(fields);
      }
    }

    method Items(items: seq<Val>)
      requires Valid()
      modifies this, buf
      ensures Valid() && (buf == old(buf) || fresh(buf))
      ensures Appended(old(Contents()), old(oom), SerItems(items), Contents(), oom)
      decreases items, 0
    {
      hide SerVal, Appended;
      ghost var done: bytes := [];
      NothingAppended(Contents(), oom);
      for i := 0 to |items|
        invariant Valid() && (buf == old(buf) || fresh(buf))
        invariant done + SerItems(items[i..]) == SerItems(items)
        invariant Appended(old(Contents()), old(oom), done, Contents(), oom)
      {
        ghost var b2, o2 := Contents(), oom;
        Payload(items[i]);
        AppendedTwice(old(Contents()), old(oom), done, b2, o2, SerVal(items[i]), Contents(), oom);
        done := done + SerVal(items[i]);
        assert items[i..][1..] == items[i + 1..];
      }
      assert done + [] == done;
    }

    method Fields(fields: seq<Tag>)
      requires Valid()
      modifies this, buf
      ensures Valid() && (buf == old(buf) || fresh(buf))
      ensures Appended(old(Contents()), old(oom), SerFields(fields), Contents(), oom)
      decreases fields, 0
    {
      hide SerTag, SerVal, SerFields, Appended;
      ghost var done: bytes := [];
      NothingAppended(Contents(), oom);
      assert fields[0..] == fields;
      for i := 0 to |fields|
        invariant Valid() && (buf == old(buf) || fresh(buf))
        invariant done + SerFields(fields[i..]) == SerFields(fields)
        invariant Appended(old(Contents()), old(oom), done, Contents(), oom)
      {
        ghost var b2, o2 := Contents(), oom;
        Named(fields[i]);
        AppendedTwice(old(Contents()), old(oom), done, b2, o2, SerTag(fields[i]), Contents(), oom);
        OneMoreField(done, fields, i);
        done := done + SerTag(fields[i]);
      }
      ghost var b2, o2 := Contents(), oom;
      NoMoreFields(fields);
      Raw([END]);
      AppendedTwice(old(Contents()), old(oom), done, b2, o2, [END], Contents(), oom);
    }

    /** w_named. */
    method Named(t: Tag)
      requires Valid()
      modifies this, buf
      ensures Valid() && (buf == old(buf) || fresh(buf))
      ensures Appended(old(Contents()), old(oom), SerTag(t), Contents(), oom)
      decreases t
    {
      hide Appended, SerName, SerVal;
      ghost var b0, o0 := Contents(), oom;
      Raw([t.v.TypeId()]);
      ghost var b1, o1 := Contents(), oom;
      Name(t.name);
      AppendedTwice(b0, o0, [t.v.TypeId()], b1, o1, SerName(t.name), Contents(), oom);
      ghost var b2, o2 := Contents(), oom;
      Payload(t.v);
      AppendedTwice(b0, o0, [t.v.TypeId()] + SerName(t.name), b2, o2, SerVal(t.v), Contents(), oom);
      assert SerTag(t) == [t.v.TypeId()] + SerName(t.name) + SerVal(t.v);
    }
  }

  /** minecpp_nbt_serialize: None is its BAD_DATA for an END root and its NOMEM for a tree too large. */
  method Serialize(t: Tag) returns (r: Option<bytes>)
    ensures r == if t.v.End? || |SerTag(t)| > LIMIT then None else Some(SerTag(t))
  {
    if t.v.End? { return None; }
    var w := new Writer();
    w.Named(t);
    assert [] + SerTag(t) == SerTag(t);
    if w.oom { return None; }
    r := Some(w.buf[..w.len]);
  }
}
