/** Bulk chunk packets, written and read step by step. */
module BulkIo {
  import opened Bytes
  import opened Blocks
  import opened Framing
  import opened Channel
  import opened Buffers
  import opened Wire

  /** The writer's contents are `out`, or it has given up because that does not fit. */
  ghost predicate Has(w: Writer, out: bytes)
    requires w.Valid()
    reads w, w.buf
  {
    (w.oom <==> |out| > WRITER_LIMIT) && (!w.oom ==> w.Written() == out)
  }

  method Append(w: Writer, d: bytes, ghost out: bytes)
    requires w.Valid() && Has(w, out)
    modifies w, w.buf
    ensures w.Valid() && (w.buf == old(w.buf) || fresh(w.buf)) && Has(w, out + d)
  {
    w.Raw(d);
  }

  method Encode(p: Bulk) returns (r: Option<bytes>)
    ensures r == BulkEncode(p)
  {
    hide VarInt, Heads, Bodies, Has;
    if |p.chunks| > BULK_MAX {
      return None;
    }
    var w := new Writer();
    StartsEmpty(w);
    ghost var sky: bytes := [if p.sky then 1 else 0];
    Append(w, [if p.sky then 1 else 0], []);
    assert [] + sky == sky;
    var n := WriteVarInt(|p.chunks|);
    Append(w, n, sky);
    EncodeHeads(w, p.chunks, sky + n);
    EncodeBodies(w, p.chunks, sky + n + Heads(p.chunks));
    assert sky + n + Heads(p.chunks) + Bodies(p.chunks) == BulkBytes(p);
    r := Finish(w, BulkBytes(p));
  }

  lemma StartsEmpty(w: Writer)
    requires w.Valid() && w.Written() == [] && !w.oom
    ensures Has(w, [])
  {
  }

  method Finish(w: Writer, ghost out: bytes) returns (r: Option<bytes>)
    requires w.Valid() && Has(w, out)
    ensures r == if |out| > WRITER_LIMIT then None else Some(out)
  {
    r := if w.oom then None else Some(w.buf[..w.len]);
  }

  method EncodeHeads(w: Writer, cs: seq<BulkChunk>, ghost out: bytes)
    requires w.Valid() && Has(w, out)
    modifies w, w.buf
    ensures w.Valid() && (w.buf == old(w.buf) || fresh(w.buf)) && Has(w, out + Heads(cs))
  {
    hide Be, Has;
    ghost var done: bytes := [];
    var i := 0;
    assert cs[0..] == cs && out + [] == out;
    while i < |cs|
      invariant i <= |cs| && w.Valid() && (w.buf == old(w.buf) || fresh(w.buf))
      invariant Has(w, out + done) && done + Heads(cs[i..]) == Heads(cs)
    {
      ghost var rest := Heads(cs[i + 1..]);
      assert cs[i..][0] == cs[i] && cs[i..][1..] == cs[i + 1..];
      var x, z, m := Be(Bits32(cs[i].x), 4), Be(Bits32(cs[i].z), 4), Be(cs[i].mask, 2);
      Append(w, x, out + done);
      Append(w, z, out + done + x);
      Append(w, m, out + done + x + z);
      Regroup(done, x, z, m, rest);
      assert out + done + x + z + m == out + (done + x + z + m);
      done := done + x + z + m;
      i := i + 1;
    }
    assert done + [] == done;
  }

  lemma Regroup(a: bytes, x: bytes, z: bytes, m: bytes, rest: bytes)
    ensures a + (x + (z + (m + rest))) == a + x + z + m + rest
  {
  }

  method EncodeBodies(w: Writer, cs: seq<BulkChunk>, ghost out: bytes)
    requires w.Valid() && Has(w, out)
    modifies w, w.buf
    ensures w.Valid() && (w.buf == old(w.buf) || fresh(w.buf)) && Has(w, out + Bodies(cs))
  {
    hide Has;
    ghost var done: bytes := [];
    var i := 0;
    assert cs[0..] == cs && out + [] == out;
    while i < |cs|
      invariant i <= |cs| && w.Valid() && (w.buf == old(w.buf) || fresh(w.buf))
      invariant Has(w, out + done) && done + Bodies(cs[i..]) == Bodies(cs)
    {
      assert cs[i..][0] == cs[i] && cs[i..][1..] == cs[i + 1..];
      Append(w, cs[i].data, out + done);
      assert out + done + cs[i].data == out + (done + cs[i].data);
      assert done + (cs[i].data + Bodies(cs[i + 1..])) == done + cs[i].data + Bodies(cs[i + 1..]);
      done := done + cs[i].data;
      i := i + 1;
    }
    assert done + [] == done;
  }

  /** The loop that counts a mask's sections. */
  method CountBits(mask: nat) returns (n: nat)
    ensures n == Bits(mask, SECTIONS)
  {
    var m := mask;
    n := 0;
    for b := 0 to SECTIONS
      invariant n + Bits(m, SECTIONS - b) == Bits(mask, SECTIONS)
    {
      n := n + m % 2;
      m := m / 2;
    }
  }

  /** The record heads, and how many bytes of data their masks imply. */
  method DecodeHeads(s: bytes, n: nat) returns (r: Option<(seq<BulkChunk>, bytes)>, total: nat)
    ensures r == ReadHeads(s, n) && (r.Some? ==> total == TotalSize(r.value.0))
  {
    hide RecordSize, FromBe, ReadI32, ReadHeads, Bits, Behind, TotalSize;
    var cs: seq<BulkChunk>, rest, i := [], s, 0;
    total := 0;
    NothingYet(ReadHeads(s, n));
    while i < n
      invariant i <= n && total == TotalSize(cs)
      invariant ReadHeads(s, n) == Behind(cs, ReadHeads(rest, n - i))
    {
      NextHead(rest, n - i);
      if |rest| < 10 {
        NoneBehind(cs);
        return None, total;
      }
      var c := BulkChunk(ReadI32(rest[..4]), ReadI32(rest[4..8]), FromBe(rest[8..10]), []);
      var k := CountBits(c.mask);
      total := total + (k * SECTION_BYTES + BIOME_BYTES);
      RecordSizeIs(c.mask);
      TotalSnoc(cs, c);
      BehindOneMore(cs, c, ReadHeads(rest[10..], n - i - 1));
      cs := cs + [c];
      rest := rest[10..];
      i := i + 1;
    }
    NoMoreHeads(rest);
    AllBehind(cs, rest);
    r := Some((cs, rest));
  }

  lemma NothingYet(r: Option<(seq<BulkChunk>, bytes)>)
    ensures Behind([], r) == r && TotalSize([]) == 0
  {
    if r.Some? {
      assert [] + r.value.0 == r.value.0;
    }
  }

  lemma NoneBehind(cs: seq<BulkChunk>)
    ensures Behind(cs, None) == None
  {
  }

  lemma AllBehind(cs: seq<BulkChunk>, rest: bytes)
    ensures Behind(cs, Some(([], rest))) == Some((cs, rest))
  {
    assert cs + [] == cs;
  }

  lemma BehindOneMore(cs: seq<BulkChunk>, c: BulkChunk, r: Option<(seq<BulkChunk>, bytes)>)
    ensures Behind(cs, Behind([c], r)) == Behind(cs + [c], r)
  {
    if r.Some? {
      assert cs + ([c] + r.value.0) == cs + [c] + r.value.0;
    }
  }

  /** What was read, behind the records already there. */
  function Behind(cs: seq<BulkChunk>, r: Option<(seq<BulkChunk>, bytes)>): Option<(seq<BulkChunk>, bytes)> {
    match r case None => None case Some(t) => Some((cs + t.0, t.1))
  }

  lemma NextHead(s: bytes, n: nat)
    requires n > 0
    ensures |s| < 10 ==> ReadHeads(s, n) == None
    ensures |s| >= 10 ==>
      ReadHeads(s, n) == Behind([HeadOf(s)], ReadHeads(s[10..], n - 1))
  {
    hide FromBe, ReadI32;
  }

  function HeadOf(s: bytes): BulkChunk
    requires |s| >= 10
  {
    BulkChunk(ReadI32(s[..4]), ReadI32(s[4..8]), FromBe(s[8..10]), [])
  }

  lemma NoMoreHeads(s: bytes)
    ensures ReadHeads(s, 0) == Some(([], s))
  {
  }

  lemma RecordSizeIs(mask: nat)
    ensures RecordSize(mask) == Bits(mask, SECTIONS) * SECTION_BYTES + BIOME_BYTES
  {
  }

  lemma {:induction false} TotalSnoc(cs: seq<BulkChunk>, c: BulkChunk)
    ensures TotalSize(cs + [c]) == TotalSize(cs) + RecordSize(c.mask)
  {
    hide RecordSize;
    if |cs| == 0 {
      assert cs + [c] == [c];
    } else {
      assert (cs + [c])[1..] == cs[1..] + [c];
      TotalSnoc(cs[1..], c);
    }
  }

  method DecodeBodies(cs: seq<BulkChunk>, s: bytes) returns (r: (seq<BulkChunk>, bytes))
    requires TotalSize(cs) <= |s|
    ensures r == ReadBodies(cs, s)
  {
    hide RecordSize;
    var done: seq<BulkChunk>, rest, i := [], s, 0;
    assert cs[0..] == cs && [] + ReadBodies(cs, s).0 == ReadBodies(cs, s).0;
    while i < |cs|
      invariant i <= |cs| && TotalSize(cs[i..]) <= |rest|
      invariant ReadBodies(cs, s) == (done + ReadBodies(cs[i..], rest).0, ReadBodies(cs[i..], rest).1)
    {
      assert cs[i..][0] == cs[i] && cs[i..][1..] == cs[i + 1..];
      var k := CountBits(cs[i].mask);
      var n := k * SECTION_BYTES + BIOME_BYTES;
      RecordSizeIs(cs[i].mask);
      var c := cs[i].(data := rest[..n]);
      ghost var more := ReadBodies(cs[i + 1..], rest[n..]).0;
      assert done + ([c] + more) == done + [c] + more;
      done := done + [c];
      rest := rest[n..];
      i := i + 1;
    }
    assert done + [] == done;
    r := (done, rest);
  }

  method Decode(s: bytes) returns (r: Option<(Bulk, bytes)>)
    ensures r == BulkDecode(s)
  {
    hide ReadHeads, ReadBodies, TotalSize, PeekFrom;
    if |s| == 0 {
      return None;
    }
    var n := PeekVarInt(s[1..]);
    if !n.Value? || n.v > BULK_MAX {
      return None;
    }
    var h, total := DecodeHeads(s[1 + n.used..], n.v);
    if h.None? || total > |h.value.1| {
      return None;
    }
    var b := DecodeBodies(h.value.0, h.value.1);
    r := Some((Bulk(s[0] != 0, b.0), b.1));
  }
}
