/** The packet framing of net.c on values: VarInts, frames, and what a receiver makes of a byte
    stream that arrives in arbitrary pieces. */
module Framing {
  import opened Bytes

  const MAX_FRAME: nat := 0x20_0000
  const BUF_CAP: nat := 0x80_0000
  /** The growable writer of buf.c refuses to hold more than this. */
  const WRITER_LIMIT: nat := 0x8000_0000

  // ---------------------------------------------------------------- VarInts

  /** minecpp_wr_varint, and minecpp_wr_varlong on 64 bits: seven bits per byte, least significant first. */
  function VarInt(v: nat): (r: bytes)
    ensures |r| >= 1
  {
    if v < 128 then [v] else [v % 128 + 128] + VarInt(v / 128)
  }

  function Pow128(i: nat): (r: nat)
    ensures r > 0
  {
    if i == 0 then 1 else 128 * Pow128(i - 1)
  }

  lemma Pow128Values()
    ensures Pow128(1) == 128 && Pow128(4) == 0x1000_0000 && Pow128(5) == 0x8_0000_0000
  {
    assert Pow128(2) == 0x4000;
  }

  datatype Peeked = Incomplete | Invalid | Value(v: u32, used: nat)

  /** peek_varint from its i-th byte on. The bits or-ed in are above those of acc, so or is plus. */
  function PeekFrom(s: bytes, i: nat, acc: nat): (r: Peeked)
    requires i <= 5
    ensures r.Value? ==> i < r.used <= 5 && r.used - i <= |s|
    decreases 5 - i
  {
    if i == 5 then Invalid
    else if |s| == 0 then Incomplete
    else
      var acc' := (acc + s[0] % 128 * Pow128(i)) % 0x1_0000_0000;
      if s[0] < 128 then Value(acc', i + 1) else PeekFrom(s[1..], i + 1, acc')
  }

  function Peek(s: bytes): Peeked {
    PeekFrom(s, 0, 0)
  }

  /** How many bytes a VarInt takes; the code's varint_len. */
  lemma {:induction false} VarIntSize(v: nat, n: nat)
    ensures v < Pow128(n + 1) <==> |VarInt(v)| <= n + 1
  {
    if n == 0 {
      assert Pow128(1) == 128;
    } else if v >= 128 {
      assert v / 128 < Pow128(n) <==> v < Pow128(n + 1);
      VarIntSize(v / 128, n - 1);
    } else {
      assert Pow128(n + 1) >= 128;
    }
  }

  /** Byte j holds seven bits, those from the 7j-th on, and says whether there are more. */
  lemma {:induction false} VarIntByte(v: nat, j: nat)
    requires j < |VarInt(v)|
    ensures VarInt(v)[j] == v / Pow128(j) % 128 + if j < |VarInt(v)| - 1 then 128 else 0
  {
    if v >= 128 && j > 0 {
      VarIntByte(v / 128, j - 1);
      DivideTwice(v, 128, Pow128(j - 1));
    }
  }

  lemma VarIntFits(v: u32)
    ensures |VarInt(v)| <= 5
  {
    Pow128Values();
    VarIntSize(v, 4);
  }

  lemma SplitDigit(v: nat, p: nat, acc: nat)
    requires p > 0 && acc + v * p < U32
    ensures acc + v % 128 * p + v / 128 * (128 * p) == acc + v * p
    ensures acc + v % 128 * p < U32
  {
    assert v == 128 * (v / 128) + v % 128;
    assert v * p == (128 * (v / 128)) * p + v % 128 * p;
    assert v / 128 * (128 * p) >= 0;
  }

  lemma PeekStep(b: byte, s: bytes, i: nat, acc: nat, p: nat)
    requires i < 5 && p == Pow128(i) && acc + b % 128 * p < U32
    ensures PeekFrom([b] + s, i, acc)
         == if b < 128 then Value(acc + b % 128 * p, i + 1) else PeekFrom(s, i + 1, acc + b % 128 * p)
  {
    hide Pow128;
    assert ([b] + s)[1..] == s;
    InRange(acc + b % 128 * p, U32);
  }

  lemma InRange(n: nat, m: nat)
    ensures n < m ==> n % m == n
  {
  }

  lemma {:induction false} PeekContinues(v: u32, x: bytes, i: nat, acc: nat, p: nat)
    requires i + |VarInt(v)| <= 5 && p == Pow128(i) && acc + v * p < U32
    ensures PeekFrom(VarInt(v) + x, i, acc) == Value(acc + v * p, i + |VarInt(v)|)
  {
    hide PeekFrom;
    SplitDigit(v, p, acc);
    if v < 128 {
      PeekStep(v, x, i, acc, p);
    } else {
      assert VarInt(v) + x == [v % 128 + 128] + (VarInt(v / 128) + x);
      PeekStep(v % 128 + 128, VarInt(v / 128) + x, i, acc, p);
      PeekContinues(v / 128, x, i + 1, acc + v % 128 * p, 128 * p);
    }
  }

  /** A VarInt followed by anything is read back, and only its own bytes. */
  lemma PeekReadsBack(v: u32, x: bytes)
    ensures Peek(VarInt(v) + x) == Value(v, |VarInt(v)|)
  {
    VarIntFits(v);
    PeekContinues(v, x, 0, 0, 1);
  }

  lemma {:induction false} PeekOfPart(v: u32, q: bytes, i: nat, acc: nat)
    requires q <= VarInt(v) && |q| < |VarInt(v)| && i + |VarInt(v)| <= 5
    ensures PeekFrom(q, i, acc) == Incomplete
  {
    if |q| > 0 {
      assert q[0] == VarInt(v)[0];
      assert q[1..] <= VarInt(v / 128);
      PeekOfPart(v / 128, q[1..], i + 1, (acc + q[0] % 128 * Pow128(i)) % 0x1_0000_0000);
    }
  }

  lemma {:induction false} PeekFromExtends(s: bytes, x: bytes, i: nat, acc: nat)
    requires i <= 5
    ensures !PeekFrom(s, i, acc).Incomplete? ==> PeekFrom(s + x, i, acc) == PeekFrom(s, i, acc)
    decreases 5 - i
  {
    if i < 5 && |s| > 0 {
      assert (s + x)[0] == s[0] && (s + x)[1..] == s[1..] + x;
      PeekFromExtends(s[1..], x, i + 1, (acc + s[0] % 128 * Pow128(i)) % 0x1_0000_0000);
    }
  }

  // ---------------------------------------------------------------- frames

  /** A packet: its id as a 32-bit pattern, and its payload. */
  datatype Packet = Packet(id: u32, payload: bytes)

  /** zlib, as far as it matters here. */
  datatype Codec = Codec(deflate: bytes -> bytes, inflate: (bytes, nat) -> Option<bytes>)

  /** Inflating what was deflated, into room for exactly that much, gives it back. */
  ghost predicate Lossless(z: Codec) {
    forall b: bytes :: z.inflate(z.deflate(b), |b|) == Some(b)
  }

  function Body(p: Packet): (r: bytes)
    ensures |r| >= 1
  {
    VarInt(p.id) + p.payload
  }

  /** The bytes a frame's length field counts; comp is -1 for off, else the threshold. */
  function Inner(z: Codec, comp: int, p: Packet): bytes {
    var body := Body(p);
    if comp < 0 then body
    else if |body| < comp then VarInt(0) + body
    else VarInt(|body| % 0x1_0000_0000) + z.deflate(body)
  }

  /** minecpp_chan_send's frame. */
  function Frame(z: Codec, comp: int, p: Packet): (r: bytes)
    ensures |r| >= 1
  {
    var inner := Inner(z, comp, p);
    VarInt(|inner| % 0x1_0000_0000) + inner
  }

  /** Within the receiver's limits: the frame, and what a compressed frame inflates to. */
  predicate Fits(z: Codec, comp: int, p: Packet) {
    1 <= |Inner(z, comp, p)| <= MAX_FRAME && (0 <= comp <= |Body(p)| ==> |Body(p)| <= MAX_FRAME)
  }

  /** What send is willing to send at all. */
  predicate Sendable(z: Codec, comp: int, p: Packet) {
    |Body(p)| <= WRITER_LIMIT && |Frame(z, comp, p)| <= BUF_CAP
  }

  datatype Outcome = NeedMore | Bad | Got(p: Packet, used: nat)

  /** id and payload at the front of b. */
  function Unpack(b: bytes, used: nat): (r: Outcome)
    ensures r.Got? ==> r.used == used
  {
    match Peek(b)
    case Value(id, n) => Got(Packet(id, b[n..]), used)
    case _ => Bad
  }

  /** Compressed bytes that are said to inflate to dl. */
  function Inflated(z: Codec, b: bytes, dl: nat, used: nat): (r: Outcome)
    ensures !r.NeedMore? && (r.Got? ==> r.used == used)
  {
    match z.inflate(b, dl)
    case Some(out) => if |out| == dl then Unpack(out, used) else Bad
    case None => Bad
  }

  /** A complete frame's inner bytes. */
  function Decode(z: Codec, comp: int, inner: bytes, used: nat): (r: Outcome)
    ensures !r.NeedMore? && (r.Got? ==> r.used == used)
  {
    if comp < 0 then Unpack(inner, used) else
    match Peek(inner)
    case Value(dl, n) =>
      if dl >= U31 then Bad
      else if dl == 0 then Unpack(inner[n..], used)
      else if dl > MAX_FRAME then Bad
      else Inflated(z, inner[n..], dl, used)
    case _ => Bad
  }

  /** minecpp_chan_next on the unread bytes. An over-long length VarInt counts as incomplete. */
  function Next(z: Codec, comp: int, s: bytes): (r: Outcome)
    ensures r.Got? ==> 1 <= r.used <= |s|
  {
    match Peek(s)
    case Value(len, n) =>
      if len == 0 || len > MAX_FRAME then Bad
      else if |s| - n < len then NeedMore
      else Decode(z, comp, s[n..n + len], n + len)
    case _ => NeedMore
  }

  lemma UnpackBody(p: Packet, used: nat)
    ensures Unpack(Body(p), used) == Got(p, used)
  {
    PeekReadsBack(p.id, p.payload);
    assert Body(p)[|VarInt(p.id)|..] == p.payload;
  }

  lemma DecodeCounted(z: Codec, comp: int, dl: u32, rest: bytes, used: nat)
    requires comp >= 0 && dl < U31
    ensures Decode(z, comp, VarInt(dl) + rest, used)
         == if dl == 0 then Unpack(rest, used)
            else if dl > MAX_FRAME then Bad
            else Inflated(z, rest, dl, used)
  {
    hide Unpack;
    PeekReadsBack(dl, rest);
    assert (VarInt(dl) + rest)[|VarInt(dl)|..] == rest;
  }

  lemma DecodeHuge(z: Codec, comp: int, rest: bytes, used: nat)
    requires comp >= 0
    ensures Decode(z, comp, VarInt(U31) + rest, used) == Bad
  {
    PeekReadsBack(U31, rest);
  }

  lemma DecodeRaw(z: Codec, comp: int, b: bytes, used: nat)
    requires comp < 0
    ensures Decode(z, comp, b, used) == Unpack(b, used)
  {
  }

  lemma DecodeInner(z: Codec, comp: int, p: Packet, used: nat)
    requires Lossless(z) && Sendable(z, comp, p)
    ensures Decode(z, comp, Inner(z, comp, p), used)
         == if 0 <= comp <= |Body(p)| && |Body(p)| > MAX_FRAME then Bad else Got(p, used)
  {
    hide Unpack, VarInt, Body, Decode, Frame;
    var body := Body(p);
    UnpackBody(p, used);
    if comp < 0 {
      DecodeRaw(z, comp, body, used);
    } else if 0 <= comp && |body| < comp {
      DecodeCounted(z, comp, 0, body, used);
    } else if 0 <= comp && |body| == U31 {
      DecodeHuge(z, comp, z.deflate(body), used);
    } else {
      DecodeCounted(z, comp, |body|, z.deflate(body), used);
    }
  }

  /** A frame followed by anything: the packet, if and only if it fits the limits; else corrupt. */
  lemma NextOfFrame(z: Codec, comp: int, p: Packet, x: bytes)
    requires Lossless(z) && Sendable(z, comp, p)
    ensures Next(z, comp, Frame(z, comp, p) + x)
         == if Fits(z, comp, p) then Got(p, |Frame(z, comp, p)|) else Bad
  {
    hide Decode, Inner, VarInt, PeekFrom, Body;
    var inner := Inner(z, comp, p);
    var s := Frame(z, comp, p) + x;
    InnerIsNotEmpty(z, comp, p);
    assert s == VarInt(|inner|) + (inner + x);
    PeekReadsBack(|inner|, inner + x);
    var n := |VarInt(|inner|)|;
    assert s[n..n + |inner|] == inner;
    DecodeInner(z, comp, p, n + |inner|);
  }

  lemma InnerIsNotEmpty(z: Codec, comp: int, p: Packet)
    ensures |Inner(z, comp, p)| >= 1
  {
  }

  /** Part of a frame yields nothing. */
  lemma NextOfPart(z: Codec, comp: int, p: Packet, q: bytes)
    requires Fits(z, comp, p) && q <= Frame(z, comp, p) && |q| < |Frame(z, comp, p)|
    ensures Next(z, comp, q) == NeedMore
  {
    hide Decode, Inner, VarInt, PeekFrom;
    var inner := Inner(z, comp, p);
    var l := VarInt(|inner|);
    VarIntFits(|inner|);
    PartOfTwo(l, inner, q);
    if |q| < |l| {
      PeekOfPart(|inner|, q, 0, 0);
    } else {
      PeekReadsBack(|inner|, q[|l|..]);
    }
  }

  lemma PartOfTwo(a: bytes, b: bytes, q: bytes)
    requires q <= a + b
    ensures if |q| < |a| then q <= a else q == a + q[|a|..]
  {
    if |q| < |a| {
      assert forall k | 0 <= k < |q| :: q[k] == (a + b)[k] == a[k];
    } else {
      assert forall k | 0 <= k < |a| :: q[k] == (a + b)[k] == a[k];
    }
  }

  /** A verdict reached on some bytes is not changed by more of them. */
  lemma NextExtends(z: Codec, comp: int, s: bytes, x: bytes)
    ensures !Next(z, comp, s).NeedMore? ==> Next(z, comp, s + x) == Next(z, comp, s)
  {
    hide Decode;
    PeekFromExtends(s, x, 0, 0);
    var v := Peek(s);
    if v.Value? && v.used + v.v <= |s| {
      assert (s + x)[v.used..v.used + v.v] == s[v.used..v.used + v.v];
    }
  }

  /** The header promises -1 for a corrupt stream, but five continuation bytes in the place of a
      length are taken for an incomplete frame, and always will be. */
  lemma OverlongLengthIsNeverReported(z: Codec, comp: int, s: bytes, x: bytes)
    requires Peek(s) == Invalid
    ensures Next(z, comp, s + x) == NeedMore
  {
    PeekFromExtends(s, x, 0, 0);
  }

  /** For one, five bytes 0x80, whatever follows them. */
  lemma FiveContinuations(z: Codec, comp: int, x: bytes)
    ensures Next(z, comp, [128, 128, 128, 128, 128] + x) == NeedMore
  {
    var s: bytes := [128, 128, 128, 128, 128];
    Continues(s, 0, 0);
    Continues(s[1..], 1, 0);
    Continues(s[2..], 2, 0);
    Continues(s[3..], 3, 0);
    Continues(s[4..], 4, 0);
    assert s[1..][1..] == s[2..] && s[2..][1..] == s[3..] && s[3..][1..] == s[4..];
    assert Peek(s) == Invalid;
    OverlongLengthIsNeverReported(z, comp, s, x);
  }

  lemma Continues(s: bytes, i: nat, acc: nat)
    requires i < 5 && |s| > 0 && s[0] == 128 && acc < U32
    ensures PeekFrom(s, i, acc) == PeekFrom(s[1..], i + 1, acc)
  {
    hide Pow128;
    assert s[0] % 128 * Pow128(i) == 0;
    InRange(acc, U32);
  }

  /** Otherwise what is left waiting is less than one frame. */
  lemma WaitingIsShort(z: Codec, comp: int, s: bytes)
    requires Next(z, comp, s) == NeedMore && Peek(s) != Invalid
    ensures |s| < 5 + MAX_FRAME
  {
    PeekIncompleteIsShort(s, 0, 0);
  }

  lemma {:induction false} PeekIncompleteIsShort(s: bytes, i: nat, acc: nat)
    requires i <= 5
    ensures PeekFrom(s, i, acc).Incomplete? ==> i + |s| < 5
    decreases 5 - i
  {
    if i < 5 && |s| > 0 {
      PeekIncompleteIsShort(s[1..], i + 1, (acc + s[0] % 128 * Pow128(i)) % 0x1_0000_0000);
    }
  }
}
