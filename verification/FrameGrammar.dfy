/** What the receiver accepts: exactly the byte strings of this grammar, which allows for longer spellings of a number
    than the sender uses. */
module FrameGrammar {
  import opened Bytes
  import opened Framing

  /** The number that seven-bit digits denote, least significant first. */
  function Digits(b: bytes): nat {
    if |b| == 0 then 0 else b[0] % 128 + 128 * Digits(b[1..])
  }

  /** At most five digits, all but the last marked by their top bit; beyond 32 bits a number is cut off. */
  predicate Spells(b: bytes, v: nat) {
    && 1 <= |b| <= 5 && v == Digits(b) % 0x1_0000_0000
    && b[|b| - 1] < 128 && forall j | 0 <= j < |b| - 1 :: b[j] >= 128
  }

  /** The first n bytes of s are such a number. */
  predicate Prefixed(s: bytes, n: nat, v: nat) {
    n <= |s| && Spells(s[..n], v)
  }

  lemma AddDigit(acc: nat, d: nat, p: nat, more: nat)
    ensures ((acc + d * p) % 0x1_0000_0000 + more * (128 * p)) % 0x1_0000_0000 ==
      (acc + (d + 128 * more) * p) % 0x1_0000_0000
  {
    assert (d + 128 * more) * p == d * p + more * (128 * p);
    ModAdd(acc + d * p, more * (128 * p));
  }

  lemma ModAdd(a: nat, b: nat)
    ensures (a % 0x1_0000_0000 + b) % 0x1_0000_0000 == (a + b) % 0x1_0000_0000
  {
  }

  /** The digits from the i-th on are read to the first one below 128, if that is among the first five. */
  lemma {:induction false} PeekFromMeans(s: bytes, i: nat, acc: nat, n: nat, p: nat)
    requires i <= 5 && 1 <= n <= |s| && s[n - 1] < 128 && (forall j | 0 <= j < n - 1 :: s[j] >= 128) && p == Pow128(i)
    ensures PeekFrom(s, i, acc) ==
      if i + n <= 5 then Value((acc + Digits(s[..n]) * p) % 0x1_0000_0000, i + n) else Invalid
    decreases n
  {
    if i < 5 {
      var d: nat := s[0] % 128;
      var acc' := (acc + d * p) % 0x1_0000_0000;
      assert s[..n][1..] == s[1..][..n - 1];
      AddDigit(acc, d, p, Digits(s[..n][1..]));
      if n > 1 {
        PeekFromMeans(s[1..], i + 1, acc', n - 1, 128 * p);
      }
    }
  }

  lemma {:induction false} PeekFromLacks(s: bytes, i: nat, acc: nat)
    requires i <= 5 && forall j | 0 <= j < |s| && j < 5 - i :: s[j] >= 128
    ensures PeekFrom(s, i, acc) == if i + |s| >= 5 then Invalid else Incomplete
    decreases 5 - i
  {
    if i < 5 && |s| > 0 {
      PeekFromLacks(s[1..], i + 1, (acc + s[0] % 128 * Pow128(i)) % 0x1_0000_0000);
    }
  }

  /** The first byte below 128 among the first five, or how many of them there are. */
  function Stop(s: bytes, i: nat): (r: nat)
    requires i <= 5 && i <= |s|
    ensures i <= r <= 5 && r <= |s| && forall j | i <= j < r :: s[j] >= 128
    ensures r < 5 && r < |s| ==> s[r] < 128
    decreases 5 - i
  {
    if i == 5 || i == |s| || s[i] < 128 then i else Stop(s, i + 1)
  }

  /** A number is read exactly where one is spelled, and it is that one. */
  lemma PeekReadsSpelling(s: bytes, v: nat, n: nat)
    ensures Peek(s).Value? && Peek(s).v == v && Peek(s).used == n <==> Prefixed(s, n, v)
    ensures Peek(s) == Incomplete <==> |s| < 5 && forall j | 0 <= j < |s| :: s[j] >= 128
    ensures Peek(s) == Invalid <==> |s| >= 5 && forall j | 0 <= j < 5 :: s[j] >= 128
  {
    hide PeekFrom, Digits, Stop;
    var k := Stop(s, 0);
    if k < 5 && k < |s| {
      PeekFromMeans(s, 0, 0, k + 1, 1);
      if Prefixed(s, n, v) {
        PrefixedParts(s, n, v);
      }
    } else {
      PeekFromLacks(s, 0, 0);
      if Prefixed(s, n, v) {
        PrefixedParts(s, n, v);
      }
    }
  }

  lemma PrefixedParts(s: bytes, n: nat, v: nat)
    requires Prefixed(s, n, v)
    ensures 1 <= n <= 5 && n <= |s| && s[n - 1] < 128 && forall j | 0 <= j < n - 1 :: s[j] >= 128
  {
    assert forall j | 0 <= j < n :: s[..n][j] == s[j];
  }

  // ---------------------------------------------------------------- frames

  /** A packet uncompressed: its id and then the payload. */
  predicate IsBody(b: bytes, p: Packet) {
    exists n | 0 <= n <= |b| :: Prefixed(b, n, p.id) && p.payload == b[n..]
  }

  /** With compression on: the length the rest inflates to and the rest, or zero and an uncompressed packet. */
  predicate IsCounted(z: Codec, b: bytes, p: Packet) {
    exists n | 0 <= n <= |b| :: CountedAt(z, b, n, p)
  }

  predicate CountedAt(z: Codec, b: bytes, n: nat, p: Packet)
    requires n <= |b|
  {
    (Prefixed(b, n, 0) && IsBody(b[n..], p))
    || exists dl | 1 <= dl <= 0x20_0000 :: Prefixed(b, n, dl) && Inflates(z, b[n..], dl, p)
  }

  predicate Inflates(z: Codec, b: bytes, dl: nat, p: Packet) {
    var out := z.inflate(b, dl);
    out.Some? && |out.value| == dl && IsBody(out.value, p)
  }

  /** The length of the rest, up to 2 MiB, and the rest. */
  predicate IsFrame(z: Codec, comp: int, b: bytes, p: Packet) {
    exists n | 0 <= n <= |b| :: FrameAt(z, comp, b, n, p)
  }

  predicate FrameAt(z: Codec, comp: int, b: bytes, n: nat, p: Packet)
    requires n <= |b|
  {
    && 1 <= |b| - n <= 0x20_0000 && Prefixed(b, n, |b| - n)
    && if comp < 0 then IsBody(b[n..], p) else IsCounted(z, b[n..], p)
  }

  lemma UnpackIsBody(b: bytes, used: nat, p: Packet)
    ensures Unpack(b, used) == Got(p, used) <==> IsBody(b, p)
  {
    hide PeekFrom, Spells;
    var k := Peek(b);
    if k.Value? {
      PeekReadsSpelling(b, k.v, k.used);
    }
    if IsBody(b, p) {
      var n :| 0 <= n <= |b| && Prefixed(b, n, p.id) && p.payload == b[n..];
      PeekReadsSpelling(b, p.id, n);
    }
  }

  lemma InflatedInflates(z: Codec, b: bytes, dl: nat, used: nat, p: Packet)
    ensures Inflated(z, b, dl, used) == Got(p, used) <==> Inflates(z, b, dl, p)
  {
    hide IsBody, Unpack;
    var out := z.inflate(b, dl);
    if out.Some? {
      UnpackIsBody(out.value, used, p);
    }
  }

  lemma DecodeIsInner(z: Codec, comp: int, b: bytes, used: nat, p: Packet)
    ensures Decode(z, comp, b, used) == Got(p, used) <==> if comp < 0 then IsBody(b, p) else IsCounted(z, b, p)
  {
    hide PeekFrom, Spells, Prefixed, IsBody, Inflates, Unpack, Inflated;
    if comp < 0 {
      UnpackIsBody(b, used, p);
    } else {
      var k := Peek(b);
      if k.Value? {
        PeekReadsSpelling(b, k.v, k.used);
        UnpackIsBody(b[k.used..], used, p);
        InflatedInflates(z, b[k.used..], k.v, used, p);
        assert k.used <= |b| by { PrefixedParts(b, k.used, k.v); }
        if Decode(z, comp, b, used) == Got(p, used) {
          assert CountedAt(z, b, k.used, p);
        }
      }
      if IsCounted(z, b, p) {
        var n :| 0 <= n <= |b| && CountedAt(z, b, n, p);
        var dl :| 0 <= dl <= 0x20_0000 && Prefixed(b, n, dl)
          && if dl == 0 then IsBody(b[n..], p) else Inflates(z, b[n..], dl, p);
        PeekReadsSpelling(b, dl, n);
      }
    }
  }

  /** The receiver takes a packet off its unread bytes exactly when they begin with a frame of the grammar, and it takes
      that frame. */
  lemma NextReadsGrammar(z: Codec, comp: int, s: bytes, p: Packet, used: nat)
    ensures Next(z, comp, s) == Got(p, used) <==> used <= |s| && IsFrame(z, comp, s[..used], p)
  {
    hide PeekFrom, Spells, IsBody, IsCounted, Decode;
    var k := Peek(s);
    if k.Value? {
      PeekReadsSpelling(s, k.v, k.used);
      if Next(z, comp, s) == Got(p, used) {
        var n := k.used;
        var b := s[..used];
        assert b[..n] == s[..n] && b[n..] == s[n..n + k.v];
        DecodeIsInner(z, comp, b[n..], used, p);
        assert FrameAt(z, comp, b, n, p);
      }
    }
    if used <= |s| && IsFrame(z, comp, s[..used], p) {
      var b := s[..used];
      var n :| 0 <= n <= |b| && FrameAt(z, comp, b, n, p);
      assert b[..n] == s[..n] && b[n..] == s[n..used];
      PeekReadsSpelling(s, |b| - n, n);
      DecodeIsInner(z, comp, b[n..], used, p);
    }
  }

  /** It waits exactly when the length is not all there, is spelled in more than five digits, or is in range and more
      than there is. */
  lemma NextWaits(z: Codec, comp: int, s: bytes)
    ensures Next(z, comp, s) == NeedMore <==>
      (forall j | 0 <= j < |s| && j < 5 :: s[j] >= 128)
      || exists n, len | 0 <= n <= |s| && 1 <= len <= 0x20_0000 :: Prefixed(s, n, len) && |s| < n + len
  {
    hide PeekFrom, Spells, Decode;
    var k := Peek(s);
    PeekReadsSpelling(s, 0, 0);
    if k.Value? {
      PeekReadsSpelling(s, k.v, k.used);
      PrefixedParts(s, k.used, k.v);
    }
    if n, len :| 0 <= n <= |s| && 1 <= len <= 0x20_0000 && Prefixed(s, n, len) && |s| < n + len {
      PeekReadsSpelling(s, len, n);
    }
  }

  // ---------------------------------------------------------------- what the sender chooses

  /** A sent frame: the length of the rest; with compression on, a zero before a body shorter than the threshold, and
      else the body's length before the deflated body. */
  lemma FrameBytes(z: Codec, comp: int, p: Packet)
    requires Sendable(z, comp, p)
    ensures var b := VarInt(p.id) + p.payload;
      var d := z.deflate(b);
      Frame(z, comp, p) == (if comp < 0 then VarInt(|b|) + b
                            else if |b| < comp then VarInt(1 + |b|) + [0] + b
                            else VarInt(|VarInt(|b|)| + |d|) + VarInt(|b|) + d)
  {
    var inner := Inner(z, comp, p);
    assert |Frame(z, comp, p)| == |VarInt(|inner| % U32)| + |inner|;
    assert VarInt(0) == [0];
  }

  /** The bytes that spell a number as the sender does: its digits to base 128, as few as there are. */
  lemma SentNumber(v: u32, j: nat, n: nat)
    ensures Spells(VarInt(v), v)
    ensures j < |VarInt(v)| ==>
      VarInt(v)[j] == v / Pow128(j) % 128 + if j < |VarInt(v)| - 1 then 128 else 0
    ensures v < Pow128(n + 1) <==> |VarInt(v)| <= n + 1
  {
    hide VarInt, Spells;
    PeekReadsBack(v, []);
    assert VarInt(v) + [] == VarInt(v);
    PeekReadsSpelling(VarInt(v), v, |VarInt(v)|);
    assert VarInt(v)[..|VarInt(v)|] == VarInt(v);
    if j < |VarInt(v)| {
      VarIntByte(v, j);
    }
    VarIntSize(v, n);
  }
}
