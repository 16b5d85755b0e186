/** The reader and writer of buf.c: growth, 64-bit variable-length numbers, packed positions and strings. */
module Buffers {
  import opened Bytes
  import opened Framing
  import opened FrameGrammar

  const U64: nat := 0x1_0000_0000_0000_0000
  const STRING_MAX: nat := 32767

  // ---------------------------------------------------------------- VarLongs

  /** minecpp_rd_varlong from its i-th byte on: bits beyond the 64th are dropped. */
  function LongFrom(s: bytes, i: nat, acc: nat): (r: Option<(nat, nat)>)
    requires i <= 10
    ensures r.Some? ==> i < r.value.1 <= 10 && r.value.1 - i <= |s|
    decreases 10 - i
  {
    if i == 10 || |s| == 0 then None
    else
      var acc' := (acc + s[0] % 128 * Pow128(i)) % U64;
      if s[0] < 128 then Some((acc', i + 1)) else LongFrom(s[1..], i + 1, acc')
  }

  /** The number, and how many bytes it took. */
  function ReadLong(s: bytes): Option<(nat, nat)> {
    LongFrom(s, 0, 0)
  }

  lemma LongStep(b: byte, s: bytes, i: nat, acc: nat, p: nat)
    requires i < 10 && p == Pow128(i) && acc + b % 128 * p < U64
    ensures LongFrom([b] + s, i, acc)
         == if b < 128 then Some((acc + b % 128 * p, i + 1)) else LongFrom(s, i + 1, acc + b % 128 * p)
  {
    hide Pow128;
    InRange(acc + b % 128 * p, U64);
    assert ([b] + s)[1..] == s;
  }

  lemma SplitDigit64(v: nat, p: nat, acc: nat)
    requires p > 0 && acc + v * p < U64
    ensures acc + v % 128 * p + v / 128 * (128 * p) == acc + v * p
    ensures acc + v % 128 * p < U64
  {
    assert v == 128 * (v / 128) + v % 128;
    assert v * p == (128 * (v / 128)) * p + v % 128 * p;
    assert v / 128 * (128 * p) >= 0;
  }

  lemma {:induction false} LongContinues(v: nat, x: bytes, i: nat, acc: nat, p: nat)
    requires i + |VarInt(v)| <= 10 && p == Pow128(i) && acc + v * p < U64
    ensures LongFrom(VarInt(v) + x, i, acc) == Some((acc + v * p, i + |VarInt(v)|))
  {
    hide LongFrom;
    SplitDigit64(v, p, acc);
    if v < 128 {
      LongStep(v, x, i, acc, p);
    } else {
      assert VarInt(v) + x == [v % 128 + 128] + (VarInt(v / 128) + x);
      LongStep(v % 128 + 128, VarInt(v / 128) + x, i, acc, p);
      LongContinues(v / 128, x, i + 1, acc + v % 128 * p, 128 * p);
    }
  }

  lemma LongFits(v: nat)
    ensures v < U64 ==> |VarInt(v)| <= 10
  {
    assert Pow128(5) == 0x8_0000_0000 by { Pow128Values(); }
    assert Pow128(7) == 0x2_0000_0000_0000;
    assert Pow128(9) == 0x8000_0000_0000_0000;
    assert Pow128(10) == 128 * Pow128(9);
    VarIntSize(v, 9);
  }

  /** A 64-bit number followed by anything is read back, and only its own bytes. */
  lemma LongReadsBack(v: nat, x: bytes)
    requires v < U64
    ensures ReadLong(VarInt(v) + x) == Some((v, |VarInt(v)|))
  {
    hide VarInt, LongFrom;
    LongFits(v);
    LongContinues(v, x, 0, 0, 1);
  }

  lemma AddDigit64(acc: nat, d: nat, p: nat, more: nat)
    ensures ((acc + d * p) % U64 + more * (128 * p)) % U64 == (acc + (d + 128 * more) * p) % U64
  {
    assert (d + 128 * more) * p == d * p + more * (128 * p);
    ModAdd64(acc + d * p, more * (128 * p));
  }

  lemma ModAdd64(a: nat, b: nat)
    ensures (a % U64 + b) % U64 == (a + b) % U64
  {
  }

  lemma {:induction false} LongFromMeans(s: bytes, i: nat, acc: nat, n: nat, p: nat)
    requires i <= 10 && 1 <= n <= |s| && s[n - 1] < 128 && (forall j | 0 <= j < n - 1 :: s[j] >= 128) && p == Pow128(i)
    ensures LongFrom(s, i, acc) == if i + n <= 10 then Some(((acc + Digits(s[..n]) * p) % U64, i + n)) else None
    decreases n
  {
    if i < 10 {
      var d: nat := s[0] % 128;
      assert s[..n][1..] == s[1..][..n - 1];
      AddDigit64(acc, d, p, Digits(s[..n][1..]));
      if n > 1 {
        LongFromMeans(s[1..], i + 1, (acc + d * p) % U64, n - 1, 128 * p);
      }
    }
  }

  lemma {:induction false} LongFromLacks(s: bytes, i: nat, acc: nat)
    requires i <= 10 && forall j | 0 <= j < |s| && j < 10 - i :: s[j] >= 128
    ensures LongFrom(s, i, acc) == None
    decreases 10 - i
  {
    if i < 10 && |s| > 0 {
      LongFromLacks(s[1..], i + 1, (acc + s[0] % 128 * Pow128(i)) % U64);
    }
  }

  /** A 64-bit number is read up to the first byte below 128, if that is among the first ten, modulo 2^64; and none is
      read otherwise. */
  lemma LongReadsDigits(s: bytes, n: nat)
    ensures 1 <= n <= 10 && n <= |s| && s[n - 1] < 128 && (forall j | 0 <= j < n - 1 :: s[j] >= 128) ==>
      ReadLong(s) == Some((Digits(s[..n]) % 0x1_0000_0000_0000_0000, n))
    ensures (forall j | 0 <= j < |s| && j < 10 :: s[j] >= 128) ==> ReadLong(s) == None
  {
    hide LongFrom, Digits;
    if 1 <= n <= 10 && n <= |s| && s[n - 1] < 128 && forall j | 0 <= j < n - 1 :: s[j] >= 128 {
      LongFromMeans(s, 0, 0, n, 1);
    }
    if forall j | 0 <= j < |s| && j < 10 :: s[j] >= 128 {
      LongFromLacks(s, 0, 0);
    }
  }

  // ---------------------------------------------------------------- positions

  /** The low 26 bits of x, the low 12 of y and the low 26 of z. */
  function PackPos(x: int, y: int, z: int): (v: nat)
    ensures v < U64
  {
    x % 0x400_0000 * 0x40_0000_0000 + y % 0x1000 * 0x400_0000 + z % 0x400_0000
  }

  /** An n-bit field, its top bit taken as a sign. */
  function Signed(field: nat, half: nat): int {
    if field >= half then field - 2 * half else field
  }

  /** The arithmetic shifts of minecpp_rd_pos. */
  function UnpackPos(v: nat): (int, int, int) {
    (Signed(v / 0x40_0000_0000, 0x200_0000), Signed(v / 0x400_0000 % 0x1000, 0x800), Signed(v % 0x400_0000, 0x200_0000))
  }

  lemma PackedFields(x: int, y: int, z: int)
    ensures var v := PackPos(x, y, z);
      v / 0x40_0000_0000 == x % 0x400_0000 && v / 0x400_0000 % 0x1000 == y % 0x1000 && v % 0x400_0000 == z % 0x400_0000
  {
  }

  /** A position survives exactly when x and z have 26 bits and y has 12, signs included. */
  lemma PositionReadsBack(x: int, y: int, z: int)
    ensures UnpackPos(PackPos(x, y, z)) == (x, y, z)
       <==> (-0x200_0000 <= x < 0x200_0000 && -0x800 <= y < 0x800 && -0x200_0000 <= z < 0x200_0000)
  {
    hide PackPos;
    PackedFields(x, y, z);
  }

  // ---------------------------------------------------------------- strings

  /** minecpp_wr_strn. */
  function StringBytes(t: bytes): Option<bytes> {
    if |t| > STRING_MAX then None else Some(VarInt(|t|) + t)
  }

  datatype StringRead = Text(t: bytes, used: nat) | Truncated | Overflow | BadValue

  /** minecpp_rd_string with a limit on characters, of which each may take four bytes. */
  function ReadString(s: bytes, maxChars: nat): StringRead {
    match Peek(s)
    case Incomplete => Truncated
    case Invalid => Overflow
    case Value(n, used) =>
      if n >= U31 || n > maxChars * 4 then BadValue
      else if n > |s| - used then Truncated
      else Text(s[used..used + n], used + n)
  }

  /** A string that could be written is read back exactly when the reader's limit allows its length. */
  lemma StringReadsBack(t: bytes, x: bytes, maxChars: nat)
    ensures StringBytes(t).Some? <==> |t| <= STRING_MAX
    ensures |t| <= STRING_MAX ==>
      ReadString(StringBytes(t).value + x, maxChars) ==
        if |t| <= maxChars * 4 then Text(t, |StringBytes(t).value|) else BadValue
  {
    hide VarInt, PeekFrom;
    if |t| <= STRING_MAX {
      var n := VarInt(|t|);
      assert n + t + x == n + (t + x);
      PeekReadsBack(|t|, t + x);
      assert (n + (t + x))[|n|..|n| + |t|] == t;
    }
  }

  /** A string is written as its length and its bytes, up to 32767 of them; and it is read exactly where a length of
      up to four times the limit is spelled and as many bytes follow. */
  lemma StringsAre(t: bytes, s: bytes, maxChars: nat, used: nat)
    ensures StringBytes(t) == if |t| <= 32767 then Some(VarInt(|t|) + t) else None
    ensures ReadString(s, maxChars) == Text(t, used) <==>
      && |t| <= used <= |s| && |t| < 0x8000_0000 && |t| <= 4 * maxChars
      && Prefixed(s, used - |t|, |t|) && s[used - |t|..used] == t
  {
    hide PeekFrom, VarInt, Spells;
    var k := Peek(s);
    if k.Value? {
      PeekReadsSpelling(s, k.v, k.used);
      PrefixedParts(s, k.used, k.v);
    }
    if |t| <= used {
      PeekReadsSpelling(s, |t|, used - |t|);
    }
  }

  // ---------------------------------------------------------------- the writer

  /** minecpp_writer_t; buf.Length is its capacity. */
  class Writer {
    var buf: array<byte>
    var len: nat
    var oom: bool
    ghost var doublings: nat

    /** The capacity is nothing yet, or 64 doubled a number of times. */
    ghost predicate Valid()
      reads this
    {
      len <= buf.Length && (buf.Length == 0 || buf.Length == Doubled(64, doublings)) && buf.Length <= WRITER_LIMIT
    }

    ghost function Written(): bytes
      requires Valid()
      reads this, buf
    {
      buf[..len]
    }

    constructor ()
      ensures Valid() && fresh(buf) && Written() == [] && !oom
    {
      buf := new byte[0];
      len, oom, doublings := 0, false, 0;
    }

    /** wr_need: room for n more bytes, unless that would take more than 2^31 in all. */
    method Need(n: nat)
      requires Valid()
      modifies this
      ensures Valid() && len == old(len) && (buf == old(buf) || fresh(buf))
      ensures Written() == old(Written())
      ensures oom <==> old(oom) || len + n > WRITER_LIMIT
      ensures !oom ==> len + n <= buf.Length
    {
      DoubledValues();
      if oom || len + n <= buf.Length {
        return;
      }
      var cap := if buf.Length > 0 then buf.Length else 64;
      ghost var k: nat := if buf.Length > 0 then doublings else 0;
      while cap < len + n
        invariant buf == old(buf) && len == old(len) && Valid() && !oom && Written() == old(Written())
        invariant cap == Doubled(64, k) && cap <= WRITER_LIMIT && cap >= buf.Length
        decreases WRITER_LIMIT - cap
      {
        if cap > 0x4000_0000 {
          DoubledSkips(64, 24, k);
          oom := true;
          return;
        }
        cap := 2 * cap;
        k := k + 1;
      }
      Move(cap, k);
    }

    /** realloc. */
    method Move(cap: nat, ghost k: nat)
      requires Valid() && len <= cap <= WRITER_LIMIT && cap == Doubled(64, k)
      modifies this`buf, this`doublings
      ensures Valid() && fresh(buf) && buf.Length == cap && Written() == old(Written())
    {
      hide Doubled;
      var bigger := new byte[cap](_ => 0);
      for i := 0 to len
        invariant buf == old(buf) && bigger[..i] == buf[..i]
      {
        bigger[i] := buf[i];
        assert bigger[..i + 1] == bigger[..i] + [buf[i]];
      }
      buf, doublings := bigger, k;
    }

    /** minecpp_wr_raw; nothing is written once the writer has failed. */
    method Raw(d: bytes)
      requires Valid()
      modifies this, buf
      ensures Valid() && (buf == old(buf) || fresh(buf))
      ensures oom <==> old(oom) || old(len) + |d| > WRITER_LIMIT
      ensures Written() == if oom then old(Written()) else old(Written()) + d
    {
      Need(|d|);
      if oom {
        return;
      }
      ghost var was, b := Written(), buf;
      for i := 0 to |d|
        invariant Valid() && buf == b && len == old(len) && len + |d| <= buf.Length && !oom
        invariant buf[..len + i] == was + d[..i]
      {
        buf[len + i] := d[i];
        assert buf[..len + i + 1] == buf[..len + i] + [d[i]];
      }
      len := len + |d|;
      assert d[..|d|] == d;
    }

    /** minecpp_wr_varint and minecpp_wr_varlong: one byte at a time. */
    method VarLong(v: nat)
      requires Valid()
      modifies this, buf
      ensures Valid() && (buf == old(buf) || fresh(buf))
      ensures oom <==> old(oom) || old(len) + |VarInt(v)| > WRITER_LIMIT
      ensures !oom ==> Written() == old(Written()) + VarInt(v)
    {
      var u := v;
      hide VarInt;
      ghost var was := Written();
      while u >= 128
        invariant Valid() && (buf == old(buf) || fresh(buf))
        invariant oom ==> old(oom) || old(len) + |VarInt(v)| > WRITER_LIMIT
        invariant !oom ==> !old(oom) && Written() + VarInt(u) == was + VarInt(v)
      {
        LastGroup(u);
        assert Written() + ([u % 128 + 128] + VarInt(u / 128)) == Written() + [u % 128 + 128] + VarInt(u / 128);
        Raw([u % 128 + 128]);
        u := u / 128;
      }
      LastGroup(u);
      Raw([u]);
    }
  }

  lemma LastGroup(u: nat)
    ensures VarInt(u) == if u < 128 then [u] else [u % 128 + 128] + VarInt(u / 128)
  {
  }

  /** minecpp_rd_varlong. */
  method ReadVarLong(s: bytes) returns (r: Option<(nat, nat)>)
    ensures r == ReadLong(s)
  {
    var out: nat := 0;
    var i := 0;
    while i < 10
      invariant i <= 10 && i <= |s| && out < U64
      invariant ReadLong(s) == LongFrom(s[i..], i, out)
    {
      if i >= |s| { return None; }
      var b := s[i];
      assert s[i..][0] == b && s[i..][1..] == s[i + 1..];
      out := (out + b % 128 * Pow128(i)) % U64;
      if b < 128 { return Some((out, i + 1)); }
      i := i + 1;
    }
    return None;
  }
}
