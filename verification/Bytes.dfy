/** Bytes, fixed-width big-endian integers and the small containers shared by every codec. */
module Bytes {

  type byte = x: int | 0 <= x < 256
  type bytes = seq<byte>

  datatype Option<+T> = None | Some(value: T)

  const U16: nat := 0x1_0000
  const U31: nat := 0x8000_0000
  const U32: nat := 0x1_0000_0000

  type u32 = x: int | 0 <= x < 0x1_0000_0000

  /** 256^n: how many values n bytes can hold. */
  function Radix(n: nat): (r: nat)
    ensures r > 0
  {
    if n == 0 then 1 else 256 * Radix(n - 1)
  }

  lemma RadixValues()
    ensures Radix(1) == 256 && Radix(2) == U16 && Radix(4) == U32
    ensures Radix(8) == 0x1_0000_0000_0000_0000
  {
    assert Radix(3) == 0x100_0000;
    assert Radix(4) == U32;
    assert Radix(6) == 0x1_0000_0000_0000;
  }

  /** The low n bytes of v, most significant first: higher bits are cut off, as a C cast does. */
  function Be(v: nat, n: nat): (r: bytes)
    ensures |r| == n
  {
    if n == 0 then [] else Be(v / 256, n - 1) + [v % 256]
  }

  /** The number a big-endian byte string denotes. */
  function FromBe(b: bytes): nat {
    if |b| == 0 then 0 else FromBe(b[..|b| - 1]) * 256 + b[|b| - 1]
  }

  lemma {:induction false} FromBeRange(b: bytes)
    ensures FromBe(b) < Radix(|b|)
  {
    if |b| > 0 {
      FromBeRange(b[..|b| - 1]);
    }
  }

  lemma {:induction false} FromBeOfBe(v: nat, n: nat)
    requires v < Radix(n)
    ensures FromBe(Be(v, n)) == v
  {
    if n > 0 {
      FromBeOfBe(v / 256, n - 1);
      assert Be(v, n)[..n - 1] == Be(v / 256, n - 1);
    }
  }

  lemma Multiples(e: int, d: nat)
    ensures e >= 1 ==> e * d >= d
    ensures e <= -1 ==> e * d + d <= 0
  {
    if e <= -1 {
      assert (e + 1) * d <= 0;
    }
  }

  lemma DivisionIsUnique(a: nat, d: nat, q: nat, r: nat)
    requires d > 0 && a == q * d + r && r < d
    ensures a / d == q && a % d == r
  {
    var e := a / d - q;
    assert a == (a / d) * d + a % d;
    assert e * d == r - a % d;
    Multiples(e, d);
  }

  lemma Regroup(m: nat, q: nat, d: nat, r: nat, b: nat, s: nat)
    requires m == q * d + r
    ensures m * b + s == q * (b * d) + (r * b + s)
  {
    assert m * b == (q * d) * b + r * b;
    assert (q * d) * b == q * (b * d);
  }

  lemma Quotient(v: nat, b: nat)
    requires b > 0
    ensures v == v / b * b + v % b && v % b < b
  {
  }

  lemma DigitsFit(d: nat, r: nat, b: nat, s: nat)
    requires r < d && s < b
    ensures r * b + s < b * d
  {
    assert (r + 1) * b <= d * b;
  }

  /** Dividing twice is dividing by the product. */
  lemma DivideTwice(v: nat, b: nat, d: nat)
    requires b > 0 && d > 0
    ensures b * d > 0 && v / b / d == v / (b * d)
  {
    var m, s := v / b, v % b;
    var q, r := m / d, m % d;
    Quotient(v, b);
    Quotient(m, d);
    DigitsFit(d, r, b, s);
    Regroup(m, q, d, r, b, s);
    DivisionIsUnique(v, b * d, q, r * b + s);
  }

  /** Byte j of n is the digit of v that counts 256^(n - 1 - j). */
  lemma {:induction false} BeByte(v: nat, n: nat, j: nat)
    requires j < n
    ensures Be(v, n)[j] == v / Radix(n - 1 - j) % 256
  {
    if j < n - 1 {
      BeByte(v / 256, n - 1, j);
      DivideTwice(v, 256, Radix(n - 2 - j));
    }
  }

  /** The widths in use, byte by byte. */
  lemma OneByte(v: nat)
    ensures Be(v, 1) == [v % 256]
  {
    assert Be(v / 256, 0) == [];
  }

  lemma TwoBytes(v: nat)
    ensures Be(v, 2) == [v / 0x100 % 256, v % 256]
  {
    hide Be;
    OneByte(v / 256);
    LastByte(v, 1);
  }

  lemma FourBytes(v: nat)
    ensures Be(v, 4) == [v / 0x100_0000 % 256, v / 0x1_0000 % 256, v / 0x100 % 256, v % 256]
  {
    hide Be;
    TwoBytes(v / 0x1_0000);
    LastByte(v / 0x100, 2);
    LastByte(v, 3);
    Halves(v);
  }

  lemma LastByte(v: nat, n: nat)
    ensures Be(v, n + 1) == Be(v / 256, n) + [v % 256]
  {
  }

  lemma Halves(v: nat)
    ensures v / 0x100 / 256 == v / 0x1_0000 && v / 0x1_0000 / 0x100 == v / 0x100_0000
  {
  }

  lemma {:induction false} BeOfFromBe(b: bytes)
    ensures Be(FromBe(b), |b|) == b
  {
    if |b| > 0 {
      var more, last := b[..|b| - 1], b[|b| - 1];
      BeOfFromBe(more);
      assert FromBe(b) / 256 == FromBe(more) && FromBe(b) % 256 == last;
      assert b == more + [last];
    }
  }

  function Zeros(n: nat): (r: bytes)
    ensures |r| == n && forall k | 0 <= k < n :: r[k] == 0
  {
    seq(n, _ => 0)
  }

  function Least(a: int, b: int): int {
    if a < b then a else b
  }

  function NotBelow0(n: int): nat {
    if n < 0 then 0 else n
  }

  /** The capacities a growing buffer goes through: base, doubled k times. */
  function Doubled(base: nat, k: nat): (r: nat)
    ensures r >= base
  {
    if k == 0 then base else 2 * Doubled(base, k - 1)
  }

  lemma {:induction false} DoubledGrows(base: nat, j: nat, k: nat)
    requires j <= k
    ensures Doubled(base, j) <= Doubled(base, k)
  {
    if j < k {
      DoubledGrows(base, j, k - 1);
    }
  }

  /** A capacity above another is at least its double. */
  lemma DoubledSkips(base: nat, j: nat, k: nat)
    ensures Doubled(base, j) < Doubled(base, k) ==> 2 * Doubled(base, j) <= Doubled(base, k)
  {
    if k <= j {
      DoubledGrows(base, k, j);
    } else {
      DoubledGrows(base, j + 1, k);
    }
  }

  /** From 64 up to 2^31, and so from 256. */
  lemma DoubledValues()
    ensures Doubled(64, 24) == 0x4000_0000 && Doubled(64, 25) == U31
    ensures Doubled(256, 22) == 0x4000_0000 && Doubled(256, 23) == U31
  {
    assert Doubled(64, 8) == 0x4000;
    assert Doubled(64, 16) == 0x40_0000;
    assert Doubled(256, 6) == 0x4000;
    assert Doubled(256, 14) == 0x40_0000;
  }

  lemma SliceOfSlice<T>(s: seq<T>, a: nat, b: nat, c: nat, d: nat)
    requires a <= b <= |s| && c <= d <= b - a
    ensures s[a..b][c..d] == s[a + c..a + d]
  {
    var x, y := s[a..b][c..d], s[a + c..a + d];
    assert |x| == |y| && forall k | 0 <= k < |x| :: x[k] == y[k];
  }

  /** Neighbouring slices join. */
  lemma SlicesJoin<T>(s: seq<T>, a: nat, b: nat, c: nat)
    requires a <= b <= c <= |s|
    ensures s[a..c] == s[a..b] + s[b..c]
  {
  }

  /** A run of 32-bit words, most significant byte first. */
  function BeWords(xs: seq<u32>): (r: bytes)
    ensures |r| == 4 * |xs|
  {
    if |xs| == 0 then [] else Be(xs[0], 4) + BeWords(xs[1..])
  }

  function Words(b: bytes): (r: seq<u32>)
    requires |b| % 4 == 0
    ensures |r| == |b| / 4
  {
    if |b| == 0 then [] else
      (RadixValues(); FromBeRange(b[..4]); [FromBe(b[..4])]) + Words(b[4..])
  }

  lemma {:induction false} WordsOfBeWords(xs: seq<u32>)
    ensures Words(BeWords(xs)) == xs
  {
    if |xs| > 0 {
      RadixValues();
      FromBeOfBe(xs[0], 4);
      WordsOfBeWords(xs[1..]);
      assert BeWords(xs)[..4] == Be(xs[0], 4) && BeWords(xs)[4..] == BeWords(xs[1..]);
    }
  }

  lemma {:induction false} BeWordsOfWords(b: bytes)
    requires |b| % 4 == 0
    ensures BeWords(Words(b)) == b
  {
    if |b| > 0 {
      BeOfFromBe(b[..4]);
      BeWordsOfWords(b[4..]);
      assert b == b[..4] + b[4..];
    }
  }

  /** One more word at the end. */
  lemma {:induction false} BeWordsSnoc(xs: seq<u32>, x: u32)
    ensures BeWords(xs + [x]) == BeWords(xs) + Be(x, 4)
  {
    if |xs| == 0 {
      assert xs + [x] == [x];
      assert BeWords([x]) == Be(x, 4) + BeWords([]);
    } else {
      BeWordsSnoc(xs[1..], x);
      assert (xs + [x])[1..] == xs[1..] + [x];
    }
  }

  /** The i-th word sits at byte 4 * i. */
  lemma {:induction false} WordsAt(b: bytes, i: nat)
    requires |b| % 4 == 0 && 4 * i < |b|
    ensures Words(b)[i] == FromBe(b[4 * i..4 * i + 4])
  {
    if i > 0 {
      WordsAt(b[4..], i - 1);
      assert b[4..] == b[4..|b|];
      SliceOfSlice(b, 4, |b|, 4 * (i - 1), 4 * (i - 1) + 4);
    }
  }
}
