/** MD5: the definition of RFC 1321, and the streaming code of crypto.c, which computes it. */
module Md5 {
  type octets = seq<bv8>

  // ---------------------------------------------------------------- RFC 1321, section 3.4

  /** The four registers. */
  datatype Regs = Regs(a: bv32, b: bv32, c: bv32, d: bv32)

  /** Section 3.3. */
  const INIT := Regs(0x67452301, 0xefcdab89, 0x98badcfe, 0x10325476)

  /** T[i] is the integer part of 2^32 times abs(sin(i + 1)); here by rounds. */
  function T(round: nat): (r: seq<bv32>)
    ensures |r| == 16
  {
    match round
    case 0 => [0xd76aa478, 0xe8c7b756, 0x242070db, 0xc1bdceee, 0xf57c0faf, 0x4787c62a, 0xa8304613, 0xfd469501,
                0x698098d8, 0x8b44f7af, 0xffff5bb1, 0x895cd7be, 0x6b901122, 0xfd987193, 0xa679438e, 0x49b40821]
    case 1 => [0xf61e2562, 0xc040b340, 0x265e5a51, 0xe9b6c7aa, 0xd62f105d, 0x02441453, 0xd8a1e681, 0xe7d3fbc8,
                0x21e1cde6, 0xc33707d6, 0xf4d50d87, 0x455a14ed, 0xa9e3e905, 0xfcefa3f8, 0x676f02d9, 0x8d2a4c8a]
    case 2 => [0xfffa3942, 0x8771f681, 0x6d9d6122, 0xfde5380c, 0xa4beea44, 0x4bdecfa9, 0xf6bb4b60, 0xbebfbc70,
                0x289b7ec6, 0xeaa127fa, 0xd4ef3085, 0x04881d05, 0xd9d4d039, 0xe6db99e5, 0x1fa27cf8, 0xc4ac5665]
    case _ => [0xf4292244, 0x432aff97, 0xab9423a7, 0xfc93a039, 0x655b59c3, 0x8f0ccc92, 0xffeff47d, 0x85845dd1,
                0x6fa87e4f, 0xfe2ce6e0, 0xa3014314, 0x4e0811a1, 0xf7537e82, 0xbd3af235, 0x2ad7d2bb, 0xeb86d391]
  }

  type Index = k: nat | k < 16

  /** The words each round takes, as section 3.4 lists them. */
  function RoundWords(round: nat): (r: seq<Index>)
    ensures |r| == 16
  {
    match round
    case 0 => [0, 1, 2, 3, 4, 5, 6, 7, 8, 9, 10, 11, 12, 13, 14, 15]
    case 1 => [1, 6, 11, 0, 5, 10, 15, 4, 9, 14, 3, 8, 13, 2, 7, 12]
    case 2 => [5, 8, 11, 14, 1, 4, 7, 10, 13, 0, 3, 6, 9, 12, 15, 2]
    case _ => [0, 7, 14, 5, 12, 3, 10, 1, 8, 15, 6, 13, 4, 11, 2, 9]
  }

  type Amount = n: bv6 | n <= 32

  /** The shift amounts, four to a round. */
  const SHIFTS: seq<Amount> := [7, 12, 17, 22, 5, 9, 14, 20, 4, 11, 16, 23, 6, 10, 15, 21]

  function Rol(v: bv32, n: Amount): bv32 {
    (v << n) | (v >> (32 - n))
  }

  function F(x: bv32, y: bv32, z: bv32): bv32 { (x & y) | (!x & z) }

  function G(x: bv32, y: bv32, z: bv32): bv32 { (x & z) | (y & !z) }

  function H(x: bv32, y: bv32, z: bv32): bv32 { x ^ y ^ z }

  function I(x: bv32, y: bv32, z: bv32): bv32 { y ^ (x | !z) }

  /** The round function of operation i. */
  function Mix(i: nat, x: bv32, y: bv32, z: bv32): bv32 {
    if i < 16 then F(x, y, z) else if i < 32 then G(x, y, z) else if i < 48 then H(x, y, z) else I(x, y, z)
  }

  function Shift(i: nat): Amount
    requires i < 64
  {
    SHIFTS[i / 16 * 4 + i % 4]
  }

  function Word(i: nat): (k: nat)
    requires i < 64
    ensures k < 16
  {
    RoundWords(i / 16)[i % 16]
  }

  function Sine(i: nat): bv32
    requires i < 64
  {
    T(i / 16)[i % 16]
  }

  function Sum(a: bv32, f: bv32, x: bv32, t: bv32): bv32 {
    a + f + x + t
  }

  /** v rotated and added to b. */
  function Turned32(b: bv32, v: bv32, n: Amount): bv32 {
    b + Rol(v, n)
  }

  /** One operation: a = b + ((a + f(b, c, d) + X[k] + T[i]) <<< s). */
  function Operate(i: nat, a: bv32, b: bv32, c: bv32, d: bv32, m: seq<bv32>): bv32
    requires i < 64 && |m| == 16
  {
    Turned32(b, Sum(a, Mix(i, b, c, d), m[Word(i)], Sine(i)), Shift(i))
  }

  /** The registers after the first n operations, which take the roles [ABCD], [DABC], [CDAB], [BCDA] in turn. */
  function Operations(n: nat, r: Regs, m: seq<bv32>): Regs
    requires n <= 64 && |m| == 16
  {
    if n == 0 then r
    else
      var s := Operations(n - 1, r, m);
      match (n - 1) % 4
      case 0 => s.(a := Operate(n - 1, s.a, s.b, s.c, s.d, m))
      case 1 => s.(d := Operate(n - 1, s.d, s.a, s.b, s.c, m))
      case 2 => s.(c := Operate(n - 1, s.c, s.d, s.a, s.b, m))
      case _ => s.(b := Operate(n - 1, s.b, s.c, s.d, s.a, m))
  }

  function LeWord(b: octets, i: nat): bv32
    requires i + 4 <= |b|
  {
    (b[i] as bv32) | ((b[i + 1] as bv32) << 8) | ((b[i + 2] as bv32) << 16) | ((b[i + 3] as bv32) << 24)
  }

  function BlockWords(b: octets): (m: seq<bv32>)
    requires |b| == 64
    ensures |m| == 16
  {
    seq(16, i requires 0 <= i < 16 => LeWord(b, 4 * i))
  }

  function Added(r: Regs, s: Regs): Regs {
    Regs(r.a + s.a, r.b + s.b, r.c + s.c, r.d + s.d)
  }

  function Compress(r: Regs, b: octets): Regs
    requires |b| == 64
  {
    Added(r, Operations(64, r, BlockWords(b)))
  }

  /** Block after block. */
  function Fold(r: Regs, m: octets): Regs
    requires |m| % 64 == 0
    decreases |m|
  {
    if |m| == 0 then r else Fold(Compress(r, m[..64]), m[64..])
  }

  // ---------------------------------------------------------------- RFC 1321, sections 3.1, 3.2 and 3.5

  function Zero(n: nat): (r: octets)
    ensures |r| == n
  {
    seq(n, _ => 0)
  }

  /** How many zeros bring a message with its 0x80 octet to 56 modulo 64. */
  function Fill(n: nat): (k: nat)
    ensures k < 64 && (n + 1 + k) % 64 == 56
  {
    (119 - n % 64) % 64
  }

  /** The length in bits, of which only the low 64 count. */
  function BitLength(n: nat): bv64 {
    (n * 8 % 0x1_0000_0000_0000_0000) as bv64
  }

  /** Octet j of a word, low-order octet first. */
  function WordOctet(w: bv32, j: nat): bv8
    requires j < 4
  {
    match j
    case 0 => (w & 0xff) as bv8
    case 1 => ((w >> 8) & 0xff) as bv8
    case 2 => ((w >> 16) & 0xff) as bv8
    case _ => (w >> 24) as bv8
  }

  function WordOctets(w: bv32): (r: octets)
    ensures |r| == 4
  {
    [WordOctet(w, 0), WordOctet(w, 1), WordOctet(w, 2), WordOctet(w, 3)]
  }

  /** The length as two words, low-order word first. */
  function LengthOctets(v: bv64): (r: octets)
    ensures |r| == 8
  {
    WordOctets((v & 0xffff_ffff) as bv32) + WordOctets((v >> 32) as bv32)
  }

  lemma PaddedSize(n: nat)
    ensures (n + 1 + Fill(n) + 8) % 64 == 0
  {
  }

  function Padded(data: octets): (r: octets)
    ensures |r| % 64 == 0
  {
    PaddedSize(|data|);
    data + [0x80] + Zero(Fill(|data|)) + LengthOctets(BitLength(|data|))
  }

  function Output(r: Regs): octets {
    WordOctets(r.a) + WordOctets(r.b) + WordOctets(r.c) + WordOctets(r.d)
  }

  function Digest(data: octets): octets {
    Output(Fold(INIT, Padded(data)))
  }

  // ---------------------------------------------------------------- the forms the code uses

  /** F and G with xors. */
  lemma XorF(b: bv32, c: bv32, d: bv32)
    ensures d ^ (b & (c ^ d)) == F(b, c, d)
  {
  }

  lemma XorG(b: bv32, c: bv32, d: bv32)
    ensures c ^ (d & (b ^ c)) == G(b, c, d)
  {
  }

  lemma PlainH(b: bv32, c: bv32, d: bv32)
    ensures b ^ c ^ d == H(b, c, d) && c ^ (b | !d) == I(b, c, d)
  {
  }

  /** The code computes which word an operation takes. */
  function CodeWord(i: nat): nat {
    if i < 16 then i else if i < 32 then (5 * i + 1) % 16 else if i < 48 then (3 * i + 5) % 16 else 7 * i % 16
  }

  /** It is the word the RFC lists. */
  lemma WordFormula(i: nat)
    requires i < 64
    ensures CodeWord(i) == Word(i)
  {
    var k := i % 16;
    if i < 16 {
      assert i == k;
      RoundFormula(0, k);
    } else if i < 32 {
      assert i == 16 + k;
      RoundFormula(1, k);
    } else if i < 48 {
      assert i == 32 + k;
      RoundFormula(2, k);
    } else {
      assert i == 48 + k;
      RoundFormula(3, k);
    }
  }

  lemma RoundFormula(round: nat, k: nat)
    requires round < 4 && k < 16
    ensures CodeWord(16 * round + k) == RoundWords(round)[k]
  {
    match k
    case 0 => case 1 => case 2 => case 3 => case 4 => case 5 => case 6 => case 7 =>
    case 8 => case 9 => case 10 => case 11 => case 12 => case 13 => case 14 => case _ =>
  }

  /** The registers as the code holds them: it moves the values round instead of the roles. */
  function Turned(n: nat, r: Regs): Regs {
    match n % 4
    case 0 => r
    case 1 => Regs(r.d, r.a, r.b, r.c)
    case 2 => Regs(r.c, r.d, r.a, r.b)
    case _ => Regs(r.b, r.c, r.d, r.a)
  }

  /** One turn of the code's loop is one operation. */
  lemma TurnIsOperation(n: nat, r: Regs, m: seq<bv32>)
    requires n < 64 && |m| == 16
    ensures var s := Turned(n, Operations(n, r, m));
      Turned(n + 1, Operations(n + 1, r, m)) == Regs(s.d, Operate(n, s.a, s.b, s.c, s.d, m), s.b, s.c)
  {
    hide Operate;
    var o, q := Operations(n, r, m), n / 4;
    assert n == 4 * q + n % 4;
    match n % 4
    case 0 => assert (n + 1) % 4 == 1;
    case 1 => assert (n + 1) % 4 == 2;
    case 2 => assert (n + 1) % 4 == 3;
    case _ => assert (n + 1) % 4 == 0;
  }

  lemma {:induction false} FoldOfMore(r: Regs, a: octets, b: octets)
    requires |a| % 64 == 0 && |b| % 64 == 0
    ensures Fold(r, a + b) == Fold(Fold(r, a), b)
    decreases |a|
  {
    hide Compress;
    if |a| == 0 {
      assert a + b == b;
    } else {
      assert (a + b)[..64] == a[..64] && (a + b)[64..] == a[64..] + b;
      FoldOfMore(Compress(r, a[..64]), a[64..], b);
    }
  }

  lemma FoldOfOne(r: Regs, a: octets)
    requires |a| == 64
    ensures Fold(r, a) == Compress(r, a)
  {
    hide Compress;
    assert a[..64] == a && a[64..] == [];
    assert Fold(Compress(r, a), []) == Compress(r, a);
  }
}
