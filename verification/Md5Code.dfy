/** The streaming MD5 of crypto.c: one block buffer, filled and folded as the data comes. */
module Md5Code {
  import opened Md5

  method MixedBits(i: nat, b: bv32, c: bv32, d: bv32) returns (f: bv32)
    requires i < 64
    ensures f == Mix(i, b, c, d)
  {
    hide F, G, H, I;
    XorF(b, c, d);
    XorG(b, c, d);
    PlainH(b, c, d);
    if i < 16 {
      f := d ^ (b & (c ^ d));
    } else if i < 32 {
      f := c ^ (d & (b ^ c));
    } else if i < 48 {
      f := b ^ c ^ d;
    } else {
      f := c ^ (b | !d);
    }
  }

  method WordToTake(i: nat) returns (g: nat)
    requires i < 64
    ensures g == Word(i)
  {
    hide Word;
    WordFormula(i);
    if i < 16 {
      g := i;
    } else if i < 32 {
      g := (5 * i + 1) % 16;
    } else if i < 48 {
      g := (3 * i + 5) % 16;
    } else {
      g := 7 * i % 16;
    }
  }

  method BlockToWords(block: array<bv8>) returns (m: array<bv32>)
    requires block.Length == 64
    ensures m.Length == 16 && m[..] == BlockWords(block[..])
  {
    m := new bv32[16];
    for i := 0 to 16
      invariant forall j | 0 <= j < i :: m[j] == LeWord(block[..], 4 * j)
    {
      m[i] := (block[i * 4] as bv32) | ((block[i * 4 + 1] as bv32) << 8) | ((block[i * 4 + 2] as bv32) << 16)
        | ((block[i * 4 + 3] as bv32) << 24);
    }
    assert m[..] == BlockWords(block[..]);
  }

  /** The new b of one turn of the loop. */
  method Turn(i: nat, a: bv32, b: bv32, c: bv32, d: bv32, m: seq<bv32>) returns (r: bv32)
    requires i < 64 && |m| == 16
    ensures r == Operate(i, a, b, c, d, m)
  {
    hide Word, Mix, Turned32, Shift, Sine, Sum;
    var f := MixedBits(i, b, c, d);
    var g := WordToTake(i);
    f := AddUp(f, a, Sine(i), m[g]);
    r := Turned32(b, f, Shift(i));
  }

  method AddUp(f: bv32, a: bv32, t: bv32, x: bv32) returns (s: bv32)
    ensures s == Sum(a, f, x, t)
  {
    s := f + a + t + x;
  }

  /** MD5_ROUND. */
  method Round(block: array<bv8>, r: Regs) returns (s: Regs)
    requires block.Length == 64
    ensures s == Compress(r, block[..])
  {
    hide BlockWords, Operate, Turned, Operations, Added;
    var words := BlockToWords(block);
    var m := words[..];
    var a, b, c, d := r.a, r.b, r.c, r.d;
    Unturned(r, m);
    for i := 0 to 64
      invariant Regs(a, b, c, d) == Turned(i, Operations(i, r, m))
    {
      TurnIsOperation(i, r, m);
      var t := Turn(i, a, b, c, d, m);
      a, d, c, b := d, c, b, t;
    }
    s := Added(r, Regs(a, b, c, d));
  }

  lemma Unturned(r: Regs, m: seq<bv32>)
    requires |m| == 16
    ensures Turned(0, Operations(0, r, m)) == r && Turned(64, Operations(64, r, m)) == Operations(64, r, m)
  {
    hide Operate;
  }

  /** memcpy into the block. */
  method Copy(block: array<bv8>, used: nat, data: octets, pos: nat, n: nat)
    requires block.Length == 64 && used + n <= 64 && pos + n <= |data|
    modifies block
    ensures block[..used + n] == old(block[..used]) + data[pos..pos + n]
  {
    for i := 0 to n
      invariant block[..used + i] == old(block[..used]) + data[pos..pos + i]
    {
      block[used + i] := data[pos + i];
      assert block[..used + i + 1] == block[..used + i] + [data[pos + i]];
    }
  }

  /** memset of the block's octets from..to. */
  method Clear(block: array<bv8>, from: nat, to: nat)
    requires block.Length == 64 && from <= to <= 64
    modifies block
    ensures block[..to] == old(block[..from]) + Zero(to - from)
  {
    for i := from to to
      invariant block[..i] == old(block[..from]) + Zero(i - from)
    {
      block[i] := 0;
      assert block[..i + 1] == block[..i] + [0];
    }
  }

  /** The data, block by block: the registers, and how much of the block the rest fills. */
  method Feed(data: octets, block: array<bv8>) returns (r: Regs, used: nat)
    requires block.Length == 64
    modifies block
    ensures used == |data| % 64
    ensures r == Fold(INIT, data[..|data| - used]) && block[..used] == data[|data| - used..]
  {
    hide Compress, Fold;
    r := INIT;
    var pos: nat := 0;
    used := 0;
    EmptyFold(INIT);
    while pos < |data|
      invariant used < 64 && used <= pos <= |data| && (pos - used) % 64 == 0
      invariant r == Fold(INIT, data[..pos - used]) && block[..used] == data[pos - used..pos]
    {
      var take := if |data| - pos > 64 - used then 64 - used else |data| - pos;
      ghost var start := pos - used;
      Copy(block, used, data, pos, take);
      assert data[start..pos] + data[pos..pos + take] == data[start..pos + take];
      used := used + take;
      pos := pos + take;
      if used == 64 {
        assert block[..] == data[start..pos];
        FoldOneMore(INIT, data[..start], data[start..pos]);
        assert data[..start] + data[start..pos] == data[..pos];
        r := Round(block, r);
        used := 0;
      }
    }
  }

  lemma EmptyFold(r: Regs)
    ensures Fold(r, []) == r
  {
  }

  lemma FoldOneMore(r: Regs, a: octets, b: octets)
    requires |a| % 64 == 0 && |b| == 64
    ensures Fold(r, a + b) == Compress(Fold(r, a), b)
  {
    hide Compress, Fold;
    FoldOfMore(r, a, b);
    FoldOfOne(Fold(r, a), b);
  }

  /** bitlen >> (8 * i), cut to an octet. */
  function LengthOctet(v: bv64, i: nat): bv8
    requires i < 8
  {
    match i
    case 0 => (v & 0xff) as bv8
    case 1 => ((v >> 8) & 0xff) as bv8
    case 2 => ((v >> 16) & 0xff) as bv8
    case 3 => ((v >> 24) & 0xff) as bv8
    case 4 => ((v >> 32) & 0xff) as bv8
    case 5 => ((v >> 40) & 0xff) as bv8
    case 6 => ((v >> 48) & 0xff) as bv8
    case _ => ((v >> 56) & 0xff) as bv8
  }

  /** Those are the octets of the length's two words. */
  lemma OctetOfLength(v: bv64, i: nat)
    requires i < 8
    ensures LengthOctets(v)[i] == LengthOctet(v, i)
  {
  }

  // ---------------------------------------------------------------- the tail

  method PutLength(block: array<bv8>, n: nat)
    requires block.Length == 64
    modifies block
    ensures block[..] == old(block[..56]) + LengthOctets(BitLength(n))
  {
    hide LengthOctets, BitLength, LengthOctet;
    ghost var was := block[..56];
    var v := BitLength(n);
    for i := 0 to 8
      invariant block[..56] == was && forall j | 0 <= j < i :: block[56 + j] == LengthOctet(v, j)
    {
      block[56 + i] := LengthOctet(v, i);
    }
    forall i | 0 <= i < 8 ensures block[56 + i] == LengthOctets(v)[i] {
      OctetOfLength(v, i);
    }
    assert block[56..] == LengthOctets(v);
    assert block[..] == block[..56] + block[56..];
  }

  /** What is left of the padded message after the data and its 0x80. */
  lemma TailOfPadded(data: octets, used: nat)
    requires used == |data| % 64 + 1
    ensures var l := LengthOctets(BitLength(|data|));
      Padded(data) == data + [0x80] + (if used > 56 then Zero(64 - used) + (Zero(56) + l) else Zero(56 - used) + l)
  {
    hide LengthOctets, BitLength;
    var l := LengthOctets(BitLength(|data|));
    if used > 56 {
      assert Fill(|data|) == 120 - used;
      assert Zero(120 - used) == Zero(64 - used) + Zero(56);
      assert Padded(data) == data + [0x80] + (Zero(64 - used) + Zero(56)) + l;
    } else {
      assert Fill(|data|) == 56 - used;
    }
  }

  method Emit(r: Regs) returns (out: octets)
    ensures out == Output(r)
  {
    hide WordOctets;
    var st := [r.a, r.b, r.c, r.d];
    out := [];
    for i := 0 to 4
      invariant out == Words(st[..i])
    {
      var w := EmitWord(st[i]);
      assert st[..i + 1][..i] == st[..i];
      out := out + w;
    }
    assert st[..4] == st;
    FourWords(st);
  }

  lemma FourWords(st: seq<bv32>)
    requires |st| == 4
    ensures Words(st) == WordOctets(st[0]) + WordOctets(st[1]) + WordOctets(st[2]) + WordOctets(st[3])
  {
    hide WordOctets;
    var three, two, one := st[..3], st[..2], st[..1];
    assert three[..2] == two && two[..1] == one && one[..0] == [];
    assert Words(one) == [] + WordOctets(st[0]) == WordOctets(st[0]);
    assert Words(two) == Words(one) + WordOctets(st[1]);
    assert Words(three) == Words(two) + WordOctets(st[2]);
  }

  function Words(ws: seq<bv32>): octets {
    if |ws| == 0 then [] else Words(ws[..|ws| - 1]) + WordOctets(ws[|ws| - 1])
  }

  method EmitWord(w: bv32) returns (out: octets)
    ensures out == WordOctets(w)
  {
    hide WordOctet;
    out := [];
    for j := 0 to 4
      invariant |out| == j && forall k | 0 <= k < j :: out[k] == WordOctet(w, k)
    {
      out := out + [WordOctet(w, j)];
    }
  }

  /** Makes room for the length: a block with less than eight octets free is filled up and folded. */
  method MakeRoom(block: array<bv8>, r: Regs, used: nat, ghost head: octets) returns (s: Regs, left: nat,
                  ghost done: octets)
    requires block.Length == 64 && used <= 64 && |head| % 64 == 0 && r == Fold(INIT, head)
    modifies block
    ensures left <= 56 && |done| % 64 == 0 && s == Fold(INIT, done)
    ensures done + block[..left] == head + old(block[..used]) + if used > 56 then Zero(64 - used) else []
    ensures left == if used > 56 then 0 else used
  {
    hide Compress, Fold, Zero;
    s, left, done := r, used, head;
    if used > 56 {
      Clear(block, used, 64);
      assert block[..] == block[..64];
      FoldOneMore(INIT, head, block[..]);
      s := Round(block, r);
      left, done := 0, head + block[..];
    }
  }

  /** Fills the rest of the last block and folds it. */
  method LastBlock(block: array<bv8>, r: Regs, used: nat, n: nat, ghost head: octets) returns (s: Regs)
    requires block.Length == 64 && used <= 56 && |head| % 64 == 0 && r == Fold(INIT, head)
    modifies block
    ensures var m := head + (old(block[..used]) + Zero(56 - used) + LengthOctets(BitLength(n)));
      |m| % 64 == 0 && s == Fold(INIT, m)
  {
    hide Compress, Fold, LengthOctets, BitLength, Zero;
    Clear(block, used, 56);
    PutLength(block, n);
    FoldOneMore(INIT, head, block[..]);
    s := Round(block, r);
  }

  /** minecpp_md5. */
  method DigestOf(data: octets) returns (out: octets)
    ensures out == Digest(data)
  {
    hide Compress, Fold, LengthOctets, BitLength, Padded, Output, Zero;
    var block := new bv8[64];
    var r, used := Feed(data, block);
    ghost var head := data[..|data| - used];
    ghost var l := LengthOctets(BitLength(|data|));
    TailOfPadded(data, used + 1);
    block[used] := 0x80;
    used := used + 1;
    assert head + block[..used] == data + [0x80];
    ghost var pad := if used > 56 then Zero(64 - used) else [];
    r, used, head := MakeRoom(block, r, used, head);
    ghost var rest := block[..used];
    r := LastBlock(block, r, used, |data|, head);
    assert head + (rest + Zero(56 - used) + l) == (head + rest) + (Zero(56 - used) + l);
    assert (head + rest) + (Zero(56 - used) + l) == Padded(data);
    out := Emit(r);
  }
}
