/** Block and chunk coordinates. */
module Coordinates {
  const I32_MIN: int := -0x8000_0000
  const I32_MAX: int := 0x7fff_ffff

  predicate IsI32(v: int) {
    I32_MIN <= v <= I32_MAX
  }

  /** ChunkKey: x in the high half of an int64_t; z, cast to uint32_t, xor-ed into the low half. The low
      half of the first is zero, so that xor is a sum (XorIsSum). */
  function ChunkKey(cx: int, cz: int): int {
    cx * 0x1_0000_0000 + cz % 0x1_0000_0000
  }

  lemma XorIsSum(hi: bv32, lo: bv32)
    ensures (((hi as bv64) << 32) ^ (lo as bv64)) as int == (hi as int) * 0x1_0000_0000 + lo as int
  {
  }

  /** ChunkKey is the int64_t whose bits the casts, the shift and the xor make. */
  lemma KeyIsItsBits(cx: int, cz: int, x: bv32, z: bv32)
    requires x as int == cx % 0x1_0000_0000 && z as int == cz % 0x1_0000_0000
    ensures ChunkKey(cx, cz) % 0x1_0000_0000_0000_0000 == (((x as bv64) << 32) ^ (z as bv64)) as int
  {
    XorIsSum(x, z);
    Residue(cx, cz, x as int, z as int);
  }

  lemma Residue(cx: int, cz: int, x: int, z: int)
    requires x == cx % 0x1_0000_0000 && z == cz % 0x1_0000_0000
    ensures ChunkKey(cx, cz) % 0x1_0000_0000_0000_0000 == x * 0x1_0000_0000 + z
  {
    var q := cx / 0x1_0000_0000;
    assert ChunkKey(cx, cz) == q * 0x1_0000_0000_0000_0000 + (x * 0x1_0000_0000 + z);
  }

  /** Different chunks have different keys, and a key is an int64_t. */
  lemma ChunkKeyIsInjective(ax: int, az: int, bx: int, bz: int)
    requires IsI32(ax) && IsI32(az) && IsI32(bx) && IsI32(bz)
    ensures ChunkKey(ax, az) == ChunkKey(bx, bz) <==> ax == bx && az == bz
    ensures -0x8000_0000_0000_0000 <= ChunkKey(ax, az) < 0x8000_0000_0000_0000
  {
  }

  /** Cast of a double to int32_t: towards zero. */
  function Truncated(v: real): int {
    if v >= 0.0 then v.Floor else -((-v).Floor)
  }

  /** FloorDiv16. */
  function FloorDiv16(v: real): int {
    var d := v / 16.0;
    var c := Truncated(d);
    if d < 0.0 && c as real != d then c - 1 else c
  }

  /** FloorDiv16 rounds down, on both sides of zero: the chunk a position is in. */
  lemma FloorDivRoundsDown(v: real)
    ensures 16.0 * FloorDiv16(v) as real <= v < 16.0 * (FloorDiv16(v) + 1) as real
  {
  }

  lemma BlockInItsChunk(x: int)
    ensures FloorDiv16(x as real) == x / 16 && 0 <= x - FloorDiv16(x as real) * 16 < 16
  {
    FloorDivRoundsDown(x as real);
    var c := FloorDiv16(x as real);
    assert 16 * c <= x < 16 * (c + 1);
  }
}
