/** Which bits of which bytes hold a block, in memory and on the wire. */
module ChunkLayout {
  import opened Bytes
  import opened Coordinates
  import opened Framing
  import opened Blocks
  import opened Wire

  // ---------------------------------------------------------------- in memory

  /** The low or the high half of a byte. */
  function Half(b: byte, high: bool): nat {
    if high then b / 16 else b % 16
  }

  /** Block (x, y, z) of a chunk: section y / 16, place y % 16 * 256 + z * 16 + x; the id's low eight bits in one array,
      its upper four and the metadata in half bytes, those of even x in the low half. */
  lemma BlockIsItsBits(c: Chunk, x: int, y: int, z: int)
    requires c.Sized() && 0 <= x < 16 && 0 <= y < 256 && 0 <= z < 16
    ensures BlockGet(c, x, y, z) ==
      if c.sections[y / 16].None? then Some((0, 0))
      else
        var s, i := c.sections[y / 16].value, y % 16 * 256 + z * 16 + x;
        Some((s.blocks[i] + 256 * (if s.hasAdd then Half(s.add[i / 2], x % 2 == 1) else 0),
              Half(s.data[i / 2], x % 2 == 1)))
  {
  }

  /** A write above 255 sets the upper four bits and the flag; one up to 255 clears them only where the flag is set. */
  lemma WriteIsItsBits(s: Section, i: nat, id: nat, meta: nat)
    requires s.Sized() && i < 4096 && id < 4096 && meta < 16
    ensures var t := SetAt(s, i, id, meta);
      && t.blocks == s.blocks[i := id % 256]
      && t.hasAdd == (s.hasAdd || id >= 256)
      && t.y == s.y && t.blockLight == s.blockLight && t.skyLight == s.skyLight
      && Half(t.data[i / 2], i % 2 == 1) == meta && Half(t.data[i / 2], i % 2 == 0) == Half(s.data[i / 2], i % 2 == 0)
      && (t.hasAdd ==> Half(t.add[i / 2], i % 2 == 1) == id / 256)
      && (!t.hasAdd ==> t.add == s.add)
      && Half(t.add[i / 2], i % 2 == 0) == Half(s.add[i / 2], i % 2 == 0)
      && forall k | 0 <= k < 2048 && k != i / 2 :: t.data[k] == s.data[k] && t.add[k] == s.add[k]
  {
    MixedHalves(s.data[i / 2], meta);
    MixedHalves(s.add[i / 2], id / 256);
    MixedHalves(s.add[i / 2], 0);
  }

  /** A write to a chunk changes its own section's blocks and nothing else of the chunk; a section made for it is dark
      and empty but for that block. */
  lemma WriteTouchesOneSection(c: Chunk, x: int, y: int, z: int, id: int, meta: int)
    requires c.Sized() && 0 <= x < 16 && 0 <= y < 256 && 0 <= z < 16 && 0 <= id < 4096 && 0 <= meta < 16
    ensures var r, k := BlockSet(c, x, y, z, id, meta), y / 16;
      && r.Some? && r.value.sections[k].Some?
      && r.value == c.(sections := c.sections[k := r.value.sections[k]])
      && var t := r.value.sections[k].value;
        if c.sections[k].Some? then
          t.y == c.sections[k].value.y && t.blockLight == c.sections[k].value.blockLight
          && t.skyLight == c.sections[k].value.skyLight
        else
          && t.y == k && (forall i | 0 <= i < 2048 :: t.blockLight[i] == 0 && t.skyLight[i] == 0)
          && forall i | 0 <= i < 4096 && i != y % 16 * 256 + z * 16 + x :: t.blocks[i] == 0
  {
    var k := y / 16;
    WriteIsItsBits(SectionToWrite(c, y), Cell(x, y, z), id, meta);
  }

  /** A chunk in the table under its own coordinates holds the 16 by 16 columns from (16 x, 16 z) on. */
  lemma ColumnsOfChunk(w: Table, c: Chunk, dx: int, y: int, dz: int)
    requires Stored(w) && 0 <= dx < 16 && 0 <= dz < 16
    requires ChunkKey(c.x, c.z) in w && w[ChunkKey(c.x, c.z)] == c
    ensures GetBlock(w, 16 * c.x + dx, y, 16 * c.z + dz) == BlockGet(c, dx, y, dz)
  {
    hide BlockGet, ChunkKey, FloorDiv16;
    BlockInItsChunk(16 * c.x + dx);
    BlockInItsChunk(16 * c.z + dz);
    OutsideHeight(c, dx, y, dz);
  }

  lemma OutsideHeight(c: Chunk, x: int, y: int, z: int)
    requires c.Sized()
    ensures y < 0 || y > 255 ==> BlockGet(c, x, y, z) == None
  {
  }

  // ---------------------------------------------------------------- on the wire

  /** The bytes of a section: 4096 cells of two bytes, the first with the id's low four bits above the metadata, the
      second with the id's upper eight; then 2048 bytes of block light and 2048 of sky light. */
  lemma SectionBytes(s: Section, i: nat)
    requires s.Sized() && i < 4096
    ensures var d := SectionNet(s);
      && |d| == 12288
      && d[2 * i] == IdAt(s, i) % 16 * 16 + MetaAt(s, i) && d[2 * i + 1] == IdAt(s, i) / 16
      && d[8192..10240] == s.blockLight && d[10240..] == s.skyLight
  {
    hide IdAt, MetaAt;
    var d := SectionNet(s);
    IdIsSmall(s, i);
    CellDigits(IdAt(s, i), MetaAt(s, i));
    assert d[2 * i] == CellValue(s, i) % 256 && d[2 * i + 1] == CellValue(s, i) / 256;
  }

  lemma CellDigits(id: nat, meta: nat)
    requires id < 4096 && meta < 16
    ensures (id * 16 + meta) % 256 == id % 16 * 16 + meta && (id * 16 + meta) / 256 == id / 16
  {
  }

  lemma IdIsSmall(s: Section, i: nat)
    requires s.Sized() && i < 4096
    ensures IdAt(s, i) < 4096 && MetaAt(s, i) < 16
  {
  }

  /** How many of the first n are there. */
  function Present(ss: seq<Option<Section>>, n: nat): nat
    requires n <= |ss|
  {
    if n == 0 then 0 else (if ss[0].Some? then 1 else 0) + Present(ss[1..], n - 1)
  }

  lemma {:induction false} MaskBit(ss: seq<Option<Section>>, y: nat)
    requires y < |ss|
    ensures Mask(ss) / Pow2(y) % 2 == if ss[y].Some? then 1 else 0
  {
    hide Pow2, Mask;
    MaskHalf(ss);
    if y > 0 {
      MaskBit(ss[1..], y - 1);
      HalveFirst(Mask(ss), y);
    } else {
      LowestBit(Mask(ss));
    }
  }

  lemma MaskHalf(ss: seq<Option<Section>>)
    requires |ss| > 0
    ensures Mask(ss) / 2 == Mask(ss[1..]) && Mask(ss) % 2 == if ss[0].Some? then 1 else 0
  {
  }

  lemma LowestBit(m: nat)
    ensures m / Pow2(0) % 2 == m % 2
  {
  }

  lemma {:induction false} PlaceOf(ss: seq<Option<Section>>, y: nat)
    requires y < |ss| && forall i | 0 <= i < |ss| :: ss[i].Some? ==> ss[i].value.Sized()
    ensures ss[y].Some? ==>
      var at := 12288 * Present(ss, y);
      at + 12288 <= |SectionsNet(ss)| && SectionsNet(ss)[at..at + 12288] == SectionNet(ss[y].value)
  {
    hide SectionNet;
    var first, rest := MaybeNet(ss[0]), SectionsNet(ss[1..]);
    assert SectionsNet(ss) == first + rest;
    if y > 0 {
      PlaceOf(ss[1..], y - 1);
      if ss[y].Some? {
        Shifted(first, rest, 12288 * Present(ss[1..], y - 1));
      }
    } else if ss[0].Some? {
      assert (first + rest)[..|first|] == first;
    }
  }

  lemma Shifted(a: bytes, b: bytes, at: nat)
    requires at + 12288 <= |b|
    ensures (a + b)[|a| + at..|a| + at + 12288] == b[at..at + 12288]
  {
  }

  /** Bit y of the mask says whether section y is sent, and it is sent behind those below it. */
  lemma MaskAndPlace(ss: seq<Option<Section>>, y: nat)
    requires y < |ss| && forall i | 0 <= i < |ss| :: ss[i].Some? ==> ss[i].value.Sized()
    ensures Mask(ss) / Pow2(y) % 2 == (if ss[y].Some? then 1 else 0)
    ensures ss[y].Some? ==>
      var at := 12288 * Present(ss, y);
      at + 12288 <= |SectionsNet(ss)| && SectionsNet(ss)[at..at + 12288] == SectionNet(ss[y].value)
  {
    hide SectionNet, Mask, Present, SectionsNet;
    MaskBit(ss, y);
    PlaceOf(ss, y);
  }

  lemma HalveFirst(m: nat, y: nat)
    requires y > 0
    ensures m / Pow2(y) == m / 2 / Pow2(y - 1)
  {
    DivideTwice(m, 2, Pow2(y - 1));
  }

  /** A chunk packet: the position, the mask, the sections from the lowest up, and 256 bytes of biomes at the end of a
      continuous one. */
  lemma PacketIs(c: Chunk, continuous: bool)
    requires c.Sized()
    ensures Build(c, continuous).None? <==> continuous && !c.hasBiomes
    ensures Build(c, continuous).Some? ==>
      var p := Build(c, continuous).value;
      && p.x == c.x && p.z == c.z && p.continuous == continuous && p.mask < 0x1_0000
      && |p.data| == 12288 * Present(c.sections, 16) + (if continuous then 256 else 0)
      && (continuous ==> p.data[|p.data| - 256..] == c.biomes)
      && forall y | 0 <= y < 16 ::
           p.mask / Pow2(y) % 2 == (if c.sections[y].Some? then 1 else 0)
           && (c.sections[y].Some? ==>
                 var at := 12288 * Present(c.sections, y);
                 at + 12288 <= |p.data| && p.data[at..at + 12288] == SectionNet(c.sections[y].value))
  {
    hide SectionNet, Mask, SectionsNet, Present, Pow2;
    MaskFits(c.sections);
    SixteenBits();
    PresentSize(c.sections);
    forall y | 0 <= y < 16
      ensures Mask(c.sections) / Pow2(y) % 2 == (if c.sections[y].Some? then 1 else 0)
      ensures c.sections[y].Some? ==>
        var at := 12288 * Present(c.sections, y);
        at + 12288 <= |SectionsNet(c.sections)|
        && SectionsNet(c.sections)[at..at + 12288] == SectionNet(c.sections[y].value)
    {
      MaskAndPlace(c.sections, y);
    }
  }

  lemma SixteenBits()
    ensures Pow2(16) == 0x1_0000
  {
    assert Pow2(8) == 256;
  }

  lemma {:induction false} PresentSize(ss: seq<Option<Section>>)
    requires forall i | 0 <= i < |ss| :: ss[i].Some? ==> ss[i].value.Sized()
    ensures |SectionsNet(ss)| == 12288 * Present(ss, |ss|)
  {
    hide SectionNet;
    if |ss| > 0 {
      PresentSize(ss[1..]);
    }
  }

  /** Section y, at distance n, as an accepted packet leaves it: written over with the packet's bytes for it if its bit
      is set, and else as it was. */
  predicate Applied(was: Option<Section>, now: Option<Section>, mask: nat, d: bytes, n: nat, y: byte)
    requires was.Some? ==> was.value.Sized()
  {
    var at := 12288 * Bits(mask, n);
    if mask / Pow2(n) % 2 == 0 then now == was
    else at + 12288 <= |d| && now == Some(FromNet(TargetSection(was, y), d[at..at + 12288]))
  }

  lemma AppliedNext(was: Option<Section>, now: Option<Section>, mask: nat, d: bytes, n: nat, y: byte)
    requires was.Some? ==> was.value.Sized()
    requires n > 0 && (mask % 2 == 1 ==> |d| >= 12288)
    requires Applied(was, now, mask / 2, if mask % 2 == 0 then d else d[12288..], n - 1, y)
    ensures Applied(was, now, mask, d, n, y)
  {
    hide FromNet, TargetSection;
    HalveFirst(mask, n);
    var at := 12288 * Bits(mask / 2, n - 1);
    if mask % 2 == 1 && mask / Pow2(n) % 2 == 1 {
      assert d[12288..][at..at + 12288] == d[12288 + at..12288 + at + 12288];
    }
  }

  /** Every section after an accepted packet. */
  lemma {:induction false} AppliedAt(ss: seq<Option<Section>>, mask: nat, d: bytes, from: nat, y: nat)
    requires AllSized(ss) && from <= y < SECTIONS && ApplyFrom(ss, mask, d, from).ok
    ensures Applied(ss[y], ApplyFrom(ss, mask, d, from).sections[y], mask, d, y - from, y)
    decreases y - from
  {
    hide FromNet, EmptySection, Applied;
    var now := ApplyFrom(ss, mask, d, from).sections[y];
    if from == y {
      BelowStays(ss, mask, d, from);
      AppliedFirst(ss[y], now, mask, d, y);
    } else {
      if mask % 2 == 0 {
        AppliedAt(ss, mask / 2, d, from + 1, y);
      } else {
        AppliedAt(Overwritten(ss, from, d), mask / 2, d[12288..], from + 1, y);
      }
      AppliedNext(ss[y], now, mask, d, y - from, y);
    }
  }

  lemma AppliedFirst(was: Option<Section>, now: Option<Section>, mask: nat, d: bytes, y: byte)
    requires was.Some? ==> was.value.Sized()
    requires if mask % 2 == 0 then now == was
             else |d| >= 12288 && now == Some(FromNet(TargetSection(was, y), d[..12288]))
    ensures Applied(was, now, mask, d, 0, y)
  {
  }

  /** The first section is decided by the lowest bit. */
  lemma BelowStays(ss: seq<Option<Section>>, mask: nat, d: bytes, from: nat)
    requires AllSized(ss) && from < SECTIONS && ApplyFrom(ss, mask, d, from).ok
    ensures var r := ApplyFrom(ss, mask, d, from).sections[from];
      if mask % 2 == 0 then r == ss[from]
      else |d| >= 12288 && r == Some(FromNet(TargetSection(ss[from], from), d[..12288]))
  {
    hide FromNet, EmptySection;
    if mask % 2 == 0 {
      LowerStay(ss, mask / 2, d, from + 1, from);
    } else {
      LowerStay(Overwritten(ss, from, d), mask / 2, d[12288..], from + 1, from);
    }
  }

  lemma {:induction false} LowerStay(ss: seq<Option<Section>>, mask: nat, d: bytes, from: nat, y: nat)
    requires AllSized(ss) && y < from <= SECTIONS
    ensures ApplyFrom(ss, mask, d, from).sections[y] == ss[y]
    decreases SECTIONS - from
  {
    hide FromNet, EmptySection;
    if from < SECTIONS {
      if mask % 2 == 0 {
        LowerStay(ss, mask / 2, d, from + 1, y);
      } else if |d| >= SECTION_BYTES {
        LowerStay(Overwritten(ss, from, d), mask / 2, d[SECTION_BYTES..], from + 1, y);
      }
    }
  }

  /** What an accepted packet does besides: position and, if continuous, biomes from the last 256 bytes; nothing else
      changes. A refused one leaves all but the sections and, where only the size is wrong, the biomes. */
  lemma AppliedRest(p: ChunkData, c: Chunk)
    requires c.Sized()
    ensures var r := ApplyChunk(p, c);
      && r.0 == c.(x := r.0.x, z := r.0.z, sections := r.0.sections, hasBiomes := r.0.hasBiomes, biomes := r.0.biomes)
      && (r.1 ==> r.0.x == p.x && r.0.z == p.z
                  && r.0.sections == ApplyFrom(c.sections, p.mask, p.data, 0).sections)
      && (!p.continuous ==> r.0.hasBiomes == c.hasBiomes && r.0.biomes == c.biomes)
      && (p.continuous && r.1 ==> |p.data| >= 256 && r.0.hasBiomes && r.0.biomes == p.data[|p.data| - 256..])
  {
    hide ApplyFrom;
    RestIsEnd(c.sections, p.mask, p.data, 0);
  }

  lemma {:induction false} RestIsEnd(ss: seq<Option<Section>>, mask: nat, d: bytes, y: nat)
    requires AllSized(ss) && y <= SECTIONS
    ensures var r := ApplyFrom(ss, mask, d, y).rest; |r| <= |d| && r == d[|d| - |r|..]
    decreases SECTIONS - y
  {
    hide FromNet, EmptySection;
    if y < SECTIONS {
      if mask % 2 == 0 {
        RestIsEnd(ss, mask / 2, d, y + 1);
      } else if |d| >= SECTION_BYTES {
        RestIsEnd(Overwritten(ss, y, d), mask / 2, d[SECTION_BYTES..], y + 1);
      }
    }
  }

  /** A bulk packet: a byte for the sky light, the number of chunks, for each ten bytes of x, z and mask, and only then
      all their data. */
  lemma BulkBytesAre(p: Bulk)
    requires |p.chunks| < 128
    ensures var d, n := BulkBytes(p), |p.chunks|;
      && |d| >= 2 + 10 * n && d[0] == (if p.sky then 1 else 0) && d[1] == n
      && d[2 + 10 * n..] == Bodies(p.chunks)
      && forall i | 0 <= i < n :: d[2 + 10 * i..12 + 10 * i] == HeadBytes(p.chunks[i])
  {
    hide Heads, Bodies, HeadBytes;
    var n, h := |p.chunks|, Heads(p.chunks);
    assert VarInt(n) == [n];
    forall i | 0 <= i < n
      ensures |h| == 10 * n && BulkBytes(p)[2 + 10 * i..12 + 10 * i] == HeadBytes(p.chunks[i])
    {
      HeadAt(p.chunks, i);
      assert BulkBytes(p)[2 + 10 * i..12 + 10 * i] == h[10 * i..10 * i + 10];
    }
    HeadsSize(p.chunks);
  }

  lemma {:induction false} HeadsSize(cs: seq<BulkChunk>)
    ensures |Heads(cs)| == 10 * |cs|
  {
    if |cs| > 0 {
      HeadsSize(cs[1..]);
    }
  }

  /** Four bytes each of x and z, two's complement, and two of the mask, the most significant first. */
  function HeadBytes(c: BulkChunk): bytes {
    var x, z := c.x % 0x1_0000_0000, c.z % 0x1_0000_0000;
    [x / 0x100_0000, x / 0x1_0000 % 256, x / 0x100 % 256, x % 256,
     z / 0x100_0000, z / 0x1_0000 % 256, z / 0x100 % 256, z % 256, c.mask / 256 % 256, c.mask % 256]
  }

  lemma {:induction false} HeadAt(cs: seq<BulkChunk>, i: nat)
    requires i < |cs|
    ensures |Heads(cs)| == 10 * |cs| && Heads(cs)[10 * i..10 * i + 10] == HeadBytes(cs[i])
  {
    hide Be, HeadBytes;
    HeadsSize(cs);
    HeadsSize(cs[1..]);
    FirstHead(cs[0]);
    var first := Be(Bits32(cs[0].x), 4) + (Be(Bits32(cs[0].z), 4) + Be(cs[0].mask, 2));
    assert Heads(cs) == first + Heads(cs[1..]);
    if i > 0 {
      HeadAt(cs[1..], i - 1);
      assert Heads(cs)[10 * i..10 * i + 10] == Heads(cs[1..])[10 * (i - 1)..10 * (i - 1) + 10];
    }
  }

  lemma FirstHead(c: BulkChunk)
    ensures Be(Bits32(c.x), 4) + (Be(Bits32(c.z), 4) + Be(c.mask, 2)) == HeadBytes(c)
  {
    hide Be;
    FourBytes(Bits32(c.x));
    FourBytes(Bits32(c.z));
    TwoBytes(c.mask);
  }

  /** Whatever bytes are accepted as a bulk packet, there are at most 64 records in it, each of the size that its mask
      implies, and the sky light is what the first byte says. */
  lemma DecodedBulks(s: bytes)
    ensures BulkDecode(s).Some? ==>
      var p := BulkDecode(s).value.0;
      && |p.chunks| <= 64 && SizedByMask(p.chunks) && (p.sky <==> s[0] != 0)
      && (forall i | 0 <= i < |p.chunks| :: p.chunks[i].mask < 0x1_0000)
  {
    hide ReadHeads, ReadBodies, PeekFrom;
    if BulkDecode(s).Some? {
      var k := Peek(s[1..]);
      var h := ReadHeads(s[1 + k.used..], k.v).value;
      HeadsHaveMasks(s[1 + k.used..], k.v);
      BodiesAreSized(h.0, h.1);
    }
  }

  lemma {:induction false} HeadsHaveMasks(s: bytes, n: nat)
    ensures ReadHeads(s, n).Some? ==> forall i | 0 <= i < n :: ReadHeads(s, n).value.0[i].mask < 0x1_0000
    decreases n
  {
    hide FromBe, ReadI32;
    if n > 0 && |s| >= 10 {
      HeadsHaveMasks(s[10..], n - 1);
      FromBeRange(s[8..10]);
      RadixValues();
    }
  }

  lemma {:induction false} BodiesAreSized(cs: seq<BulkChunk>, s: bytes)
    requires TotalSize(cs) <= |s|
    ensures var r := ReadBodies(cs, s).0;
      SizedByMask(r) && forall i | 0 <= i < |cs| :: r[i].mask == cs[i].mask
    decreases |cs|
  {
    hide RecordSize;
    if |cs| > 0 {
      BodiesAreSized(cs[1..], s[RecordSize(cs[0].mask)..]);
    }
  }
}
