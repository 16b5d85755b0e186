/** The network forms of a chunk: 16-bit cells, a mask of the sections present, and bulk packets whose
    record boundaries are only implied by the masks. */
module Wire {
  import opened Bytes
  import opened Coordinates
  import opened Framing
  import opened Blocks

  const CELL_BYTES: nat := 8192
  const SECTION_BYTES: nat := 12288
  const BIOME_BYTES: nat := 256
  const BULK_MAX: nat := 64

  // ---------------------------------------------------------------- one section

  /** id << 4 | meta. */
  function CellValue(s: Section, i: nat): (v: nat)
    requires s.Sized() && i < CELLS
    ensures v < 0x1_0000
  {
    IdAt(s, i) * 16 + MetaAt(s, i)
  }

  /** Cells, little-endian, then the two light arrays. */
  function SectionNet(s: Section): (r: bytes)
    requires s.Sized()
    ensures |r| == SECTION_BYTES
  {
    seq(CELL_BYTES, j requires 0 <= j < CELL_BYTES =>
      if j % 2 == 0 then CellValue(s, j / 2) % 256 else CellValue(s, j / 2) / 256)
    + s.blockLight + s.skyLight
  }

  /** The i-th cell of a section's bytes. */
  function CellOf(d: bytes, i: nat): (v: nat)
    requires |d| == SECTION_BYTES && i < CELLS
    ensures v < 0x1_0000
  {
    var lo: nat, hi: nat := d[2 * i], d[2 * i + 1];
    lo + hi * 256
  }

  /** Does one of the first n cells have an id above 255? */
  predicate AnyHigh(d: bytes, n: nat)
    requires |d| == SECTION_BYTES && n <= CELLS
  {
    n > 0 && (CellOf(d, n - 1) / 4096 != 0 || AnyHigh(d, n - 1))
  }

  type nibble = x: int | 0 <= x < 16

  function Pair(lo: int, hi: int): (r: byte)
    requires 0 <= lo < 16 && 0 <= hi < 16
    ensures r % 16 == lo && r / 16 == hi
  {
    lo + hi * 16
  }

  /** Nibbles two to a byte, the first in the low half. */
  function Packed(ns: seq<nibble>): (r: bytes)
    requires |ns| % 2 == 0
    ensures |r| == |ns| / 2
  {
    seq(|ns| / 2, k requires 0 <= k < |ns| / 2 => Pair(ns[2 * k], ns[2 * k + 1]))
  }

  lemma PackedReads(ns: seq<nibble>, i: nat)
    requires |ns| % 2 == 0 && i < |ns|
    ensures NibbleGet(Packed(ns), i) == ns[i]
  {
    assert i == 2 * (i / 2) + i % 2;
  }

  function MetaNibbles(d: bytes): seq<nibble>
    requires |d| == SECTION_BYTES
  {
    seq(CELLS, i requires 0 <= i < CELLS => CellOf(d, i) % 16)
  }

  /** Where a cell's id fits a byte its Add nibble is left as it was. */
  function AddNibbles(add: bytes, d: bytes): seq<nibble>
    requires |d| == SECTION_BYTES && |add| == NIBBLES
  {
    seq(CELLS, i requires 0 <= i < CELLS => if CellOf(d, i) / 4096 != 0 then CellOf(d, i) / 4096 else NibbleGet(add, i))
  }

  /** A section after its bytes have been applied to it. */
  function FromNet(s: Section, d: bytes): (t: Section)
    requires s.Sized() && |d| == SECTION_BYTES
    ensures t.Sized() && t.y == s.y
  {
    Section(s.y, seq(CELLS, i requires 0 <= i < CELLS => CellOf(d, i) / 16 % 256),
      Packed(MetaNibbles(d)), Packed(AddNibbles(s.add, d)),
            AnyHigh(d, CELLS), d[CELL_BYTES..CELL_BYTES + NIBBLES], d[CELL_BYTES + NIBBLES..])
  }

  lemma {:induction false} AnyHighMeans(d: bytes, n: nat)
    requires |d| == SECTION_BYTES && n <= CELLS
    ensures AnyHigh(d, n) <==> exists i: nat :: i < n && CellOf(d, i) / 4096 != 0
  {
    if n > 0 {
      AnyHighMeans(d, n - 1);
    }
  }

  lemma FromNetReads(s: Section, d: bytes, i: nat)
    requires s.Sized() && |d| == SECTION_BYTES && i < CELLS
    ensures var t, v := FromNet(s, d), CellOf(d, i);
      && MetaAt(t, i) == v % 16
      && IdAt(t, i) == if v / 4096 == 0 && AnyHigh(d, CELLS) then v / 16 + NibbleGet(s.add, i) * 256 else v / 16
  {
    hide FromNet, AnyHigh, NibbleGet, CellOf;
    FromNetFields(s, d, i);
    ValueSplits(CellOf(d, i));
    AnyHighMeans(d, CELLS);
  }

  lemma ValueSplits(v: nat)
    requires v < 0x1_0000
    ensures v / 16 % 256 + v / 4096 * 256 == v / 16 && (v / 4096 == 0 ==> v / 16 % 256 == v / 16)
  {
  }

  lemma FromNetFields(s: Section, d: bytes, i: nat)
    requires s.Sized() && |d| == SECTION_BYTES && i < CELLS
    ensures var t, v := FromNet(s, d), CellOf(d, i);
      && t.hasAdd == AnyHigh(d, CELLS) && t.blocks[i] == v / 16 % 256
      && NibbleGet(t.data, i) == v % 16
      && NibbleGet(t.add, i) == if v / 4096 != 0 then v / 4096 else NibbleGet(s.add, i)
  {
    hide Packed, AnyHigh, NibbleGet, CellOf;
    PackedReads(MetaNibbles(d), i);
    PackedReads(AddNibbles(s.add, d), i);
  }

  lemma NetCells(s: Section, i: nat)
    requires s.Sized() && i < CELLS
    ensures CellOf(SectionNet(s), i) == CellValue(s, i)
  {
    hide IdAt, MetaAt;
  }

  lemma CellParts(s: Section, i: nat)
    requires s.Sized() && i < CELLS
    ensures CellValue(s, i) / 16 == IdAt(s, i) && CellValue(s, i) % 16 == MetaAt(s, i)
    ensures CellValue(s, i) / 4096 == IdAt(s, i) / 256
  {
  }

  ghost predicate SameSection(s: Section, t: Section) {
    && s.Sized() && t.Sized() && s.blockLight == t.blockLight && s.skyLight == t.skyLight
    && forall i: nat | i < CELLS :: IdAt(s, i) == IdAt(t, i) && MetaAt(s, i) == MetaAt(t, i)
  }

  /** Some block of the section has an id above 255. */
  ghost predicate HasHigh(s: Section)
    requires s.Sized()
  {
    exists i: nat :: i < CELLS && IdAt(s, i) > 255
  }

  /** A section's bytes give its blocks and light back, on a section with old Add nibbles exactly when no
      id above 255 is sent or no old nibble stands where a smaller one is. */
  lemma SectionReadsBack(s: Section, was: Section)
    requires s.Sized() && was.Sized()
    ensures SameSection(s, FromNet(was, SectionNet(s)))
       <==> (HasHigh(s) ==> forall i: nat | i < CELLS && IdAt(s, i) < 256 :: NibbleGet(was.add, i) == 0)
  {
    hide FromNet, SectionNet, CellOf, CellValue, AnyHigh, IdAt, MetaAt, NibbleGet;
    var d := SectionNet(s);
    var t := FromNet(was, d);
    LightReadsBack(s, was);
    AnyHighMeans(d, CELLS);
    forall i: nat | i < CELLS
      ensures MetaAt(t, i) == MetaAt(s, i)
      ensures CellOf(d, i) / 4096 != 0 <==> IdAt(s, i) > 255
      ensures IdAt(t, i) ==
        if IdAt(s, i) < 256 && AnyHigh(d, CELLS) then IdAt(s, i) + NibbleGet(was.add, i) * 256 else IdAt(s, i)
    {
      FromNetReads(was, d, i);
      NetCells(s, i);
      CellParts(s, i);
    }
    assert HasHigh(s) <==> AnyHigh(d, CELLS);
  }

  lemma LightReadsBack(s: Section, was: Section)
    requires s.Sized() && was.Sized()
    ensures FromNet(was, SectionNet(s)).blockLight == s.blockLight && FromNet(was, SectionNet(s)).skyLight == s.skyLight
  {
    hide IdAt, MetaAt, CellOf, CellValue, AnyHigh, Packed;
    var cells := seq(CELL_BYTES, j requires 0 <= j < CELL_BYTES =>
      if j % 2 == 0 then CellValue(s, j / 2) % 256 else CellValue(s, j / 2) / 256);
    assert SectionNet(s) == cells + (s.blockLight + s.skyLight);
  }

  /** Applying chunk data to a section can leave such nibbles behind, unflagged: a block that was 256 and is
      sent as 0 reads as 0, until an id above 255 is written anywhere in the section; then it is 256 again. */
  lemma WireLeavesStaleAdd()
    ensures var s := SetAt(EmptySection(0), 0, 256, 0);
      var t := FromNet(s, SectionNet(EmptySection(0)));
      !AddClear(t) && IdAt(t, 0) == 0 && IdAt(SetAt(t, 1, 256, 0), 0) == 256
  {
    hide FromNet, SectionNet, IdAt, CellOf, AnyHigh, NibbleGet, MetaAt, EmptySection;
    var air := EmptySection(0);
    var s, d := SetAt(air, 0, 256, 0), SectionNet(air);
    EmptySectionIsAir(0, 0);
    assert NibbleGet(s.add, 0) == 1 by { NibbleSetReads(air.add, 0, 1, 0); }
    AnyHighMeans(d, CELLS);
    forall i: nat | i < CELLS ensures CellOf(d, i) / 4096 == 0 && CellOf(d, i) / 16 % 256 == 0 {
      EmptySectionIsAir(0, i);
      NetCells(air, i);
      CellParts(air, i);
    }
    var t := FromNet(s, d);
    FromNetFields(s, d, 0);
    StaleComesBack(t);
  }

  lemma StaleComesBack(t: Section)
    requires t.Sized() && !t.hasAdd && t.blocks[0] == 0 && NibbleGet(t.add, 0) == 1
    ensures !AddClear(t) && IdAt(t, 0) == 0 && IdAt(SetAt(t, 1, 256, 0), 0) == 256
  {
    hide NibbleGet, NibbleSet;
    NibbleSetReads(t.add, 1, 1, 0);
    ZeroNibble(t.add, 0);
  }

  /** Onto an empty section everything comes back, and the Add array is clear unless flagged. */
  lemma FreshSectionReadsBack(s: Section, y: byte)
    requires s.Sized()
    ensures SameSection(s, FromNet(EmptySection(y), SectionNet(s))) && AddClear(FromNet(EmptySection(y), SectionNet(s)))
  {
    hide FromNet, SectionNet, SameSection, AddClear, IdAt;
    SectionReadsBack(s, EmptySection(y));
    forall i: nat | i < CELLS ensures NibbleGet(EmptySection(y).add, i) == 0 {
      ZeroNibble(Zeros(NIBBLES), i);
    }
    FromNetIsClear(EmptySection(y), SectionNet(s));
  }

  /** Taking a section leaves the Add array clear or flagged exactly when an id above 255 came in, or the
      array was all clear before. */
  lemma FromNetIsClear(s: Section, d: bytes)
    requires s.Sized() && |d| == SECTION_BYTES
    ensures AddClear(FromNet(s, d)) <==> AnyHigh(d, CELLS) || forall i | 0 <= i < NIBBLES :: s.add[i] == 0
  {
    hide CellOf, AnyHigh;
    if !AnyHigh(d, CELLS) {
      AnyHighMeans(d, CELLS);
      KeptNibbles(s, d);
    }
  }

  lemma KeptNibbles(s: Section, d: bytes)
    requires s.Sized() && |d| == SECTION_BYTES && forall i: nat | i < CELLS :: CellOf(d, i) / 4096 == 0
    ensures Packed(AddNibbles(s.add, d)) == s.add
  {
    hide CellOf, NibbleGet;
    var add := AddNibbles(s.add, d);
    forall i: nat | i < CELLS ensures NibbleGet(Packed(add), i) == NibbleGet(s.add, i) {
      PackedReads(add, i);
    }
    SameNibbles(Packed(add), s.add);
  }

  // ---------------------------------------------------------------- masks

  /** Bit y is set where there is a section. */
  function Mask(ss: seq<Option<Section>>): nat {
    if |ss| == 0 then 0 else (if ss[0].Some? then 1 else 0) + 2 * Mask(ss[1..])
  }

  function Pow2(n: nat): (r: nat)
    ensures r > 0
  {
    if n == 0 then 1 else 2 * Pow2(n - 1)
  }

  lemma {:induction false} MaskFits(ss: seq<Option<Section>>)
    ensures Mask(ss) < Pow2(|ss|)
  {
    if |ss| > 0 {
      MaskFits(ss[1..]);
    }
  }

  /** How many of the n lowest bits are set. */
  function Bits(mask: nat, n: nat): nat {
    if n == 0 then 0 else mask % 2 + Bits(mask / 2, n - 1)
  }

  function MaybeNet(s: Option<Section>): bytes
    requires s.Some? ==> s.value.Sized()
  {
    match s case None => [] case Some(t) => SectionNet(t)
  }

  function SectionsNet(ss: seq<Option<Section>>): bytes
    requires forall i | 0 <= i < |ss| :: ss[i].Some? ==> ss[i].value.Sized()
  {
    if |ss| == 0 then []
    else MaybeNet(ss[0]) + SectionsNet(ss[1..])
  }

  lemma {:induction false} MaskImpliesSize(ss: seq<Option<Section>>)
    requires forall i | 0 <= i < |ss| :: ss[i].Some? ==> ss[i].value.Sized()
    ensures |SectionsNet(ss)| == Bits(Mask(ss), |ss|) * SECTION_BYTES
  {
    hide SectionNet;
    if |ss| > 0 {
      MaskImpliesSize(ss[1..]);
    }
  }

  // ---------------------------------------------------------------- one chunk

  /** The body of a chunk packet. */
  datatype ChunkData = ChunkData(x: int, z: int, continuous: bool, mask: nat, data: bytes)

  function Build(c: Chunk, continuous: bool): Option<ChunkData>
    requires c.Sized()
  {
    if continuous && !c.hasBiomes then None
    else
      var data := SectionsNet(c.sections) + if continuous then c.biomes else [];
      Some(ChunkData(c.x, c.z, continuous, Mask(c.sections), data))
  }

  function TargetSection(s: Option<Section>, y: byte): (r: Section)
    requires s.Some? ==> s.value.Sized()
    ensures r.Sized()
  {
    match s case None => EmptySection(y) case Some(t) => t
  }

  /** What applying has come to: the sections as they are now, and the bytes not used. */
  datatype Applied = Applied(ok: bool, sections: seq<Option<Section>>, rest: bytes)

  predicate AllSized(ss: seq<Option<Section>>) {
    |ss| == SECTIONS && forall i | 0 <= i < |ss| :: ss[i].Some? ==> ss[i].value.Sized()
  }

  /** Section y after the first bytes of d have been applied to it. */
  function Overwritten(ss: seq<Option<Section>>, y: nat, d: bytes): (r: seq<Option<Section>>)
    requires AllSized(ss) && y < SECTIONS && |d| >= SECTION_BYTES
    ensures AllSized(r)
  {
    ss[y := Some(FromNet(TargetSection(ss[y], y), d[..SECTION_BYTES]))]
  }

  /** Applying the sections of `mask` from height y on; it stops where the bytes run out. */
  function ApplyFrom(ss: seq<Option<Section>>, mask: nat, d: bytes, y: nat): (r: Applied)
    requires AllSized(ss) && y <= SECTIONS
    ensures AllSized(r.sections)
    decreases SECTIONS - y
  {
    if y == SECTIONS then Applied(true, ss, d)
    else if mask % 2 == 0 then ApplyFrom(ss, mask / 2, d, y + 1)
    else if |d| < SECTION_BYTES then Applied(false, ss, d)
    else ApplyFrom(Overwritten(ss, y, d), mask / 2, d[SECTION_BYTES..], y + 1)
  }

  /** ApplyChunkData: the chunk and the verdict. A refused packet leaves what it has overwritten so far,
      but not its position. */
  function ApplyChunk(p: ChunkData, c: Chunk): (r: (Chunk, bool))
    requires c.Sized()
    ensures r.0.Sized() && (!r.1 ==> r.0.x == c.x && r.0.z == c.z)
  {
    var a := ApplyFrom(c.sections, p.mask, p.data, 0);
    var c1 := c.(sections := a.sections);
    if !a.ok || (p.continuous && |a.rest| < BIOME_BYTES) then (c1, false)
    else
      var c2 := if p.continuous then c1.(hasBiomes := true, biomes := a.rest[..BIOME_BYTES]) else c1;
      if |a.rest| == (if p.continuous then BIOME_BYTES else 0) then (c2.(x := p.x, z := p.z), true) else (c2, false)
  }

  /** The chunk, if the packet is accepted. */
  function ApplyData(p: ChunkData, c: Chunk): (r: Option<Chunk>)
    requires c.Sized()
    ensures r.Some? ==> r.value.Sized()
  {
    if ApplyChunk(p, c).1 then Some(ApplyChunk(p, c).0) else None
  }

  ghost predicate SameMaybe(s: Option<Section>, t: Option<Section>) {
    s.Some? == t.Some? && (s.Some? ==> SameSection(s.value, t.value) && AddClear(t.value))
  }

  lemma {:induction false} ApplyReadsBack(ss: seq<Option<Section>>, from: seq<Option<Section>>, x: bytes, y: nat)
    requires AllSized(ss) && AllSized(from) && y <= SECTIONS
    requires forall i | y <= i < SECTIONS :: ss[i].None?
    ensures var r := ApplyFrom(ss, Mask(from[y..]), SectionsNet(from[y..]) + x, y);
      && r.ok && r.rest == x
      && (forall i | 0 <= i < y :: r.sections[i] == ss[i])
      && (forall i | y <= i < SECTIONS :: SameMaybe(from[i], r.sections[i]))
    decreases SECTIONS - y
  {
    hide SectionNet, FromNet, SameSection, AddClear, EmptySection;
    if y < SECTIONS {
      var rest := from[y..];
      assert rest[0] == from[y] && rest[1..] == from[y + 1..];
      assert Mask(rest) / 2 == Mask(rest[1..]);
      match from[y]
      case None =>
        assert SectionsNet(rest) == SectionsNet(rest[1..]);
        ApplyReadsBack(ss, from, x, y + 1);
      case Some(s) =>
        var d := SectionNet(s);
        assert SectionsNet(rest) + x == d + (SectionsNet(rest[1..]) + x);
        FreshSectionReadsBack(s, y);
        assert (SectionsNet(rest) + x)[..SECTION_BYTES] == d;
        ApplyReadsBack(Overwritten(ss, y, SectionsNet(rest) + x), from, x, y + 1);
    } else {
      assert from[y..] == [];
    }
  }

  lemma {:induction false} ApplyUses(ss: seq<Option<Section>>, mask: nat, d: bytes, y: nat)
    requires AllSized(ss) && y <= SECTIONS
    ensures var r := ApplyFrom(ss, mask, d, y);
      && (r.ok <==> |d| >= Bits(mask, SECTIONS - y) * SECTION_BYTES)
      && (r.ok ==> |r.rest| == |d| - Bits(mask, SECTIONS - y) * SECTION_BYTES)
    decreases SECTIONS - y
  {
    hide Overwritten;
    if y < SECTIONS {
      if mask % 2 == 0 {
        ApplyUses(ss, mask / 2, d, y + 1);
      } else if |d| >= SECTION_BYTES {
        ApplyUses(Overwritten(ss, y, d), mask / 2, d[SECTION_BYTES..], y + 1);
      }
    }
  }

  /** Chunk data is accepted exactly when it is as long as its mask and its biome flag imply. */
  lemma ApplyWantsExactSize(p: ChunkData, c: Chunk)
    requires c.Sized()
    ensures ApplyData(p, c).Some? <==>
      |p.data| == Bits(p.mask, SECTIONS) * SECTION_BYTES + if p.continuous then BIOME_BYTES else 0
  {
    hide ApplyFrom;
    ApplyUses(c.sections, p.mask, p.data, 0);
  }

  /** The blocks, light and (where sent) biomes of one chunk are those of the other. */
  ghost predicate SameColumn(c: Chunk, r: Chunk, biomes: bool) {
    && c.Sized() && r.Sized() && r.x == c.x && r.z == c.z
    && (biomes ==> r.hasBiomes && r.biomes == c.biomes)
    && forall i | 0 <= i < SECTIONS :: SameMaybe(c.sections[i], r.sections[i])
  }

  ghost predicate Bare(c: Chunk) {
    c.Sized() && forall i | 0 <= i < SECTIONS :: c.sections[i].None?
  }

  /** A chunk built into a packet and applied to a chunk without sections comes out the same. */
  lemma ChunkReadsBack(c: Chunk, continuous: bool, target: Chunk)
    requires c.Sized() && Bare(target)
    ensures Build(c, continuous).Some? <==> (continuous ==> c.hasBiomes)
    ensures Build(c, continuous).Some? ==>
      var r := ApplyData(Build(c, continuous).value, target);
      r.Some? && SameColumn(c, r.value, continuous)
  {
    hide SameMaybe, FromNet, SectionNet;
    var x := if continuous then c.biomes else [];
    ApplyReadsBack(target.sections, c.sections, x, 0);
    assert c.sections[0..] == c.sections;
  }

  // ---------------------------------------------------------------- bulk packets

  datatype BulkChunk = BulkChunk(x: int, z: int, mask: nat, data: bytes)

  datatype Bulk = Bulk(sky: bool, chunks: seq<BulkChunk>)

  function BulkRecords(cs: seq<Chunk>): seq<BulkChunk>
    requires forall i | 0 <= i < |cs| :: cs[i].Sized()
  {
    if |cs| == 0 then []
    else
      assert cs[0].Sized();
      var data := SectionsNet(cs[0].sections) + cs[0].biomes;
      [BulkChunk(cs[0].x, cs[0].z, Mask(cs[0].sections), data)] + BulkRecords(cs[1..])
  }

  /** BulkBuild: 1..64 chunks, all with biomes. */
  function BulkBuild(cs: seq<Chunk>, sky: bool): Option<Bulk>
    requires forall i | 0 <= i < |cs| :: cs[i].Sized()
  {
    if |cs| == 0 || |cs| > BULK_MAX || !(forall i | 0 <= i < |cs| :: cs[i].hasBiomes) then None
    else Some(Bulk(sky, BulkRecords(cs)))
  }

  /** Cast of an int32_t to its bits. */
  function Bits32(v: int): u32 {
    v % U32
  }

  function Signed32(u: u32): int {
    if u >= U31 then u - U32 else u
  }

  function Heads(cs: seq<BulkChunk>): bytes {
    if |cs| == 0 then [] else Be(Bits32(cs[0].x), 4) + (Be(Bits32(cs[0].z), 4) + (Be(cs[0].mask, 2) + Heads(cs[1..])))
  }

  function Bodies(cs: seq<BulkChunk>): bytes {
    if |cs| == 0 then [] else cs[0].data + Bodies(cs[1..])
  }

  function BulkBytes(p: Bulk): bytes {
    [if p.sky then 1 else 0] + (VarInt(|p.chunks|) + (Heads(p.chunks) + Bodies(p.chunks)))
  }

  /** Too many records, or more bytes than the writer holds, and nothing is encoded. */
  function BulkEncode(p: Bulk): Option<bytes> {
    if |p.chunks| > BULK_MAX || |BulkBytes(p)| > WRITER_LIMIT then None else Some(BulkBytes(p))
  }

  /** The size a mask implies; a bulk record always carries biomes. */
  function RecordSize(mask: nat): nat {
    Bits(mask, SECTIONS) * SECTION_BYTES + BIOME_BYTES
  }

  /** n record heads: the records, still without data, and the rest. */
  function ReadHeads(s: bytes, n: nat): (r: Option<(seq<BulkChunk>, bytes)>)
    ensures r.Some? ==> |r.value.0| == n
  {
    if n == 0 then Some(([], s))
    else if |s| < 10 then None
    else
      var c := BulkChunk(ReadI32(s[..4]), ReadI32(s[4..8]), FromBe(s[8..10]), []);
      match ReadHeads(s[10..], n - 1)
      case None => None
      case Some(r) => Some(([c] + r.0, r.1))
  }

  function ReadI32(b: bytes): int
    requires |b| == 4
  {
    FromBeRange(b);
    RadixValues();
    Signed32(FromBe(b))
  }

  function TotalSize(cs: seq<BulkChunk>): nat {
    if |cs| == 0 then 0 else RecordSize(cs[0].mask) + TotalSize(cs[1..])
  }

  /** The records' data, cut by what their masks imply. */
  function ReadBodies(cs: seq<BulkChunk>, s: bytes): (r: (seq<BulkChunk>, bytes))
    requires TotalSize(cs) <= |s|
    ensures |r.0| == |cs|
  {
    if |cs| == 0 then ([], s)
    else
      var n := RecordSize(cs[0].mask);
      var r := ReadBodies(cs[1..], s[n..]);
      ([cs[0].(data := s[..n])] + r.0, r.1)
  }

  function BulkDecode(s: bytes): Option<(Bulk, bytes)> {
    if |s| == 0 then None
    else
      match Peek(s[1..])
      case Value(n, used) =>
        if n > BULK_MAX then None
        else (
          match ReadHeads(s[1 + used..], n)
          case None => None
          case Some(h) =>
            if TotalSize(h.0) > |h.1| then None
            else var b := ReadBodies(h.0, h.1); Some((Bulk(s[0] != 0, b.0), b.1)))
      case _ => None
  }

  /** Coordinates are int32_t, masks uint16_t. */
  predicate Representable(cs: seq<BulkChunk>) {
    forall i | 0 <= i < |cs| :: IsI32(cs[i].x) && IsI32(cs[i].z) && cs[i].mask < 0x1_0000
  }

  predicate SizedByMask(cs: seq<BulkChunk>) {
    forall i | 0 <= i < |cs| :: |cs[i].data| == RecordSize(cs[i].mask)
  }

  function Emptied(cs: seq<BulkChunk>): (r: seq<BulkChunk>)
    ensures |r| == |cs|
  {
    if |cs| == 0 then [] else [cs[0].(data := [])] + Emptied(cs[1..])
  }

  lemma I32ReadsBack(v: int)
    requires IsI32(v)
    ensures ReadI32(Be(Bits32(v), 4)) == v
  {
    RadixValues();
    FromBeOfBe(Bits32(v), 4);
  }

  lemma HeadReadsBack(c: BulkChunk, x: bytes)
    requires IsI32(c.x) && IsI32(c.z) && c.mask < 0x1_0000
    ensures var s := Be(Bits32(c.x), 4) + (Be(Bits32(c.z), 4) + (Be(c.mask, 2) + x));
      && |s| >= 10 && s[10..] == x && ReadI32(s[..4]) == c.x && ReadI32(s[4..8]) == c.z && FromBe(s[8..10]) == c.mask
  {
    hide Be, FromBe, ReadI32;
    var a, b, m := Be(Bits32(c.x), 4), Be(Bits32(c.z), 4), Be(c.mask, 2);
    var s := a + (b + (m + x));
    assert s[..4] == a && s[4..8] == b && s[8..10] == m && s[10..] == x;
    I32ReadsBack(c.x);
    I32ReadsBack(c.z);
    RadixValues();
    FromBeOfBe(c.mask, 2);
  }

  lemma {:induction false} HeadsReadBack(cs: seq<BulkChunk>, x: bytes)
    requires Representable(cs)
    ensures ReadHeads(Heads(cs) + x, |cs|) == Some((Emptied(cs), x))
  {
    hide Be, FromBe, ReadI32;
    if |cs| == 0 {
      assert Heads(cs) + x == x;
    } else {
      HeadsReadBack(cs[1..], x);
      HeadReadsBack(cs[0], Heads(cs[1..]) + x);
      var a, b, m := Be(Bits32(cs[0].x), 4), Be(Bits32(cs[0].z), 4), Be(cs[0].mask, 2);
      assert Heads(cs) + x == a + (b + (m + (Heads(cs[1..]) + x)));
    }
  }

  lemma {:induction false} BodiesReadBack(cs: seq<BulkChunk>, x: bytes)
    requires SizedByMask(cs)
    ensures TotalSize(Emptied(cs)) == |Bodies(cs)|
    ensures TotalSize(Emptied(cs)) <= |Bodies(cs) + x| && ReadBodies(Emptied(cs), Bodies(cs) + x) == (cs, x)
  {
    hide RecordSize;
    if |cs| == 0 {
      assert Bodies(cs) + x == x;
    } else {
      BodiesReadBack(cs[1..], x);
      var n := RecordSize(cs[0].mask);
      assert Emptied(cs)[1..] == Emptied(cs[1..]);
      assert Bodies(cs) + x == cs[0].data + (Bodies(cs[1..]) + x);
      assert (Bodies(cs) + x)[..n] == cs[0].data && (Bodies(cs) + x)[n..] == Bodies(cs[1..]) + x;
      assert cs == [cs[0]] + cs[1..];
    }
  }

  lemma {:induction false} BodiesAreCutByMask(cs: seq<BulkChunk>, s: bytes)
    requires TotalSize(cs) <= |s|
    ensures SizedByMask(ReadBodies(cs, s).0)
  {
    hide RecordSize;
    if |cs| > 0 {
      BodiesAreCutByMask(cs[1..], s[RecordSize(cs[0].mask)..]);
    }
  }

  /** Decoding an encoded bulk packet, whatever follows it, gives it back exactly when every record is as
      long as its mask says. */
  lemma BulkReadsBack(p: Bulk, x: bytes)
    requires Representable(p.chunks)
    ensures BulkEncode(p).Some? <==> |p.chunks| <= 64 && |BulkBytes(p)| <= 0x8000_0000
    ensures BulkEncode(p).Some? ==> (BulkDecode(BulkEncode(p).value + x) == Some((p, x)) <==> SizedByMask(p.chunks))
  {
    hide Heads, Bodies, ReadHeads, ReadBodies, TotalSize, VarInt, Peek;
    var n := |p.chunks|;
    if BulkEncode(p).Some? {
      var s := BulkEncode(p).value + x;
      var tail := Heads(p.chunks) + (Bodies(p.chunks) + x);
      assert s == [if p.sky then 1 else 0] + (VarInt(n) + tail);
      assert s[1..] == VarInt(n) + tail;
      PeekReadsBack(n, tail);
      assert s[1 + |VarInt(n)|..] == tail;
      HeadsReadBack(p.chunks, Bodies(p.chunks) + x);
      if TotalSize(Emptied(p.chunks)) <= |Bodies(p.chunks) + x| {
        BodiesAreCutByMask(Emptied(p.chunks), Bodies(p.chunks) + x);
      }
      if SizedByMask(p.chunks) {
        BodiesReadBack(p.chunks, x);
      }
    }
  }

  lemma {:induction false} BitsAreFew(mask: nat, n: nat)
    ensures Bits(mask, n) <= n
  {
    if n > 0 {
      BitsAreFew(mask / 2, n - 1);
    }
  }

  lemma {:induction false} RecordsAreShort(cs: seq<BulkChunk>)
    requires SizedByMask(cs)
    ensures |Heads(cs)| == 10 * |cs| && |Bodies(cs)| <= |cs| * (SECTIONS * SECTION_BYTES + BIOME_BYTES)
  {
    hide Be;
    if |cs| > 0 {
      BitsAreFew(cs[0].mask, SECTIONS);
      RecordsAreShort(cs[1..]);
    }
  }

  /** Up to 64 records sized by their masks are far below the writer's limit. */
  lemma BulkFits(p: Bulk)
    requires |p.chunks| <= 64 && SizedByMask(p.chunks)
    ensures BulkEncode(p).Some?
  {
    hide Heads, Bodies, VarInt;
    RecordsAreShort(p.chunks);
    VarIntFits(|p.chunks|);
  }

  /** BulkSplit. */
  function BulkSplit(p: Bulk): (r: seq<ChunkData>)
    ensures |r| == |p.chunks|
  {
    seq(|p.chunks|, i requires 0 <= i < |p.chunks| =>
      ChunkData(p.chunks[i].x, p.chunks[i].z, true, p.chunks[i].mask, p.chunks[i].data))
  }

  lemma {:induction false} RecordsOf(cs: seq<Chunk>, i: nat)
    requires (forall j | 0 <= j < |cs| :: cs[j].Sized()) && i < |cs|
    ensures |BulkRecords(cs)| == |cs|
    ensures BulkRecords(cs)[i] ==
      BulkChunk(cs[i].x, cs[i].z, Mask(cs[i].sections), SectionsNet(cs[i].sections) + cs[i].biomes)
    ensures BulkRecords(cs)[i].mask < 0x1_0000 && |BulkRecords(cs)[i].data| == RecordSize(BulkRecords(cs)[i].mask)
  {
    hide SectionsNet, Mask;
    if i == 0 {
      MaskImpliesSize(cs[0].sections);
      MaskFits(cs[0].sections);
      assert Pow2(8) == 256 && Pow2(16) == 0x1_0000;
      if |cs| > 1 {
        RecordsOf(cs[1..], 0);
      }
    } else {
      RecordsOf(cs[1..], i - 1);
    }
  }

  /** Each part, applied to its target, makes the chunk it was built from. */
  ghost predicate AllCome(cs: seq<Chunk>, parts: seq<ChunkData>, targets: seq<Chunk>) {
    && |parts| == |cs| == |targets|
    && forall i | 0 <= i < |cs| :: Comes(cs[i], parts[i], targets[i])
  }

  ghost predicate Comes(c: Chunk, part: ChunkData, target: Chunk) {
    target.Sized() && ApplyData(part, target).Some? && SameColumn(c, ApplyData(part, target).value, true)
  }

  /** 1 to 64 chunks with biomes, built, encoded, decoded, split and each applied to a chunk without
      sections: every block, light value and biome comes back. */
  lemma BulkCarriesColumns(cs: seq<Chunk>, sky: bool, x: bytes, targets: seq<Chunk>)
    requires 1 <= |cs| <= 64 && |targets| == |cs|
    requires forall i | 0 <= i < |cs| ::
      cs[i].Sized() && cs[i].hasBiomes && IsI32(cs[i].x) && IsI32(cs[i].z) && Bare(targets[i])
    ensures BulkBuild(cs, sky).Some? && BulkEncode(BulkBuild(cs, sky).value).Some?
    ensures var p := BulkBuild(cs, sky).value;
      BulkDecode(BulkEncode(p).value + x) == Some((p, x)) && AllCome(cs, BulkSplit(p), targets)
  {
    hide SameColumn, ApplyData, SectionsNet, Mask, BulkDecode, RecordSize, Heads, Bodies, VarInt;
    var p := BulkBuild(cs, sky).value;
    forall i: nat | i < |cs|
      ensures |p.chunks| == |cs| && p.chunks[i].x == cs[i].x && p.chunks[i].z == cs[i].z && p.chunks[i].mask < 0x1_0000
      ensures |p.chunks[i].data| == RecordSize(p.chunks[i].mask)
      ensures BulkSplit(p)[i] == Build(cs[i], true).value
    {
      RecordsOf(cs, i);
    }
    RecordsOf(cs, 0);
    BulkFits(p);
    BulkReadsBack(p, x);
    forall i | 0 <= i < |cs| ensures Comes(cs[i], BulkSplit(p)[i], targets[i]) {
      ChunkReadsBack(cs[i], true, targets[i]);
    }
  }
}
