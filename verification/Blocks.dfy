/** Blocks in sections, chunks and the world: 12-bit ids split over two arrays, 4-bit metadata. */
module Blocks {
  import opened Bytes
  import opened Coordinates
  import opened Nbt

  const CELLS: nat := 4096
  const NIBBLES: nat := 2048
  const SECTIONS: nat := 16

  // ---------------------------------------------------------------- nibbles

  /** NibbleGet: the low half of a byte comes first. */
  function NibbleGet(a: bytes, i: nat): (r: nat)
    requires i / 2 < |a|
    ensures r < 16
  {
    if i % 2 == 0 then a[i / 2] % 16 else a[i / 2] / 16
  }

  /** The byte NibbleSet writes. */
  function Mixed(b: byte, odd: bool, v: nat): byte {
    if odd then b % 16 + (v % 16) * 16 else b / 16 * 16 + v % 16
  }

  function NibbleSet(a: bytes, i: nat, v: nat): (r: bytes)
    requires i / 2 < |a|
    ensures |r| == |a|
  {
    a[i / 2 := Mixed(a[i / 2], i % 2 == 1, v)]
  }

  lemma NibbleSetReads(a: bytes, i: nat, v: nat, j: nat)
    requires i / 2 < |a| && j / 2 < |a|
    ensures NibbleGet(NibbleSet(a, i, v), j) == if i == j then v % 16 else NibbleGet(a, j)
  {
    MixedHalves(a[i / 2], v);
  }

  lemma MixedHalves(b: byte, v: nat)
    ensures Mixed(b, true, v) % 16 == b % 16 && Mixed(b, true, v) / 16 == v % 16
    ensures Mixed(b, false, v) % 16 == v % 16 && Mixed(b, false, v) / 16 == b / 16
  {
  }

  /** Nibble arrays with the same nibbles are the same. */
  lemma SameNibbles(a: bytes, b: bytes)
    requires |a| == |b| && forall i: nat | i < 2 * |a| :: NibbleGet(a, i) == NibbleGet(b, i)
    ensures a == b
  {
    forall k | 0 <= k < |a| ensures a[k] == b[k] {
      assert NibbleGet(a, 2 * k) == NibbleGet(b, 2 * k) && NibbleGet(a, 2 * k + 1) == NibbleGet(b, 2 * k + 1);
    }
  }

  // ---------------------------------------------------------------- sections

  datatype Section = Section(y: byte, blocks: bytes, data: bytes, add: bytes, hasAdd: bool,
                             blockLight: bytes, skyLight: bytes)
  {
    predicate Sized() {
      |blocks| == CELLS && |data| == |add| == |blockLight| == |skyLight| == NIBBLES
    }
  }

  function EmptySection(y: byte): (s: Section)
    ensures s.Sized()
  {
    Section(y, Zeros(CELLS), Zeros(NIBBLES), Zeros(NIBBLES), false, Zeros(NIBBLES), Zeros(NIBBLES))
  }

  function BlockIndex(x: nat, y: nat, z: nat): nat {
    y * 256 + z * 16 + x
  }

  lemma BlockIndexIsInjective(x: nat, y: nat, z: nat, x': nat, y': nat, z': nat)
    requires x < 16 && y < 16 && z < 16 && x' < 16 && y' < 16 && z' < 16
    ensures BlockIndex(x, y, z) == BlockIndex(x', y', z') <==> x == x' && y == y' && z == z'
    ensures BlockIndex(x, y, z) < CELLS
  {
  }

  function IdAt(s: Section, i: nat): nat
    requires s.Sized() && i < CELLS
  {
    s.blocks[i] + if s.hasAdd then NibbleGet(s.add, i) * 256 else 0
  }

  function MetaAt(s: Section, i: nat): nat
    requires s.Sized() && i < CELLS
  {
    NibbleGet(s.data, i)
  }

  /** BlockSet within a section. */
  function SetAt(s: Section, i: nat, id: nat, meta: nat): (t: Section)
    requires s.Sized() && i < CELLS && id < 4096 && meta < 16
    ensures t.Sized()
  {
    var t := s.(blocks := s.blocks[i := id % 256], data := NibbleSet(s.data, i, meta));
    if id > 255 then t.(hasAdd := true, add := NibbleSet(s.add, i, id / 256))
    else if s.hasAdd then t.(add := NibbleSet(s.add, i, 0))
    else t
  }

  /** Without the has_add flag the Add array is all zero. */
  predicate AddClear(s: Section)
    requires s.Sized()
  {
    !s.hasAdd ==> forall i | 0 <= i < NIBBLES :: s.add[i] == 0
  }

  /** The block written, and no other, changes. */
  lemma SetAtReads(s: Section, i: nat, id: nat, meta: nat, j: nat)
    requires s.Sized() && AddClear(s) && i < CELLS && j < CELLS && id < 4096 && meta < 16
    ensures var t := SetAt(s, i, id, meta);
      && IdAt(t, j) == (if j == i then id else IdAt(s, j))
      && MetaAt(t, j) == (if j == i then meta else MetaAt(s, j))
  {
    hide NibbleGet, NibbleSet;
    NibbleSetReads(s.data, i, meta, j);
    NibbleSetReads(s.add, i, id / 256, j);
    NibbleSetReads(s.add, i, 0, j);
    assert s.hasAdd || NibbleGet(s.add, j) == 0 by { ZeroNibble(s.add, j); }
  }

  lemma ZeroNibble(a: bytes, j: nat)
    requires j / 2 < |a|
    ensures a[j / 2] == 0 ==> NibbleGet(a, j) == 0
  {
  }

  lemma SetAtKeepsClear(s: Section, i: nat, id: nat, meta: nat)
    requires s.Sized() && AddClear(s) && i < CELLS && id < 4096 && meta < 16
    ensures AddClear(SetAt(s, i, id, meta))
  {
  }

  /** A section whose Add array is not clear gives other blocks new ids as soon as one id above 255 is
      written: others are untouched exactly when that does not happen. */
  lemma StaleAddShows(s: Section, i: nat, id: nat, meta: nat)
    requires s.Sized() && i < CELLS && id < 4096 && meta < 16
    ensures (forall j: nat | j < CELLS && j != i :: IdAt(SetAt(s, i, id, meta), j) == IdAt(s, j))
       <==> (s.hasAdd || id <= 255 || forall j: nat | j < CELLS && j != i :: NibbleGet(s.add, j) == 0)
  {
    hide NibbleGet, NibbleSet;
    forall j: nat | j < CELLS && j != i
      ensures IdAt(SetAt(s, i, id, meta), j) == IdAt(s, j) <==> (s.hasAdd || id <= 255 || NibbleGet(s.add, j) == 0)
    {
      NibbleSetReads(s.add, i, id / 256, j);
      NibbleSetReads(s.add, i, 0, j);
    }
  }

  // ---------------------------------------------------------------- chunks

  /** Flags and timestamps are kept as bit patterns; the three lists are NBT values. */
  datatype Chunk = Chunk(
    x: int, z: int, lastUpdate: nat, inhabitedTime: nat,
    heightmap: seq<u32>, terrainPopulated: bool, lightPopulated: bool,
    sections: seq<Option<Section>>, hasBiomes: bool, biomes: bytes,
    entities: Val, tileEntities: Val, tileTicks: Option<Val>)
  {
    predicate Sized() {
      && |sections| == SECTIONS && |biomes| == 256 && |heightmap| == 256
      && forall i | 0 <= i < SECTIONS :: sections[i].Some? ==> sections[i].value.Sized()
    }

    /** Every section sits at its own height and has a clear Add array unless flagged. */
    predicate Good() {
      Sized() && forall i | 0 <= i < SECTIONS :: sections[i].Some? ==>
        sections[i].value.y == i && AddClear(sections[i].value)
    }
  }

  predicate InChunk(x: int, y: int, z: int) {
    0 <= x < 16 && 0 <= y < 256 && 0 <= z < 16
  }

  /** A block's index in its section. */
  function Cell(x: int, y: int, z: int): (i: nat)
    requires InChunk(x, y, z)
    ensures i < CELLS
  {
    BlockIndex(x, y % 16, z)
  }

  function SectionAt(c: Chunk, y: nat): (s: Option<Section>)
    requires c.Sized() && y < 256
    ensures s.Some? ==> s.value.Sized()
  {
    c.sections[y / 16]
  }

  function ReadCell(s: Option<Section>, i: nat): (nat, nat)
    requires i < CELLS && (s.Some? ==> s.value.Sized())
  {
    match s case None => (0, 0) case Some(t) => (IdAt(t, i), MetaAt(t, i))
  }

  /** BlockGet: id and metadata. */
  function BlockGet(c: Chunk, x: int, y: int, z: int): Option<(nat, nat)>
    requires c.Sized()
  {
    if !InChunk(x, y, z) then None else Some(ReadCell(SectionAt(c, y), Cell(x, y, z)))
  }

  function SectionToWrite(c: Chunk, y: nat): (s: Section)
    requires c.Sized() && y < 256
    ensures s.Sized()
  {
    match SectionAt(c, y) case None => EmptySection(y / 16) case Some(s) => s
  }

  function PutSection(c: Chunk, y: nat, s: Section): (r: Chunk)
    requires c.Sized() && y < 256 && s.Sized()
    ensures r.Sized()
  {
    c.(sections := c.sections[y / 16 := Some(s)])
  }

  function BlockSet(c: Chunk, x: int, y: int, z: int, id: int, meta: int): (r: Option<Chunk>)
    requires c.Sized()
    ensures r.Some? ==> r.value.Sized()
  {
    if !InChunk(x, y, z) || id < 0 || id > 4095 || meta < 0 || meta > 15 then None
    else Some(PutSection(c, y, SetAt(SectionToWrite(c, y), Cell(x, y, z), id, meta)))
  }

  lemma EmptySectionIsAir(y: byte, i: nat)
    requires i < CELLS
    ensures IdAt(EmptySection(y), i) == 0 && MetaAt(EmptySection(y), i) == 0 && AddClear(EmptySection(y))
  {
    ZeroNibble(Zeros(NIBBLES), i);
  }

  lemma BlockSetReads(c: Chunk, x: int, y: int, z: int, id: int, meta: int, x': int, y': int, z': int)
    requires c.Good() && InChunk(x, y, z) && 0 <= id < 4096 && 0 <= meta < 16
    ensures var r := BlockSet(c, x, y, z, id, meta);
      && r.Some? && r.value.Good()
      && BlockGet(r.value, x', y', z') ==
           if (x', y', z') == (x, y, z) then Some((id, meta)) else BlockGet(c, x', y', z')
  {
    hide SetAt, IdAt, MetaAt, AddClear, BlockIndex, EmptySection;
    var i := Cell(x, y, z);
    EmptySectionIsAir(y / 16, i);
    EmptyAt(y / 16);
    var s := SectionToWrite(c, y);
    SetAtKeepsClear(s, i, id, meta);
    SetAtKeepsHeight(s, i, id, meta);
    if InChunk(x', y', z') {
      BlockIndexIsInjective(x, y % 16, z, x', y' % 16, z');
      SetAtReads(s, i, id, meta, Cell(x', y', z'));
      EmptySectionIsAir(y / 16, Cell(x', y', z'));
    }
  }

  lemma EmptyAt(y: byte)
    ensures EmptySection(y).y == y
  {
  }

  lemma SetAtKeepsHeight(s: Section, i: nat, id: nat, meta: nat)
    requires s.Sized() && i < CELLS && id < 4096 && meta < 16
    ensures SetAt(s, i, id, meta).y == s.y
  {
  }

  // ---------------------------------------------------------------- the world

  /** The world's chunk table. */
  type Table = map<int, Chunk>

  predicate Stored(w: Table) {
    forall k | k in w :: w[k].Sized()
  }

  predicate GoodTable(w: Table) {
    forall k | k in w :: w[k].Good()
  }

  function KeyAt(x: int, z: int): int {
    ChunkKey(FloorDiv16(x as real), FloorDiv16(z as real))
  }

  function Inside(x: int): int {
    x - FloorDiv16(x as real) * 16
  }

  function GetBlock(w: Table, x: int, y: int, z: int): Option<(nat, nat)>
    requires Stored(w)
  {
    if y < 0 || y > 255 || KeyAt(x, z) !in w then None
    else BlockGet(w[KeyAt(x, z)], Inside(x), y, Inside(z))
  }

  /** World::SetBlock: the new table, or nothing when it returns false. */
  function SetBlock(w: Table, x: int, y: int, z: int, id: int, meta: int): Option<Table>
    requires Stored(w)
  {
    if y < 0 || y > 255 || KeyAt(x, z) !in w then None
    else
      match BlockSet(w[KeyAt(x, z)], Inside(x), y, Inside(z), id, meta)
      case None => None
      case Some(c) => Some(w[KeyAt(x, z) := c])
  }

  /** Two positions are in one chunk at one place only if they are the same. */
  lemma PlaceIsInjective(x: int, z: int, x': int, z': int)
    requires IsI32(x) && IsI32(z) && IsI32(x') && IsI32(z')
    ensures KeyAt(x, z) == KeyAt(x', z') && Inside(x) == Inside(x') && Inside(z) == Inside(z') <==> x == x' && z == z'
  {
    hide ChunkKey;
    BlockInItsChunk(x);
    BlockInItsChunk(z);
    BlockInItsChunk(x');
    BlockInItsChunk(z');
    ChunkKeyIsInjective(FloorDiv16(x as real), FloorDiv16(z as real), FloorDiv16(x' as real), FloorDiv16(z' as real));
  }

  lemma InsideIsInside(x: int)
    ensures 0 <= Inside(x) < 16
  {
    BlockInItsChunk(x);
  }

  /** SetBlock succeeds exactly where a block is and with a value it can have; then that block reads back
      as written and every other block of the world as before. */
  lemma SetBlockReads(w: Table, x: int, y: int, z: int, id: int, meta: int, x': int, y': int, z': int)
    requires GoodTable(w) && IsI32(x) && IsI32(z) && IsI32(x') && IsI32(z')
    ensures var r, here := SetBlock(w, x, y, z, id, meta), (x', y', z') == (x, y, z);
      && (r.Some? <==> GetBlock(w, x, y, z).Some? && 0 <= id < 4096 && 0 <= meta < 16)
      && (r.Some? ==> r.value.Keys == w.Keys && GoodTable(r.value))
      && (r.Some? ==> GetBlock(r.value, x', y', z') == if here then Some((id, meta)) else GetBlock(w, x', y', z'))
  {
    hide KeyAt, Inside, BlockGet, BlockSet;
    InsideIsInside(x);
    InsideIsInside(z);
    if 0 <= y < 256 && KeyAt(x, z) in w {
      BlockGetInside(w[KeyAt(x, z)], Inside(x), y, Inside(z));
      BlockSetInside(w[KeyAt(x, z)], Inside(x), y, Inside(z), id, meta);
      if 0 <= id < 4096 && 0 <= meta < 16 {
        BlockSetReads(w[KeyAt(x, z)], Inside(x), y, Inside(z), id, meta, Inside(x'), y', Inside(z'));
        PlaceIsInjective(x, z, x', z');
      }
    }
  }

  lemma BlockGetInside(c: Chunk, x: int, y: int, z: int)
    requires c.Sized()
    ensures BlockGet(c, x, y, z).Some? <==> InChunk(x, y, z)
  {
  }

  lemma BlockSetInside(c: Chunk, x: int, y: int, z: int, id: int, meta: int)
    requires c.Sized()
    ensures BlockSet(c, x, y, z, id, meta).Some? <==> InChunk(x, y, z) && 0 <= id < 4096 && 0 <= meta < 16
  {
  }

  // ---------------------------------------------------------------- runs

  datatype Write = Write(x: int, y: int, z: int, id: int, meta: int) {
    predicate At(px: int, py: int, pz: int) {
      x == px && y == py && z == pz
    }

    predicate Storable() {
      0 <= id < 4096 && 0 <= meta < 16
    }
  }

  function Apply(w: Table, ws: seq<Write>): (r: Table)
    requires GoodTable(w) && forall i | 0 <= i < |ws| :: IsI32(ws[i].x) && IsI32(ws[i].z)
    ensures GoodTable(r)
  {
    if |ws| == 0 then w
    else
      var v := Apply(w, ws[..|ws| - 1]);
      var a := ws[|ws| - 1];
      SetBlockReads(v, a.x, a.y, a.z, a.id, a.meta, a.x, a.y, a.z);
      match SetBlock(v, a.x, a.y, a.z, a.id, a.meta) case None => v case Some(u) => u
  }

  /** The last storable write at a place, if any. */
  function LastWrite(ws: seq<Write>, x: int, y: int, z: int): Option<(int, int)> {
    if |ws| == 0 then None
    else
      var a := ws[|ws| - 1];
      if a.At(x, y, z) && a.Storable() then Some((a.id, a.meta)) else LastWrite(ws[..|ws| - 1], x, y, z)
  }

  /** After any run of writes every block reads as last written, and as at the start if it never was. */
  lemma {:induction false} RunRefinesMap(w: Table, ws: seq<Write>, x: int, y: int, z: int)
    requires GoodTable(w) && IsI32(x) && IsI32(z) && forall i | 0 <= i < |ws| :: IsI32(ws[i].x) && IsI32(ws[i].z)
    ensures GetBlock(Apply(w, ws), x, y, z) ==
      if GetBlock(w, x, y, z).Some? && LastWrite(ws, x, y, z).Some? then LastWrite(ws, x, y, z)
      else GetBlock(w, x, y, z)
  {
    hide GetBlock, SetBlock, GoodTable, Stored;
    if |ws| > 0 {
      var before := ws[..|ws| - 1];
      RunRefinesMap(w, before, x, y, z);
      var a := ws[|ws| - 1];
      SetBlockReads(Apply(w, before), a.x, a.y, a.z, a.id, a.meta, x, y, z);
    }
  }
}
