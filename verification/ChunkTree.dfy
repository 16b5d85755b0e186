/** The chunk tree by the names in the file, and exactly which trees are accepted as chunks. */
module ChunkTree {
  import opened Bytes
  import opened Nbt
  import opened NbtEqual
  import opened Blocks
  import opened Wire
  import opened ChunkNbt
  import opened ChunkNbtProofs

  /** A compound's child of that name. */
  function Named(v: Val, s: string): Option<Val> {
    if v.Compound? then Get(v.fields, Ascii(s)) else None
  }

  lemma NamedIsChild(v: Val, k: Key)
    ensures Named(v, Spelling(k)) == Child(v, k)
  {
  }

  // ---------------------------------------------------------------- what is written

  /** The tree of a chunk is an unnamed root with one child, Level. */
  lemma RootByName(c: Chunk)
    requires Storable(c)
    ensures ToRoot(c) == Some(Tag([], Compound([Tag(Ascii("Level"), Compound(Tagged(LevelOf(c))))])))
  {
    hide LevelEntries, Storable;
    ClonesAreTheSame(c);
  }

  /** The children of Level by name. */
  lemma LevelByName(c: Chunk)
    ensures var l := Compound(Tagged(LevelOf(c)));
      && Named(l, "V") == Some(Num(KByte, 1))
      && Named(l, "xPos") == Some(Num(KInt, c.x % 0x1_0000_0000))
      && Named(l, "zPos") == Some(Num(KInt, c.z % 0x1_0000_0000))
      && Named(l, "LastUpdate") == Some(Num(KLong, c.lastUpdate))
      && Named(l, "InhabitedTime") == Some(Num(KLong, c.inhabitedTime))
      && Named(l, "HeightMap") == Some(IntArray(c.heightmap))
      && Named(l, "TerrainPopulated") == Some(Num(KByte, if c.terrainPopulated then 1 else 0))
      && Named(l, "LightPopulated") == Some(Num(KByte, if c.lightPopulated then 1 else 0))
      && Named(l, "Sections") == Some(List(if SectionVals(c.sections) == [] then 0 else 10, SectionVals(c.sections)))
      && Named(l, "Biomes") == (if c.hasBiomes then Some(ByteArray(c.biomes)) else None)
      && Named(l, "Entities") == Some(c.entities) && Named(l, "TileEntities") == Some(c.tileEntities)
      && Named(l, "TileTicks") == c.tileTicks
  {
    hide LevelOf, NameOf, Named, SectionVals, Tagged, Entry, Spelling, Child;
    var l := Compound(Tagged(LevelOf(c)));
    forall k ensures Named(l, Spelling(k)) == Entry(c, k) {
      NamedIsChild(l, k);
      ChildIsEntry(c, k);
    }
    LevelSpellings();
    LevelEntryOf(c);
  }

  lemma LevelSpellings()
    ensures Spelling(V) == "V" && Spelling(XPos) == "xPos" && Spelling(ZPos) == "zPos"
    ensures Spelling(LastUpdate) == "LastUpdate" && Spelling(InhabitedTime) == "InhabitedTime"
    ensures Spelling(HeightMap) == "HeightMap" && Spelling(TerrainPopulated) == "TerrainPopulated"
    ensures Spelling(LightPopulated) == "LightPopulated" && Spelling(Sections) == "Sections"
    ensures Spelling(Biomes) == "Biomes" && Spelling(Entities) == "Entities"
    ensures Spelling(TileEntities) == "TileEntities" && Spelling(TileTicks) == "TileTicks"
  {
  }

  lemma LevelEntryOf(c: Chunk)
    ensures Entry(c, V) == Some(Num(KByte, 1)) && Entry(c, XPos) == Some(Num(KInt, c.x % 0x1_0000_0000))
    ensures Entry(c, ZPos) == Some(Num(KInt, c.z % 0x1_0000_0000))
    ensures Entry(c, LastUpdate) == Some(Num(KLong, c.lastUpdate))
    ensures Entry(c, InhabitedTime) == Some(Num(KLong, c.inhabitedTime))
    ensures Entry(c, HeightMap) == Some(IntArray(c.heightmap))
    ensures Entry(c, TerrainPopulated) == Some(Num(KByte, if c.terrainPopulated then 1 else 0))
    ensures Entry(c, LightPopulated) == Some(Num(KByte, if c.lightPopulated then 1 else 0))
    ensures var vs := SectionVals(c.sections); Entry(c, Sections) == Some(List(if vs == [] then 0 else 10, vs))
    ensures Entry(c, Biomes) == (if c.hasBiomes then Some(ByteArray(c.biomes)) else None)
    ensures Entry(c, Entities) == Some(c.entities) && Entry(c, TileEntities) == Some(c.tileEntities)
    ensures Entry(c, TileTicks) == c.tileTicks
  {
    hide SectionVals;
  }

  lemma ChildIsEntry(c: Chunk, k: Key)
    ensures Child(Compound(Tagged(LevelOf(c))), k) == Entry(c, k)
  {
    hide LevelOf, Entry, NameOf;
    GetIsFind(LevelOf(c), k);
    LevelFinds(c, k);
  }

  /** A section's compound by name. */
  lemma SectionByName(s: Section)
    ensures var v := SectionVal(s);
      && Named(v, "Y") == Some(Num(KByte, s.y))
      && Named(v, "Blocks") == Some(ByteArray(s.blocks)) && Named(v, "Data") == Some(ByteArray(s.data))
      && Named(v, "Add") ==
           (if s.hasAdd || exists i :: 0 <= i < |s.add| && s.add[i] != 0 then Some(ByteArray(s.add)) else None)
      && Named(v, "BlockLight") == Some(ByteArray(s.blockLight))
      && Named(v, "SkyLight") == Some(ByteArray(s.skyLight))
  {
    hide SectionEntries, NameOf, Named, Find, Tagged, Spelling, Child;
    var v, es := SectionVal(s), SectionEntries(s);
    SectionFinds(s);
    forall k ensures Named(v, Spelling(k)) == Find(es, k) {
      NamedIsChild(v, k);
      ChildIsFind(es, k);
    }
    SectionSpellings();
  }

  lemma SectionSpellings()
    ensures Spelling(Y) == "Y" && Spelling(BlockIds) == "Blocks" && Spelling(Data) == "Data" && Spelling(Add) == "Add"
    ensures Spelling(BlockLight) == "BlockLight" && Spelling(SkyLight) == "SkyLight"
  {
  }

  /** The sections that are there, from the lowest up. */
  lemma {:induction false} SectionsUpwards(ss: seq<Option<Section>>, s: Option<Section>)
    ensures SectionVals(ss + [s]) == SectionVals(ss) + if s.Some? then [SectionVal(s.value)] else []
    ensures SectionVals([]) == []
  {
    hide SectionVal;
    if |ss| == 0 {
      assert ss + [s] == [s];
      assert SectionVals([s]) == (if s.Some? then [SectionVal(s.value)] else []) + SectionVals([]);
    } else {
      assert (ss + [s])[1..] == ss[1..] + [s];
      SectionsUpwards(ss[1..], s);
    }
  }

  // ---------------------------------------------------------------- what is accepted

  predicate BytesOf(v: Option<Val>, n: nat) {
    v.Some? && v.value.ByteArray? && |v.value.data| == n
  }

  predicate IsNum(v: Option<Val>, k: NumKind) {
    v.Some? && v.value.Num? && v.value.kind == k
  }

  /** A list of compounds, or an empty list of anything. */
  predicate Compounds(v: Option<Val>) {
    v.Some? && v.value.List? && (v.value.items == [] || v.value.elem == 10)
  }

  /** A section: its height in a byte of 0..15, and its arrays at their sizes; Add may be missing. */
  predicate SectionLike(v: Val) {
    && IsNum(Named(v, "Y"), KByte) && Named(v, "Y").value.bits <= 15
    && BytesOf(Named(v, "Blocks"), 4096) && BytesOf(Named(v, "Data"), 2048)
    && BytesOf(Named(v, "BlockLight"), 2048) && BytesOf(Named(v, "SkyLight"), 2048)
    && (Named(v, "Add").Some? ==> BytesOf(Named(v, "Add"), 2048))
  }

  /** A level: what is there has its type and size, and Sections is there. */
  predicate LevelLike(l: Val) {
    && (Named(l, "xPos").Some? ==> IsNum(Named(l, "xPos"), KInt))
    && (Named(l, "zPos").Some? ==> IsNum(Named(l, "zPos"), KInt))
    && (Named(l, "HeightMap").Some? ==>
          Named(l, "HeightMap").value.IntArray? && |Named(l, "HeightMap").value.ints| == 256)
    && (Named(l, "TerrainPopulated").Some? ==> IsNum(Named(l, "TerrainPopulated"), KByte))
    && (Named(l, "LightPopulated").Some? ==> IsNum(Named(l, "LightPopulated"), KByte))
    && (Named(l, "Biomes").Some? ==> BytesOf(Named(l, "Biomes"), 256))
    && (Named(l, "Entities").Some? ==> Compounds(Named(l, "Entities")))
    && (Named(l, "TileEntities").Some? ==> Compounds(Named(l, "TileEntities")))
    && (Named(l, "TileTicks").Some? ==> Compounds(Named(l, "TileTicks")))
    && Compounds(Named(l, "Sections"))
    && forall v | v in Named(l, "Sections").value.items :: SectionLike(v)
  }

  lemma SectionLikeReads(v: Val)
    ensures ReadSection(v).Some? <==> SectionLike(v)
    ensures ReadSection(v).Some? ==>
      var s := ReadSection(v).value;
      && s.y == Named(v, "Y").value.bits && s.blocks == Named(v, "Blocks").value.data
      && s.data == Named(v, "Data").value.data && s.hasAdd == Named(v, "Add").Some?
      && s.blockLight == Named(v, "BlockLight").value.data && s.skyLight == Named(v, "SkyLight").value.data
      && (s.hasAdd ==> s.add == Named(v, "Add").value.data)
      && (!s.hasAdd ==> forall i | 0 <= i < 2048 :: s.add[i] == 0)
  {
    hide Named, Child, Spelling;
    SectionSpellings();
    NamedIsChild(v, Y);
    NamedIsChild(v, BlockIds);
    NamedIsChild(v, Data);
    NamedIsChild(v, Add);
    NamedIsChild(v, BlockLight);
    NamedIsChild(v, SkyLight);
  }

  lemma {:induction false} SectionsRead(ss: seq<Option<Section>>, items: seq<Val>)
    requires |ss| == SECTIONS
    ensures ReadSections(ss, items).Some? <==> forall v | v in items :: SectionLike(v)
    decreases |items|
  {
    hide SectionLike, ReadSection;
    if |items| > 0 {
      SectionLikeReads(items[0]);
      var s := ReadSection(items[0]);
      if s.Some? {
        SectionsRead(ss[s.value.y := s], items[1..]);
      }
    }
  }

  /** Each height holds the last section that names it. */
  lemma {:induction false} LastSectionWins(ss: seq<Option<Section>>, items: seq<Val>, v: Val, y: nat)
    requires |ss| == SECTIONS && y < SECTIONS
    ensures var r, r' := ReadSections(ss, items), ReadSections(ss, items + [v]);
      && (r'.Some? <==> r.Some? && ReadSection(v).Some?)
      && (r'.Some? ==> r'.value[y] == if ReadSection(v).value.y == y then ReadSection(v) else r.value[y])
    decreases |items|
  {
    hide ReadSection;
    if |items| == 0 {
      assert items + [v] == [v] && [v][1..] == [];
    } else {
      assert (items + [v])[0] == items[0] && (items + [v])[1..] == items[1..] + [v];
      var s := ReadSection(items[0]);
      if s.Some? {
        LastSectionWins(ss[s.value.y := s], items[1..], v, y);
      }
    }
  }

  /** A tree is accepted as a chunk exactly when its root has a Level like that. */
  lemma AcceptedTrees(c: Chunk, t: Tag)
    requires c.Sized()
    ensures FromRoot(c, t).Some? <==>
      Named(t.v, "Level").Some? && Named(t.v, "Level").value.Compound? && LevelLike(Named(t.v, "Level").value)
  {
    hide Named, Child, LevelLike, FromLevel;
    NamedIsChild(t.v, Level);
    var l := Child(t.v, Level);
    if l.Some? && l.value.Compound? {
      AcceptedLevels(c, l.value);
    }
  }

  /** What is read of an accepted level: positions, flags and heights have defaults, times are longs, or ints with
      their signs extended, and kept otherwise; lists that are missing are empty. */
  lemma AcceptedValues(c: Chunk, l: Val)
    requires c.Sized() && FromLevel(c, l).Some?
    ensures var r := FromLevel(c, l).value;
      && r.x == SignedOr(Named(l, "xPos"), c.x) && r.z == SignedOr(Named(l, "zPos"), c.z)
      && r.lastUpdate == TimeOr(Named(l, "LastUpdate"), c.lastUpdate)
      && r.inhabitedTime == TimeOr(Named(l, "InhabitedTime"), c.inhabitedTime)
      && r.heightmap == HeightsOr(Named(l, "HeightMap"))
      && r.terrainPopulated == IsSet(Named(l, "TerrainPopulated"))
      && r.lightPopulated == IsSet(Named(l, "LightPopulated"))
      && r.hasBiomes == Named(l, "Biomes").Some?
      && r.biomes == DataOr(Named(l, "Biomes"), c.biomes)
      && r.entities == OrEmpty(Named(l, "Entities")) && r.tileEntities == OrEmpty(Named(l, "TileEntities"))
      && r.tileTicks == Named(l, "TileTicks")
  {
    hide Named, Child, Spelling, ReadSections, SectionLike, SectionsOf, CompoundList;
    AllByName(l);
    AcceptedLevels(c, l);
  }

  function HeightsOr(v: Option<Val>): seq<u32> {
    if v.Some? && v.value.IntArray? then v.value.ints else seq(256, _ => 0)
  }

  function DataOr(v: Option<Val>, was: bytes): bytes {
    if v.Some? && v.value.ByteArray? then v.value.data else was
  }

  /** An int as a two's complement number. */
  function SignedOr(v: Option<Val>, was: int): int {
    if !IsNum(v, KInt) then was
    else if v.value.bits < 0x8000_0000 then v.value.bits else v.value.bits - 0x1_0000_0000
  }

  /** 64 bits of a long, or of an int with its sign extended. */
  function TimeOr(v: Option<Val>, was: nat): nat {
    if IsNum(v, KLong) then v.value.bits
    else if !IsNum(v, KInt) then was
    else if v.value.bits < 0x8000_0000 then v.value.bits else v.value.bits + 0xffff_ffff_0000_0000
  }

  predicate IsSet(v: Option<Val>) {
    v.Some? && v.value.Num? && v.value.bits != 0
  }

  function OrEmpty(v: Option<Val>): Val {
    if v.Some? then v.value else List(0, [])
  }

  lemma AcceptedLevels(c: Chunk, l: Val)
    requires c.Sized()
    ensures FromLevel(c, l).Some? <==> LevelLike(l)
  {
    hide Named, Child, Spelling, SectionLike, ReadSections, IntOr, FlagOf, HeightsOf, IsNum, BytesOf, LongOr;
    AllByName(l);
    PartsAccepted(Child(l, XPos), c.x);
    PartsAccepted(Child(l, ZPos), c.z);
    PartsAccepted(Child(l, HeightMap), 0);
    PartsAccepted(Child(l, TerrainPopulated), 0);
    PartsAccepted(Child(l, LightPopulated), 0);
    PartsAccepted(Child(l, Biomes), 0);
    if Compounds(Child(l, Sections)) {
      SectionsRead(NoSections(), Child(l, Sections).value.items);
    }
  }

  lemma PartsAccepted(v: Option<Val>, was: int)
    ensures IntOr(v, was).Some? <==> (v.Some? ==> IsNum(v, KInt))
    ensures FlagOf(v).Some? <==> (v.Some? ==> IsNum(v, KByte))
    ensures HeightsOf(v).Some? <==> (v.Some? ==> v.value.IntArray? && |v.value.ints| == 256)
    ensures Array(v, 256).Some? <==> BytesOf(v, 256)
  {
  }

  lemma AllByName(l: Val)
    ensures Named(l, "xPos") == Child(l, XPos) && Named(l, "zPos") == Child(l, ZPos)
    ensures Named(l, "LastUpdate") == Child(l, LastUpdate) && Named(l, "InhabitedTime") == Child(l, InhabitedTime)
    ensures Named(l, "HeightMap") == Child(l, HeightMap) && Named(l, "Sections") == Child(l, Sections)
    ensures Named(l, "TerrainPopulated") == Child(l, TerrainPopulated)
    ensures Named(l, "LightPopulated") == Child(l, LightPopulated)
    ensures Named(l, "Biomes") == Child(l, Biomes) && Named(l, "TileTicks") == Child(l, TileTicks)
    ensures Named(l, "Entities") == Child(l, Entities) && Named(l, "TileEntities") == Child(l, TileEntities)
  {
    hide Named, Child, Spelling;
    LevelSpellings();
    forall k ensures Named(l, Spelling(k)) == Child(l, k) {
      NamedIsChild(l, k);
    }
  }
}
