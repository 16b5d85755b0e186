/** A chunk written to NBT bytes and read into another chunk comes back the same. */
module ChunkNbtProofs {
  import opened Bytes
  import opened Coordinates
  import opened Nbt
  import opened NbtRoundTrip
  import opened NbtAccounting
  import opened NbtEqual
  import opened NbtRetag
  import opened Blocks
  import opened Wire
  import opened ChunkNbt

  // ---------------------------------------------------------------- entries as compounds

  predicate Fine(v: Val, d: nat) {
    Shaped(v) && WithinDepth(v, d)
  }

  predicate AllFine(es: Entries, d: nat) {
    |es| > 0 ==> Fine(es[0].1, d) && AllFine(es[1..], d)
  }

  predicate AllEndTagged(es: Entries) {
    |es| > 0 ==> EndTagged(es[0].1) && AllEndTagged(es[1..])
  }

  lemma ConsFine(k: Key, v: Val, es: Entries, d: nat)
    ensures AllFine([(k, v)] + es, d) <==> Fine(v, d) && AllFine(es, d)
    ensures AllEndTagged([(k, v)] + es) <==> EndTagged(v) && AllEndTagged(es)
  {
    assert ([(k, v)] + es)[1..] == es;
  }

  lemma MaybeCons(k: Key, v: Option<Val>, es: Entries, d: nat)
    ensures forall q :: Find(Maybe(k, v) + es, q) == if q == k && v.Some? then v else Find(es, q)
    ensures AllFine(Maybe(k, v) + es, d) <==> (v.Some? ==> Fine(v.value, d)) && AllFine(es, d)
  {
    match v
    case None => assert Maybe(k, v) + es == es;
    case Some(w) =>
      FindCons(k, w, es);
      ConsFine(k, w, es, d);
  }

  lemma {:induction false} TaggedAreFine(es: Entries, d: nat)
    ensures AllFine(es, d) ==> ShapedFields(Tagged(es)) && WithinDepthFields(Tagged(es), d)
    ensures AllEndTagged(es) ==> EndTaggedFields(Tagged(es))
  {
    hide NameOf;
    if |es| > 0 {
      TaggedAreFine(es[1..], d);
      assert Tagged(es)[1..] == Tagged(es[1..]);
    }
  }

  lemma CompoundIsFine(es: Entries, d: nat)
    ensures d < MAX_DEPTH && AllFine(es, d + 1) ==> Fine(Compound(Tagged(es)), d)
    ensures AllEndTagged(es) ==> EndTagged(Compound(Tagged(es)))
  {
    TaggedAreFine(es, d + 1);
  }

  /** Looking up after retagging is retagging what is looked up. */
  lemma {:induction false} GetOfRetag(fields: seq<Tag>, name: bytes)
    ensures Get(RetagFields(fields), name) == RetagMaybe(Get(fields, name))
  {
    if |fields| > 0 {
      assert RetagFields(fields)[1..] == RetagFields(fields[1..]);
      GetOfRetag(fields[1..], name);
    }
  }

  // ---------------------------------------------------------------- sections

  /** A section as it is read back: flagged when its Add array was written. */
  function Loaded(s: Section): Section {
    s.(hasAdd := WritesAdd(s))
  }

  lemma LoadedIsSame(s: Section)
    requires s.Sized()
    ensures Loaded(s) == s <==> AddClear(s)
  {
  }

  lemma SectionFinds(s: Section)
    ensures var es := SectionEntries(s);
      && Find(es, Y) == Some(Num(KByte, s.y)) && Find(es, BlockIds) == Some(ByteArray(s.blocks))
      && Find(es, Data) == Some(ByteArray(s.data))
      && Find(es, Add) == (if WritesAdd(s) then Some(ByteArray(s.add)) else None)
      && Find(es, BlockLight) == Some(ByteArray(s.blockLight)) && Find(es, SkyLight) == Some(ByteArray(s.skyLight))
    ensures s.Sized() ==> AllFine(SectionEntries(s), 4) && AllEndTagged(SectionEntries(s))
  {
    hide Find, AllFine, AllEndTagged, WritesAdd;
    Empty();
    FieldsAreFine(s);
    var e0: Entries := [(SkyLight, ByteArray(s.skyLight))] + [];
    Step(SkyLight, ByteArray(s.skyLight), []);
    var e1 := [(BlockLight, ByteArray(s.blockLight))] + e0;
    Step(BlockLight, ByteArray(s.blockLight), e0);
    var e2 := (if WritesAdd(s) then [(Add, ByteArray(s.add))] else []) + e1;
    Step(Add, ByteArray(s.add), e1);
    assert [] + e1 == e1;
    var e3 := [(Data, ByteArray(s.data))] + e2;
    Step(Data, ByteArray(s.data), e2);
    var e4 := [(BlockIds, ByteArray(s.blocks))] + e3;
    Step(BlockIds, ByteArray(s.blocks), e3);
    Step(Y, Num(KByte, s.y), e4);
  }

  lemma Empty()
    ensures forall q :: Find([], q) == None
    ensures AllFine([], 4) && AllEndTagged([])
  {
  }

  lemma Step(k: Key, v: Val, es: Entries)
    ensures forall q :: Find([(k, v)] + es, q) == if q == k then Some(v) else Find(es, q)
    ensures AllFine([(k, v)] + es, 4) <==> Fine(v, 4) && AllFine(es, 4)
    ensures AllEndTagged([(k, v)] + es) <==> EndTagged(v) && AllEndTagged(es)
  {
    FindCons(k, v, es);
    ConsFine(k, v, es, 4);
  }

  lemma FieldsAreFine(s: Section)
    ensures s.Sized() ==>
      Fine(Num(KByte, s.y), 4) && Fine(ByteArray(s.blocks), 4) && Fine(ByteArray(s.data), 4)
      && Fine(ByteArray(s.add), 4) && Fine(ByteArray(s.blockLight), 4) && Fine(ByteArray(s.skyLight), 4)
  {
    RadixValues();
  }

  lemma SectionReadsBack(s: Section)
    requires s.Sized() && s.y < 16
    ensures ReadSection(SectionVal(s)) == Some(Loaded(s))
    ensures Fine(SectionVal(s), 3) && EndTagged(SectionVal(s)) && SectionVal(s).TypeId() == COMPOUND
  {
    hide Child, SectionVal, AnyNonZero, Shaped, WithinDepth, EndTagged;
    SectionChildren(s);
    AllZeroAdd(s.add);
  }

  lemma SectionChildren(s: Section)
    requires s.Sized()
    ensures var v := SectionVal(s);
      && Child(v, Y) == Some(Num(KByte, s.y)) && Child(v, BlockIds) == Some(ByteArray(s.blocks))
      && Child(v, Data) == Some(ByteArray(s.data))
      && Child(v, Add) == (if WritesAdd(s) then Some(ByteArray(s.add)) else None)
      && Child(v, BlockLight) == Some(ByteArray(s.blockLight)) && Child(v, SkyLight) == Some(ByteArray(s.skyLight))
      && Fine(v, 3) && EndTagged(v) && v.TypeId() == COMPOUND
  {
    hide Find, SectionEntries, Tagged, NameOf, Get, WritesAdd, AllFine, AllEndTagged, Fine, EndTagged;
    var es := SectionEntries(s);
    SectionFinds(s);
    ChildIsFind(es, Y);
    ChildIsFind(es, BlockIds);
    ChildIsFind(es, Data);
    ChildIsFind(es, Add);
    ChildIsFind(es, BlockLight);
    ChildIsFind(es, SkyLight);
    CompoundIsFine(es, 3);
  }

  lemma ChildIsFind(es: Entries, k: Key)
    ensures Child(Compound(Tagged(es)), k) == Find(es, k)
  {
    GetIsFind(es, k);
  }

  lemma AllZeroAdd(a: bytes)
    ensures !AnyNonZero(a) ==> a == Zeros(|a|)
  {
    if !AnyNonZero(a) {
      assert forall i | 0 <= i < |a| :: a[i] == 0;
    }
  }

  predicate Placed(ss: seq<Option<Section>>) {
    forall i | 0 <= i < |ss| :: ss[i].Some? ==> ss[i].value.Sized() && ss[i].value.y == i
  }

  function LoadedAll(ss: seq<Option<Section>>): (r: seq<Option<Section>>)
    ensures |r| == |ss| && forall i | 0 <= i < |ss| :: r[i] == LoadedMaybe(ss[i])
  {
    seq(|ss|, i requires 0 <= i < |ss| => LoadedMaybe(ss[i]))
  }

  function LoadedMaybe(s: Option<Section>): Option<Section> {
    match s case None => None case Some(t) => Some(Loaded(t))
  }

  lemma {:induction false} SectionsReadBack(ss: seq<Option<Section>>, done: seq<Option<Section>>, i: nat)
    requires |ss| == |done| == SECTIONS && i <= SECTIONS && Placed(ss)
    requires (forall j | 0 <= j < i :: done[j] == LoadedMaybe(ss[j]))
    requires (forall j | i <= j < SECTIONS :: done[j] == None)
    ensures ReadSections(done, SectionVals(ss[i..])) == Some(LoadedAll(ss))
    decreases SECTIONS - i
  {
    hide ReadSection, SectionVal, Loaded;
    if i == SECTIONS {
      assert ss[i..] == [];
      assert done == LoadedAll(ss);
    } else {
      assert ss[i..][0] == ss[i] && ss[i..][1..] == ss[i + 1..];
      match ss[i]
      case None =>
        assert SectionVals(ss[i..]) == SectionVals(ss[i + 1..]);
        SectionsReadBack(ss, done, i + 1);
      case Some(s) =>
        assert SectionVals(ss[i..]) == [SectionVal(s)] + SectionVals(ss[i + 1..]);
        SectionReadsBack(s);
        LoadedKeepsHeight(s);
        SectionsReadBack(ss, done[i := Some(Loaded(s))], i + 1);
    }
  }

  lemma LoadedKeepsHeight(s: Section)
    ensures Loaded(s).y == s.y
  {
  }

  lemma {:induction false} SectionValsAreFine(ss: seq<Option<Section>>)
    requires forall i | 0 <= i < |ss| :: ss[i].Some? ==> ss[i].value.Sized() && ss[i].value.y < 16
    ensures ShapedItems(COMPOUND, SectionVals(ss)) && WithinDepthItems(SectionVals(ss), 3)
    ensures EndTaggedItems(SectionVals(ss))
    ensures |SectionVals(ss)| <= |ss|
  {
    hide SectionVal, Shaped, WithinDepth, EndTagged;
    if |ss| > 0 {
      SectionValsAreFine(ss[1..]);
      match ss[0]
      case None => assert SectionVals(ss) == SectionVals(ss[1..]);
      case Some(s) =>
        SectionReadsBack(s);
        assert SectionVals(ss)[1..] == SectionVals(ss[1..]);
    }
  }

  lemma SectionListReadsBack(ss: seq<Option<Section>>)
    requires |ss| == SECTIONS && Placed(ss)
    ensures Fine(SectionList(ss), 2) && EndTagged(SectionList(ss))
    ensures SectionsOf(Some(SectionList(ss))) == Some(LoadedAll(ss))
  {
    hide SectionVals, ReadSections, LoadedAll, ShapedItems, WithinDepthItems, EndTaggedItems;
    SectionValsAreFine(ss);
    SectionsReadBack(ss, NoSections(), 0);
    assert ss[0..] == ss;
    if SectionVals(ss) == [] {
      NoItemsFitAnyType(SectionVals(ss));
    }
  }

  // ---------------------------------------------------------------- the level compound

  predicate StorableList(v: Val) {
    CompoundList(v) && Fine(v, 2)
  }

  /** What the byte form can hold: coordinates of 32 bits, times of 64, sections at their own heights, and
      well-formed lists of compounds. */
  predicate Storable(c: Chunk) {
    && c.Sized() && Placed(c.sections) && IsI32(c.x) && IsI32(c.z)
    && c.lastUpdate < Radix(8) && c.inhabitedTime < Radix(8)
    && StorableList(c.entities) && StorableList(c.tileEntities)
    && (c.tileTicks.Some? ==> StorableList(c.tileTicks.value))
  }

  function BiomesVal(c: Chunk): Option<Val> {
    if c.hasBiomes then Some(ByteArray(c.biomes)) else None
  }

  /** The level compound with the chunk's own lists. */
  function LevelOf(c: Chunk): Entries {
    LevelEntries(c, c.entities, c.tileEntities, c.tileTicks)
  }

  function Entry(c: Chunk, k: Key): Option<Val> {
    match k
    case V => Some(Num(KByte, 1))
    case XPos => Some(Num(KInt, Bits32(c.x)))
    case ZPos => Some(Num(KInt, Bits32(c.z)))
    case LastUpdate => Some(Num(KLong, c.lastUpdate))
    case HeightMap => Some(IntArray(c.heightmap))
    case TerrainPopulated => Some(Flag(c.terrainPopulated))
    case LightPopulated => Some(Flag(c.lightPopulated))
    case InhabitedTime => Some(Num(KLong, c.inhabitedTime))
    case Sections => Some(SectionList(c.sections))
    case Biomes => BiomesVal(c)
    case Entities => Some(c.entities)
    case TileEntities => Some(c.tileEntities)
    case TileTicks => c.tileTicks
    case _ => None
  }

  lemma LevelStep(k: Key, v: Val, es: Entries)
    ensures forall q :: Find([(k, v)] + es, q) == if q == k then Some(v) else Find(es, q)
    ensures AllFine([(k, v)] + es, 2) <==> Fine(v, 2) && AllFine(es, 2)
  {
    FindCons(k, v, es);
    ConsFine(k, v, es, 2);
  }

  lemma LevelFinds(c: Chunk, k: Key)
    ensures Find(LevelOf(c), k) == Entry(c, k)
    ensures (forall q :: Entry(c, q).Some? ==> Fine(Entry(c, q).value, 2)) ==> AllFine(LevelOf(c), 2)
  {
    hide Find, AllFine, Fine, SectionList, Bits32, Flag, Maybe;
    Nothing();
    var none: Entries := [];
    var e0 := Maybe(TileTicks, c.tileTicks) + none;
    MaybeCons(TileTicks, c.tileTicks, none, 2);
    var e1 := [(TileEntities, c.tileEntities)] + e0;
    LevelStep(TileEntities, c.tileEntities, e0);
    var e2 := [(Entities, c.entities)] + e1;
    LevelStep(Entities, c.entities, e1);
    var e3 := Maybe(Biomes, BiomesVal(c)) + e2;
    MaybeCons(Biomes, BiomesVal(c), e2, 2);
    LevelTop(c, e3);
    assert LevelOf(c) == TopOf(c, e3);
    assert Entry(c, Entities) == Some(c.entities) && Entry(c, TileEntities) == Some(c.tileEntities);
    assert Entry(c, Biomes) == BiomesVal(c) && Entry(c, TileTicks) == c.tileTicks;
  }

  lemma Nothing()
    ensures forall q :: Find([], q) == None
    ensures AllFine([], 2)
  {
  }

  /** The nine entries every level has first. */
  function TopOf(c: Chunk, rest: Entries): Entries {
    [(V, Num(KByte, 1))] + ([(XPos, Num(KInt, Bits32(c.x)))] + ([(ZPos, Num(KInt, Bits32(c.z)))]
    + ([(LastUpdate, Num(KLong, c.lastUpdate))] + ([(HeightMap, IntArray(c.heightmap))]
    + ([(TerrainPopulated, Flag(c.terrainPopulated))] + ([(LightPopulated, Flag(c.lightPopulated))]
    + ([(InhabitedTime, Num(KLong, c.inhabitedTime))] + ([(Sections, SectionList(c.sections))] + rest))))))))
  }

  predicate TopKey(k: Key) {
    k.V? || k.XPos? || k.ZPos? || k.LastUpdate? || k.HeightMap?
      || k.TerrainPopulated? || k.LightPopulated? || k.InhabitedTime? || k.Sections?
  }

  function LowerTop(c: Chunk, rest: Entries): Entries {
    [(TerrainPopulated, Flag(c.terrainPopulated))] + ([(LightPopulated, Flag(c.lightPopulated))]
    + ([(InhabitedTime, Num(KLong, c.inhabitedTime))] + ([(Sections, SectionList(c.sections))] + rest)))
  }

  predicate LowerKey(k: Key) {
    k.TerrainPopulated? || k.LightPopulated? || k.InhabitedTime? || k.Sections?
  }

  lemma LevelLowerTop(c: Chunk, rest: Entries)
    ensures forall q :: Find(LowerTop(c, rest), q) == if LowerKey(q) then Entry(c, q) else Find(rest, q)
    ensures (forall q :: LowerKey(q) ==> Fine(Entry(c, q).value, 2)) && AllFine(rest, 2) ==>
      AllFine(LowerTop(c, rest), 2)
  {
    hide Find, AllFine, Fine, SectionList, Flag;
    var e1 := [(Sections, SectionList(c.sections))] + rest;
    LevelStep(Sections, SectionList(c.sections), rest);
    var e2 := [(InhabitedTime, Num(KLong, c.inhabitedTime))] + e1;
    LevelStep(InhabitedTime, Num(KLong, c.inhabitedTime), e1);
    var e3 := [(LightPopulated, Flag(c.lightPopulated))] + e2;
    LevelStep(LightPopulated, Flag(c.lightPopulated), e2);
    LevelStep(TerrainPopulated, Flag(c.terrainPopulated), e3);
    if forall q :: LowerKey(q) ==> Fine(Entry(c, q).value, 2) {
      assert Fine(Entry(c, TerrainPopulated).value, 2) && Fine(Entry(c, LightPopulated).value, 2);
      assert Fine(Entry(c, InhabitedTime).value, 2) && Fine(Entry(c, Sections).value, 2);
    }
  }

  lemma LevelTop(c: Chunk, rest: Entries)
    ensures forall q :: Find(TopOf(c, rest), q) == if TopKey(q) then Entry(c, q) else Find(rest, q)
    ensures (forall q :: TopKey(q) ==> Fine(Entry(c, q).value, 2)) && AllFine(rest, 2) ==> AllFine(TopOf(c, rest), 2)
  {
    hide Find, AllFine, Fine, SectionList, Bits32, Flag;
    var e4 := LowerTop(c, rest);
    LevelLowerTop(c, rest);
    var e5 := [(HeightMap, IntArray(c.heightmap))] + e4;
    LevelStep(HeightMap, IntArray(c.heightmap), e4);
    var e6 := [(LastUpdate, Num(KLong, c.lastUpdate))] + e5;
    LevelStep(LastUpdate, Num(KLong, c.lastUpdate), e5);
    var e7 := [(ZPos, Num(KInt, Bits32(c.z)))] + e6;
    LevelStep(ZPos, Num(KInt, Bits32(c.z)), e6);
    var e8 := [(XPos, Num(KInt, Bits32(c.x)))] + e7;
    LevelStep(XPos, Num(KInt, Bits32(c.x)), e7);
    LevelStep(V, Num(KByte, 1), e8);
    if forall q :: TopKey(q) ==> Fine(Entry(c, q).value, 2) {
      forall q ensures LowerKey(q) ==> Fine(Entry(c, q).value, 2) {
        assert LowerKey(q) ==> TopKey(q);
      }
      assert Fine(Entry(c, V).value, 2) && Fine(Entry(c, XPos).value, 2) && Fine(Entry(c, ZPos).value, 2);
      assert Fine(Entry(c, LastUpdate).value, 2) && Fine(Entry(c, HeightMap).value, 2);
    }
  }

  lemma EntryIsFine(c: Chunk, k: Key)
    requires Storable(c)
    ensures Entry(c, k).Some? ==> Fine(Entry(c, k).value, 2)
    ensures k != Entities && k != TileEntities && k != TileTicks && Entry(c, k).Some? ==> EndTagged(Entry(c, k).value)
  {
    hide SectionList;
    RadixValues();
    SectionListReadsBack(c.sections);
  }

  // ---------------------------------------------------------------- the round trip

  function RetagMaybe(v: Option<Val>): Option<Val> {
    match v case None => None case Some(w) => Some(Retag(w))
  }

  /** The chunk that comes back: as it was, except that unflagged non-zero Add arrays are flagged, empty
      lists are tagged END, and biomes it does not have are left as the target's. */
  function Returned(c: Chunk, target: Chunk): Chunk {
    c.(sections := LoadedAll(c.sections), biomes := if c.hasBiomes then c.biomes else target.biomes,
       entities := Retag(c.entities), tileEntities := Retag(c.tileEntities), tileTicks := RetagMaybe(c.tileTicks))
  }

  lemma ChildOfRetag(es: Entries, k: Key)
    ensures Child(Retag(Compound(Tagged(es))), k) == RetagMaybe(Find(es, k))
  {
    hide NameOf, Tagged, Find;
    GetOfRetag(Tagged(es), NameOf(k));
    GetIsFind(es, k);
  }

  /** What the reader finds under k in the level that was written. */
  lemma LevelChild(c: Chunk, k: Key)
    requires Storable(c)
    ensures Child(Retag(Compound(Tagged(LevelOf(c)))), k)
         == if k == Entities || k == TileEntities || k == TileTicks then RetagMaybe(Entry(c, k)) else Entry(c, k)
  {
    hide LevelOf, Entry, Child, Retag, Tagged, Find, Storable, Fine;
    ChildOfRetag(LevelOf(c), k);
    LevelFinds(c, k);
    EntryIsFine(c, k);
    if Entry(c, k).Some? {
      FineRetag(Entry(c, k).value);
    }
  }

  lemma FineRetag(v: Val)
    ensures Fine(v, 2) ==> (EndTagged(v) <==> Retag(v) == v)
  {
    if Fine(v, 2) {
      RetagKeepsShape(v, 2);
    }
  }

  lemma CompoundListRetag(v: Val)
    requires CompoundList(v)
    ensures CompoundList(Retag(v))
  {
  }

  function Written(c: Chunk): Val {
    Retag(Compound(Tagged(LevelOf(c))))
  }

  lemma LevelChildren(c: Chunk)
    requires Storable(c)
    ensures var l := Written(c);
      && Child(l, XPos) == Some(Num(KInt, Bits32(c.x))) && Child(l, ZPos) == Some(Num(KInt, Bits32(c.z)))
      && Child(l, LastUpdate) == Some(Num(KLong, c.lastUpdate))
      && Child(l, InhabitedTime) == Some(Num(KLong, c.inhabitedTime))
      && Child(l, HeightMap) == Some(IntArray(c.heightmap)) && Child(l, Sections) == Some(SectionList(c.sections))
      && Child(l, TerrainPopulated) == Some(Flag(c.terrainPopulated))
      && Child(l, LightPopulated) == Some(Flag(c.lightPopulated))
      && Child(l, Biomes) == BiomesVal(c) && Child(l, TileTicks) == RetagMaybe(c.tileTicks)
      && Child(l, Entities) == Some(Retag(c.entities)) && Child(l, TileEntities) == Some(Retag(c.tileEntities))
  {
    hide LevelOf, Child, Retag, Tagged, SectionList, Storable, Bits32, Flag, BiomesVal;
    LevelChild(c, XPos);
    LevelChild(c, ZPos);
    LevelChild(c, LastUpdate);
    LevelChild(c, InhabitedTime);
    LevelChild(c, HeightMap);
    LevelChild(c, Sections);
    LevelChild(c, TerrainPopulated);
    LevelChild(c, LightPopulated);
    LevelChild(c, Biomes);
    LevelChild(c, TileTicks);
    LevelChild(c, Entities);
    LevelChild(c, TileEntities);
  }

  lemma LevelReadsBack(c: Chunk, target: Chunk)
    requires Storable(c) && target.Sized()
    ensures FromLevel(target, Written(c)) == Some(Returned(c, target))
  {
    hide Written, Child, Retag, SectionList, SectionsOf, LoadedAll, Fine, Placed, CompoundList;
    LevelChildren(c);
    SectionListReadsBack(c.sections);
    I32Back(c.x, target.x);
    I32Back(c.z, target.z);
    CompoundListRetag(c.entities);
    CompoundListRetag(c.tileEntities);
    if c.tileTicks.Some? {
      CompoundListRetag(c.tileTicks.value);
    }
  }

  lemma I32Back(v: int, was: int)
    requires IsI32(v)
    ensures IntOr(Some(Num(KInt, Bits32(v))), was) == Some(v)
  {
  }

  lemma ClonesAreTheSame(c: Chunk)
    requires Storable(c)
    ensures ToRoot(c) == Some(RootOf(LevelOf(c)))
  {
    hide Shaped, WithinDepth, LevelEntries, RootOf;
    FineIsCoherent(c.entities);
    FineIsCoherent(c.tileEntities);
    if c.tileTicks.Some? {
      FineIsCoherent(c.tileTicks.value);
    }
  }

  lemma FineIsCoherent(v: Val)
    ensures Fine(v, 2) ==> Clone(v) == Some(v)
  {
    if Fine(v, 2) {
      ShapedIsCoherent(v);
      CloneIsTheSame(v);
    }
  }

  lemma {:induction false} ShapedIsCoherent(v: Val)
    requires Shaped(v)
    ensures Coherent(v) && v.TypeId() != END
    decreases v
  {
    match v
    case List(elem, items) => ShapedItemsAreCoherent(elem, items);
    case Compound(fields) => ShapedFieldsAreCoherent(fields);
    case _ =>
  }

  lemma {:induction false} ShapedItemsAreCoherent(elem: Id, items: seq<Val>)
    requires ShapedItems(elem, items)
    ensures CoherentItems(elem, items)
    decreases items
  {
    if |items| > 0 {
      ShapedIsCoherent(items[0]);
      ShapedItemsAreCoherent(elem, items[1..]);
    }
  }

  lemma {:induction false} ShapedFieldsAreCoherent(fields: seq<Tag>)
    requires ShapedFields(fields)
    ensures CoherentFields(fields)
    decreases fields
  {
    if |fields| > 0 {
      ShapedTagIsCoherent(fields[0]);
      ShapedFieldsAreCoherent(fields[1..]);
    }
  }

  lemma {:induction false} ShapedTagIsCoherent(t: Tag)
    requires ShapedTag(t)
    ensures CoherentTag(t)
    decreases t
  {
    ShapedIsCoherent(t.v);
  }

  lemma RootIsFine(c: Chunk)
    requires Storable(c)
    ensures Fine(RootOf(LevelOf(c)).v, 0)
  {
    hide LevelOf, Shaped, WithinDepth, Tagged, NameOf, Storable, Entry;
    forall q ensures Entry(c, q).Some? ==> Fine(Entry(c, q).value, 2) {
      EntryIsFine(c, q);
    }
    LevelFinds(c, V);
    CompoundIsFine(LevelOf(c), 1);
    var level := Compound(Tagged(LevelOf(c)));
    var es := [(Level, level)] + [];
    ConsFine(Level, level, [], 1);
    CompoundIsFine(es, 0);
    OneTagged(level);
  }

  lemma OneTagged(v: Val)
    ensures Tagged([(Level, v)] + []) == [Tag(NameOf(Level), v)]
  {
    assert ([(Level, v)] + [])[1..] == [];
  }

  lemma RootChild(level: Val)
    ensures var root := Retag(Compound([Tag(NameOf(Level), level)]));
      root.Compound? && Child(root, Level) == Some(Retag(level))
  {
    hide NameOf, Find;
    OneTagged(level);
    ChildOfRetag([(Level, level)] + [], Level);
    FindCons(Level, level, []);
  }

  /** The reader's budget covers the chunk's tree. */
  predicate Affordable(c: Chunk) {
    BillRoot(RootOf(LevelOf(c))).Need() <= DEFAULT_BUDGET
  }

  /** A chunk, written to NBT bytes with anything after them, is read into any other chunk exactly when
      the budget covers it, and then as Returned says. */
  lemma ChunkSurvivesNbt(c: Chunk, target: Chunk, x: bytes)
    requires Storable(c) && target.Sized()
    ensures Affordable(c) ==> ToNbt(c).Some?
    ensures ToNbt(c).Some? ==>
      FromNbt(target, ToNbt(c).value + x) == if Affordable(c) then Some(Returned(c, target)) else None
  {
    hide LevelOf, SerVal, BillVal, Parse, Child, Retag, Tagged, NameOf, Storable, Returned, FromLevel, LoadedAll;
    var t := RootOf(LevelOf(c));
    ClonesAreTheSame(c);
    RootIsFine(c);
    ParseOfAnyTree(t, x, DEFAULT_BUDGET);
    ParseDefault(SerTag(t) + x);
    if Affordable(c) {
      SizeWithinBudget(t, x);
    }
    RootChild(Compound(Tagged(LevelOf(c))));
    LevelReadsBack(c, target);
    CompoundStaysCompound(Tagged(LevelOf(c)));
  }

  lemma CompoundStaysCompound(fields: seq<Tag>)
    ensures Retag(Compound(fields)).Compound?
  {
  }

  lemma ParseDefault(s: bytes)
    ensures Parse(s, 0) == Parse(s, DEFAULT_BUDGET)
  {
  }

  lemma SizeWithinBudget(t: Tag, x: bytes)
    requires Fine(t.v, 0) && BillRoot(t).Need() <= DEFAULT_BUDGET
    ensures |SerTag(t)| <= DEFAULT_BUDGET
  {
    hide Parse, SerTag, BillRoot, Retag, CountVal;
    ParseOfAnyTree(t, x, DEFAULT_BUDGET);
    ParseAccounts(SerTag(t) + x, DEFAULT_BUDGET);
    RetagIsWrittenAlike(t.v);
  }

  /** Add arrays clear or flagged, biomes present or the target's, empty lists tagged END. */
  predicate ComesBackWhole(c: Chunk, target: Chunk) {
    && c.Good() && (c.hasBiomes || c.biomes == target.biomes)
    && EndTagged(c.entities) && EndTagged(c.tileEntities) && (c.tileTicks.Some? ==> EndTagged(c.tileTicks.value))
  }

  /** When what comes back is the chunk itself. */
  lemma ReturnedIsTheSame(c: Chunk, target: Chunk)
    requires Storable(c) && target.Sized()
    ensures Returned(c, target) == c <==> ComesBackWhole(c, target)
  {
    hide Retag, EndTagged, Shaped, WithinDepth, WritesAdd, AddClear;
    FineRetag(c.entities);
    FineRetag(c.tileEntities);
    if c.tileTicks.Some? {
      FineRetag(c.tileTicks.value);
    }
    forall i | 0 <= i < SECTIONS && c.sections[i].Some?
      ensures LoadedMaybe(c.sections[i]) == c.sections[i] <==> AddClear(c.sections[i].value)
    {
      LoadedIsSame(c.sections[i].value);
    }
    assert LoadedAll(c.sections) == c.sections <==>
      forall i | 0 <= i < SECTIONS :: LoadedMaybe(c.sections[i]) == c.sections[i];
  }
}
