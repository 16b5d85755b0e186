/** Chunks and the world's chunk table as objects that blocks are written into. */
module ChunkStore {
  import opened Bytes
  import opened Coordinates
  import opened Nbt
  import opened Blocks
  import opened Wire
  import opened NbtEqual
  import opened ChunkNbt
  import opened SectionStore

  class Column {
    var x: int
    var z: int
    var lastUpdate: nat
    var inhabitedTime: nat
    var heightmap: seq<u32>
    var terrainPopulated: bool
    var lightPopulated: bool
    var hasBiomes: bool
    var biomes: bytes
    var entities: Val
    var tileEntities: Val
    var tileTicks: Option<Val>
    const sections: array<Cells?>
    ghost var contents: seq<Option<Section>>
    ghost var repr: set<object>

    /** Section i, if there is one, is this chunk's own and holds contents[i]. */
    ghost predicate Holds(i: nat)
      requires sections.Length == SECTIONS && i < SECTIONS && |contents| == SECTIONS
      reads this`contents, this`repr, sections, repr - {this}
    {
      var s := sections[i];
      if s == null then contents[i] == None
      else
        && s.Foot() <= repr && this !in s.Foot() && sections !in s.Foot()
        && s.Valid() && s in repr && s.blocks in repr && s.data in repr
        && s.add in repr && s.blockLight in repr && s.skyLight in repr
        && contents[i] == Some(s.Value())
    }

    ghost predicate Valid()
      reads this, repr
    {
      && this in repr && sections in repr
      && sections.Length == SECTIONS && |contents| == SECTIONS && |biomes| == 256 && |heightmap| == 256
      && (forall i | 0 <= i < SECTIONS :: Holds(i))
      && (forall i, j | 0 <= i < j < SECTIONS && sections[i] != null && sections[j] != null ::
           sections[i].Foot() !! sections[j].Foot())
    }

    ghost function Value(): Chunk
      reads this
    {
      Chunk(x, z, lastUpdate, inhabitedTime, heightmap, terrainPopulated,
        lightPopulated, contents, hasBiomes, biomes, entities, tileEntities, tileTicks)
    }

    lemma ValueIsSized()
      requires Valid()
      ensures Value().Sized()
    {
      forall i | 0 <= i < SECTIONS && contents[i].Some? ensures contents[i].value.Sized() {
        assert Holds(i);
      }
    }

    /** ChunkCreate. */
    constructor (x: int, z: int)
      ensures Valid() && fresh(repr) && Bare(Value()) && Value().x == x && Value().z == z
    {
      this.x, this.z := x, z;
      lastUpdate, inhabitedTime, terrainPopulated, lightPopulated, hasBiomes := 0, 0, false, false, false;
      heightmap, biomes := seq(256, _ => 0), seq(256, _ => 0);
      entities, tileEntities, tileTicks := List(END, []), List(END, []), None;
      sections := new Cells?[SECTIONS](_ => null);
      contents := seq(SECTIONS, _ => None);
      new;
      repr := {this, sections};
    }

    /** FreeSections. */
    method ClearSections()
      requires Valid()
      modifies this`contents, sections
      ensures Valid() && Value() == old(Value()).(sections := NoSections())
    {
      var i := 0;
      while i < SECTIONS
        invariant i <= SECTIONS && forall j | 0 <= j < i :: sections[j] == null
      {
        sections[i] := null;
        i := i + 1;
      }
      contents := NoSections();
    }

    /** Puts a new section in, in place of the one at its height. */
    method InstallSection(s: Section)
      requires Valid() && s.Sized() && s.y < SECTIONS
      modifies this`contents, this`repr, sections
      ensures Valid() && fresh(repr - old(repr))
      ensures Value() == old(Value()).(sections := old(contents)[s.y := Some(s)])
    {
      var c := new Cells.Of(s);
      sections[s.y] := c;
      contents := contents[s.y := Some(s)];
      repr := repr + c.Foot();
      forall j | 0 <= j < SECTIONS ensures Holds(j) {
        assert j != s.y ==> old(Holds(j));
      }
      forall j | 0 <= j < SECTIONS && j != s.y && sections[j] != null ensures sections[j].Foot() !! c.Foot() {
        assert old(Holds(j));
      }
    }

    /** The section loop of ChunkFromRoot. */
    method LoadSections(items: seq<Val>) returns (ok: bool)
      requires Valid()
      modifies this`contents, this`repr, sections
      ensures Valid() && fresh(repr - old(repr)) && Value() == old(Value()).(sections := contents)
      ensures var r := ReadSections(old(contents), items); ok == r.Some? && (ok ==> contents == r.value)
    {
      hide ReadSection;
      var i := 0;
      ghost var goal := ReadSections(contents, items);
      assert items[0..] == items;
      while i < |items|
        invariant i <= |items| && Valid() && fresh(repr - old(repr)) && Value() == old(Value()).(sections := contents)
        invariant ReadSections(contents, items[i..]) == goal
      {
        assert items[i..][0] == items[i] && items[i..][1..] == items[i + 1..];
        var s := ReadSection(items[i]);
        if s.None? {
          return false;
        }
        InstallSection(s.value);
        i := i + 1;
      }
      ok := true;
    }

    method SetPlace(cx: int, cz: int, lu: nat, it: nat)
      requires Valid()
      modifies this`x, this`z, this`lastUpdate, this`inhabitedTime
      ensures Valid() && Value() == old(Value()).(x := cx, z := cz, lastUpdate := lu, inhabitedTime := it)
    {
      x, z, lastUpdate, inhabitedTime := cx, cz, lu, it;
    }

    method SetSurface(hm: seq<u32>, tp: bool, lp: bool)
      requires Valid() && |hm| == 256
      modifies this`heightmap, this`terrainPopulated, this`lightPopulated
      ensures Valid() && Value() == old(Value()).(heightmap := hm, terrainPopulated := tp, lightPopulated := lp)
    {
      heightmap, terrainPopulated, lightPopulated := hm, tp, lp;
    }

    method SetRest(hb: bool, bi: bytes, ents: Val, tiles: Val, ticks: Option<Val>)
      requires Valid() && |bi| == 256
      modifies this`hasBiomes, this`biomes, this`entities, this`tileEntities, this`tileTicks
      ensures Valid()
      ensures Value() ==
        old(Value()).(hasBiomes := hb, biomes := bi, entities := ents, tileEntities := tiles, tileTicks := ticks)
    {
      hasBiomes, biomes, entities, tileEntities, tileTicks := hb, bi, ents, tiles, ticks;
    }

    /** ChunkFromRoot up to the sections. */
    method LoadScalars(level: Val) returns (ok: bool)
      requires Valid()
      modifies repr
      ensures Valid() && repr == old(repr)
      ensures var cx, cz := IntOr(Child(level, XPos), old(x)), IntOr(Child(level, ZPos), old(z));
        var hm, tp, lp := HeightsOf(Child(level, HeightMap)),
          FlagOf(Child(level, TerrainPopulated)), FlagOf(Child(level, LightPopulated));
        && ok == (cx.Some? && cz.Some? && hm.Some? && tp.Some? && lp.Some?)
        && (ok ==> Value() == old(Value()).(x := cx.value, z := cz.value, sections := NoSections(),
              lastUpdate := LongOr(Child(level, LastUpdate), old(lastUpdate)),
              inhabitedTime := LongOr(Child(level, InhabitedTime), old(inhabitedTime)),
              heightmap := hm.value, terrainPopulated := tp.value, lightPopulated := lp.value))
    {
      hide Child, IntOr, LongOr, HeightsOf, FlagOf;
      var cx, cz := IntOr(Child(level, XPos), x), IntOr(Child(level, ZPos), z);
      if cx.None? || cz.None? {
        return false;
      }
      ClearSections();
      SetPlace(cx.value, cz.value, LongOr(Child(level, LastUpdate), lastUpdate),
        LongOr(Child(level, InhabitedTime), inhabitedTime));
      var hm, tp, lp := HeightsOf(Child(level, HeightMap)),
        FlagOf(Child(level, TerrainPopulated)), FlagOf(Child(level, LightPopulated));
      if hm.None? || tp.None? || lp.None? {
        return false;
      }
      SetSurface(hm.value, tp.value, lp.value);
      ok := true;
    }

    /** ChunkFromRoot after the sections. */
    method LoadRest(level: Val) returns (ok: bool)
      requires Valid()
      modifies repr
      ensures Valid() && repr == old(repr)
      ensures var bi := Child(level, Biomes);
        var ents, tiles, ticks :=
          ListOr(Child(level, Entities)), ListOr(Child(level, TileEntities)), Child(level, TileTicks);
        && ok == ((bi.None? || Array(bi, 256).Some?) && CompoundList(ents) && CompoundList(tiles)
                  && (ticks.None? || CompoundList(ticks.value)))
        && (ok ==> Value() == old(Value()).(
              hasBiomes := bi.Some?, biomes := if bi.Some? then Array(bi, 256).value else old(biomes),
              entities := ents, tileEntities := tiles, tileTicks := ticks))
    {
      hide Child, ListOr, CompoundList;
      var bi := Child(level, Biomes);
      if bi.Some? && Array(bi, 256).None? {
        return false;
      }
      var ents, tiles, ticks :=
        ListOr(Child(level, Entities)), ListOr(Child(level, TileEntities)), Child(level, TileTicks);
      if !CompoundList(ents) || !CompoundList(tiles) || (ticks.Some? && !CompoundList(ticks.value)) {
        return false;
      }
      SetRest(bi.Some?, if bi.Some? then Array(bi, 256).value else biomes, ents, tiles, ticks);
      ok := true;
    }

    /** ChunkFromRoot on the level compound; where it fails, what it has stored so far stays. */
    method LoadLevel(level: Val) returns (ok: bool)
      requires Valid()
      modifies repr
      ensures Valid() && fresh(repr - old(repr)) && old(Value()).Sized()
      ensures var r := FromLevel(old(Value()), level); ok == r.Some? && (ok ==> Value() == r.value)
    {
      hide Child, IntOr, LongOr, HeightsOf, FlagOf, ListOr, CompoundList, ReadSections, Array, NoSections, ItemsOf;
      ValueIsSized();
      ok := LoadScalars(level);
      if !ok {
        return;
      }
      var secs := Child(level, Sections);
      if secs.None? || !CompoundList(secs.value) {
        return false;
      }
      ok := LoadSections(ItemsOf(secs.value));
      if !ok {
        return;
      }
      ok := LoadRest(level);
    }

    method ChunkFromRoot(t: Tag) returns (ok: bool)
      requires Valid()
      modifies repr
      ensures Valid() && fresh(repr - old(repr)) && old(Value()).Sized()
      ensures var r := FromRoot(old(Value()), t); ok == r.Some? && (ok ==> Value() == r.value)
    {
      hide Child, FromLevel;
      ValueIsSized();
      var level := Child(t.v, Level);
      if level.None? || !level.value.Compound? {
        return false;
      }
      ok := LoadLevel(level.value);
    }

    /** The section list of ChunkToRoot. */
    method WrittenSections() returns (vs: seq<Val>)
      requires Valid()
      ensures vs == SectionVals(contents)
    {
      hide SectionVal;
      vs := [];
      var i := 0;
      assert contents[0..] == contents;
      while i < SECTIONS
        invariant i <= SECTIONS && vs + SectionVals(contents[i..]) == SectionVals(contents)
      {
        assert Holds(i);
        assert contents[i..][0] == contents[i] && contents[i..][1..] == contents[i + 1..];
        if sections[i] != null {
          var v := sections[i].Written();
          vs := vs + [v];
        }
        i := i + 1;
      }
      assert contents[SECTIONS..] == [];
      assert vs + [] == vs;
    }

    /** ChunkToRoot. */
    method WriteRoot() returns (t: Option<Tag>)
      requires Valid()
      ensures t == ToRoot(Value())
    {
      hide SectionVals, Tagged, NameOf, Clone;
      var vs := WrittenSections();
      var secs := List(if vs == [] then END else COMPOUND, vs);
      var e, te, tt := Clone(entities), Clone(tileEntities), CloneMaybe(tileTicks);
      if e.None? || te.None? || tt.None? {
        return None;
      }
      var lists := Maybe(Biomes, if hasBiomes then Some(ByteArray(biomes)) else None)
        + ([(Entities, e.value)] + ([(TileEntities, te.value)] + (Maybe(TileTicks, tt.value) + [])));
      var level := [(V, Num(KByte, 1))] + ([(XPos, Num(KInt, Bits32(x)))] + ([(ZPos, Num(KInt, Bits32(z)))]
        + ([(LastUpdate, Num(KLong, lastUpdate))] + ([(HeightMap, IntArray(heightmap))]
        + ([(TerrainPopulated, Flag(terrainPopulated))] + ([(LightPopulated, Flag(lightPopulated))]
        + ([(InhabitedTime, Num(KLong, inhabitedTime))] + ([(Sections, secs)] + lists))))))));
      t := Some(RootOf(level));
    }

    /** BlockGet. */
    method Get(bx: int, y: int, bz: int) returns (r: Option<(nat, nat)>)
      requires Valid()
      ensures Value().Sized() && r == BlockGet(Value(), bx, y, bz)
    {
      hide IdAt, MetaAt, BlockIndex;
      ValueIsSized();
      if bx < 0 || bx > 15 || bz < 0 || bz > 15 || y < 0 || y > 255 {
        return None;
      }
      assert Holds(y / 16);
      var s := sections[y / 16];
      if s == null {
        return Some((0, 0));
      }
      var id, meta := s.Get(Cell(bx, y, bz));
      r := Some((id, meta));
    }

    /** Puts a new, empty section at height i. */
    method AddSection(i: nat)
      requires Valid() && i < SECTIONS && sections[i] == null
      modifies this`contents, this`repr, sections
      ensures Valid() && fresh(repr - old(repr)) && sections[i] != null
      ensures contents == old(contents)[i := Some(EmptySection(i))]
      ensures fresh(sections[i])
    {
      hide EmptySection;
      var s := new Cells(i);
      sections[i] := s;
      contents := contents[i := Some(s.Value())];
      repr := repr + s.Foot();
      forall j | 0 <= j < SECTIONS ensures Holds(j) {
        assert old(Holds(j));
      }
      forall j | 0 <= j < SECTIONS && j != i && sections[j] != null ensures sections[j].Foot() !! s.Foot() {
        assert old(Holds(j));
      }
    }

    /** The section at height i now holds v; all others are as they were. */
    ghost method Note(i: nat, v: Section)
      requires this in repr && sections in repr && sections.Length == SECTIONS && |contents| == SECTIONS
      requires |biomes| == 256 && |heightmap| == 256
      requires i < SECTIONS && sections[i] != null
      requires forall j | 0 <= j < SECTIONS && j != i :: Holds(j)
      requires forall j, l | 0 <= j < l < SECTIONS && sections[j] != null && sections[l] != null ::
        sections[j].Foot() !! sections[l].Foot()
      requires var s := sections[i];
        && s.Foot() <= repr && this !in s.Foot() && sections !in s.Foot()
        && s.Valid() && s in repr && s.blocks in repr && s.data in repr
        && s.add in repr && s.blockLight in repr && s.skyLight in repr
        && s.Value() == v
      modifies this`contents
      ensures Valid() && contents == old(contents)[i := Some(v)]
    {
      contents := contents[i := Some(v)];
      forall j | 0 <= j < SECTIONS ensures Holds(j) {
        assert j != i ==> old(Holds(j));
      }
    }

    /** BlockSet. */
    method Set(bx: int, y: int, bz: int, id: int, meta: int) returns (ok: bool)
      requires Valid()
      modifies repr
      ensures Valid() && fresh(repr - old(repr)) && old(Value()).Sized()
      ensures var r := BlockSet(old(Value()), bx, y, bz, id, meta);
        ok == r.Some? && Value() == if ok then r.value else old(Value())
    {
      hide SetAt, EmptySection, BlockIndex;
      ValueIsSized();
      if bx < 0 || bx > 15 || bz < 0 || bz > 15 || y < 0 || y > 255 {
        return false;
      }
      if id < 0 || id > 4095 || meta < 0 || meta > 15 {
        return false;
      }
      var i := y / 16;
      if sections[i] == null {
        AddSection(i);
      }
      PutInSection(i, Cell(bx, y, bz), id, meta);
      ok := true;
      assert old(Holds(i));
    }

    method PutInSection(i: nat, cell: nat, id: nat, meta: nat)
      requires Valid() && i < SECTIONS && sections[i] != null && cell < CELLS && id < 4096 && meta < 16
      modifies repr
      ensures Valid() && repr == old(repr) && old(contents)[i].Some? && old(contents)[i].value.Sized()
      ensures Value() ==
        old(Value()).(sections := old(contents)[i := Some(SetAt(old(contents)[i].value, cell, id, meta))])
    {
      hide SetAt;
      assert Holds(i);
      var s := sections[i];
      s.Put(cell, id, meta);
      forall j | 0 <= j < SECTIONS && j != i ensures Holds(j) {
        assert old(Holds(j));
      }
      Note(i, s.Value());
    }

    method BuildSections() returns (mask: nat, data: bytes)
      requires Valid()
      ensures Value().Sized() && mask == Mask(contents) && data == SectionsNet(contents)
    {
      hide Mask, SectionsNet, Times;
      TimesEnds(Mask(contents));
      ValueIsSized();
      var bit: nat, i := 1, 0;
      mask, data := 0, [];
      assert contents[0..] == contents;
      while i < SECTIONS
        invariant i <= SECTIONS
        invariant mask + Times(bit, Mask(contents[i..])) == Mask(contents)
        invariant data + SectionsNet(contents[i..]) == SectionsNet(contents)
      {
        assert Holds(i);
        NextInMask(contents, i, bit);
        if sections[i] != null {
          mask := mask + bit;
          var d := sections[i].Net();
          data := data + d;
        }
        bit := 2 * bit;
        i := i + 1;
      }
      NoMoreSections(contents);
      TimesEnds(bit);
      assert data + [] == data;
    }

    /** BuildChunkData. */
    method BuildData(continuous: bool) returns (p: Option<ChunkData>)
      requires Valid()
      ensures Value().Sized() && p == Build(Value(), continuous)
    {
      hide Mask, SectionsNet;
      var mask, data := BuildSections();
      if continuous {
        if !hasBiomes {
          return None;
        }
        data := data + biomes;
      }
      p := Some(ChunkData(x, z, continuous, mask, data));
      assert SectionsNet(contents) + [] == SectionsNet(contents);
    }

    /** The sections of ApplyChunkData; on failure the sections read so far stay changed. */
    method ApplySections(mask: nat, data: bytes) returns (ok: bool, off: nat)
      requires Valid()
      modifies repr
      ensures Valid() && fresh(repr - old(repr)) && old(Value()).Sized()
      ensures Value() == old(Value()).(sections := contents)
      ensures var r := ApplyFrom(old(contents), mask, data, 0);
        off <= |data| && r == Applied(ok, contents, data[off..])
    {
      hide ApplyFrom, FromNet;
      ValueIsSized();
      ghost var goal := ApplyFrom(contents, mask, data, 0);
      var m, y := mask, 0;
      off := 0;
      assert data[0..] == data;
      while y < SECTIONS
        invariant y <= SECTIONS && off <= |data| && Valid() && fresh(repr - old(repr)) && Value().Sized()
        invariant Value() == old(Value()).(sections := contents)
        invariant ApplyFrom(contents, m, data[off..], y) == goal
      {
        NextToApply(contents, m, data[off..], y);
        if m % 2 == 1 {
          if off + SECTION_BYTES > |data| {
            return false, off;
          }
          CutAt(data, off, SECTION_BYTES);
          TakeSection(y, data[off..off + SECTION_BYTES]);
          off := off + SECTION_BYTES;
          ValueIsSized();
        }
        m := m / 2;
        y := y + 1;
      }
      NoMoreToApply(contents, m, data[off..]);
      ok := true;
    }

    method TakeSection(y: nat, d: bytes)
      requires Valid() && y < SECTIONS && |d| == SECTION_BYTES && Value().Sized()
      modifies repr
      ensures Valid() && fresh(repr - old(repr))
      ensures Value() ==
        old(Value()).(sections := old(contents)[y := Some(FromNet(TargetSection(old(contents)[y], y), d))])
    {
      hide FromNet, EmptySection;
      assert Holds(y);
      if sections[y] == null {
        AddSection(y);
      }
      FillSection(y, d);
    }

    method FillSection(y: nat, d: bytes)
      requires Valid() && y < SECTIONS && sections[y] != null && |d| == SECTION_BYTES
      modifies repr
      ensures Valid() && repr == old(repr) && old(contents)[y].Some? && old(contents)[y].value.Sized()
      ensures Value() == old(Value()).(sections := old(contents)[y := Some(FromNet(old(contents)[y].value, d))])
    {
      hide FromNet;
      assert Holds(y);
      var s := sections[y];
      s.TakeNet(d);
      forall j | 0 <= j < SECTIONS && j != y ensures Holds(j) {
        assert old(Holds(j));
      }
      Note(y, s.Value());
    }

    method SetBiomes(b: bytes)
      requires Valid() && |b| == BIOME_BYTES
      modifies this`hasBiomes, this`biomes
      ensures Valid() && Value() == old(Value()).(hasBiomes := true, biomes := b)
    {
      hasBiomes, biomes := true, b;
      forall i | 0 <= i < SECTIONS ensures Holds(i) {
        assert old(Holds(i));
      }
    }

    /** ApplyChunkData. */
    method ApplyChunkData(p: ChunkData) returns (ok: bool)
      requires Valid()
      modifies repr
      ensures Valid() && fresh(repr - old(repr)) && old(Value()).Sized()
      ensures (Value(), ok) == ApplyChunk(p, old(Value()))
    {
      hide ApplyFrom;
      var off;
      ok, off := ApplySections(p.mask, p.data);
      if !ok {
        return;
      }
      if p.continuous {
        if off + BIOME_BYTES > |p.data| {
          return false;
        }
        CutAt(p.data, off, BIOME_BYTES);
        SetBiomes(p.data[off..off + BIOME_BYTES]);
        off := off + BIOME_BYTES;
      }
      if off != |p.data| {
        return false;
      }
      MoveTo(p.x, p.z);
    }

    method MoveTo(cx: int, cz: int)
      requires Valid()
      modifies this`x, this`z
      ensures Valid() && Value() == old(Value()).(x := cx, z := cz)
    {
      x, z := cx, cz;
      forall i | 0 <= i < SECTIONS ensures Holds(i) {
        assert old(Holds(i));
      }
    }
  }

  lemma CutAt(d: bytes, off: nat, n: nat)
    requires off + n <= |d|
    ensures d[off..][..n] == d[off..off + n] && d[off..][n..] == d[off + n..]
  {
  }

  function Times(a: nat, b: nat): nat {
    a * b
  }

  lemma TimesEnds(n: nat)
    ensures Times(1, n) == n && Times(n, 0) == 0
  {
  }

  lemma NextInMask(ss: seq<Option<Section>>, i: nat, bit: nat)
    requires i < |ss| && forall j | 0 <= j < |ss| :: ss[j].Some? ==> ss[j].value.Sized()
    ensures Times(bit, Mask(ss[i..])) == (if ss[i].Some? then bit else 0) + Times(2 * bit, Mask(ss[i + 1..]))
    ensures SectionsNet(ss[i..]) == MaybeNet(ss[i]) + SectionsNet(ss[i + 1..])
  {
    hide SectionNet;
    assert ss[i..][0] == ss[i] && ss[i..][1..] == ss[i + 1..];
    var m := Mask(ss[i + 1..]);
    assert bit * (2 * m) == 2 * bit * m && bit * (1 + 2 * m) == bit + 2 * bit * m;
  }

  lemma NoMoreSections(ss: seq<Option<Section>>)
    ensures ss[|ss|..] == [] && Mask(ss[|ss|..]) == 0 && SectionsNet(ss[|ss|..]) == []
  {
  }

  lemma NextToApply(ss: seq<Option<Section>>, m: nat, d: bytes, y: nat)
    requires AllSized(ss) && y < SECTIONS
    ensures ApplyFrom(ss, m, d, y) ==
      if m % 2 == 0 then ApplyFrom(ss, m / 2, d, y + 1)
      else if |d| < SECTION_BYTES then Applied(false, ss, d)
      else
        var next := ss[y := Some(FromNet(TargetSection(ss[y], y), d[..SECTION_BYTES]))];
        ApplyFrom(next, m / 2, d[SECTION_BYTES..], y + 1)
  {
    hide FromNet;
  }

  lemma NoMoreToApply(ss: seq<Option<Section>>, m: nat, d: bytes)
    requires AllSized(ss)
    ensures ApplyFrom(ss, m, d, SECTIONS) == Applied(true, ss, d)
  {
  }

  /** The world's chunk table. */
  class World {
    var chunks: map<int, Column>
    ghost var contents: Table
    ghost var repr: set<object>

    ghost predicate Valid()
      reads this, repr
    {
      && this in repr && contents.Keys == chunks.Keys
      && (forall k | k in chunks :: Owns(k))
      && (forall k, l | k in chunks && l in chunks && k != l :: chunks[k].repr !! chunks[l].repr)
    }

    ghost predicate Owns(k: int)
      requires k in chunks && k in contents
      reads this, repr
    {
      var c := chunks[k];
      c in repr && c.repr <= repr && this !in c.repr && c.Valid() && contents[k] == c.Value()
    }

    lemma TableIsStored()
      requires Valid()
      ensures Stored(contents)
    {
      forall k | k in contents ensures contents[k].Sized() {
        assert Owns(k);
        chunks[k].ValueIsSized();
      }
    }

    constructor ()
      ensures Valid() && fresh(repr) && contents == map[]
    {
      chunks, contents := map[], map[];
      new;
      repr := {this};
    }

    /** World::Adopt: the chunk goes in under the position it says it has, in place of what was there. */
    method Adopt(c: Column)
      requires Valid() && c.Valid() && c.repr !! repr
      modifies this
      ensures Valid() && repr == old(repr) + old(c.repr)
      ensures contents == old(contents)[ChunkKey(c.x, c.z) := c.Value()]
    {
      hide ChunkKey;
      var k := ChunkKey(c.x, c.z);
      chunks := chunks[k := c];
      contents := contents[k := c.Value()];
      repr := repr + c.repr;
      forall l | l in chunks ensures Owns(l) {
        assert l != k ==> old(Owns(l));
      }
      forall l | l in chunks && l != k ensures chunks[l].repr !! c.repr {
        assert old(Owns(l));
      }
    }

    method GetBlock(bx: int, y: int, bz: int) returns (r: Option<(nat, nat)>)
      requires Valid()
      ensures Stored(contents) && r == Blocks.GetBlock(contents, bx, y, bz)
    {
      hide ChunkKey, FloorDiv16, BlockGet;
      TableIsStored();
      if y < 0 || y > 255 {
        return None;
      }
      var cx, cz := FloorDiv16(bx as real), FloorDiv16(bz as real);
      if ChunkKey(cx, cz) !in chunks {
        return None;
      }
      assert Owns(ChunkKey(cx, cz));
      r := chunks[ChunkKey(cx, cz)].Get(bx - cx * 16, y, bz - cz * 16);
    }

    method SetBlock(bx: int, y: int, bz: int, id: int, meta: int) returns (ok: bool)
      requires Valid()
      modifies repr
      ensures Valid() && fresh(repr - old(repr)) && Stored(old(contents))
      ensures var r := Blocks.SetBlock(old(contents), bx, y, bz, id, meta);
        ok == r.Some? && contents == if ok then r.value else old(contents)
    {
      hide ChunkKey, FloorDiv16, BlockSet;
      TableIsStored();
      if y < 0 || y > 255 {
        return false;
      }
      var cx, cz := FloorDiv16(bx as real), FloorDiv16(bz as real);
      var k := ChunkKey(cx, cz);
      if k !in chunks {
        return false;
      }
      assert Owns(k);
      var c := chunks[k];
      ok := c.Set(bx - cx * 16, y, bz - cz * 16, id, meta);
      contents := contents[k := c.Value()];
      repr := repr + c.repr;
      forall l | l in chunks ensures Owns(l) {
        assert old(Owns(l));
      }
      assert !ok ==> contents == old(contents);
    }
  }
}
