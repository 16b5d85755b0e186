/** A chunk as an NBT tree and as bytes, and back. */
module ChunkNbt {
  import opened Bytes
  import opened Nbt
  import opened NbtEqual
  import NbtIo
  import opened Blocks
  import opened Wire

  // ---------------------------------------------------------------- names

  datatype Key =
    | Level | V | XPos | ZPos | LastUpdate | HeightMap | TerrainPopulated | LightPopulated | InhabitedTime
    | Sections | Biomes | Entities | TileEntities | TileTicks
    | Y | BlockIds | Data | Add | BlockLight | SkyLight

  function Letter(ch: char): (r: byte)
    ensures r != 0 && ('A' <= ch <= 'z' ==> r == ch as int)
  {
    if 'A' <= ch <= 'z' then ch as int else 63
  }

  function Ascii(s: string): (r: bytes)
    ensures |r| == |s| && 0 !in r && forall i | 0 <= i < |s| :: r[i] == Letter(s[i])
  {
    seq(|s|, i requires 0 <= i < |s| => Letter(s[i]))
  }

  function Spelling(k: Key): (r: string)
    ensures 0 < |r| < 17
  {
    match k
    case Level => "Level"
    case V => "V"
    case XPos => "xPos"
    case ZPos => "zPos"
    case LastUpdate => "LastUpdate"
    case HeightMap => "HeightMap"
    case TerrainPopulated => "TerrainPopulated"
    case LightPopulated => "LightPopulated"
    case InhabitedTime => "InhabitedTime"
    case Sections => "Sections"
    case Biomes => "Biomes"
    case Entities => "Entities"
    case TileEntities => "TileEntities"
    case TileTicks => "TileTicks"
    case Y => "Y"
    case BlockIds => "Blocks"
    case Data => "Data"
    case Add => "Add"
    case BlockLight => "BlockLight"
    case SkyLight => "SkyLight"
  }

  function NameOf(k: Key): (n: Name)
    ensures 0 !in n
  {
    Ascii(Spelling(k))
  }

  /** A name's key, from its length and its first letters. */
  function Deciphered(n: nat, c: byte, d: byte): Key {
    if n == 1 then (if c == 86 then V else Y)
    else if n == 3 then Add
    else if n == 4 then (if c == 120 then XPos else if c == 122 then ZPos else Data)
    else if n == 5 then Level
    else if n == 6 then (if d == 105 then Biomes else BlockIds)
    else if n == 8 then (if c == 69 then Entities else if d == 101 then Sections else SkyLight)
    else if n == 9 then (if c == 72 then HeightMap else TileTicks)
    else if n == 10 then (if c == 76 then LastUpdate else BlockLight)
    else if n == 12 then TileEntities
    else if n == 13 then InhabitedTime
    else if n == 14 then LightPopulated
    else TerrainPopulated
  }

  lemma Decipher(k: Key)
    ensures Deciphered(|NameOf(k)|, NameOf(k)[0], if |NameOf(k)| > 1 then NameOf(k)[1] else 0) == k
  {
  }

  lemma NamesDiffer(a: Key, b: Key)
    ensures NameOf(a) == NameOf(b) <==> a == b
  {
    hide Spelling;
    var n, m := NameOf(a), NameOf(b);
    if n == m {
      Decipher(a);
      Decipher(b);
      assert |Spelling(a)| == |Spelling(b)| && n[0] == m[0] && (|n| > 1 ==> n[1] == m[1]);
    }
  }

  /** Children by key. */
  type Entries = seq<(Key, Val)>

  function Tagged(es: Entries): (r: seq<Tag>)
    ensures |r| == |es|
  {
    if |es| == 0 then [] else [Tag(NameOf(es[0].0), es[0].1)] + Tagged(es[1..])
  }

  function Find(es: Entries, k: Key): Option<Val> {
    if |es| == 0 then None else if es[0].0 == k then Some(es[0].1) else Find(es[1..], k)
  }

  lemma {:induction false} GetIsFind(es: Entries, k: Key)
    ensures Get(Tagged(es), NameOf(k)) == Find(es, k)
  {
    hide NameOf;
    if |es| > 0 {
      NamesDiffer(es[0].0, k);
      CStrOfClean(NameOf(es[0].0));
      CStrOfClean(NameOf(k));
      GetIsFind(es[1..], k);
      assert Tagged(es)[1..] == Tagged(es[1..]);
    }
  }

  lemma FindCons(k: Key, v: Val, es: Entries)
    ensures forall q :: Find([(k, v)] + es, q) == if q == k then Some(v) else Find(es, q)
  {
    assert ([(k, v)] + es)[1..] == es;
  }

  // ---------------------------------------------------------------- writing

  function Flag(b: bool): Val {
    Num(KByte, if b then 1 else 0)
  }

  function AnyNonZero(a: bytes): bool {
    exists i :: 0 <= i < |a| && a[i] != 0
  }

  /** A section is written with its Add array when it is flagged or not all zero. */
  predicate WritesAdd(s: Section) {
    s.hasAdd || AnyNonZero(s.add)
  }

  function SectionEntries(s: Section): Entries {
    [(Y, Num(KByte, s.y))] + ([(BlockIds, ByteArray(s.blocks))] + ([(Data, ByteArray(s.data))]
    + ((if WritesAdd(s) then [(Add, ByteArray(s.add))] else [])
      + ([(BlockLight, ByteArray(s.blockLight))] + ([(SkyLight, ByteArray(s.skyLight))] + [])))))
  }

  function SectionVal(s: Section): Val {
    Compound(Tagged(SectionEntries(s)))
  }

  function SectionVals(ss: seq<Option<Section>>): seq<Val> {
    if |ss| == 0 then []
    else (match ss[0] case None => [] case Some(s) => [SectionVal(s)]) + SectionVals(ss[1..])
  }

  function SectionList(ss: seq<Option<Section>>): Val {
    List(if SectionVals(ss) == [] then END else COMPOUND, SectionVals(ss))
  }

  function Maybe(k: Key, v: Option<Val>): Entries {
    match v case None => [] case Some(w) => [(k, w)]
  }

  function LevelEntries(c: Chunk, ents: Val, tiles: Val, ticks: Option<Val>): Entries {
    [(V, Num(KByte, 1))] + ([(XPos, Num(KInt, Bits32(c.x)))] + ([(ZPos, Num(KInt, Bits32(c.z)))]
    + ([(LastUpdate, Num(KLong, c.lastUpdate))] + ([(HeightMap, IntArray(c.heightmap))]
    + ([(TerrainPopulated, Flag(c.terrainPopulated))] + ([(LightPopulated, Flag(c.lightPopulated))]
    + ([(InhabitedTime, Num(KLong, c.inhabitedTime))] + ([(Sections, SectionList(c.sections))]
    + (Maybe(Biomes, if c.hasBiomes then Some(ByteArray(c.biomes)) else None)
    + ([(Entities, ents)] + ([(TileEntities, tiles)] + (Maybe(TileTicks, ticks) + []))))))))))))
  }

  function RootOf(es: Entries): Tag {
    Tag([], Compound([Tag(NameOf(Level), Compound(Tagged(es)))]))
  }

  function CloneMaybe(v: Option<Val>): Option<Option<Val>> {
    match v
    case None => Some(None)
    case Some(w) => match Clone(w) case None => None case Some(k) => Some(Some(k))
  }

  /** ChunkToRoot. */
  function ToRoot(c: Chunk): Option<Tag> {
    var e, t, k := Clone(c.entities), Clone(c.tileEntities), CloneMaybe(c.tileTicks);
    if e.None? || t.None? || k.None? then None else Some(RootOf(LevelEntries(c, e.value, t.value, k.value)))
  }

  /** V18ChunkToNbt. */
  function ToNbt(c: Chunk): Option<bytes> {
    match ToRoot(c)
    case None => None
    case Some(t) => if |SerTag(t)| > NbtIo.LIMIT then None else Some(SerTag(t))
  }

  // ---------------------------------------------------------------- reading

  function Child(v: Val, k: Key): Option<Val> {
    if v.Compound? then Get(v.fields, NameOf(k)) else None
  }

  /** A byte array of exactly n bytes. */
  function Array(v: Option<Val>, n: nat): Option<bytes> {
    if v.Some? && v.value.ByteArray? && |v.value.data| == n then Some(v.value.data) else None
  }

  function ReadSection(v: Val): (r: Option<Section>)
    ensures r.Some? ==> r.value.Sized() && r.value.y < 16 && AddClear(r.value)
  {
    var y, blocks, data := Child(v, Y), Array(Child(v, BlockIds), CELLS), Array(Child(v, Data), NIBBLES);
    var bl, sl, add := Array(Child(v, BlockLight), NIBBLES), Array(Child(v, SkyLight), NIBBLES), Child(v, Add);
    if y.None? || blocks.None? || data.None? || bl.None? || sl.None? then None
    else if !y.value.Num? || y.value.kind != KByte || y.value.bits > 15 then None
    else if add.None? then
      Some(Section(y.value.bits, blocks.value, data.value, Zeros(NIBBLES), false, bl.value, sl.value))
    else
      match Array(add, NIBBLES)
      case None => None
      case Some(a) => Some(Section(y.value.bits, blocks.value, data.value, a, true, bl.value, sl.value))
  }

  /** Each section goes to the height it says; a later one replaces an earlier one. */
  function ReadSections(ss: seq<Option<Section>>, items: seq<Val>): (r: Option<seq<Option<Section>>>)
    requires |ss| == SECTIONS
    ensures r.Some? ==> |r.value| == SECTIONS
    decreases |items|
  {
    if |items| == 0 then Some(ss)
    else
      match ReadSection(items[0])
      case None => None
      case Some(s) => ReadSections(ss[s.y := Some(s)], items[1..])
  }

  /** GetLong: a long, or an int with its sign extended; anything else leaves the old value. */
  function LongOr(v: Option<Val>, was: nat): nat {
    match v
    case Some(Num(KLong, bits)) => bits
    case Some(Num(KInt, bits)) => if bits >= U31 then bits + 0xffff_ffff_0000_0000 else bits
    case _ => was
  }

  /** An int if present; None is a value of another type. */
  function IntOr(v: Option<Val>, was: int): Option<int> {
    match v
    case None => Some(was)
    case Some(Num(KInt, bits)) => Some(if bits >= U31 then bits - U32 else bits)
    case _ => None
  }

  function FlagOf(v: Option<Val>): Option<bool> {
    match v
    case None => Some(false)
    case Some(Num(KByte, bits)) => Some(bits != 0)
    case _ => None
  }

  function HeightsOf(v: Option<Val>): (r: Option<seq<u32>>)
    ensures r.Some? ==> |r.value| == 256
  {
    match v
    case None => Some(seq(256, _ => 0))
    case Some(IntArray(ints)) => if |ints| == 256 then Some(ints) else None
    case _ => None
  }

  predicate CompoundList(v: Val) {
    v.List? && (|v.items| > 0 ==> v.elem == COMPOUND)
  }

  function NoSections(): (r: seq<Option<Section>>)
    ensures |r| == SECTIONS && forall i | 0 <= i < SECTIONS :: r[i].None?
  {
    seq(SECTIONS, _ => None)
  }

  function ItemsOf(v: Val): seq<Val> {
    if v.List? then v.items else []
  }

  function SectionsOf(v: Option<Val>): (r: Option<seq<Option<Section>>>)
    ensures r.Some? ==> |r.value| == SECTIONS
  {
    if v.Some? && CompoundList(v.value) then ReadSections(NoSections(), ItemsOf(v.value)) else None
  }

  function ListOr(v: Option<Val>): Val {
    match v case None => List(END, []) case Some(w) => w
  }

  /** ChunkFromRoot; where it fails the chunk is left half filled, which is not modelled. */
  function FromRoot(c: Chunk, t: Tag): Option<Chunk>
    requires c.Sized()
  {
    match Child(t.v, Level)
    case None => None
    case Some(level) => if level.Compound? then FromLevel(c, level) else None
  }

  function FromLevel(c: Chunk, level: Val): Option<Chunk>
    requires c.Sized()
  {
    var x, z := IntOr(Child(level, XPos), c.x), IntOr(Child(level, ZPos), c.z);
    var hm, tp, lp :=
      HeightsOf(Child(level, HeightMap)), FlagOf(Child(level, TerrainPopulated)), FlagOf(Child(level, LightPopulated));
    var ss, bi := SectionsOf(Child(level, Sections)), Child(level, Biomes);
    var ents, tiles, ticks :=
      ListOr(Child(level, Entities)), ListOr(Child(level, TileEntities)), Child(level, TileTicks);
    if x.None? || z.None? || hm.None? || tp.None? || lp.None? || ss.None? then None
    else if bi.Some? && Array(bi, 256).None? then None
    else if !CompoundList(ents) || !CompoundList(tiles) || (ticks.Some? && !CompoundList(ticks.value)) then None
    else
      var updated := LongOr(Child(level, LastUpdate), c.lastUpdate);
      var inhabited := LongOr(Child(level, InhabitedTime), c.inhabitedTime);
      var biomes := if bi.Some? then Array(bi, 256).value else c.biomes;
      Some(Chunk(x.value, z.value, updated, inhabited, hm.value, tp.value, lp.value, ss.value, bi.Some?, biomes,
                 ents, tiles, ticks))
  }

  /** V18ChunkFromNbt: what follows the tree is ignored. */
  function FromNbt(c: Chunk, s: bytes): Option<Chunk>
    requires c.Sized()
  {
    match Parse(s, 0)
    case Fail(_) => None
    case Ok(t, _, _) => FromRoot(c, t)
  }

  lemma {:induction false} ReadSectionsAreGood(ss: seq<Option<Section>>, items: seq<Val>)
    requires |ss| == SECTIONS
    requires forall i | 0 <= i < SECTIONS :: ss[i].Some? ==>
      ss[i].value.Sized() && ss[i].value.y == i && AddClear(ss[i].value)
    ensures var r := ReadSections(ss, items); r.Some? ==>
      forall i | 0 <= i < SECTIONS :: r.value[i].Some? ==>
        r.value[i].value.Sized() && r.value[i].value.y == i && AddClear(r.value[i].value)
    decreases |items|
  {
    hide ReadSection, AddClear;
    if |items| > 0 && ReadSection(items[0]).Some? {
      var s := ReadSection(items[0]).value;
      ReadSectionsAreGood(ss[s.y := Some(s)], items[1..]);
    }
  }

  /** Whatever tree a chunk is read from, its sections are where they say they are, with a clear Add array
      unless flagged: what reading and writing blocks relies on. */
  lemma FromRootIsGood(c: Chunk, t: Tag)
    requires c.Sized()
    ensures FromRoot(c, t).Some? ==> FromRoot(c, t).value.Good()
  {
    hide ReadSections, AddClear, Child, IntOr, LongOr, FlagOf, ListOr;
    var level := Child(t.v, Level);
    if level.Some? && level.value.Compound? && FromLevel(c, level.value).Some? {
      ReadSectionsAreGood(NoSections(), ItemsOf(Child(level.value, Sections).value));
    }
  }
}
