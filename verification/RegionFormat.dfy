/** The region file as another program reads it: chunk coordinates and byte positions, no slots. */
module RegionFormat {
  import opened Bytes
  import opened Region
  import opened RegionProofs

  /** Four bytes at p, most significant first. */
  function WordAt(b: bytes, p: nat): u32
    requires p + 4 <= |b|
  {
    256 * ThreeAt(b, p) + b[p + 3]
  }

  function ThreeAt(b: bytes, p: nat): (n: nat)
    requires p + 3 <= |b|
    ensures n < 0x100_0000
  {
    var hi: nat, mid: nat, lo: nat := b[p], b[p + 1], b[p + 2];
    65536 * hi + 256 * mid + lo
  }

  lemma WordOf(a: byte, b: byte, c: byte, d: byte)
    ensures FromBe([a, b, c, d]) == a * 0x100_0000 + b * 0x1_0000 + c * 0x100 + d
  {
    assert [a, b, c, d][..3] == [a, b, c] && [a, b, c][..2] == [a, b] && [a, b][..1] == [a] && [a][..0] == [];
    assert FromBe([a]) == a;
    assert FromBe([a, b]) == a * 256 + b;
    assert FromBe([a, b, c]) == (a * 256 + b) * 256 + c;
  }

  lemma WordIsFromBe(b: bytes, p: nat)
    requires p + 4 <= |b|
    ensures FromBe(b[p..p + 4]) == WordAt(b, p)
  {
    WordOf(b[p], b[p + 1], b[p + 2], b[p + 3]);
    assert b[p..p + 4] == [b[p], b[p + 1], b[p + 2], b[p + 3]];
  }

  /** Reading chunk (x, z) from the bytes of a file: entry 4 * (x + 32 * z) bytes in, three bytes of sector and
      one of count; the record starts with its length, then version and payload. */
  function Lookup(file: bytes, x: nat, z: nat): ReadResult
    requires x < 32 && z < 32 && |file| >= 8192
  {
    var e := 4 * (x + 32 * z);
    var sector, count: nat := ThreeAt(file, e), file[e + 3];
    if sector == 0 && count == 0 then Empty
    else if count == 0 || sector < 2 || 4096 * (sector + count) > |file| then Corrupt
    else RecordAt(file, 4096 * sector, count)
  }

  function RecordAt(file: bytes, p: nat, count: nat): ReadResult
    requires count > 0 && p + 4096 * count <= |file|
  {
    var len := WordAt(file, p);
    if len > 4096 * count || len < 2 then Corrupt
    else if file[p + 4] != 1 && file[p + 4] != 2 then BadVersion
    else if p + 4 + len > |file| then IoError
    else Data(file[p + 4], file[p + 5..p + 4 + len])
  }

  /** When chunk (x, z) was last written: a word in the second sector. */
  function Stamp(file: bytes, x: nat, z: nat): u32
    requires x < 32 && z < 32 && |file| >= 8192
  {
    WordAt(file, 4096 + 4 * (x + 32 * z))
  }

  /** The tables in memory are those at the start of the file. */
  predicate Current(st: Store) {
    st.Shaped() && st.off == Words(st.disk[..4096]) && st.ts == Words(st.disk[4096..8192])
  }

  /** The i-th words of the two tables. */
  lemma HeaderWords(st: Store, i: nat)
    requires Current(st) && i < 1024
    ensures WordAt(st.disk, 4 * i) == st.off[i] && WordAt(st.disk, 4096 + 4 * i) == st.ts[i]
  {
    hide FromBe;
    WordsAt(st.disk[..4096], i);
    WordsAt(st.disk[4096..8192], i);
    SliceOfSlice(st.disk, 4096, 8192, 4 * i, 4 * i + 4);
    assert st.disk[..4096][4 * i..4 * i + 4] == st.disk[4 * i..4 * i + 4];
    WordIsFromBe(st.disk, 4 * i);
    WordIsFromBe(st.disk, 4096 + 4 * i);
  }

  lemma SafeIsCurrent(st: Store)
    requires Safe(st)
    ensures Current(st)
  {
    hide Words, BeWords;
    var h := Header(st.off, st.ts);
    assert st.disk[..4096] == h[..4096] == BeWords(st.off);
    assert st.disk[4096..8192] == h[4096..] == BeWords(st.ts);
    WordsOfBeWords(st.off);
    WordsOfBeWords(st.ts);
  }

  /** Any file at all, once opened, is padded with zeros to whole sectors, two at least, and reads at each chunk's
      coordinates as its bytes say. */
  lemma OpenedReadsItsBytes(file: bytes, x: nat, z: nat)
    requires x < 32 && z < 32
    ensures var st, size := Open(file), if |file| > 8192 then |file| else 8192;
      && file <= st.disk && |st.disk| % 4096 == 0 && size <= |st.disk| < size + 4096
      && (forall i | |file| <= i < |st.disk| :: st.disk[i] == 0)
      && |st.used| == |st.disk| / 4096 && ReadSlot(st, x + 32 * z) == Lookup(st.disk, x, z)
  {
    hide Lookup, ReadSlot;
    LookupIsReadSlot(Open(file), x, z);
  }

  /** Reading by slot is looking the chunk up in the bytes. */
  lemma LookupIsReadSlot(st: Store, x: nat, z: nat)
    requires Current(st) && x < 32 && z < 32
    ensures Lookup(st.disk, x, z) == ReadSlot(st, SlotOf(x, z))
    ensures Stamp(st.disk, x, z) == st.ts[SlotOf(x, z)]
  {
    hide ReadRecord, RecordAt, WordAt, ThreeAt, Words, FromBe, Current;
    CurrentIsShaped(st);
    var i := x + 32 * z;
    HeaderWords(st, i);
    EntryParts(st.disk, 4 * i);
    var v := st.off[i];
    if InFile(v, |st.used|) {
      RecordIsReadRecord(st.disk, SectorOf(v), CountOf(v));
    }
  }

  lemma CurrentIsShaped(st: Store)
    requires Current(st)
    ensures st.Shaped()
  {
  }

  lemma EntryParts(b: bytes, p: nat)
    requires p + 4 <= |b|
    ensures var v := WordAt(b, p);
      SectorOf(v) == ThreeAt(b, p) && CountOf(v) == b[p + 3] && (v == 0 <==> ThreeAt(b, p) == 0 && b[p + 3] == 0)
  {
    hide ThreeAt;
  }

  lemma RecordIsReadRecord(disk: bytes, sector: nat, count: nat)
    requires count > 0 && 4096 * (sector + count) <= |disk|
    ensures RecordAt(disk, 4096 * sector, count) == ReadRecord(disk, sector * SECTOR, count)
  {
    hide WordAt, FromBe;
    WordIsFromBe(disk, 4096 * sector);
  }

  // ---------------------------------------------------------------- whole runs, by coordinates

  /** A write that is accepted, to chunk (x, z). */
  predicate Hits(op: Op, x: nat, z: nat) {
    op.Write? && op.x == x && op.z == z && (op.version == 1 || op.version == 2) && |op.data| <= 0xFFFF_FFFE
  }

  /** The last accepted write to chunk (x, z). */
  function LastTo(ops: seq<Op>, x: nat, z: nat): (o: Option<Op>)
    ensures o.Some? ==> Hits(o.value, x, z)
  {
    if |ops| == 0 then None
    else if LastTo(ops[1..], x, z).Some? then LastTo(ops[1..], x, z)
    else if Hits(ops[0], x, z) then Some(ops[0])
    else None
  }

  /** What that write leaves to be read. */
  function Left(op: Op): ReadResult
    requires op.Write?
  {
    if 0 < |op.data| <= 255 * 4096 - 5 then Data(op.version, op.data) else Corrupt
  }

  lemma {:induction false} LastWriteIsLastTo(was: ReadResult, ops: seq<Op>, x: nat, z: nat)
    requires x < 32 && z < 32
    ensures LastWrite(was, SlotOf(x, z), ops) == if LastTo(ops, x, z).Some? then Left(LastTo(ops, x, z).value) else was
    decreases |ops|
  {
    if |ops| > 0 {
      UpdateHits(was, ops[0], x, z);
      LastWriteIsLastTo(Update(was, SlotOf(x, z), ops[0]), ops[1..], x, z);
    }
  }

  lemma UpdateHits(was: ReadResult, op: Op, x: nat, z: nat)
    requires x < 32 && z < 32
    ensures Update(was, SlotOf(x, z), op) == if Hits(op, x, z) then Left(op) else was
  {
  }

  lemma {:induction false} RunStamps(st: Store, ops: seq<Op>, x: nat, z: nat)
    requires Safe(st) && |st.used| + Appends(ops) <= MAX_SECTORS && x < 32 && z < 32
    ensures Run(st, ops).ts[SlotOf(x, z)] ==
      if LastTo(ops, x, z).Some? then LastTo(ops, x, z).value.now else st.ts[SlotOf(x, z)]
    decreases |ops|
  {
    hide Safe, Step;
    if |ops| > 0 {
      SafeIsShaped(st);
      StepRefines(st, ops[0]);
      StepStamps(st, ops[0], x, z);
      RunStamps(Step(st, ops[0]), ops[1..], x, z);
    }
  }

  lemma StepStamps(st: Store, op: Op, x: nat, z: nat)
    requires Safe(st) && x < 32 && z < 32
    ensures Step(st, op).ts[SlotOf(x, z)] == if Hits(op, x, z) then op.now else st.ts[SlotOf(x, z)]
  {
    hide Safe, Open, Close, Place, Splice, Header, Marked;
    SafeIsShaped(st);
    if op.Reopen? {
      ReopenRestores(st);
    }
  }

  /** After any run of writes and reopenings, the file that close leaves holds, at each chunk's own
      coordinates, what the last accepted write with those coordinates wrote, and when; at coordinates without
      one, what was there before. */
  lemma FileHoldsLastWrites(st: Store, ops: seq<Op>, x: nat, z: nat)
    requires Safe(st) && |st.used| + Appends(ops) <= MAX_SECTORS && x < 32 && z < 32
    ensures var file, last := Close(Run(st, ops)), LastTo(ops, x, z);
      && |file| >= 8192 && |st.disk| >= 8192
      && Lookup(file, x, z) == (if last.Some? then Left(last.value) else Lookup(st.disk, x, z))
      && Stamp(file, x, z) == (if last.Some? then last.value.now else Stamp(st.disk, x, z))
    ensures ReadSlot(Run(st, ops), x + 32 * z) ==
      if LastTo(ops, x, z).Some? then Left(LastTo(ops, x, z).value) else ReadSlot(st, x + 32 * z)
  {
    hide Safe, Lookup, Stamp, Run, ReadSlot, Close;
    SafeIsShaped(st);
    RunRefinesMap(st, ops);
    LastWriteIsLastTo(ReadSlot(st, SlotOf(x, z)), ops, x, z);
    RunStamps(st, ops, x, z);
    SafeIsCurrent(st);
    SafeIsCurrent(Run(st, ops));
    LookupIsReadSlot(st, x, z);
    LookupIsReadSlot(Run(st, ops), x, z);
    ReopenRestores(Run(st, ops));
  }

  /** A new file has nothing at any coordinates. */
  lemma NewFileHoldsNothing(x: nat, z: nat)
    requires x < 32 && z < 32
    ensures var disk := Open([]).disk; |disk| == 8192 && Lookup(disk, x, z) == Empty && Stamp(disk, x, z) == 0
  {
    NewFile();
  }

  // ---------------------------------------------------------------- where a record goes

  /** Sector s is free, or slot i's own. */
  predicate Spare(st: Store, i: nat, s: nat)
    requires st.Shaped() && i < SLOTS && s < |st.used|
  {
    var v := st.off[i];
    !st.used[s] || (v % 256 > 0 && v / 256 >= 2 && v / 256 <= s < v / 256 + v % 256 <= |st.used|)
  }

  /** One of the n sectors from t on is neither. */
  predicate Blocked(st: Store, i: nat, t: nat, n: nat)
    requires st.Shaped() && i < SLOTS && t + n <= |st.used|
  {
    exists s :: t <= s < t + n && !Spare(st, i, s)
  }

  lemma FreedIsSpare(st: Store, i: nat, s: nat)
    requires st.Shaped() && i < SLOTS && s < |st.used|
    ensures Freed(st, i)[s] <==> !Spare(st, i, s)
  {
  }

  /** A record that still fits its old sectors stays there; else it goes to the lowest run of sectors that are
      free or its own, or to the end of the file when there is none. */
  lemma FirstFit(st: Store, x: nat, z: nat, version: byte, data: bytes, now: u32)
    requires Safe(st) && x < 32 && z < 32 && |st.used| < MAX_SECTORS
    ensures var i, need := x + 32 * z, (|data| + 5 + 4095) / 4096;
      var v, w := st.off[i], WriteSlot(st, i, version, data, now).off[i];
      var at := w / 256;
      if v % 256 >= need then w == v
      else
        && at >= 2 && w % 256 == need % 256 && (at + need <= |st.used| || at == |st.used|)
        && (forall s | at <= s < at + need && s < |st.used| :: Spare(st, i, s))
        && forall t | 2 <= t < at && t + need <= |st.used| :: Blocked(st, i, t, need)
  {
    hide WriteSlot, Freed, Spare, Safe, InFile, Reuses;
    SafeIsShaped(st);
    var i, need := x + 32 * z, SectorsFor(|data|);
    WrittenEntry(st, i, version, data, now);
    LiveReuses(st, i, need);
    if !Reuses(st, i, need) {
      var used, at := Freed(st, i), Place(st, i, need);
      forall s | 0 <= s < |st.used| ensures used[s] <==> !Spare(st, i, s) {
        FreedIsSpare(st, i, s);
      }
      forall t | 2 <= t < at && t + need <= |st.used| ensures Blocked(st, i, t, need) {
        assert !Free(used, t, need);
      }
    }
  }

  lemma LiveReuses(st: Store, i: nat, need: nat)
    requires Safe(st) && i < SLOTS && need > 0
    ensures Reuses(st, i, need) <==> st.off[i] % 256 >= need
  {
    if CountOf(st.off[i]) > 0 {
      LiveIsInFile(st, i);
    }
  }

  /** The bytes of a record: the length of what follows, the version, the payload, and zeros up to the end of a sector,
      the first one that will do. */
  lemma RecordBytes(version: byte, data: bytes, k: nat)
    requires |data| < 0xFFFF_FFFF
    ensures var r := Record(version, data);
      && |r| % 4096 == 0 && |data| + 5 <= |r| < |data| + 5 + 4096
      && WordAt(r, 0) == |data| + 1 && r[4] == version && r[5..5 + |data|] == data
      && (|data| + 5 <= k < |r| ==> r[k] == 0)
  {
    hide FromBe, WordAt, Be;
    RecordPrefix(version, data);
    var r := Record(version, data);
    WordIsFromBe(r, 0);
    assert r[0..0 + 4] == r[..4];
  }

  /** Where it is after a write: at the sector the new entry names. */
  lemma RecordOnDisk(st: Store, x: nat, z: nat, version: byte, data: bytes, now: u32)
    requires Safe(st) && x < 32 && z < 32 && |st.used| < MAX_SECTORS
    ensures var r, rec := WriteSlot(st, x + 32 * z, version, data, now), Record(version, data);
      var at: nat := r.off[x + 32 * z] / 256;
      var p := at * 4096;
      p + |rec| <= |r.disk| && r.disk[p..p + |rec|] == rec
  {
    hide WriteSlot, Record, Safe, Place, Reuses;
    SafeIsShaped(st);
    WrittenEntry(st, x + 32 * z, version, data, now);
    WrittenDisk(st, x + 32 * z, version, data, now, HEADER, HEADER);
    PlaceFits(st, x + 32 * z, version, data, now);
  }

  lemma PlaceFits(st: Store, i: nat, version: byte, data: bytes, now: u32)
    requires st.Shaped() && i < SLOTS
    ensures var r, need := WriteSlot(st, i, version, data, now), SectorsFor(|data|);
      (Place(st, i, need) + need) * SECTOR <= |r.disk|
  {
    WrittenUsed(st, i, version, data, now);
  }
}
