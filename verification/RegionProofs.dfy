/** A region file refines a map from slots to payloads, over every run of writes and reopenings. */
module RegionProofs {
  import opened Bytes
  import opened Region

  // ---------------------------------------------------------------- the invariant

  predicate Apart(v: u32, w: u32) {
    SectorOf(v) + CountOf(v) <= SectorOf(w) || SectorOf(w) + CountOf(w) <= SectorOf(v)
  }

  /** Reading the record at `at` never looks past its own sectors. */
  predicate Contained(disk: bytes, at: nat, count: nat)
    requires count > 0 && at + count * SECTOR <= |disk|
  {
    var len := FromBe(disk[at..at + 4]);
    len > count * SECTOR || len + 4 <= count * SECTOR
  }

  /** Live extents lie inside the file past the header, apart from each other, marked as used, and
      are self-contained; the header on disk is the header in memory. */
  ghost predicate Safe(st: Store) {
    && st.Shaped()
    && st.disk[..HEADER] == Header(st.off, st.ts)
    && (forall i | 0 <= i < SLOTS :: CountOf(st.off[i]) > 0 ==> InFile(st.off[i], |st.used|))
    && (forall i, j | 0 <= i < j < SLOTS :: CountOf(st.off[i]) > 0 && CountOf(st.off[j]) > 0 ==>
         Apart(st.off[i], st.off[j]))
    && (forall s | 0 <= s < |st.used| :: Owned(st.off, |st.used|, s) ==> st.used[s])
    && (forall i | 0 <= i < SLOTS :: CountOf(st.off[i]) > 0 ==> ContainedSlot(st, i))
  }

  predicate ContainedSlot(st: Store, i: nat)
    requires st.Shaped() && i < SLOTS && InFile(st.off[i], |st.used|)
  {
    Contained(st.disk, SectorOf(st.off[i]) * SECTOR, CountOf(st.off[i]))
  }

  /** The bitmap holds nothing but the header and the live extents. */
  ghost predicate Exact(st: Store) {
    forall s | 0 <= s < |st.used| :: st.used[s] ==> Owned(st.off, |st.used|, s)
  }

  // ---------------------------------------------------------------- bytes on disk

  lemma EntryUnpacks(at: nat, need: nat)
    requires 2 <= at < MAX_SECTORS
    ensures SectorOf(Entry(at, need)) == at && CountOf(Entry(at, need)) == need % 256 && Entry(at, need) != 0
  {
  }

  /** Splicing leaves alone what it does not reach, and leaves behind what it was given. */
  lemma SpliceSlices(disk: bytes, pos: nat, b: bytes, p: nat, q: nat)
    requires pos <= |disk| && p <= q
    ensures q <= |disk| && (q <= pos || pos + |b| <= p) ==> Splice(disk, pos, b)[p..q] == disk[p..q]
    ensures p == pos && q == pos + |b| ==> Splice(disk, pos, b)[p..q] == b
  {
    var d := Splice(disk, pos, b);
    if q <= |disk| && (q <= pos || pos + |b| <= p) {
      forall k | p <= k < q ensures d[k] == disk[k] {
      }
      assert d[p..q] == disk[p..q];
    }
  }

  /** The disk after a write: the record in its place, the new header, everything else as before. */
  lemma WrittenDisk(st: Store, i: nat, version: byte, data: bytes, now: u32, p: nat, q: nat)
    requires st.Shaped() && i < SLOTS && HEADER <= p <= q
    ensures var r := WriteSlot(st, i, version, data, now);
      var need := SectorsFor(|data|);
      var at := Place(st, i, need) * SECTOR;
      && r.disk[..HEADER] == Header(r.off, r.ts)
      && r.disk[at..at + need * SECTOR] == Record(version, data)
      && (q <= |st.disk| && (q <= at || at + need * SECTOR <= p) ==> r.disk[p..q] == st.disk[p..q])
  {
    var r := WriteSlot(st, i, version, data, now);
    var need := SectorsFor(|data|);
    var at := Place(st, i, need) * SECTOR;
    var rec, h := Record(version, data), Header(r.off, r.ts);
    var mid := Splice(st.disk, at, rec);
    SpliceSlices(st.disk, at, rec, p, q);
    SpliceSlices(st.disk, at, rec, at, at + |rec|);
    SpliceSlices(mid, 0, h, 0, HEADER);
    SpliceSlices(mid, 0, h, at, at + |rec|);
    if q <= |mid| {
      SpliceSlices(mid, 0, h, p, q);
    }
  }

  /** A contained record reads the same from any disk that has the same sectors. */
  lemma ReadsFromItsSectors(d: bytes, e: bytes, at: nat, count: nat)
    requires count > 0 && at + count * SECTOR <= |d| && at + count * SECTOR <= |e|
    requires d[at..at + count * SECTOR] == e[at..at + count * SECTOR] && Contained(d, at, count)
    ensures ReadRecord(d, at, count) == ReadRecord(e, at, count) && Contained(e, at, count)
  {
    var x, y := d[at..at + count * SECTOR], e[at..at + count * SECTOR];
    assert d[at..at + 4] == x[..4] && e[at..at + 4] == y[..4];
    assert d[at + 4] == x[4] && e[at + 4] == y[4];
    var len := FromBe(d[at..at + 4]);
    if 2 <= len <= count * SECTOR {
      SliceOfSlice(d, at, at + count * SECTOR, 5, 4 + len);
      SliceOfSlice(e, at, at + count * SECTOR, 5, 4 + len);
    }
  }

  lemma RecordPrefix(version: byte, data: bytes)
    requires |data| < 0xFFFF_FFFF
    ensures var r := Record(version, data);
      FromBe(r[..4]) == |data| + 1 && r[4] == version && r[5..5 + |data|] == data
  {
    RadixValues();
    FromBeOfBe(|data| + 1, 4);
    assert Record(version, data)[..4] == Be(|data| + 1, 4);
  }

  /** What a freshly written record reads as, through an entry that counts `count` sectors. */
  lemma FreshRecordReads(disk: bytes, at: nat, version: byte, data: bytes, count: nat)
    requires version == 1 || version == 2
    requires |data| < 0xFFFF_FFFF && count > 0 && at + count * SECTOR <= |disk|
    requires at + SectorsFor(|data|) * SECTOR <= |disk|
    requires disk[at..at + SectorsFor(|data|) * SECTOR] == Record(version, data)
    requires count >= SectorsFor(|data|) || count + 256 <= SectorsFor(|data|)
    ensures Contained(disk, at, count)
    ensures ReadRecord(disk, at, count)
         == if |data| > 0 && count >= SectorsFor(|data|) then Data(version, data) else Corrupt
  {
    var r := Record(version, data);
    RecordPrefix(version, data);
    assert disk[at..at + 4] == r[..4] && disk[at + 4] == r[4];
    if count >= SectorsFor(|data|) {
      SliceOfSlice(disk, at, at + SectorsFor(|data|) * SECTOR, 5, 5 + |data|);
    }
  }

  // ---------------------------------------------------------------- one write

  /** The chosen sectors are past the header and apart from every other slot's. */
  lemma PlaceIsApart(st: Store, i: nat, need: nat, j: nat)
    requires Safe(st) && i < SLOTS && j < SLOTS && need > 0 && i != j && CountOf(st.off[j]) > 0
    ensures var at := Place(st, i, need);
      SectorOf(st.off[j]) + CountOf(st.off[j]) <= at || at + need <= SectorOf(st.off[j])
  {
    var at, v := Place(st, i, need), st.off[j];
    assert InFile(v, |st.used|);
    if CountOf(st.off[i]) > 0 {
      assert Apart(st.off[i], v) by {
        if i < j { assert Apart(st.off[i], st.off[j]); } else { assert Apart(st.off[j], st.off[i]); }
      }
    }
    if !Reuses(st, i, need) && at < SectorOf(v) + CountOf(v) && SectorOf(v) < at + need {
      var s := Max(at, SectorOf(v));
      assert Covers(v, s);
      assert Owned(st.off, |st.used|, s);
    }
  }

  /** The written slot's entry: where the record is, counting its sectors modulo 256. The others stay. */
  lemma WrittenEntry(st: Store, i: nat, version: byte, data: bytes, now: u32)
    requires Safe(st) && i < SLOTS && |st.used| < MAX_SECTORS
    ensures var need := SectorsFor(|data|);
      var off := WriteSlot(st, i, version, data, now).off;
      var v := off[i];
      && |off| == SLOTS && (forall j | 0 <= j < SLOTS && j != i :: off[j] == st.off[j])
      && SectorOf(v) == Place(st, i, need) && v != 0 && (Reuses(st, i, need) ==> v == st.off[i])
      && CountOf(v) == if Reuses(st, i, need) then CountOf(st.off[i]) else need % 256
  {
    var need := SectorsFor(|data|);
    if !Reuses(st, i, need) {
      EntryUnpacks(Place(st, i, need), need);
    }
  }

  /** Another slot's entry, extent and reading stay as they were. */
  lemma OtherSlotUntouched(st: Store, i: nat, version: byte, data: bytes, now: u32, j: nat)
    requires Safe(st) && i < SLOTS && j < SLOTS && i != j
    ensures var r := WriteSlot(st, i, version, data, now);
      && r.off[j] == st.off[j] && |r.used| >= |st.used|
      && ReadSlot(r, j) == ReadSlot(st, j)
      && (CountOf(st.off[j]) > 0 ==> InFile(r.off[j], |r.used|) && ContainedSlot(r, j))
  {
    var r, v := WriteSlot(st, i, version, data, now), st.off[j];
    if CountOf(v) > 0 {
      var p, q := SectorOf(v) * SECTOR, (SectorOf(v) + CountOf(v)) * SECTOR;
      assert InFile(v, |st.used|) && ContainedSlot(st, j);
      PlaceIsApart(st, i, SectorsFor(|data|), j);
      WrittenDisk(st, i, version, data, now, p, q);
      ReadsFromItsSectors(st.disk, r.disk, p, CountOf(v));
    }
  }

  /** The written slot reads back its payload, if and only if the payload fits 1..MAX_PAYLOAD bytes. */
  lemma WrittenSlotReads(st: Store, i: nat, version: byte, data: bytes, now: u32)
    requires Safe(st) && i < SLOTS && |st.used| < MAX_SECTORS
    requires version == 1 || version == 2
    requires |data| < 0xFFFF_FFFF
    ensures var r := WriteSlot(st, i, version, data, now);
      && ReadSlot(r, i) == (if 0 < |data| <= MAX_PAYLOAD then Data(version, data) else Corrupt)
      && (CountOf(r.off[i]) > 0 ==> InFile(r.off[i], |r.used|) && ContainedSlot(r, i))
  {
    hide WriteSlot, Record, Splice, Header;
    var r, need := WriteSlot(st, i, version, data, now), SectorsFor(|data|);
    var at := Place(st, i, need);
    WrittenEntry(st, i, version, data, now);
    WrittenUsed(st, i, version, data, now);
    WrittenDisk(st, i, version, data, now, HEADER, HEADER);
    if CountOf(r.off[i]) > 0 {
      FreshRecordReads(r.disk, at * SECTOR, version, data, CountOf(r.off[i]));
    }
  }

  /** The bitmap after a write. */
  lemma WrittenUsed(st: Store, i: nat, version: byte, data: bytes, now: u32)
    requires st.Shaped() && i < SLOTS
    ensures var r := WriteSlot(st, i, version, data, now);
      var need := SectorsFor(|data|);
      var at := Place(st, i, need);
      && |r.used| == Max(|st.used|, at + need)
      && (forall s | 0 <= s < |r.used| ::
            r.used[s] <==> if at <= s < at + need && !Reuses(st, i, need) then true
                           else s < |st.used| && (if Reuses(st, i, need) then st.used[s] else Freed(st, i)[s]))
  {
  }

  /** Giving back slot i's sectors leaves every other slot's sectors marked. */
  lemma FreeingSparesOthers(st: Store, i: nat, j: nat, s: nat)
    requires Safe(st) && i < SLOTS && j < SLOTS && i != j
    requires InFile(st.off[j], |st.used|) && Covers(st.off[j], s)
    ensures st.used[s] && Freed(st, i)[s]
  {
    assert Owned(st.off, |st.used|, s);
    if CountOf(st.off[i]) > 0 {
      assert Apart(st.off[i], st.off[j]) by {
        if i < j { assert Apart(st.off[i], st.off[j]); } else { assert Apart(st.off[j], st.off[i]); }
      }
    }
  }

  lemma OwnedStaysUsed(st: Store, i: nat, version: byte, data: bytes, now: u32, s: nat)
    requires Safe(st) && i < SLOTS && |st.used| < MAX_SECTORS
    requires var r := WriteSlot(st, i, version, data, now); s < |r.used| && Owned(r.off, |r.used|, s)
    ensures WriteSlot(st, i, version, data, now).used[s]
  {
    hide WriteSlot, Freed, ContainedSlot, Safe;
    SafeIsShaped(st);
    var r, need := WriteSlot(st, i, version, data, now), SectorsFor(|data|);
    WrittenEntry(st, i, version, data, now);
    WrittenUsed(st, i, version, data, now);
    if s < 2 {
      HeaderStaysUsed(st, i, s);
    } else {
      var j :| 0 <= j < SLOTS && InFile(r.off[j], |r.used|) && Covers(r.off[j], s);
      if j != i {
        LiveIsInFile(st, j);
        FreeingSparesOthers(st, i, j, s);
      } else if Reuses(st, i, need) {
        OwnedIsUsed(st, i, s);
      }
    }
  }

  lemma SafeIsShaped(st: Store)
    requires Safe(st)
    ensures st.Shaped()
  {
  }

  lemma LiveIsInFile(st: Store, j: nat)
    requires Safe(st) && j < SLOTS && CountOf(st.off[j]) > 0
    ensures InFile(st.off[j], |st.used|)
  {
  }

  lemma OwnedIsUsed(st: Store, j: nat, s: nat)
    requires Safe(st) && j < SLOTS && InFile(st.off[j], |st.used|) && Covers(st.off[j], s)
    ensures st.used[s]
  {
    assert Owned(st.off, |st.used|, s);
  }

  lemma HeaderStaysUsed(st: Store, i: nat, s: nat)
    requires Safe(st) && i < SLOTS && s < 2
    ensures st.used[s] && Freed(st, i)[s]
  {
    assert Owned(st.off, |st.used|, s);
  }

  /** Every write keeps the invariant, whatever the payload's length. */
  lemma WriteKeepsSafe(st: Store, i: nat, version: byte, data: bytes, now: u32)
    requires Safe(st) && i < SLOTS && |st.used| < MAX_SECTORS
    requires version == 1 || version == 2
    requires |data| < 0xFFFF_FFFF
    ensures Safe(WriteSlot(st, i, version, data, now))
  {
    var r := WriteSlot(st, i, version, data, now);
    forall j, k | 0 <= j < k < SLOTS && CountOf(r.off[j]) > 0 && CountOf(r.off[k]) > 0
      ensures Apart(r.off[j], r.off[k])
    {
      PairStaysApart(st, i, version, data, now, j, k);
    }
    forall s | 0 <= s < |r.used| && Owned(r.off, |r.used|, s)
      ensures r.used[s]
    {
      OwnedStaysUsed(st, i, version, data, now, s);
    }
    forall j | 0 <= j < SLOTS && CountOf(r.off[j]) > 0
      ensures InFile(r.off[j], |r.used|) && ContainedSlot(r, j)
    {
      if j == i {
        WrittenSlotReads(st, i, version, data, now);
      } else {
        OtherSlotUntouched(st, i, version, data, now, j);
      }
    }
    WrittenDisk(st, i, version, data, now, HEADER, HEADER);
  }

  lemma PairStaysApart(st: Store, i: nat, version: byte, data: bytes, now: u32, j: nat, k: nat)
    requires Safe(st) && i < SLOTS && |st.used| < MAX_SECTORS && j < k < SLOTS
    requires var r := WriteSlot(st, i, version, data, now); CountOf(r.off[j]) > 0 && CountOf(r.off[k]) > 0
    ensures var r := WriteSlot(st, i, version, data, now); Apart(r.off[j], r.off[k])
  {
    hide WriteSlot, Place, Freed, ContainedSlot;
    var need := SectorsFor(|data|);
    WrittenEntry(st, i, version, data, now);
    if i == j {
      PlaceIsApart(st, i, need, k);
    } else if i == k {
      PlaceIsApart(st, i, need, j);
    }
    assert Apart(st.off[j], st.off[k]) || CountOf(st.off[j]) == 0 || CountOf(st.off[k]) == 0;
  }

  lemma FreedMeans(st: Store, i: nat, s: nat)
    requires st.Shaped() && i < SLOTS && s < |st.used| && Freed(st, i)[s]
    ensures st.used[s] && !(InFile(st.off[i], |st.used|) && Covers(st.off[i], s))
  {
  }

  /** With payloads that fit, no sector stays marked that nothing owns. */
  lemma WriteKeepsExact(st: Store, i: nat, version: byte, data: bytes, now: u32)
    requires Safe(st) && Exact(st) && i < SLOTS && |st.used| < MAX_SECTORS
    requires |data| <= MAX_PAYLOAD
    ensures Exact(WriteSlot(st, i, version, data, now))
  {
    hide WriteSlot, Freed, Safe;
    SafeIsShaped(st);
    var r, need := WriteSlot(st, i, version, data, now), SectorsFor(|data|);
    var at := Place(st, i, need);
    WrittenEntry(st, i, version, data, now);
    WrittenUsed(st, i, version, data, now);
    forall s | 0 <= s < |r.used| && r.used[s]
      ensures Owned(r.off, |r.used|, s)
    {
      if at <= s < at + need && !Reuses(st, i, need) {
        assert InFile(r.off[i], |r.used|) && Covers(r.off[i], s);
      } else if s >= 2 {
        if !Reuses(st, i, need) {
          FreedMeans(st, i, s);
        }
        assert Owned(st.off, |st.used|, s);
        var j :| 0 <= j < SLOTS && InFile(st.off[j], |st.used|) && Covers(st.off[j], s);
        assert InFile(r.off[j], |r.used|) && Covers(r.off[j], s);
      }
    }
  }

  // ---------------------------------------------------------------- reopening

  /** Closing and opening again gives back the very same header, timestamps and bytes, and a bitmap
      of exactly the live extents. */
  lemma ReopenRestores(st: Store)
    requires Safe(st)
    ensures Close(st) == st.disk
    ensures var r := Open(Close(st));
      r.off == st.off && r.ts == st.ts && r.disk == st.disk && |r.used| == |st.used| && Safe(r) && Exact(r)
  {
    var h := Header(st.off, st.ts);
    assert Close(st) == h + st.disk[HEADER..] == st.disk[..HEADER] + st.disk[HEADER..] == st.disk;
    assert Rounded(|st.disk|) == |st.disk|;
    assert st.disk + Zeros(0) == st.disk;
    assert st.disk[..SECTOR] == h[..SECTOR] == BeWords(st.off);
    assert st.disk[SECTOR..HEADER] == h[SECTOR..] == BeWords(st.ts);
    WordsOfBeWords(st.off);
    WordsOfBeWords(st.ts);
    var r := Open(Close(st));
    forall i | 0 <= i < SLOTS && CountOf(r.off[i]) > 0
      ensures InFile(r.off[i], |r.used|) && ContainedSlot(r, i)
    {
      assert ContainedSlot(st, i);
    }
  }

  lemma ZeroWord()
    ensures FromBe([0, 0, 0, 0]) == 0
  {
    assert [0, 0, 0, 0][..3] == [0, 0, 0] && [0, 0, 0][..2] == [0, 0] && [0, 0][..1] == [0] && [0][..0] == [];
    assert FromBe([0]) == 0;
    assert FromBe([0, 0, 0]) == 0;
  }

  /** Zero bytes are zero words. */
  lemma ZeroWords(n: nat)
    ensures |Zeros(4 * n)| % 4 == 0 && forall i | 0 <= i < n :: Words(Zeros(4 * n))[i] == 0
  {
    forall i | 0 <= i < n ensures Words(Zeros(4 * n))[i] == 0 {
      WordsAt(Zeros(4 * n), i);
      assert Zeros(4 * n)[4 * i..4 * i + 4] == [0, 0, 0, 0];
      ZeroWord();
    }
  }

  lemma NewFile()
    ensures var st := Open([]);
      st.disk == Zeros(HEADER) && st.off == st.ts == Words(Zeros(SECTOR)) && |st.used| == 2
  {
    assert [] + Zeros(HEADER) == Zeros(HEADER);
    assert Zeros(HEADER)[..SECTOR] == Zeros(SECTOR) && Zeros(HEADER)[SECTOR..HEADER] == Zeros(SECTOR);
  }

  lemma NoEntriesIsSafe(st: Store)
    requires st.Shaped() && |st.used| == 2 && (forall i | 0 <= i < SLOTS :: st.off[i] == 0)
    requires st.disk[..HEADER] == Header(st.off, st.ts) && (forall s | 0 <= s < 2 :: st.used[s])
    ensures Safe(st) && Exact(st) && forall i | 0 <= i < SLOTS :: ReadSlot(st, i) == Empty
  {
    hide Header;
  }

  /** A new file opens as a safe region with every slot empty. */
  lemma EmptyFileIsSafe()
    ensures var st := Open([]);
      Safe(st) && Exact(st) && |st.used| == 2 && forall i | 0 <= i < SLOTS :: ReadSlot(st, i) == Empty
  {
    hide Safe, Exact, ReadSlot;
    var st := Open([]);
    NewFile();
    ZeroWords(SLOTS);
    BeWordsOfWords(Zeros(SECTOR));
    assert st.disk[..HEADER] == Zeros(SECTOR) + Zeros(SECTOR);
    NoEntriesIsSafe(st);
  }

  // ---------------------------------------------------------------- whole runs

  /** What a caller can do: a write with any arguments, or close and open again. */
  datatype Op = Write(x: int, z: int, version: byte, data: bytes, now: u32) | Reopen

  /** The arguments write_raw accepts; with others it changes nothing. */
  predicate Accepted(op: Op) {
    op.Write? && CoordsOk(op.x, op.z) && (op.version == 1 || op.version == 2) && |op.data| <= 0xFFFF_FFFE
  }

  function Step(st: Store, op: Op): (r: Store)
    requires st.Shaped()
    ensures r.Shaped()
  {
    match op
    case Reopen => Open(Close(st))
    case Write(x, z, version, data, now) =>
      if Accepted(op) then WriteSlot(st, SlotOf(x, z), version, data, now) else st
  }

  function Run(st: Store, ops: seq<Op>): (r: Store)
    requires st.Shaped()
    ensures r.Shaped()
    decreases |ops|
  {
    if |ops| == 0 then st else Run(Step(st, ops[0]), ops[1..])
  }

  /** An upper bound on the sectors a run can append. */
  function Appends(ops: seq<Op>): nat {
    if |ops| == 0 then 0
    else (if ops[0].Write? then SectorsFor(|ops[0].data|) else 0) + Appends(ops[1..])
  }

  /** The map being refined: what a slot reads as after a write. */
  function Update(was: ReadResult, i: nat, op: Op): ReadResult {
    if Accepted(op) && SlotOf(op.x, op.z) == i then
      (if 0 < |op.data| <= MAX_PAYLOAD then Data(op.version, op.data) else Corrupt)
    else was
  }

  function LastWrite(was: ReadResult, i: nat, ops: seq<Op>): ReadResult
    decreases |ops|
  {
    if |ops| == 0 then was else LastWrite(Update(was, i, ops[0]), i, ops[1..])
  }

  lemma StepRefines(st: Store, op: Op)
    requires Safe(st)
    requires op.Write? ==> |st.used| + SectorsFor(|op.data|) <= MAX_SECTORS
    ensures var r := Step(st, op);
      && Safe(r)
      && |r.used| <= |st.used| + (if op.Write? then SectorsFor(|op.data|) else 0)
      && (forall i | 0 <= i < SLOTS :: ReadSlot(r, i) == Update(ReadSlot(st, i), i, op))
      && (Exact(st) && (op.Write? ==> |op.data| <= MAX_PAYLOAD) ==> Exact(r))
  {
    hide WriteSlot, Safe, Exact, ReadRecord, Open, Close;
    if Accepted(op) {
      var k := SlotOf(op.x, op.z);
      assert st.Shaped() by { SafeIsShaped(st); }
      WriteKeepsSafe(st, k, op.version, op.data, op.now);
      WrittenUsed(st, k, op.version, op.data, op.now);
      WrittenSlotReads(st, k, op.version, op.data, op.now);
      if Exact(st) && |op.data| <= MAX_PAYLOAD {
        WriteKeepsExact(st, k, op.version, op.data, op.now);
      }
      forall i | 0 <= i < SLOTS && i != k
        ensures ReadSlot(Step(st, op), i) == ReadSlot(st, i)
      {
        OtherSlotUntouched(st, k, op.version, op.data, op.now, i);
      }
    } else if op.Reopen? {
      ReopenRestores(st);
    }
  }

  /** The refinement: after any run of writes and reopenings, in any order and with any arguments, each
      slot reads as its last accepted write says, and no write is seen through any other slot. */
  lemma {:induction false} RunRefinesMap(st: Store, ops: seq<Op>)
    requires Safe(st) && |st.used| + Appends(ops) <= MAX_SECTORS
    ensures Safe(Run(st, ops))
    ensures forall i | 0 <= i < SLOTS :: ReadSlot(Run(st, ops), i) == LastWrite(ReadSlot(st, i), i, ops)
    ensures Exact(st) && (forall op | op in ops :: op.Write? ==> |op.data| <= MAX_PAYLOAD) ==> Exact(Run(st, ops))
    decreases |ops|
  {
    hide Safe, Exact, ReadSlot, Step, Update;
    if |ops| > 0 {
      SafeIsShaped(st);
      StepRefines(st, ops[0]);
      RunRefinesMap(Step(st, ops[0]), ops[1..]);
    }
  }
}
