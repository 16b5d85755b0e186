/** The region struct and its file, updated in place; every method is refined by a function of Region. */
module RegionFile {
  import opened Bytes
  import opened Region

  datatype Error = BAD_ARG | EMPTY | CORRUPT | BAD_VERSION | IO

  datatype Result<+T> = Ok(value: T) | Err(error: Error)

  /** Two writes in a row at the file position are one write. */
  lemma SpliceTwice(d: bytes, pos: nat, a: bytes, b: bytes)
    requires pos <= |d|
    ensures Splice(Splice(d, pos, a), pos + |a|, b) == Splice(d, pos, a + b)
  {
    var x, y := Splice(Splice(d, pos, a), pos + |a|, b), Splice(d, pos, a + b);
    assert |x| == |y|;
    forall k | 0 <= k < |x| ensures x[k] == y[k] {
    }
  }

  lemma SpliceNothing(d: bytes, pos: nat)
    requires pos <= |d|
    ensures Splice(d, pos, Zeros(0)) == d
  {
  }

  lemma ZerosAdd(m: nat, n: nat)
    ensures Zeros(m) + Zeros(n) == Zeros(m + n)
  {
  }

  /** The error code and the out-parameters for what a slot holds. */
  function Reported(r: ReadResult): Result<(byte, bytes)> {
    match r
    case Data(version, payload) => Ok((version, payload))
    case Empty => Err(EMPTY)
    case Corrupt => Err(CORRUPT)
    case BadVersion => Err(BAD_VERSION)
    case IoError => Err(IO)
  }

  class RegionHandle {
    const off: array<u32>
    const ts: array<u32>
    var used: array<bool>
    // The FILE: its bytes and its position.
    var disk: bytes
    var pos: nat

    ghost predicate Valid()
      reads this, off, ts, used
    {
      && View().Shaped() && pos <= |disk|
      && off != ts
    }

    ghost function View(): Store
      reads this, off, ts, used
    {
      Store(off[..], ts[..], used[..], disk)
    }

    /** fwrite at the current position. */
    method FWrite(b: bytes)
      requires pos <= |disk|
      modifies this`disk, this`pos
      ensures disk == Splice(old(disk), old(pos), b) && pos == old(pos) + |b|
    {
      disk := Splice(disk, pos, b);
      pos := pos + |b|;
    }

    /** n zero bytes, at most a sector at a time. */
    method FWriteZeros(n: nat)
      requires pos <= |disk|
      modifies this`disk, this`pos
      ensures disk == Splice(old(disk), old(pos), Zeros(n)) && pos == old(pos) + n
    {
      hide Splice;
      var pad: nat := n;
      SpliceNothing(disk, pos);
      while pad != 0
        invariant pad <= n && pos == old(pos) + (n - pad) <= |disk|
        invariant disk == Splice(old(disk), old(pos), Zeros(n - pad))
      {
        var w: nat := if pad > SECTOR then SECTOR else pad;
        SpliceTwice(old(disk), old(pos), Zeros(n - pad), Zeros(w));
        ZerosAdd(n - pad, w);
        FWrite(Zeros(w));
        pad := pad - w;
      }
    }

    /** Brings the file up to the header and to whole sectors. */
    method PadFile()
      requires pos == |disk|
      modifies this`disk, this`pos
      ensures disk == old(disk) + Zeros(Rounded(|old(disk)|) - |old(disk)|)
    {
      var size := |disk|;
      var want := if size < HEADER then HEADER else size;
      if want % SECTOR != 0 { want := want + (SECTOR - want % SECTOR); }
      if want > size { FWriteZeros(want - size); }
      assert Splice(old(disk), size, Zeros(want - size)) == old(disk) + Zeros(want - size);
      assert old(disk) + Zeros(0) == old(disk);
    }

    /** minecpp_region_open on the bytes of an existing file, or on none for a created one. */
    constructor (file: bytes)
      ensures Valid() && fresh(off) && fresh(ts) && fresh(used)
      ensures View() == Open(file)
    {
      hide Words, Rounded, Zeros, Splice, Bitmap;
      off, ts := new u32[SLOTS], new u32[SLOTS];
      used := new bool[0];
      disk, pos := file, |file|;
      new;
      PadFile();
      used := new bool[|disk| / SECTOR](_ => false);
      ReadHeader();
      MarkUsed();
      assert used[..] == Bitmap(off[..], |disk| / SECTOR);
    }

    /** The 8192 header bytes, read into the two tables. */
    method ReadHeader()
      requires |disk| >= HEADER && off.Length == SLOTS && ts.Length == SLOTS && off != ts
      modifies this`pos, off, ts
      ensures pos == HEADER
      ensures off[..] == Words(disk[..SECTOR]) && ts[..] == Words(disk[SECTOR..HEADER])
    {
      pos := 0;
      var hdr := disk[..HEADER];
      pos := HEADER;
      ghost var ws, wt := Words(hdr[..SECTOR]), Words(hdr[SECTOR..]);
      for i := 0 to SLOTS
        invariant pos == HEADER
        invariant forall k | 0 <= k < i :: off[k] == ws[k] && ts[k] == wt[k]
      {
        assert hdr[0..SECTOR] == hdr[..SECTOR] && hdr[SECTOR..SECTOR + SECTOR] == hdr[SECTOR..];
        WordInSlice(hdr, 0, i);
        WordInSlice(hdr, SECTOR, i);
        off[i] := FromBe(hdr[i * 4..i * 4 + 4]);
        ts[i] := FromBe(hdr[SECTOR + i * 4..SECTOR + i * 4 + 4]);
      }
      assert hdr[..SECTOR] == disk[..SECTOR] && hdr[SECTOR..] == disk[SECTOR..HEADER];
      assert off[..] == ws && ts[..] == wt;
    }

    /** The i-th word of the sector of b that starts at byte `at`. */
    static lemma WordInSlice(b: bytes, at: nat, i: nat)
      requires at + SECTOR <= |b| && i < SLOTS
      ensures var w := FromBe(b[at + i * 4..at + i * 4 + 4]);
        w < U32 && Words(b[at..at + SECTOR])[i] == w
    {
      RadixValues();
      FromBeRange(b[at + i * 4..at + i * 4 + 4]);
      WordsAt(b[at..at + SECTOR], i);
      SliceOfSlice(b, at, at + SECTOR, 4 * i, 4 * i + 4);
    }

    /** The bitmap of a freshly opened file: the header, then every entry that points into the file. */
    method MarkUsed()
      requires used.Length >= 2 && off.Length == SLOTS
      requires forall k | 0 <= k < used.Length :: !used[k]
      modifies used
      ensures forall s | 0 <= s < used.Length :: used[s] <==> Owned(off[..], used.Length, s)
    {
      used[0], used[1] := true, true;
      var n := used.Length;
      for i := 0 to SLOTS
        invariant forall s | 0 <= s < n :: used[s] <==> Owned(off[..i], n, s)
      {
        var v := off[i];
        var sector, count := v / 256, v % 256;
        assert off[..i + 1] == off[..i] + [v];
        if v == 0 || count == 0 || sector < 2 || sector + count > n {
          assert forall s | 0 <= s < n :: Owned(off[..i], n, s) <==> Owned(off[..i + 1], n, s) by {
            OwnedByOneMore(off[..i], v, n);
          }
        } else {
          OwnedByOneMore(off[..i], v, n);
          Fill(sector, count, true);
        }
      }
      assert off[..SLOTS] == off[..];
    }

    static lemma OwnedByOneMore(entries: seq<u32>, v: u32, n: nat)
      ensures forall s :: Owned(entries + [v], n, s) <==> Owned(entries, n, s) || (InFile(v, n) && Covers(v, s))
    {
      forall s ensures Owned(entries + [v], n, s) <==> Owned(entries, n, s) || (InFile(v, n) && Covers(v, s)) {
        var more := entries + [v];
        if InFile(v, n) && Covers(v, s) {
          assert InFile(more[|entries|], n) && Covers(more[|entries|], s);
        }
        if s >= 2 && Owned(entries, n, s) {
          var i :| 0 <= i < |entries| && InFile(entries[i], n) && Covers(entries[i], s);
          assert InFile(more[i], n) && Covers(more[i], s);
        }
      }
    }

    /** memset on the bitmap. */
    method Fill(s: nat, n: nat, b: bool)
      requires s + n <= used.Length
      modifies used
      ensures used[..] == Marked(old(used[..]), s, n, b)
    {
      for k := s to s + n
        invariant forall j | 0 <= j < used.Length :: used[j] == if s <= j < k then b else old(used[j])
      {
        used[k] := b;
      }
    }

    /** wr32. */
    static method Wr32(b: array<byte>, at: nat, v: u32)
      requires at + 4 <= b.Length
      modifies b
      ensures b[at..at + 4] == Be(v, 4)
      ensures forall k | 0 <= k < b.Length && !(at <= k < at + 4) :: b[k] == old(b[k])
    {
      var w := Be(v, 4);
      b[at], b[at + 1], b[at + 2], b[at + 3] := w[0], w[1], w[2], w[3];
    }

    /** With one more word written behind i of them, i + 1 of them are there. */
    static lemma OneMoreWord(was: bytes, now: bytes, at: nat, xs: seq<u32>, i: nat)
      requires i < |xs| && at + 4 * i + 4 <= |was| == |now|
      requires was[at..at + 4 * i] == BeWords(xs[..i]) && now[at + 4 * i..at + 4 * i + 4] == Be(xs[i], 4)
      requires forall k | at <= k < at + 4 * i :: now[k] == was[k]
      ensures now[at..at + 4 * (i + 1)] == BeWords(xs[..i + 1])
    {
      hide BeWords, Be;
      assert now[at..at + 4 * i] == was[at..at + 4 * i];
      SlicesJoin(now, at, at + 4 * i, at + 4 * i + 4);
      BeWordsSnoc(xs[..i], xs[i]);
      assert xs[..i + 1] == xs[..i] + [xs[i]];
    }

    static lemma TwoTables(hdr: bytes, o: seq<u32>, t: seq<u32>)
      requires |hdr| == HEADER && |o| == |t| == SLOTS
      requires hdr[0..4 * SLOTS] == BeWords(o[..SLOTS]) && hdr[SECTOR..SECTOR + 4 * SLOTS] == BeWords(t[..SLOTS])
      ensures hdr == Header(o, t)
    {
      hide BeWords;
      assert o[..SLOTS] == o && t[..SLOTS] == t;
      SlicesJoin(hdr, 0, SECTOR, HEADER);
      assert hdr == hdr[0..HEADER];
    }

    /** flush_header: both tables, at the start of the file. */
    method FlushHeader()
      requires off.Length == SLOTS && ts.Length == SLOTS
      modifies this`disk, this`pos
      ensures disk == Splice(old(disk), 0, Header(off[..], ts[..])) && pos == HEADER
    {
      hide BeWords, Be, Splice, Header;
      var hdr := new byte[HEADER](_ => 0);
      ghost var o, t := off[..], ts[..];
      NoWords(o, t);
      for i := 0 to SLOTS
        invariant fresh(hdr) && disk == old(disk) && pos == old(pos) && off[..] == o && ts[..] == t
        invariant hdr[0..4 * i] == BeWords(o[..i])
        invariant hdr[SECTOR..SECTOR + 4 * i] == BeWords(t[..i])
      {
        ghost var was := hdr[..];
        Wr32(hdr, i * 4, off[i]);
        Wr32(hdr, SECTOR + i * 4, ts[i]);
        OneMoreWord(was, hdr[..], 0, o, i);
        OneMoreWord(was, hdr[..], SECTOR, t, i);
      }
      TwoTables(hdr[..], o, t);
      pos := 0;
      FWrite(hdr[..]);
    }

    static lemma NoWords(o: seq<u32>, t: seq<u32>)
      ensures BeWords(o[..0]) == [] == BeWords(t[..0])
    {
    }

    /** minecpp_region_close. */
    method CloseFile() returns (file: bytes)
      requires Valid()
      modifies this`disk, this`pos
      ensures file == Close(old(View()))
    {
      FlushHeader();
      file := disk;
    }

    /** grow_sectors: the bitmap reallocated, new sectors free. */
    method GrowSectors(total: nat)
      modifies this`used
      ensures used == old(used) || fresh(used)
      ensures used.Length == Max(old(used.Length), total)
      ensures forall k | 0 <= k < used.Length :: used[k] == (k < old(used.Length) && old(used[..])[k])
    {
      if total <= used.Length { return; }
      var was := used;
      used := new bool[total](k requires 0 <= k reads was => k < was.Length && was[k]);
    }

    /** The skipping first-fit scan: 0 when no run is long enough. */
    method FindRun(need: nat) returns (at: nat)
      requires need > 0 && used.Length >= 2
      ensures at == (if LowestRun(used[..], need, 2) == used.Length then 0 else LowestRun(used[..], need, 2))
    {
      var n := used.Length;
      var s := 2;
      while s + need <= n
        invariant 2 <= s <= n
        invariant LowestRun(used[..], need, 2) == LowestRun(used[..], need, s)
      {
        var k := 0;
        while k < need && !used[s + k]
          invariant k <= need && forall j | s <= j < s + k :: !used[j]
        {
          k := k + 1;
        }
        if k == need {
          assert Free(used[..], s, need);
          return s;
        }
        ScanMaySkip(used[..], need, s, s + k);
        s := s + k + 1;
      }
      return 0;
    }

    /** minecpp_region_timestamp. */
    method Timestamp(x: int, z: int) returns (t: u32)
      requires Valid()
      ensures t == if 0 <= x < 32 && 0 <= z < 32 then View().ts[x + 32 * z] else 0
    {
      if !(0 <= x < SIZE && 0 <= z < SIZE) { return 0; }
      t := ts[z * 32 + x];
    }

    /** minecpp_region_read_raw. */
    method ReadRaw(x: int, z: int) returns (r: Result<(byte, bytes)>)
      requires Valid()
      modifies this`pos
      ensures Valid() && View() == old(View())
      ensures r == if !CoordsOk(x, z) then Err(BAD_ARG) else Reported(ReadSlot(View(), x + 32 * z))
    {
      hide ReadRecord;
      if !(0 <= x < SIZE && 0 <= z < SIZE) { return Err(BAD_ARG); }
      var v := off[z * 32 + x];
      if v == 0 { return Err(EMPTY); }
      var sector, count := v / 256, v % 256;
      if count == 0 || sector < 2 || sector + count > used.Length { return Err(CORRUPT); }
      r := ReadAt(sector * SECTOR, count);
    }

    /** The record at byte `at`: its head, then its payload. */
    method ReadAt(at: nat, count: nat) returns (r: Result<(byte, bytes)>)
      requires count > 0 && at + count * SECTOR <= |disk|
      modifies this`pos
      ensures pos <= |disk| && r == Reported(ReadRecord(disk, at, count))
    {
      hide FromBe;
      pos := at;
      var head := disk[pos..pos + 5];
      pos := pos + 5;
      SliceOfSlice(disk, at, at + 5, 0, 4);
      assert head[0..4] == head[..4];
      var len := FromBe(head[..4]);
      if len > count * SECTOR || len < 2 { return Err(CORRUPT); }
      if head[4] != 1 && head[4] != 2 { return Err(BAD_VERSION); }
      if pos + (len - 1) > |disk| { return Err(IO); }
      r := Ok((head[4], disk[pos..pos + (len - 1)]));
      pos := pos + (len - 1);
    }

    /** Where the next record of `need` sectors for slot i goes: the old place, or a free run, or the end. */
    method Allocate(i: nat, need: nat) returns (at: nat)
      requires Valid() && i < SLOTS && need > 0
      modifies this`used, used, off
      ensures used == old(used) || fresh(used)
      ensures at == Place(old(View()), i, need) && ts[..] == old(ts[..])
      ensures off[..] == if old(Reuses(View(), i, need)) then old(off[..]) else old(off[..])[i := Entry(at, need)]
      ensures used[..] == if old(Reuses(View(), i, need)) then old(used[..])
                          else Marked(old(Freed(View(), i)), at, need, true)
    {
      var old_ := off[i];
      var osector, ocount := old_ / 256, old_ % 256;
      if old_ != 0 && ocount >= need && osector >= 2 && osector + ocount <= used.Length {
        return osector;
      }
      if old_ != 0 && ocount != 0 && osector >= 2 && osector + ocount <= used.Length {
        Fill(osector, ocount, false);
      }
      ghost var freed := used[..];
      assert freed == old(Freed(View(), i));
      at := FindRun(need);
      if at == 0 {
        at := used.Length;
        GrowSectors(used.Length + need);
      }
      Fill(at, need, true);
      assert used[..] == Marked(freed, at, need, true);
      off[i] := Entry(at, need);
    }

    /** minecpp_region_write_raw; `now` is the clock. */
    method WriteRaw(x: int, z: int, version: byte, data: bytes, now: u32) returns (r: Result<()>)
      requires Valid()
      modifies this`disk, this`pos, this`used, used, off, ts
      ensures Valid() && (used == old(used) || fresh(used))
      ensures var accepted := CoordsOk(x, z) && (version == 1 || version == 2) && |data| <= 0xFFFF_FFFE;
        && r == (if accepted then Ok(()) else Err(BAD_ARG))
        && View() == if accepted then WriteSlot(old(View()), x + 32 * z, version, data, now) else old(View())
    {
      hide WriteSlot;
      if !(0 <= x < SIZE && 0 <= z < SIZE) { return Err(BAD_ARG); }
      if version != 1 && version != 2 { return Err(BAD_ARG); }
      if |data| > 0xFFFF_FFFE { return Err(BAD_ARG); }
      WriteAt(z * 32 + x, version, data, now);
      r := Ok(());
    }

    /** The record and its padding, from the first byte of sector `at`. */
    method WriteRecord(at: nat, version: byte, data: bytes)
      requires at * SECTOR <= |disk|
      modifies this`disk, this`pos
      ensures disk == Splice(old(disk), at * SECTOR, Record(version, data))
    {
      hide Splice, Zeros, Be;
      var total := |data| + 5;
      pos := at * SECTOR;
      var head: bytes := Be(|data| + 1, 4) + [version];
      FWrite(head);
      if |data| > 0 { FWrite(data); }
      assert disk == Splice(old(disk), at * SECTOR, head + data) by {
        SpliceTwice(old(disk), at * SECTOR, head, data);
        assert |data| == 0 ==> head + data == head;
      }
      var pad := SectorsFor(|data|) * SECTOR - total;
      FWriteZeros(pad);
      SpliceTwice(old(disk), at * SECTOR, head + data, Zeros(pad));
      assert head + data + Zeros(pad) == Record(version, data);
    }

    /** The write itself: sectors, record, timestamp, header. */
    method WriteAt(idx: nat, version: byte, data: bytes, now: u32)
      requires Valid() && idx < SLOTS
      modifies this`disk, this`pos, this`used, used, off, ts
      ensures Valid() && (used == old(used) || fresh(used))
      ensures View() == WriteSlot(old(View()), idx, version, data, now)
    {
      hide Splice, Header, Record, Place, Freed, Reuses, Marked;
      var need := (|data| + 5 + 4095) / SECTOR;
      var at := Allocate(idx, need);
      WriteRecord(at, version, data);
      ts[idx] := now;
      FlushHeader();
      assert View() == WriteSlot(old(View()), idx, version, data, now);
    }
  }
}
