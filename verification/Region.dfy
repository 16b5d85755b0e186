/** The region file of src/core/src/region.c on values: header, sector bitmap and disk bytes. */
module Region {
  import opened Bytes

  const SIZE: nat := 32
  const SLOTS: nat := 1024
  const SECTOR: nat := 4096
  const HEADER: nat := 8192
  /** The longest payload whose record fits the 255 sectors an offset entry can count. */
  const MAX_PAYLOAD: nat := 255 * 4096 - 5
  const MAX_SECTORS: nat := 0x100_0000

  /** The struct, with the file's bytes in place of its FILE pointer. */
  datatype Store = Store(off: seq<u32>, ts: seq<u32>, used: seq<bool>, disk: bytes) {
    predicate Shaped() {
      |off| == SLOTS && |ts| == SLOTS && |used| >= 2 && |disk| == |used| * SECTOR
    }
  }

  // ---------------------------------------------------------------- offset entries

  /** An offset entry packs a 24-bit sector number and an 8-bit sector count. */
  function SectorOf(v: u32): nat {
    v / 256
  }

  function CountOf(v: u32): nat {
    v % 256
  }

  function Entry(at: nat, need: nat): u32 {
    (at * 256 + need % 256) % 0x1_0000_0000
  }

  /** The entry points at sectors of a file of n sectors, past the header. */
  predicate InFile(v: u32, n: nat) {
    CountOf(v) > 0 && SectorOf(v) >= 2 && SectorOf(v) + CountOf(v) <= n
  }

  predicate Covers(v: u32, s: nat) {
    SectorOf(v) <= s < SectorOf(v) + CountOf(v)
  }

  predicate CoordsOk(x: int, z: int) {
    0 <= x < SIZE && 0 <= z < SIZE
  }

  function SlotOf(x: int, z: int): (i: nat)
    requires CoordsOk(x, z)
    ensures i < SLOTS
  {
    z * 32 + x
  }

  // ---------------------------------------------------------------- reading a slot

  datatype ReadResult = Data(version: byte, payload: bytes) | Empty | Corrupt | BadVersion | IoError

  /** minecpp_region_read_raw, by slot number. */
  function ReadSlot(st: Store, i: nat): ReadResult
    requires st.Shaped() && i < SLOTS
  {
    var v := st.off[i];
    if v == 0 then Empty
    else if !InFile(v, |st.used|) then Corrupt
    else ReadRecord(st.disk, SectorOf(v) * SECTOR, CountOf(v))
  }

  function ReadRecord(disk: bytes, at: nat, count: nat): ReadResult
    requires count > 0 && at + count * SECTOR <= |disk|
  {
    var len := FromBe(disk[at..at + 4]);
    if len > count * SECTOR || len < 2 then Corrupt
    else if disk[at + 4] != 1 && disk[at + 4] != 2 then BadVersion
    else if at + 4 + len > |disk| then IoError
    else Data(disk[at + 4], disk[at + 5..at + 4 + len])
  }

  // ---------------------------------------------------------------- finding room

  predicate Free(used: seq<bool>, s: nat, n: nat) {
    s + n <= |used| && forall k | s <= k < s + n :: !used[k]
  }

  /** The lowest run of `need` free sectors at s or above; the end of the file when there is none. */
  function LowestRun(used: seq<bool>, need: nat, s: nat): (at: nat)
    requires need > 0 && s <= |used|
    ensures s <= at <= |used|
    ensures at == |used| || Free(used, at, need)
    ensures forall t | s <= t < at :: !Free(used, t, need)
    decreases |used| - s
  {
    if s + need > |used| then |used|
    else if Free(used, s, need) then s
    else LowestRun(used, need, s + 1)
  }

  /** A used sector within reach rules out every start up to it: the scan may jump past it. */
  lemma {:induction false} ScanMaySkip(used: seq<bool>, need: nat, s: nat, b: nat)
    requires need > 0 && s <= b < s + need && b < |used| && used[b]
    ensures LowestRun(used, need, s) == LowestRun(used, need, b + 1)
    decreases b - s
  {
    if s < b {
      ScanMaySkip(used, need, s + 1, b);
    }
  }

  /** used with sectors [s, s + n) set to b, grown by free sectors if it has to reach so far. */
  function Marked(used: seq<bool>, s: nat, n: nat, b: bool): (r: seq<bool>)
    requires s <= |used|
    ensures |r| == if s + n > |used| then s + n else |used|
    ensures forall k | 0 <= k < |r| :: r[k] == if s <= k < s + n then b else used[k]
  {
    seq(if s + n > |used| then s + n else |used|,
        k requires 0 <= k < (if s + n > |used| then s + n else |used|) => if s <= k < s + n then b else used[k])
  }

  // ---------------------------------------------------------------- writing a slot

  function SectorsFor(len: nat): (n: nat)
    ensures n > 0 && (n - 1) * SECTOR < len + 5 <= n * SECTOR
  {
    (len + 5 + 4095) / SECTOR
  }

  /** Length, version, payload, and zeros up to the end of the last sector. */
  function Record(version: byte, data: bytes): (r: bytes)
    ensures |r| == SectorsFor(|data|) * SECTOR
  {
    Be(|data| + 1, 4) + [version] + data + Zeros(SectorsFor(|data|) * SECTOR - |data| - 5)
  }

  /** b written over disk at pos, which may be its end. */
  function Splice(disk: bytes, pos: nat, b: bytes): (r: bytes)
    requires pos <= |disk|
    ensures |r| == if pos + |b| > |disk| then pos + |b| else |disk|
  {
    disk[..pos] + b + if pos + |b| < |disk| then disk[pos + |b|..] else []
  }

  function Header(off: seq<u32>, ts: seq<u32>): (r: bytes)
    ensures |r| == 4 * |off| + 4 * |ts|
  {
    BeWords(off) + BeWords(ts)
  }

  /** The slot's old sectors can be overwritten where they are. */
  predicate Reuses(st: Store, i: nat, need: nat)
    requires st.Shaped() && i < SLOTS
  {
    st.off[i] != 0 && CountOf(st.off[i]) >= need && SectorOf(st.off[i]) >= 2
    && SectorOf(st.off[i]) + CountOf(st.off[i]) <= |st.used|
  }

  /** The bitmap once the slot's old sectors are given back. */
  function Freed(st: Store, i: nat): (used: seq<bool>)
    requires st.Shaped() && i < SLOTS
    ensures |used| == |st.used|
  {
    var v := st.off[i];
    if v != 0 && InFile(v, |st.used|) then Marked(st.used, SectorOf(v), CountOf(v), false) else st.used
  }

  /** Where the record goes. */
  function Place(st: Store, i: nat, need: nat): (at: nat)
    requires st.Shaped() && i < SLOTS && need > 0
    ensures 2 <= at <= |st.used|
  {
    if Reuses(st, i, need) then SectorOf(st.off[i]) else LowestRun(Freed(st, i), need, 2)
  }

  /** minecpp_region_write_raw past its argument checks, without I/O failure. */
  function WriteSlot(st: Store, i: nat, version: byte, data: bytes, now: u32): (r: Store)
    requires st.Shaped() && i < SLOTS
    ensures r.Shaped()
  {
    var need := SectorsFor(|data|);
    var at := Place(st, i, need);
    var off := if Reuses(st, i, need) then st.off else st.off[i := Entry(at, need)];
    var used := if Reuses(st, i, need) then st.used else Marked(Freed(st, i), at, need, true);
    var ts := st.ts[i := now];
    var disk := Splice(st.disk, at * SECTOR, Record(version, data));
    Store(off, ts, used, Splice(disk, 0, Header(off, ts)))
  }

  // ---------------------------------------------------------------- opening and closing

  function Max(a: nat, b: nat): nat {
    if a > b then a else b
  }

  /** A file's size brought up to the header and to whole sectors. */
  function Rounded(n: nat): (r: nat)
    ensures r >= n && r >= HEADER && r % SECTOR == 0
    ensures n >= HEADER && n % SECTOR == 0 ==> r == n
  {
    var want := Max(n, HEADER);
    if want % SECTOR != 0 then want + (SECTOR - want % SECTOR) else want
  }

  /** Sector s belongs to the header or to an entry that points into the file. */
  predicate Owned(off: seq<u32>, n: nat, s: nat) {
    s < 2 || exists i :: 0 <= i < |off| && InFile(off[i], n) && Covers(off[i], s)
  }

  function Bitmap(off: seq<u32>, n: nat): (used: seq<bool>)
    ensures |used| == n && forall s | 0 <= s < n :: used[s] <==> Owned(off, n, s)
  {
    seq(n, s requires 0 <= s < n => Owned(off, n, s))
  }

  function Open(file: bytes): (st: Store)
    ensures st.Shaped()
  {
    var disk := file + Zeros(Rounded(|file|) - |file|);
    var off := Words(disk[..SECTOR]);
    Store(off, Words(disk[SECTOR..HEADER]), Bitmap(off, |disk| / SECTOR), disk)
  }

  /** What close leaves on disk: the header once more. */
  function Close(st: Store): bytes
    requires st.Shaped()
  {
    Splice(st.disk, 0, Header(st.off, st.ts))
  }
}
