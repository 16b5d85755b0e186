/** A section's byte arrays, read and written in place. */
module SectionStore {
  import opened Bytes
  import opened Blocks
  import opened Wire
  import opened Nbt
  import opened ChunkNbt

  method SetNibble(a: array<byte>, i: nat, v: nat)
    requires i / 2 < a.Length
    modifies a
    ensures a[..] == NibbleSet(old(a[..]), i, v)
  {
    var b := a[i / 2];
    a[i / 2] := if i % 2 == 0 then b / 16 * 16 + v % 16 else b % 16 + v % 16 * 16;
  }

  class Cells {
    const y: byte
    const blocks: array<byte>
    const data: array<byte>
    const add: array<byte>
    const blockLight: array<byte>
    const skyLight: array<byte>
    var hasAdd: bool

    ghost function Foot(): set<object> {
      {this, blocks, data, add, blockLight, skyLight}
    }

    ghost predicate Valid() {
      && blocks.Length == CELLS
      && data.Length == add.Length == blockLight.Length == skyLight.Length == NIBBLES
      && data != add && data != blockLight && data != skyLight
      && add != blockLight && add != skyLight && blockLight != skyLight
    }

    ghost function Value(): (s: Section)
      requires Valid()
      reads this, blocks, data, add, blockLight, skyLight
      ensures s.Sized()
    {
      Section(y, blocks[..], data[..], add[..], hasAdd, blockLight[..], skyLight[..])
    }

    constructor (y: byte)
      ensures Valid() && fresh(Foot()) && Value() == EmptySection(y)
    {
      this.y, hasAdd := y, false;
      blocks := new byte[CELLS](_ => 0);
      data := new byte[NIBBLES](_ => 0);
      add := new byte[NIBBLES](_ => 0);
      blockLight := new byte[NIBBLES](_ => 0);
      skyLight := new byte[NIBBLES](_ => 0);
      new;
      AllZero(blocks[..]);
      AllZero(data[..]);
      AllZero(add[..]);
      AllZero(blockLight[..]);
      AllZero(skyLight[..]);
    }

    /** A section filled from the arrays of an NBT compound. */
    constructor Of(s: Section)
      requires s.Sized()
      ensures Valid() && fresh(Foot()) && Value() == s
    {
      y, hasAdd := s.y, s.hasAdd;
      blocks := new byte[CELLS](i requires 0 <= i < CELLS => s.blocks[i]);
      data := new byte[NIBBLES](i requires 0 <= i < NIBBLES => s.data[i]);
      add := new byte[NIBBLES](i requires 0 <= i < NIBBLES => s.add[i]);
      blockLight := new byte[NIBBLES](i requires 0 <= i < NIBBLES => s.blockLight[i]);
      skyLight := new byte[NIBBLES](i requires 0 <= i < NIBBLES => s.skyLight[i]);
      new;
      assert blocks[..] == s.blocks && data[..] == s.data && add[..] == s.add;
      assert blockLight[..] == s.blockLight && skyLight[..] == s.skyLight;
    }

    /** Is the section to be written with its Add array? */
    method NeedsAdd() returns (b: bool)
      requires Valid()
      ensures b == WritesAdd(Value())
    {
      b := hasAdd;
      var i := 0;
      while i < NIBBLES && !b
        invariant i <= NIBBLES
        invariant b == (hasAdd || exists j :: 0 <= j < i && add[..][j] != 0)
      {
        if add[i] != 0 {
          b := true;
          assert add[..][i] != 0;
        }
        i := i + 1;
      }
    }

    /** The section as ChunkToRoot writes it. */
    method Written() returns (v: Val)
      requires Valid()
      ensures v == SectionVal(Value())
    {
      hide NameOf;
      var b := NeedsAdd();
      var es: Entries := [(BlockLight, ByteArray(blockLight[..]))] + ([(SkyLight, ByteArray(skyLight[..]))] + []);
      if b {
        es := [(Add, ByteArray(add[..]))] + es;
      } else {
        assert [] + es == es;
      }
      v := Compound(Tagged([(Y, Num(KByte, y))]
        + ([(BlockIds, ByteArray(blocks[..]))] + ([(Data, ByteArray(data[..]))] + es))));
    }

    method Get(i: nat) returns (id: nat, meta: nat)
      requires Valid() && i < CELLS
      ensures id == IdAt(Value(), i) && meta == MetaAt(Value(), i)
    {
      id := blocks[i];
      if hasAdd {
        id := id + NibbleGet(add[..], i) * 256;
      }
      meta := NibbleGet(data[..], i);
    }

    /** BlockSet within a section. */
    method Put(i: nat, id: nat, meta: nat)
      requires Valid() && i < CELLS && id < 4096 && meta < 16
      modifies this`hasAdd, blocks, data, add
      ensures Value() == SetAt(old(Value()), i, id, meta)
    {
      hide NibbleSet;
      blocks[i] := id % 256;
      if id > 255 {
        hasAdd := true;
        SetNibble(add, i, id / 256);
      } else if hasAdd {
        SetNibble(add, i, 0);
      }
      SetNibble(data, i, meta);
    }

    /** AppendSectionNet into an empty vector. */
    method Net() returns (d: bytes)
      requires Valid()
      ensures d == SectionNet(Value())
    {
      hide IdAt, MetaAt, CellValue;
      var out := new byte[CELL_BYTES];
      var i := 0;
      while i < CELLS
        invariant i <= CELLS && fresh(out)
        invariant forall j | 0 <= j < 2 * i ::
          out[j] == if j % 2 == 0 then CellValue(Value(), j / 2) % 256 else CellValue(Value(), j / 2) / 256
      {
        var v := Packed16(i);
        out[2 * i], out[2 * i + 1] := v % 256, v / 256;
        i := i + 1;
      }
      d := out[..] + blockLight[..] + skyLight[..];
    }

    method Packed16(i: nat) returns (v: nat)
      requires Valid() && i < CELLS
      ensures v == CellValue(Value(), i) && v < 0x1_0000
    {
      var id, meta := Get(i);
      v := id * 16 + meta;
    }

    /** The loop of ApplyChunkData over one section's bytes. */
    method TakeNet(d: bytes)
      requires Valid() && |d| == SECTION_BYTES
      modifies this`hasAdd, blocks, data, add, blockLight, skyLight
      ensures Value() == FromNet(old(Value()), d)
    {
      hide NibbleGet, CellOf, Packed, AnyHigh;
      TakeCells(d);
      TakeLight(d);
    }

    method TakeLight(d: bytes)
      requires Valid() && |d| == SECTION_BYTES
      modifies blockLight, skyLight
      ensures blockLight[..] == d[CELL_BYTES..CELL_BYTES + NIBBLES] && skyLight[..] == d[CELL_BYTES + NIBBLES..]
    {
      for i := 0 to NIBBLES
        invariant forall j | 0 <= j < i :: blockLight[j] == d[CELL_BYTES + j]
      {
        blockLight[i] := d[CELL_BYTES + i];
      }
      for i := 0 to NIBBLES
        invariant forall j | 0 <= j < NIBBLES :: blockLight[j] == d[CELL_BYTES + j]
        invariant forall j | 0 <= j < i :: skyLight[j] == d[CELL_BYTES + NIBBLES + j]
      {
        skyLight[i] := d[CELL_BYTES + NIBBLES + i];
      }
    }

    method TakeCells(d: bytes)
      requires Valid() && |d| == SECTION_BYTES
      modifies this`hasAdd, blocks, data, add
      ensures hasAdd == AnyHigh(d, CELLS)
      ensures blocks[..] == FromNet(old(Value()), d).blocks
      ensures data[..] == Packed(MetaNibbles(d)) && add[..] == Packed(AddNibbles(old(add[..]), d))
    {
      hide NibbleGet, CellOf, Packed;
      hasAdd := false;
      var i := 0;
      ghost var was := add[..];
      while i < CELLS
        invariant i <= CELLS && hasAdd == AnyHigh(d, i)
        invariant forall j | 0 <= j < i :: blocks[j] == CellOf(d, j) / 16 % 256
        invariant forall j | 0 <= j < i :: NibbleGet(data[..], j) == CellOf(d, j) % 16
        invariant forall j | 0 <= j < i ::
          NibbleGet(add[..], j) == if CellOf(d, j) / 4096 != 0 then CellOf(d, j) / 4096 else NibbleGet(was, j)
        invariant forall j | i <= j < CELLS :: NibbleGet(add[..], j) == NibbleGet(was, j)
      {
        TakeCell(d, i);
        i := i + 1;
      }
      SamePacked(data[..], MetaNibbles(d));
      SamePacked(add[..], AddNibbles(was, d));
    }

    method TakeCell(d: bytes, i: nat)
      requires Valid() && |d| == SECTION_BYTES && i < CELLS
      modifies this`hasAdd, blocks, data, add
      ensures hasAdd == (CellOf(d, i) / 4096 != 0 || old(hasAdd))
      ensures blocks[..] == old(blocks[..])[i := CellOf(d, i) / 16 % 256]
      ensures forall j | 0 <= j < CELLS ::
        NibbleGet(data[..], j) == if j == i then CellOf(d, i) % 16 else NibbleGet(old(data[..]), j)
      ensures forall j | 0 <= j < CELLS && j != i :: NibbleGet(add[..], j) == NibbleGet(old(add[..]), j)
      ensures NibbleGet(add[..], i) ==
        if CellOf(d, i) / 4096 != 0 then CellOf(d, i) / 4096 else NibbleGet(old(add[..]), i)
    {
      hide NibbleGet, NibbleSet;
      var lo: nat, hi: nat := d[2 * i], d[2 * i + 1];
      var v := lo + hi * 256;
      ghost var data0, add0 := data[..], add[..];
      blocks[i] := v / 16 % 256;
      SetNibble(data, i, v % 16);
      var high := v / 4096;
      if high != 0 {
        hasAdd := true;
        SetNibble(add, i, high);
      }
      forall j | 0 <= j < CELLS
        ensures NibbleGet(NibbleSet(data0, i, v % 16), j) == if j == i then v % 16 else NibbleGet(data0, j)
        ensures NibbleGet(NibbleSet(add0, i, high), j) == if j == i then high else NibbleGet(add0, j)
      {
        NibbleSetReads(data0, i, v % 16, j);
        NibbleSetReads(add0, i, high, j);
      }
    }
  }

  lemma AllZero(a: bytes)
    requires forall i | 0 <= i < |a| :: a[i] == 0
    ensures a == Zeros(|a|)
  {
  }

  lemma SamePacked(a: bytes, ns: seq<nibble>)
    requires |ns| == 2 * |a| && forall i | 0 <= i < |ns| :: NibbleGet(a, i) == ns[i]
    ensures a == Packed(ns)
  {
    hide NibbleGet, Packed;
    forall i: nat | i < |ns| ensures NibbleGet(a, i) == NibbleGet(Packed(ns), i) {
      PackedReads(ns, i);
    }
    SameNibbles(a, Packed(ns));
  }
}
