/** The superblock: nineteen fields in 96 bytes. */
module Superblocks {
  import opened SquashDefs
  import opened Endian
  import opened Inodes
  import opened Metadata
  import opened Records

  const MAGIC: nat := 0x7371_7368
  const NOT_PRESENT: nat := 0xffff_ffff_ffff_ffff

  datatype Super = Super(
    inodes: U32,
    blockSize: U32,
    fragments: U32,
    compression: U16,
    blockLog: U16,
    ids: U16,
    root: Address,
    bytesUsed: U64,
    idTable: U64,
    inodeTable: U64,
    directoryTable: U64,
    fragmentTable: U64)

  const FIRST_WIDTHS: seq<nat> := [4, 4, 4, 4, 4]
  const MIDDLE_WIDTHS: seq<nat> := [2, 2, 2, 2, 2, 2]
  const LAST_WIDTHS: seq<nat> := [8, 8, 8, 8, 8, 8, 8, 8]

  /** Creation time is left at zero. */
  function FirstFields(s: Super): seq<nat> {
    [MAGIC, s.inodes, 0, s.blockSize, s.fragments]
  }

  /** Flags are left at zero; the format's version is 4.0. */
  function MiddleFields(s: Super): seq<nat> {
    [s.compression, s.blockLog, 0, s.ids, 4, 0]
  }

  /** There are no tables of extended attributes or of exports. */
  function LastFields(s: Super): seq<nat> {
    [0x1_0000 * s.root.block + s.root.offset, s.bytesUsed, s.idTable, NOT_PRESENT, s.inodeTable, s.directoryTable,
     s.fragmentTable, NOT_PRESENT]
  }

  function EncodeSuper(s: Super): Bytes {
    Enc(FirstFields(s), FIRST_WIDTHS) + Enc(MiddleFields(s), MIDDLE_WIDTHS) + Enc(LastFields(s), LAST_WIDTHS)
  }

  // ---- The reader ----

  function DecodeSuper(b: Bytes): Option<Super> {
    if |b| < SUPER_SIZE then
      None
    else
      var f, m, l := Dec(b[..20], FIRST_WIDTHS), Dec(b[20..32], MIDDLE_WIDTHS), Dec(b[32..96], LAST_WIDTHS);
      if f[0] != MAGIC || m[4] != 4 || m[5] != 0 then
        None
      else
        Some(Super(Narrow32(f[1]), Narrow32(f[3]), Narrow32(f[4]), Narrow16(m[0]), Narrow16(m[1]), Narrow16(m[3]),
                   Address(Narrow32(l[0] / 0x1_0000), Narrow16(l[0])),
                   Narrow64(l[1]), Narrow64(l[2]), Narrow64(l[4]), Narrow64(l[5]), Narrow64(l[6])))
  }

  lemma SuperWidths()
    ensures Width(FIRST_WIDTHS) == 20 && Width(MIDDLE_WIDTHS) == 12 && Width(LAST_WIDTHS) == 64
  {
    assert Width([4, 4, 4]) == 12 && Width([2, 2, 2]) == 6;
    assert Width([8, 8]) == 16 && Width([8, 8, 8, 8]) == 32 && Width([8, 8, 8, 8, 8, 8]) == 48;
  }

  lemma FirstReadsBack(s: Super)
    ensures Dec(Enc(FirstFields(s), FIRST_WIDTHS), FIRST_WIDTHS) == FirstFields(s)
  {
    hide Enc, Dec, Fits;
    Limits();
    FitsAll(FirstFields(s), FIRST_WIDTHS);
    FieldsAlone(FirstFields(s), FIRST_WIDTHS);
  }

  lemma MiddleReadsBack(s: Super)
    ensures Dec(Enc(MiddleFields(s), MIDDLE_WIDTHS), MIDDLE_WIDTHS) == MiddleFields(s)
  {
    hide Enc, Dec, Fits;
    Limits();
    FitsAll(MiddleFields(s), MIDDLE_WIDTHS);
    FieldsAlone(MiddleFields(s), MIDDLE_WIDTHS);
  }

  lemma LastReadsBack(s: Super)
    ensures Dec(Enc(LastFields(s), LAST_WIDTHS), LAST_WIDTHS) == LastFields(s)
  {
    hide Enc, Dec, Fits;
    Limits();
    FitsAll(LastFields(s), LAST_WIDTHS);
    FieldsAlone(LastFields(s), LAST_WIDTHS);
  }

  lemma RootReadsBack(root: Address)
    ensures (0x1_0000 * root.block + root.offset) / 0x1_0000 == root.block
    ensures Narrow16(0x1_0000 * root.block + root.offset) == root.offset
  {
  }

  /** Every field of the superblock reads back. */
  lemma SuperReadsBack(s: Super)
    ensures |EncodeSuper(s)| == SUPER_SIZE
    ensures DecodeSuper(EncodeSuper(s)) == Some(s)
  {
    hide Enc, Dec, Narrow16, Narrow32, Narrow64, Width;
    SuperWidths();
    var b := EncodeSuper(s);
    var x, y := Enc(FirstFields(s), FIRST_WIDTHS), Enc(MiddleFields(s), MIDDLE_WIDTHS);
    var z := Enc(LastFields(s), LAST_WIDTHS);
    assert b[..20] == x && b[20..32] == y && b[32..96] == z;
    FirstReadsBack(s);
    MiddleReadsBack(s);
    LastReadsBack(s);
    RootReadsBack(s.root);
    Narrowed(s.compression, s.inodes, s.bytesUsed);
    Narrowed(s.blockLog, s.blockSize, s.idTable);
    Narrowed(s.ids, s.fragments, s.inodeTable);
    Narrowed(0, s.root.block, s.directoryTable);
    Narrowed(0, 0, s.fragmentTable);
  }

  // ---- The writer ----

  method PutFirst(header: EndianBuffer, s: Super)
    modifies header
    ensures header.bytes == old(header.bytes) + Enc(FirstFields(s), FIRST_WIDTHS)
  {
    hide Le, Enc;
    Fields5(header.bytes, FirstFields(s), FIRST_WIDTHS);
    header.L32(MAGIC);
    header.L32(s.inodes);
    header.L32(0);
    header.L32(s.blockSize);
    header.L32(s.fragments);
  }

  method PutMiddle(header: EndianBuffer, s: Super)
    modifies header
    ensures header.bytes == old(header.bytes) + Enc(MiddleFields(s), MIDDLE_WIDTHS)
  {
    hide Le, Enc;
    Fields6(header.bytes, MiddleFields(s), MIDDLE_WIDTHS);
    header.L16(s.compression);
    header.L16(s.blockLog);
    header.L16(0);
    header.L16(s.ids);
    header.L16(4);
    header.L16(0);
  }

  method PutLast(header: EndianBuffer, s: Super)
    modifies header
    ensures header.bytes == old(header.bytes) + Enc(LastFields(s), LAST_WIDTHS)
  {
    hide Le, Enc;
    Fields8(header.bytes, LastFields(s), LAST_WIDTHS);
    header.L64(0x1_0000 * s.root.block + s.root.offset);
    header.L64(s.bytesUsed);
    header.L64(s.idTable);
    header.L64(NOT_PRESENT);
    header.L64(s.inodeTable);
    header.L64(s.directoryTable);
    header.L64(s.fragmentTable);
    header.L64(NOT_PRESENT);
  }

  method WriteSuper(s: Super) returns (bytes: Bytes)
    ensures bytes == EncodeSuper(s)
  {
    hide Enc;
    var header := new EndianBuffer();
    PutFirst(header, s);
    assert header.bytes == Enc(FirstFields(s), FIRST_WIDTHS);
    PutMiddle(header, s);
    PutLast(header, s);
    bytes := header.bytes;
  }
}
