/** The superblock byte by byte, as the format's description has it: also the fields a reader
    passes over. */
module HeaderLayout {
  import opened SquashDefs
  import opened Endian
  import opened FormatBytes
  import opened Metadata
  import opened PendingWrites
  import opened Inodes
  import opened Superblocks
  import opened Images
  import opened ImageRoundTrip

  /** What every image has in common: "hsqs", no creation time, no flags, version 4.0, and no
      tables of attributes or exports. */
  predicate FixedBytes(b: Bytes) {
    && 96 <= |b|
    && b[0..4] == [0x68, 0x73, 0x71, 0x73]
    && b[8..12] == [0, 0, 0, 0]
    && b[24..26] == [0, 0]
    && b[28..32] == [4, 0, 0, 0]
    && b[56..64] == [0xff, 0xff, 0xff, 0xff, 0xff, 0xff, 0xff, 0xff]
    && b[88..96] == [0xff, 0xff, 0xff, 0xff, 0xff, 0xff, 0xff, 0xff]
  }

  /** Where each field of the superblock is. */
  predicate FieldsInPlace(b: Bytes, s: Super) {
    && 96 <= |b|
    && At32(b, 4) == s.inodes && At32(b, 12) == s.blockSize && At32(b, 16) == s.fragments
    && At16(b, 20) == s.compression && At16(b, 22) == s.blockLog && At16(b, 26) == s.ids
    && At16(b, 32) == s.root.offset && At32(b, 34) == s.root.block && At16(b, 38) == 0
    && At64(b, 40) == s.bytesUsed && At64(b, 48) == s.idTable
    && At64(b, 64) == s.inodeTable && At64(b, 72) == s.directoryTable && At64(b, 80) == s.fragmentTable
  }

  lemma FirstOffsets()
    ensures var w := FIRST_WIDTHS;
            Offset(w, 0) == 0 && Offset(w, 1) == 4 && Offset(w, 2) == 8 && Offset(w, 3) == 12 && Offset(w, 4) == 16
  {
  }

  lemma MiddleOffsets()
    ensures var w := MIDDLE_WIDTHS;
            Offset(w, 0) == 0 && Offset(w, 1) == 2 && Offset(w, 2) == 4 && Offset(w, 3) == 6 && Offset(w, 4) == 8
            && Offset(w, 5) == 10
  {
  }

  lemma LastOffsets()
    ensures var w := LAST_WIDTHS;
            Offset(w, 0) == 0 && Offset(w, 1) == 8 && Offset(w, 2) == 16 && Offset(w, 3) == 24 && Offset(w, 4) == 32
            && Offset(w, 5) == 40 && Offset(w, 6) == 48 && Offset(w, 7) == 56
  {
  }

  /** The fixed fields, spelled out. */
  lemma FixedFields()
    ensures Le(0x7371_7368, 4) == [0x68, 0x73, 0x71, 0x73] && Le(0, 4) == [0, 0, 0, 0] && Le(0, 2) == [0, 0]
    ensures Le(4, 2) == [4, 0] && Le(0xffff_ffff_ffff_ffff, 8) == [0xff, 0xff, 0xff, 0xff, 0xff, 0xff, 0xff, 0xff]
  {
    hide Le;
    TwoBytes(0x7371);
    TwoBytes(0);
    TwoBytes(4);
    FourBytes(0x7371_7368);
    FourBytes(0);
    Ones();
  }

  lemma TwoBytes(n: U16)
    ensures Le(n, 2) == [n % 256, n / 256]
  {
    hide Le;
    LeUnfold(n, 2);
    LeUnfold(n / 256, 1);
    NoBytes(n / 256 / 256);
  }

  lemma NoBytes(n: nat)
    ensures Le(n, 0) == []
  {
  }

  lemma FourBytes(n: U32)
    ensures Le(n, 4) == [n % 256, n / 256 % 256] + Le(n / 0x1_0000, 2)
  {
    hide Le;
    LeUnfold(n, 4);
    LeUnfold(n / 256, 3);
  }

  lemma Ones()
    ensures Le(0xffff_ffff_ffff_ffff, 8) == [0xff, 0xff, 0xff, 0xff, 0xff, 0xff, 0xff, 0xff]
  {
    hide Le;
    Split4(0xffff_ffff_ffff_ffff, 4);
    FourBytes(0xffff_ffff);
    TwoBytes(0xffff);
  }

  lemma FirstInPlace(b: Bytes, s: Super)
    requires 96 <= |b| && PartAt(b, 0, Enc(FirstFields(s), FIRST_WIDTHS))
    ensures b[0..4] == [0x68, 0x73, 0x71, 0x73] && b[8..12] == [0, 0, 0, 0]
    ensures At32(b, 4) == s.inodes && At32(b, 12) == s.blockSize && At32(b, 16) == s.fragments
  {
    hide Enc, Le, At32, Offset;
    var v, w := FirstFields(s), FIRST_WIDTHS;
    FirstOffsets();
    FixedFields();
    RecordField(b, 0, v, w, 0);
    RecordField(b, 0, v, w, 1);
    RecordField(b, 0, v, w, 2);
    RecordField(b, 0, v, w, 3);
    RecordField(b, 0, v, w, 4);
  }

  lemma MiddleInPlace(b: Bytes, s: Super)
    requires 96 <= |b| && PartAt(b, 20, Enc(MiddleFields(s), MIDDLE_WIDTHS))
    ensures b[24..26] == [0, 0] && b[28..32] == [4, 0, 0, 0]
    ensures At16(b, 20) == s.compression && At16(b, 22) == s.blockLog && At16(b, 26) == s.ids
  {
    hide Enc, Le, At16, Offset;
    var v, w := MiddleFields(s), MIDDLE_WIDTHS;
    MiddleOffsets();
    FixedFields();
    RecordField(b, 20, v, w, 0);
    RecordField(b, 20, v, w, 1);
    RecordField(b, 20, v, w, 2);
    RecordField(b, 20, v, w, 3);
    RecordField(b, 20, v, w, 4);
    RecordField(b, 20, v, w, 5);
    assert b[28..32] == b[28..30] + b[30..32];
  }

  lemma LastInPlace(b: Bytes, s: Super)
    requires 96 <= |b| && PartAt(b, 32, Enc(LastFields(s), LAST_WIDTHS))
    ensures b[56..64] == [0xff, 0xff, 0xff, 0xff, 0xff, 0xff, 0xff, 0xff]
    ensures b[88..96] == [0xff, 0xff, 0xff, 0xff, 0xff, 0xff, 0xff, 0xff]
    ensures At64(b, 32) == 0x1_0000 * s.root.block + s.root.offset
    ensures At64(b, 40) == s.bytesUsed && At64(b, 48) == s.idTable
    ensures At64(b, 64) == s.inodeTable && At64(b, 72) == s.directoryTable && At64(b, 80) == s.fragmentTable
  {
    hide Enc, Le, At64, Offset;
    var v, w := LastFields(s), LAST_WIDTHS;
    LastOffsets();
    FixedFields();
    RecordField(b, 32, v, w, 0);
    RecordField(b, 32, v, w, 1);
    RecordField(b, 32, v, w, 2);
    RecordField(b, 32, v, w, 3);
    RecordField(b, 32, v, w, 4);
    RecordField(b, 32, v, w, 5);
    RecordField(b, 32, v, w, 6);
    RecordField(b, 32, v, w, 7);
  }

  /** A reference to an inode: the offset in the low 16 bits, the block in the 32 above. */
  lemma RootInPlace(b: Bytes, root: Address)
    requires 96 <= |b| && At64(b, 32) == 0x1_0000 * root.block + root.offset
    ensures At16(b, 32) == root.offset && At32(b, 34) == root.block && At16(b, 38) == 0
  {
    hide At16;
    var a, c, d, e := At16(b, 32), At16(b, 34), At16(b, 36), At16(b, 38);
    assert At64(b, 32) == a + 0x1_0000 * c + 0x1_0000_0000 * (d + 0x1_0000 * e);
    Digits(a, c, d, e, root.block, root.offset);
  }

  lemma Digits(a: nat, c: nat, d: nat, e: nat, block: U32, offset: U16)
    requires a < 0x1_0000 && c < 0x1_0000 && d < 0x1_0000
    requires a + 0x1_0000 * c + 0x1_0000_0000 * (d + 0x1_0000 * e) == 0x1_0000 * block + offset
    ensures a == offset && c + 0x1_0000 * d == block && e == 0
  {
  }

  /** The superblock in front of anything. */
  lemma SuperInPlace(b: Bytes, s: Super)
    requires PartAt(b, 0, EncodeSuper(s))
    ensures FixedBytes(b) && FieldsInPlace(b, s)
  {
    hide Enc, At16, At32, At64;
    SuperWidths();
    var x, y := Enc(FirstFields(s), FIRST_WIDTHS), Enc(MiddleFields(s), MIDDLE_WIDTHS);
    var z := Enc(LastFields(s), LAST_WIDTHS);
    assert PartAt(EncodeSuper(s), 0, x) && PartAt(EncodeSuper(s), 20, y) && PartAt(EncodeSuper(s), 32, z);
    PartWithin(b, 0, EncodeSuper(s), 0, x);
    PartWithin(b, 0, EncodeSuper(s), 20, y);
    PartWithin(b, 0, EncodeSuper(s), 32, z);
    FirstInPlace(b, s);
    MiddleInPlace(b, s);
    LastInPlace(b, s);
    RootInPlace(b, s.root);
  }

  // ---- The image ----

  lemma FrontIsHeader(file: OutFile, tables: Bytes, header: Bytes)
    requires file.pos <= |file.bytes| && |header| == 96
    ensures PartAt(Finished(file, tables, header), 0, header)
  {
    var f := WriteBytes(file, tables);
    var g := WriteBytes(f.(pos := 0), header);
    var end := f.pos + (PAD_SIZE - f.pos % PAD_SIZE);
    assert g.bytes[..96] == header;
    NotShort(f.pos);
  }

  lemma NotShort(n: nat)
    ensures 96 <= n + (PAD_SIZE - n % PAD_SIZE)
  {
  }

  /** Every image, whatever was packed, starts with these bytes. */
  lemma ImageStartsWith(p: Packed, blockLog: U16, compression: U16)
    requires FileOk(p.w)
    ensures FixedBytes(ImageOf(p, blockLog, compression))
    ensures FieldsInPlace(ImageOf(p, blockLog, compression), SuperFor(p, blockLog, compression))
  {
    hide EncodeSuper, Finished, AllTables, TablesFor, SuperFor, FixedBytes, FieldsInPlace;
    var s := SuperFor(p, blockLog, compression);
    SuperReadsBack(s);
    FrontIsHeader(p.w.file, AllTables(TablesFor(p)), EncodeSuper(s));
    SuperInPlace(ImageOf(p, blockLog, compression), s);
  }

  /** The numbers in it: the inodes given out, the block size, the fragments, the owners, where the
      root is, and the tables one after the other behind the data, an indexed one by its index. */
  lemma HeaderNumbers(p: Packed, blockLog: U16, compression: U16)
    requires FileOk(p.w) && SizesFit(p) && 0 < p.next && p.cfg.blockSize <= 0x10_0000
    ensures var img, t := ImageOf(p, blockLog, compression), TablesFor(p);
            var dirs := p.w.file.pos + |t.inodes|;
            var fragments := dirs + |t.dirs|;
            var ids := fragments + |t.fragments.table| + |t.fragments.index|;
            && |img| >= 96
            && At32(img, 4) == p.next - 1 && At32(img, 12) == p.cfg.blockSize && At32(img, 16) == |p.w.fragments|
            && At16(img, 20) == compression && At16(img, 22) == blockLog && At16(img, 26) == |OwnersOf(p)| % 0x1_0000
            && At16(img, 32) == WrittenTree(p).1.offset && At32(img, 34) == WrittenTree(p).1.block
            && At64(img, 64) == p.w.file.pos && At64(img, 72) == dirs
            && At64(img, 80) == fragments + |t.fragments.table|
            && At64(img, 48) == ids + |t.ids.table|
            && At64(img, 40) == ids + |t.ids.table| + |t.ids.index|
            && At64(img, 40) < |img| <= At64(img, 40) + 0x1000 && |img| % 0x1000 == 0
  {
    hide ImageOf, TablesFor, WrittenTree, FixedBytes, At16, At32, At64, Narrow32, Narrow64, AllTables, TableOf,
      IndexedAt, Padded, IdEntries, FragmentEntries;
    var t := TablesFor(p);
    ImageStartsWith(p, blockLog, compression);
    TablesShape(p);
    SuperFits(p, blockLog, compression);
    Narrowed(0, p.next - 1, EndPos(t.ids));
    Narrowed(0, 0, t.inodeStart);
    ImageLength(p, blockLog, compression);
  }

  lemma ImageLength(p: Packed, blockLog: U16, compression: U16)
    requires FileOk(p.w)
    ensures var img, end := ImageOf(p, blockLog, compression), p.w.file.pos + |AllTables(TablesFor(p))|;
            end < |img| <= end + 0x1000 && |img| % 0x1000 == 0
    ensures var t := TablesFor(p);
            |AllTables(t)| == |t.inodes| + |t.dirs| + |t.fragments.table| + |t.fragments.index| + |t.ids.table|
                              + |t.ids.index|
  {
    hide EncodeSuper, TablesFor, AllTables, Finished, SuperFor;
    var t := TablesFor(p);
    FinishedLength(p.w.file, AllTables(t), EncodeSuper(SuperFor(p, blockLog, compression)));
    TablesLength(t);
  }

  lemma FinishedLength(file: OutFile, tables: Bytes, header: Bytes)
    requires file.pos <= |file.bytes|
    ensures var n, end := |Finished(file, tables, header)|, file.pos + |tables|;
            end < n <= end + 0x1000 && n % 0x1000 == 0
  {
    hide WriteBytes;
    PositionAfter(file, tables);
    PaddedLength(file.pos + |tables|);
  }

  lemma TablesLength(t: Tables)
    ensures |AllTables(t)| == |t.inodes| + |t.dirs| + |t.fragments.table| + |t.fragments.index| + |t.ids.table|
                              + |t.ids.index|
  {
  }
}
