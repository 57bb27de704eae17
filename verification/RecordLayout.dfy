/** Inodes, listings and table entries byte by byte, as the format's description has them, and
    exactly when an inode takes its basic form. */
module RecordLayout {
  import opened SquashDefs
  import opened Endian
  import opened FormatBytes
  import opened PendingWrites
  import opened Directories
  import opened Inodes
  import opened Trees
  import opened Images

  /** The sixteen bytes every inode starts with. */
  predicate HeadAt(b: Bytes, t: nat, head: Head) {
    && 16 <= |b|
    && At16(b, 0) == t && At16(b, 2) == head.mode && At16(b, 4) == head.uid && At16(b, 6) == head.gid
    && At32(b, 8) == head.mtime && At32(b, 12) == head.number
  }

  lemma HeadOffsets()
    ensures Offset(HEAD, 0) == 0 && Offset(HEAD, 1) == 2 && Offset(HEAD, 2) == 4 && Offset(HEAD, 3) == 6
    ensures Offset(HEAD, 4) == 8 && Offset(HEAD, 5) == 12
  {
  }

  lemma HeadInPlace(b: Bytes, t: U16, head: Head)
    requires PartAt(b, 0, Enc([t, head.mode, head.uid, head.gid, head.mtime, head.number], HEAD))
    ensures HeadAt(b, t, head)
  {
    hide Enc, Offset, At16, At32;
    var v := [t, head.mode, head.uid, head.gid, head.mtime, head.number];
    HeadOffsets();
    RecordField(b, 0, v, HEAD, 0);
    RecordField(b, 0, v, HEAD, 1);
    RecordField(b, 0, v, HEAD, 2);
    RecordField(b, 0, v, HEAD, 3);
    RecordField(b, 0, v, HEAD, 4);
    RecordField(b, 0, v, HEAD, 5);
  }

  /** An inode's three parts in place. */
  lemma PartsInPlace(head: Head, raw: Raw)
    requires RawShape(raw)
    ensures var b, fields := EncodeInode(head, raw), Enc(BodyFields(raw), BodyWidths(StoredType(raw)));
            && |b| == 16 + |fields| + |Tail(raw)|
            && HeadAt(b, StoredType(raw), head) && PartAt(b, 16, fields) && PartAt(b, 16 + |fields|, Tail(raw))
  {
    hide Enc, BodyFields, BodyWidths, Tail, HeadAt;
    RecordParts(head, raw);
    var b, fields := EncodeInode(head, raw), Enc(BodyFields(raw), BodyWidths(StoredType(raw)));
    HeadInPlace(b, StoredType(raw), head);
    SubSlice(b, 0, 16 + |fields|, 16, 16 + |fields|);
    assert b[0..16 + |fields|] == b[..16 + |fields|];
  }

  // ---- Regular files ----

  lemma SizesOffset(n: nat, k: nat)
    requires k <= n
    ensures Offset(Fours(n), k) == 4 * k
  {
    if k > 0 {
      SizesOffset(n, k - 1);
    }
  }

  /** The size words, one after the other from `i` on. */
  predicate WordsAt(b: Bytes, i: nat, sizes: seq<U32>) {
    i + 4 * |sizes| <= |b| && forall k :: 0 <= k < |sizes| ==> At32(b, i + 4 * k) == sizes[k]
  }

  lemma WordsInPlace(b: Bytes, i: nat, sizes: seq<U32>)
    requires PartAt(b, i, EncodeSizes(sizes))
    ensures WordsAt(b, i, sizes)
  {
    hide Enc, Offset, At32;
    FoursWidth(|sizes|);
    forall k | 0 <= k < |sizes|
      ensures At32(b, i + 4 * k) == sizes[k]
    {
      SizesOffset(|sizes|, k);
      RecordField(b, i, sizes, Fours(|sizes|), k);
    }
  }

  predicate BasicReg(b: Bytes, raw: Raw)
    requires raw.RawReg?
  {
    && |b| == 32 + 4 * |raw.sizes|
    && At32(b, 16) == raw.start && At32(b, 20) == raw.fragment && At32(b, 24) == raw.offset
    && At32(b, 28) == raw.fileSize && WordsAt(b, 32, raw.sizes)
  }

  predicate ExtendedReg(b: Bytes, raw: Raw)
    requires raw.RawReg?
  {
    && |b| == 56 + 4 * |raw.sizes|
    && At64(b, 16) == raw.start && At64(b, 24) == raw.fileSize && At64(b, 32) == 0 && At32(b, 40) == raw.nlink
    && At32(b, 44) == raw.fragment && At32(b, 48) == raw.offset && At32(b, 52) == raw.xattr
    && WordsAt(b, 56, raw.sizes)
  }

  lemma RegOffsets()
    ensures var w := BodyWidths(2);
            Offset(w, 0) == 0 && Offset(w, 1) == 4 && Offset(w, 2) == 8 && Offset(w, 3) == 12 && Width(w) == 16
    ensures var w := BodyWidths(9);
            Offset(w, 0) == 0 && Offset(w, 1) == 8 && Offset(w, 2) == 16 && Offset(w, 3) == 24 && Offset(w, 4) == 28
            && Offset(w, 5) == 32 && Offset(w, 6) == 36 && Width(w) == 40
  {
    assert Width([4, 4]) == 8 && Width([4, 4, 4, 4]) == 16;
    assert Width([8, 4, 4, 4, 4]) == 24;
  }

  /** A regular file: the basic form exactly when it starts below 64 KiB, is shorter than that, has
      one link and no attributes. */
  lemma RegInPlace(head: Head, raw: Raw)
    requires raw.RawReg?
    ensures RawShape(raw)
    ensures var b := EncodeInode(head, raw);
            if raw.start <= 0xffff && raw.fileSize <= 0xffff && raw.nlink == 1 && raw.xattr == 0xffff_ffff
            then HeadAt(b, 2, head) && BasicReg(b, raw)
            else HeadAt(b, 9, head) && ExtendedReg(b, raw)
  {
    hide Enc, HeadAt, EncodeInode, BasicReg, ExtendedReg, EncodeSizes, Width;
    PartsInPlace(head, raw);
    RegOffsets();
    SizesReadBack(raw.sizes);
    var b := EncodeInode(head, raw);
    if Extended(raw) {
      ExtendedRegInPlace(b, raw);
    } else {
      BasicRegInPlace(b, raw);
    }
  }

  lemma BasicRegInPlace(b: Bytes, raw: Raw)
    requires raw.RawReg? && !Extended(raw) && |b| == 32 + 4 * |raw.sizes|
    requires PartAt(b, 16, Enc(BodyFields(raw), BodyWidths(2))) && PartAt(b, 32, EncodeSizes(raw.sizes))
    ensures BasicReg(b, raw)
  {
    hide Enc, Offset, At16, At32, At64, Width, PartAt, WordsAt;
    RegOffsets();
    var v, w := BodyFields(raw), BodyWidths(2);
    RecordField(b, 16, v, w, 0);
    RecordField(b, 16, v, w, 1);
    RecordField(b, 16, v, w, 2);
    RecordField(b, 16, v, w, 3);
    WordsInPlace(b, 32, raw.sizes);
  }

  lemma ExtendedRegInPlace(b: Bytes, raw: Raw)
    requires raw.RawReg? && Extended(raw) && |b| == 56 + 4 * |raw.sizes|
    requires PartAt(b, 16, Enc(BodyFields(raw), BodyWidths(9))) && PartAt(b, 56, EncodeSizes(raw.sizes))
    ensures ExtendedReg(b, raw)
  {
    hide Enc, Offset, At16, At32, At64, Width, PartAt, WordsAt;
    RegOffsets();
    var v, w := BodyFields(raw), BodyWidths(9);
    RecordField(b, 16, v, w, 0);
    RecordField(b, 16, v, w, 1);
    RecordField(b, 16, v, w, 2);
    RecordField(b, 16, v, w, 3);
    RecordField(b, 16, v, w, 4);
    RecordField(b, 16, v, w, 5);
    RecordField(b, 16, v, w, 6);
    WordsInPlace(b, 56, raw.sizes);
  }

  // ---- Directories ----

  predicate BasicDir(b: Bytes, raw: Raw)
    requires raw.RawDir?
  {
    && |b| == 32
    && At32(b, 16) == raw.startBlock && At32(b, 20) == raw.nlink && At16(b, 24) == raw.filesize
    && At16(b, 26) == raw.startOffset && At32(b, 28) == raw.parent
  }

  predicate ExtendedDir(b: Bytes, raw: Raw)
    requires raw.RawDir?
  {
    && |b| == 40
    && At32(b, 16) == raw.nlink && At32(b, 20) == raw.filesize && At32(b, 24) == raw.startBlock
    && At32(b, 28) == raw.parent && At16(b, 32) == 0 && At16(b, 34) == raw.startOffset && At32(b, 36) == raw.xattr
  }

  lemma DirOffsets()
    ensures var w := BodyWidths(1);
            Offset(w, 0) == 0 && Offset(w, 1) == 4 && Offset(w, 2) == 8 && Offset(w, 3) == 10 && Offset(w, 4) == 12
            && Width(w) == 16
    ensures var w := BodyWidths(8);
            Offset(w, 0) == 0 && Offset(w, 1) == 4 && Offset(w, 2) == 8 && Offset(w, 3) == 12 && Offset(w, 4) == 16
            && Offset(w, 5) == 18 && Offset(w, 6) == 20 && Width(w) == 24
  {
    assert Width([2, 2, 4]) == 8 && Width([4, 2, 2, 4]) == 12 && Width([4, 4, 2, 2, 4]) == 16;
  }

  /** A directory: the basic form exactly when its listing's size fits 16 bits and it has no
      attributes. */
  lemma DirInPlace(head: Head, raw: Raw)
    requires raw.RawDir?
    ensures RawShape(raw)
    ensures var b := EncodeInode(head, raw);
            if raw.filesize <= 0xffff && raw.xattr == 0xffff_ffff then HeadAt(b, 1, head) && BasicDir(b, raw)
            else HeadAt(b, 8, head) && ExtendedDir(b, raw)
  {
    hide Enc, Offset, At16, At32, At64, Width, HeadAt, EncodeInode;
    PartsInPlace(head, raw);
    DirOffsets();
    var b, v, w := EncodeInode(head, raw), BodyFields(raw), BodyWidths(StoredType(raw));
    RecordField(b, 16, v, w, 0);
    RecordField(b, 16, v, w, 1);
    RecordField(b, 16, v, w, 2);
    RecordField(b, 16, v, w, 3);
    RecordField(b, 16, v, w, 4);
    if Extended(raw) {
      RecordField(b, 16, v, w, 5);
      RecordField(b, 16, v, w, 6);
    }
  }

  // ---- Links, devices, pipes and sockets ----

  lemma LinkOffsets()
    ensures Offset([4, 4], 0) == 0 && Offset([4, 4], 1) == 4 && Width([4, 4]) == 8
    ensures Offset([4], 0) == 0 && Width([4]) == 4
  {
  }

  /** A symbolic link: its target behind the target's length. */
  lemma SymInPlace(head: Head, raw: Raw)
    requires raw.RawSym? && |raw.target| < 0x1_0000_0000
    ensures RawShape(raw)
    ensures var b, end := EncodeInode(head, raw), 24 + |raw.target|;
            && |b| >= end && At32(b, 16) == raw.nlink && At32(b, 20) == |raw.target| && b[24..end] == raw.target
            && if raw.xattr == 0xffff_ffff then HeadAt(b, 3, head) && |b| == end
               else HeadAt(b, 10, head) && |b| == end + 4 && At32(b, end) == raw.xattr
  {
    hide Enc, Offset, At16, At32, Width, HeadAt, EncodeInode;
    PartsInPlace(head, raw);
    LinkOffsets();
    var b := EncodeInode(head, raw);
    RecordField(b, 16, BodyFields(raw), [4, 4], 0);
    RecordField(b, 16, BodyFields(raw), [4, 4], 1);
    PartWithin(b, 24, Tail(raw), 0, raw.target);
    if Extended(raw) {
      PartWithin(b, 24, Tail(raw), |raw.target|, Enc([raw.xattr], [4]));
      RecordField(b, 24 + |raw.target|, [raw.xattr], [4], 0);
    }
  }

  /** A block device (11) or character device (12). */
  lemma DevInPlace(head: Head, raw: Raw)
    requires raw.RawDev? && (raw.kind == 11 || raw.kind == 12)
    ensures RawShape(raw)
    ensures var b := EncodeInode(head, raw);
            && |b| >= 24 && At32(b, 16) == raw.nlink && At32(b, 20) == raw.rdev
            && if raw.xattr == 0xffff_ffff then HeadAt(b, raw.kind - 7, head) && |b| == 24
               else HeadAt(b, raw.kind, head) && |b| == 28 && At32(b, 24) == raw.xattr
  {
    hide Enc, Offset, At16, At32, Width, HeadAt, EncodeInode;
    PartsInPlace(head, raw);
    LinkOffsets();
    var b := EncodeInode(head, raw);
    RecordField(b, 16, BodyFields(raw), [4, 4], 0);
    RecordField(b, 16, BodyFields(raw), [4, 4], 1);
    if Extended(raw) {
      RecordField(b, 24, [raw.xattr], [4], 0);
    }
  }

  /** A pipe (13) or socket (14). */
  lemma IpcInPlace(head: Head, raw: Raw)
    requires raw.RawIpc? && (raw.kind == 13 || raw.kind == 14)
    ensures RawShape(raw)
    ensures var b := EncodeInode(head, raw);
            && |b| >= 20 && At32(b, 16) == raw.nlink
            && if raw.xattr == 0xffff_ffff then HeadAt(b, raw.kind - 7, head) && |b| == 20
               else HeadAt(b, raw.kind, head) && |b| == 24 && At32(b, 20) == raw.xattr
  {
    hide Enc, Offset, At16, At32, Width, HeadAt, EncodeInode;
    PartsInPlace(head, raw);
    LinkOffsets();
    var b := EncodeInode(head, raw);
    RecordField(b, 16, BodyFields(raw), [4], 0);
    if Extended(raw) {
      RecordField(b, 20, [raw.xattr], [4], 0);
    }
  }

  // ---- Listings ----

  lemma EntryOffsets()
    ensures var w := [2, 2, 2, 2];
            Offset(w, 0) == 0 && Offset(w, 1) == 2 && Offset(w, 2) == 4 && Offset(w, 3) == 6
    ensures Offset([4, 4, 4], 0) == 0 && Offset([4, 4, 4], 1) == 4 && Offset([4, 4, 4], 2) == 8
  {
  }

  /** A header: the number of entries less one, the block of their inodes, the first one's number. */
  lemma ListingHeaderInPlace(count: nat, block: U32, number: U32)
    requires 0 < count <= 0x1_0000_0000
    ensures var b := EncodeHeader(count, block, number);
            |b| == 12 && At32(b, 0) == count - 1 && At32(b, 4) == block && At32(b, 8) == number
  {
    hide Enc, Offset, At32;
    var v := [(count - 1) % 0x1_0000_0000, block, number];
    var b := EncodeHeader(count, block, number);
    Width2222();
    EntryOffsets();
    assert PartAt(b, 0, Enc(v, [4, 4, 4]));
    RecordField(b, 0, v, [4, 4, 4], 0);
    RecordField(b, 0, v, [4, 4, 4], 1);
    RecordField(b, 0, v, [4, 4, 4], 2);
  }

  /** An entry: the inode's offset, its number less the header's as a signed 16-bit value, the
      number of its basic type, the length of the name less one, and the name. */
  lemma EntryInPlace(number: U32, e: Entry)
    requires 0 < |e.name| <= 0xff && 8 <= e.inodeType <= 14 && -0x8000 < e.number - number < 0x7fff
    ensures var b, diff := EncodeEntry(number, e), e.number - number;
            && |b| == 8 + |e.name| && b[8..] == e.name
            && At16(b, 0) == e.address.offset && At16(b, 2) == (if diff < 0 then 0x1_0000 + diff else diff)
            && At16(b, 4) == e.inodeType - 7 && At16(b, 6) == |e.name| - 1
  {
    hide Enc, Offset, At16, PartAt, EntryFields;
    var b, v := EncodeEntry(number, e), EntryFields(number, e);
    Width2222();
    EntryOffsets();
    EntryParts(number, e);
    EntryNumbers(number, e);
    RecordField(b, 0, v, [2, 2, 2, 2], 0);
    RecordField(b, 0, v, [2, 2, 2, 2], 1);
    RecordField(b, 0, v, [2, 2, 2, 2], 2);
    RecordField(b, 0, v, [2, 2, 2, 2], 3);
  }

  lemma EntryParts(number: U32, e: Entry)
    ensures |EntryFields(number, e)| == 4
    ensures var b := EncodeEntry(number, e);
            PartAt(b, 0, Enc(EntryFields(number, e), [2, 2, 2, 2])) && |b| == 8 + |e.name| && b[8..] == e.name
  {
    hide Enc;
    Width2222();
  }

  lemma EntryNumbers(number: U32, e: Entry)
    requires 0 < |e.name| <= 0xff && 8 <= e.inodeType <= 14 && -0x8000 < e.number - number < 0x7fff
    ensures var diff := e.number - number;
            EntryFields(number, e)
            == [e.address.offset, if diff < 0 then 0x1_0000 + diff else diff, e.inodeType - 7, |e.name| - 1]
  {
  }

  /** A listing starts with the header of its first segment, then the entries of that segment, each
      behind the one before, then the listing of the rest. */
  lemma ListingInPlace(es: seq<Entry>)
    requires es != [] && |es| <= 0x1_0000_0000
    ensures var b, k := EncodeListing(es), FirstSegment(es);
            && |b| >= 12 && At32(b, 0) == k - 1
            && At32(b, 4) == es[0].address.block && At32(b, 8) == es[0].number
            && b[12..] == EncodeEntries(es[0].number, es[..k]) + EncodeListing(es[k..])
  {
    hide EncodeHeader, EncodeEntries, EncodeListing, FirstSegment, At32;
    var k := FirstSegment(es);
    var header := EncodeHeader(k, es[0].address.block, es[0].number);
    var rest := EncodeEntries(es[0].number, es[..k]) + EncodeListing(es[k..]);
    ListingSplits(es, k);
    ListingHeaderInPlace(k, es[0].address.block, es[0].number);
    SameFront(header, rest, 0);
    SameFront(header, rest, 4);
    SameFront(header, rest, 8);
  }

  lemma SameFront(front: Bytes, rest: Bytes, i: nat)
    requires i + 4 <= |front|
    ensures At32(front + rest, i) == At32(front, i) && (front + rest)[|front|..] == rest
  {
  }

  // ---- Table entries ----

  /** A fragment's entry takes 16 bytes: position, size word, nothing. */
  lemma FragmentInPlace(e: FragmentEntry)
    requires e.start < 0x1_0000_0000_0000_0000 && e.size < 0x1_0000_0000
    ensures var b := FragmentRecord(e);
            |b| == 16 && At64(b, 0) == e.start && At32(b, 8) == e.size && At32(b, 12) == 0
  {
    hide Enc, Offset, At32, At64;
    var b, v := FragmentRecord(e), [e.start, e.size, 0];
    FragmentWidth();
    FragmentOffsets();
    assert PartAt(b, 0, Enc(v, FRAGMENT_WIDTHS));
    RecordField(b, 0, v, FRAGMENT_WIDTHS, 0);
    RecordField(b, 0, v, FRAGMENT_WIDTHS, 1);
    RecordField(b, 0, v, FRAGMENT_WIDTHS, 2);
  }

  lemma FragmentOffsets()
    ensures Offset(FRAGMENT_WIDTHS, 0) == 0 && Offset(FRAGMENT_WIDTHS, 1) == 8 && Offset(FRAGMENT_WIDTHS, 2) == 12
  {
  }
}
