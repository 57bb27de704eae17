/** The whole image reads back: from its bytes alone, every name, type, owner, attribute, target
    and every file's data. */
module ImageRoundTrip {
  import opened SquashDefs
  import opened Compressors
  import opened BlockReports
  import opened PendingWrites
  import opened RollbackSafety
  import opened Fragments
  import opened Endian
  import opened Metadata
  import opened Directories
  import opened Inodes
  import opened DataRoundTrip
  import opened IndexedTables
  import opened Superblocks
  import opened Trees
  import opened TreeRoundTrip
  import opened Images
  import Ids

  // ---- Where things are in the image ----

  predicate Part(img: Bytes, pos: nat, part: Bytes) {
    pos + |part| <= |img| && img[pos..pos + |part|] == part
  }

  lemma PartSplits(img: Bytes, pos: nat, a: Bytes, b: Bytes)
    requires Part(img, pos, a + b)
    ensures Part(img, pos, a) && Part(img, pos + |a|, b)
  {
    SplitRange(img, pos, a, b);
  }

  lemma TablesInPlace(img: Bytes, t: Tables)
    requires Part(img, t.inodeStart, AllTables(t))
    requires t.fragments.start == DirStart(t) + |t.dirs| && t.ids.start == EndPos(t.fragments)
    ensures Part(img, t.inodeStart, t.inodes) && Part(img, DirStart(t), t.dirs)
    ensures Part(img, t.fragments.start, t.fragments.table) && Part(img, IndexPos(t.fragments), t.fragments.index)
    ensures Part(img, t.ids.start, t.ids.table) && Part(img, IndexPos(t.ids), t.ids.index)
  {
    hide Part;
    var a, b, c, d, e, f := t.inodes, t.dirs, t.fragments.table, t.fragments.index, t.ids.table, t.ids.index;
    PartSplits(img, t.inodeStart, a + b + c + d + e, f);
    PartSplits(img, t.inodeStart, a + b + c + d, e);
    PartSplits(img, t.inodeStart, a + b + c, d);
    PartSplits(img, t.inodeStart, a + b, c);
    PartSplits(img, t.inodeStart, a, b);
  }

  /** The finished image holds the superblock at the front, the data area as it was, and the
      tables behind it, whatever was past the position before. */
  lemma FinishedHolds(file: OutFile, tables: Bytes, header: Bytes)
    requires SUPER_SIZE <= file.pos <= |file.bytes| && |header| == SUPER_SIZE
    ensures var img := Finished(file, tables, header);
            && Part(img, 0, header)
            && file.pos <= |img| && img[SUPER_SIZE..file.pos] == file.bytes[SUPER_SIZE..file.pos]
            && Part(img, file.pos, tables)
  {
    var f := WriteBytes(file, tables);
    var g := WriteBytes(f.(pos := 0), header);
    var end := f.pos + (PAD_SIZE - f.pos % PAD_SIZE);
    assert f.bytes[..file.pos] == file.bytes[..file.pos] && f.bytes[file.pos..f.pos] == tables;
    assert g.bytes == header + f.bytes[SUPER_SIZE..];
    ResizedKeeps(g.bytes, end, f.pos);
    var img := Resized(g.bytes, end);
    SameBetween(g.bytes, img, f.pos, 0, SUPER_SIZE);
    SameBetween(g.bytes, img, f.pos, SUPER_SIZE, file.pos);
    SameBetween(g.bytes, img, f.pos, file.pos, f.pos);
    BehindFront(header, f.bytes, SUPER_SIZE, file.pos);
    BehindFront(header, f.bytes, file.pos, f.pos);
    SubSlice(f.bytes, 0, file.pos, SUPER_SIZE, file.pos);
    SubSlice(file.bytes, 0, file.pos, SUPER_SIZE, file.pos);
  }

  /** Behind the tables: what was there before as far as the image goes, and zeros past that. */
  lemma PaddingIs(file: OutFile, tables: Bytes, header: Bytes)
    requires SUPER_SIZE <= file.pos <= |file.bytes| && |header| == SUPER_SIZE
    ensures var img := Finished(file, tables, header);
            && |img| == file.pos + |tables| + (0x1000 - (file.pos + |tables|) % 0x1000)
            && forall k :: file.pos + |tables| <= k < |img| ==>
                 img[k] == if k < |file.bytes| then file.bytes[k] else 0
  {
    var f := WriteBytes(file, tables);
    var g := WriteBytes(f.(pos := 0), header);
    assert g.bytes == header + f.bytes[SUPER_SIZE..];
    forall k | f.pos <= k < |f.bytes|
      ensures f.bytes[k] == file.bytes[k] && g.bytes[k] == f.bytes[k]
    {
    }
  }

  lemma ResizedKeeps(bytes: Bytes, end: nat, n: nat)
    requires n <= |bytes| && n <= end
    ensures Resized(bytes, end)[..n] == bytes[..n]
  {
  }

  lemma SameBetween(a: Bytes, b: Bytes, n: nat, lo: nat, hi: nat)
    requires lo <= hi <= n <= |a| && n <= |b| && a[..n] == b[..n]
    ensures a[lo..hi] == b[lo..hi]
  {
    SubSlice(a, 0, n, lo, hi);
    SubSlice(b, 0, n, lo, hi);
  }

  lemma BehindFront(front: Bytes, b: Bytes, lo: nat, hi: nat)
    requires |front| <= lo <= hi <= |b|
    ensures (front + b[|front|..])[lo..hi] == b[lo..hi]
  {
  }

  // ---- The two indexed tables ----

  lemma {:induction false} IdsRead(c: Compressor, img: Bytes, start: nat, index: nat, order: seq<U32>, count: nat)
    requires Lawful(c) && count <= SlotCount(order)
    requires HoldsTable(c, img, start, index, IdEntries(order), IDS_PER_BLOCK)
    ensures ReadIds(c, img, index, count) == Some(Slots(order)[..count])
    decreases count
  {
    hide HoldsTable, LookupEntry, Le, Un, Slots;
    if count > 0 {
      IdsRead(c, img, start, index, order, count - 1);
      EveryEntryIsFound(c, img, start, index, IdEntries(order), ID_SIZE, IDS_PER_BLOCK, count - 1);
      IdReadsBack(Slots(order)[count - 1]);
      assert Slots(order)[..count] == Slots(order)[..count - 1] + [Slots(order)[count - 1]];
    }
  }

  lemma IdReadsBack(id: U32)
    ensures Narrow32(Un(Le(id, 4))) == id
  {
    hide Le, Un;
    Limits();
    UnLe(id, 4);
  }

  predicate EntryFits(e: FragmentEntry) {
    e.start < 0x1_0000_0000_0000_0000 && e.size < 0x1_0000_0000
  }

  lemma FragmentReadsBack(e: FragmentEntry)
    requires EntryFits(e)
    ensures Dec(FragmentRecord(e), FRAGMENT_WIDTHS) == [e.start, e.size, 0]
  {
    hide Enc, Dec, Fits;
    Limits();
    FitsAll([e.start, e.size, 0], FRAGMENT_WIDTHS);
    FieldsAlone([e.start, e.size, 0], FRAGMENT_WIDTHS);
  }

  lemma {:induction false} FragmentsRead(c: Compressor, img: Bytes, start: nat, index: nat,
                                         fragments: seq<FragmentEntry>, count: nat)
    requires Lawful(c) && count <= |fragments| && forall e :: e in fragments ==> EntryFits(e)
    requires HoldsTable(c, img, start, index, FragmentEntries(fragments), FRAGMENTS_PER_BLOCK)
    ensures ReadFragments(c, img, index, count) == Some(fragments[..count])
    decreases count
  {
    hide HoldsTable, LookupEntry, Dec, FragmentRecord, EntryFits;
    if count > 0 {
      FragmentsRead(c, img, start, index, fragments, count - 1);
      EveryEntryIsFound(c, img, start, index, FragmentEntries(fragments), FRAGMENT_SIZE, FRAGMENTS_PER_BLOCK,
                        count - 1);
      FragmentReadsBack(fragments[count - 1]);
      assert fragments[..count] == fragments[..count - 1] + [fragments[count - 1]];
    }
  }

  // ---- Records of regular files ----

  predicate RecordFits(r: FileRecord) {
    && r.start < 0x1_0000_0000_0000_0000 && r.fragment < 0x1_0000_0000 && r.offset < 0x1_0000_0000
    && forall k :: 0 <= k < |r.sizes| ==> r.sizes[k] < 0x1_0000_0000
  }

  lemma {:induction false} WordsFit(c: Compressor, blocks: seq<Bytes>)
    requires Lawful(c) && BlocksFit(blocks, MAX_BLOCK_SIZE)
    ensures forall k :: 0 <= k < |blocks| ==> Words(c, blocks)[k] < 0x1_0000_0000
  {
    hide SizeWord;
    if blocks != [] {
      WordsFit(c, Init(blocks));
      BlockRoundTrip(c, Last(blocks), MAX_BLOCK_SIZE);
    }
  }

  /** Every record the pipeline leaves fits the fields of an inode. */
  lemma RecordsFit(cfg: Config, p: Progress, w: Writer, owners: seq<Owner>, tails: map<nat, Bytes>,
                   runs: map<nat, seq<Bytes>>, n: nat, size: nat)
    requires ConfigOk(cfg) && PipelineInv(cfg, p, tails, runs) && p.client.current == []
    requires WriterInv(cfg, MeaningOf(p.sent), w, owners)
    requires w.file.pos < 0x1_0000_0000_0000_0000 && |w.fragments| <= FRAGMENT_NONE
    requires n in tails ==> 0 < |tails[n]|
    ensures RecordFits(RecordOf(p.client, w, n, size))
  {
    hide Tiles, OwnersKnown, KeptAreOwners, OpenRunLast, FiledOk, WellOrdered, Stored, SizeWord, WordLen, MeaningOf,
      RangeLen, StoredRun, Words;
    if n in w.reports {
      assert RunStored(cfg, w, n, runs[n]);
      WordsFit(cfg.comp, runs[n]);
    }
    if n in tails {
      var index, flushed := IndexOf(p.client, n), SentFragments(p);
      assert Fragments.Holds(p.client, flushed, index, tails[n]);
      assert index.fragment < |flushed|;
      assert FragmentStored(cfg, w, index.fragment, flushed[index.fragment]);
    }
  }

  lemma FragmentsFit(cfg: Config, w: Writer, contents: seq<Bytes>)
    requires ConfigOk(cfg) && FragmentsStored(cfg, w, contents) && FragmentsInside(w, w.file.pos)
    requires w.file.pos < 0x1_0000_0000_0000_0000
    ensures forall e :: e in w.fragments ==> EntryFits(e)
  {
    hide Stored, SizeWord, WordLen;
    forall e | e in w.fragments
      ensures EntryFits(e)
    {
      var k :| 0 <= k < |w.fragments| && w.fragments[k] == e;
      assert FragmentStored(cfg, w, k, contents[k]);
      BlockRoundTrip(cfg.comp, contents[k], cfg.blockSize);
    }
  }

  lemma {:induction false} NarrowedAll(ns: seq<nat>)
    requires forall k :: 0 <= k < |ns| ==> ns[k] < 0x1_0000_0000
    ensures NarrowAll(ns) == ns
  {
    if ns != [] {
      NarrowedAll(ns[1..]);
      Narrowed(0, ns[0], 0);
    }
  }

  lemma LocatedRecord(cs: Client, w: Writer, n: Node)
    requires n.body.Reg? && RecordFits(RecordOf(cs, w, n.meta.number, n.body.fileSize))
    ensures Located(cs, w, n).body.Reg? && Located(cs, w, n).meta == n.meta
    ensures FileRecordOf(Located(cs, w, n).body) == RecordOf(cs, w, n.meta.number, n.body.fileSize)
  {
    hide Narrow32, Narrow64;
    var r := RecordOf(cs, w, n.meta.number, n.body.fileSize);
    NarrowedAll(r.sizes);
    Narrowed(0, r.fragment, r.start);
    Narrowed(0, r.offset, 0);
  }

  // ---- The tree with its files ----

  /** What the format can hold, and every regular file is one of the files packed. */
  predicate TreeFits(files: seq<FileData>, n: Node)
    decreases n
  {
    match n.body
    case Reg(_, _, _, _, fileSize) =>
      var i := FindFile(files, n.meta.number);
      i.Some? && fileSize == |files[i.value].data|
    case Sym(target) => |target| < 0x1_0000_0000
    case Dev(kind, _) => kind == TYPE_BLK || kind == TYPE_CHR
    case Ipc(kind) => kind == TYPE_PIPE || kind == TYPE_SOCK
    case Dir(kids) => KidsFit(files, kids) && ListingBound(kids) + 3 < 0x1_0000_0000
  }

  predicate KidsFit(files: seq<FileData>, kids: seq<Kid>)
    decreases kids
  {
    kids == []
    || (0 < |kids[0].name| <= 0xff && TreeFits(files, kids[0].node) && KidsFit(files, kids[1..]))
  }

  /** Every file has a record that fits, is as long as a reader expects, and reads back. */
  predicate FileReadsBack(img: Image, cs: Client, w: Writer, f: FileData)
    requires 0 < img.blockSize
  {
    var r := RecordOf(cs, w, f.inode, |f.data|);
    && RecordFits(r)
    && |r.sizes| == BlockCount(img.blockSize, r.fileSize, r.fragment)
    && ReadFile(img.comp, img.blockSize, img.bytes, w.fragments, r) == f.data
  }

  predicate AllReadBack(img: Image, cs: Client, w: Writer, files: seq<FileData>)
    requires 0 < img.blockSize
  {
    forall i :: 0 <= i < |files| ==> FileReadsBack(img, cs, w, files[i])
  }

  lemma LocatedFileOk(img: Image, cs: Client, w: Writer, files: seq<FileData>, n: Node)
    requires 0 < img.blockSize && AllReadBack(img, cs, w, files) && TreeFits(files, n) && n.body.Reg?
    ensures NodeOk(img.blockSize, Located(cs, w, n))
    ensures Expand(img, w.fragments, Expected(Located(cs, w, n), 0)) == ContentOf(files, n, 0)
  {
    hide RecordOf, ReadFile, BlockCount, RecordFits, Located;
    var i := FindFile(files, n.meta.number).value;
    assert FileReadsBack(img, cs, w, files[i]);
    LocatedRecord(cs, w, n);
  }

  lemma {:induction false} LocatedOk(img: Image, cs: Client, w: Writer, files: seq<FileData>, n: Node, parent: U32)
    requires 0 < img.blockSize && AllReadBack(img, cs, w, files) && TreeFits(files, n)
    ensures NodeOk(img.blockSize, Located(cs, w, n)) && Height(Located(cs, w, n)) == Height(n)
    ensures Expand(img, w.fragments, Expected(Located(cs, w, n), parent)) == ContentOf(files, n, parent)
    decreases n
  {
    hide AllReadBack, LocatedKids, KidsOk, ExpectedKids, ExpandKids, ContentOfKids, KidsHeight, CountDirKids,
      ListingBound, RecordOf, ReadFile, FindFile, KidsFit;
    match n.body
    case Reg(_, _, _, _, _) => LocatedFileOk(img, cs, w, files, n);
    case Dir(kids) => LocatedKidsOk(img, cs, w, files, kids, n.meta.number);
    case _ =>
  }

  lemma {:induction false} LocatedKidsOk(img: Image, cs: Client, w: Writer, files: seq<FileData>, kids: seq<Kid>,
                                         parent: U32)
    requires 0 < img.blockSize && AllReadBack(img, cs, w, files) && KidsFit(files, kids)
    ensures var located := LocatedKids(cs, w, kids);
            && KidsOk(img.blockSize, located)
            && KidsHeight(located) == KidsHeight(kids) && CountDirKids(located) == CountDirKids(kids)
            && ListingBound(located) == ListingBound(kids)
            && ExpandKids(img, w.fragments, ExpectedKids(located, parent)) == ContentOfKids(files, kids, parent)
    decreases kids
  {
    hide AllReadBack, Located, NodeOk, Expected, Expand, ContentOf, Height, TreeFits;
    if kids != [] {
      LocatedOk(img, cs, w, files, kids[0].node, parent);
      LocatedKidsOk(img, cs, w, files, kids[1..], parent);
      LocatedKeeps(cs, w, kids[0].node);
      var located := LocatedKids(cs, w, kids);
      assert located[1..] == LocatedKids(cs, w, kids[1..]);
      var seen := ExpectedKids(located, parent);
      assert seen[1..] == ExpectedKids(located[1..], parent);
    }
  }

  lemma LocatedKeeps(cs: Client, w: Writer, n: Node)
    ensures Located(cs, w, n).meta == n.meta && NodeType(Located(cs, w, n)) == NodeType(n)
    ensures Located(cs, w, n).body.Dir? <==> n.body.Dir?
  {
  }

  // ---- The whole image ----

  const NO_SER := Ser([], [], [])

  /** Everything the program has when it starts to write tables. */
  datatype Packed = Packed(cfg: Config, client: Client, w: Writer, root: Node, next: U32)

  /** The root's inode names the next free number as its parent. */
  function WrittenTree(p: Packed): (Ser, Address) {
    WriteNode(p.cfg.comp, NO_SER, Located(p.client, p.w, p.root), p.next)
  }

  function TablesFor(p: Packed): Tables {
    TablesOf(p.cfg.comp, p.w.file.pos, WrittenTree(p).0, p.w.fragments)
  }

  function SuperFor(p: Packed, blockLog: U16, compression: U16): Super {
    SuperOf(p.cfg.blockSize, blockLog, compression, p.next, TablesFor(p), |p.w.fragments|, |WrittenTree(p).0.ids|,
            WrittenTree(p).1)
  }

  function ImageOf(p: Packed, blockLog: U16, compression: U16): Bytes
    requires FileOk(p.w)
  {
    Finished(p.w.file, AllTables(TablesFor(p)), EncodeSuper(SuperFor(p, blockLog, compression)))
  }

  /** The sizes the format's fields can express. */
  predicate SizesFit(p: Packed) {
    var t := TablesFor(p);
    && EndPos(t.ids) < 0x1_0000_0000_0000_0000
    && |t.inodes| < 0x1_0000_0000 && |t.dirs| < 0x1_0000_0000
    && |t.fragments.table| < 0x1_0000_0000 && |t.ids.table| < 0x1_0000_0000
    && |p.w.fragments| <= FRAGMENT_NONE
  }

  /** The distinct uids and gids of the tree, in the order they were looked up. */
  function OwnersOf(p: Packed): seq<U32> {
    WrittenTree(p).0.ids
  }

  /** The owners are as many as the superblock can count. */
  predicate OwnersFit(p: Packed) {
    |OwnersOf(p)| <= 0xffff
  }

  /** What a reader makes of the superblock. */
  function ImageView(p: Packed, img: Bytes): Image {
    var t := TablesFor(p);
    Image(p.cfg.comp, p.cfg.blockSize, img, t.inodeStart, DirStart(t), LoadedIds(OwnersOf(p)))
  }

  /** How the tables follow each other. */
  predicate TablesFollow(p: Packed, s: Ser, t: Tables) {
    && t.inodeStart == p.w.file.pos
    && t.inodes == TableOf(p.cfg.comp, Padded(s.inodes)) && t.dirs == TableOf(p.cfg.comp, Padded(s.dirs))
    && t.fragments.start == DirStart(t) + |t.dirs| && t.ids.start == EndPos(t.fragments)
    && t.fragments == IndexedAt(p.cfg.comp, FragmentEntries(p.w.fragments), FRAGMENTS_PER_BLOCK, t.fragments.start)
    && t.ids == IndexedAt(p.cfg.comp, IdEntries(s.ids), IDS_PER_BLOCK, t.ids.start)
  }

  lemma TablesShape(p: Packed)
    ensures TablesFollow(p, WrittenTree(p).0, TablesFor(p))
  {
    hide TableOf, TableBytes, EncodeWords, IndexWords, WrittenTree, Padded, IdEntries, FragmentEntries;
  }

  /** What the superblock records fits its fields. */
  lemma SuperFits(p: Packed, blockLog: U16, compression: U16)
    requires SizesFit(p) && p.cfg.blockSize <= MAX_BLOCK_SIZE
    ensures var t := TablesFor(p);
            var s := SuperFor(p, blockLog, compression);
            && s.blockSize == p.cfg.blockSize && s.root == WrittenTree(p).1
            && s.fragments == |p.w.fragments| && s.ids == Narrow16(|OwnersOf(p)|)
            && s.inodeTable == t.inodeStart && s.directoryTable == DirStart(t)
            && s.fragmentTable == IndexPos(t.fragments) && s.idTable == IndexPos(t.ids)
  {
    hide TablesFor, WrittenTree, Narrow16, Narrow32, Narrow64, TableOf, IndexedAt, Padded, IdEntries, FragmentEntries;
    TablesShape(p);
    var t := TablesFor(p);
    Narrowed(0, |p.w.fragments|, t.inodeStart);
    Narrowed(0, p.cfg.blockSize, DirStart(t));
    Narrowed(0, 0, IndexPos(t.fragments));
    Narrowed(0, 0, IndexPos(t.ids));
  }

  lemma SuperRead(p: Packed, blockLog: U16, compression: U16)
    requires FileOk(p.w) && SizesFit(p) && SUPER_SIZE <= p.w.file.pos
    ensures var img := ImageOf(p, blockLog, compression);
            && DecodeSuper(img) == Some(SuperFor(p, blockLog, compression))
            && SameData(img, p.w)
            && Part(img, TablesFor(p).inodeStart, AllTables(TablesFor(p)))
  {
    hide EncodeSuper, DecodeSuper, Finished, AllTables, WrittenTree, TablesFor, SuperFor, TableOf, IndexedAt, Padded,
      IdEntries, FragmentEntries;
    var s := SuperFor(p, blockLog, compression);
    var img := ImageOf(p, blockLog, compression);
    TablesShape(p);
    SuperReadsBack(s);
    FinishedHolds(p.w.file, AllTables(TablesFor(p)), EncodeSuper(s));
    assert img[..SUPER_SIZE] == EncodeSuper(s);
    DecodeFront(img);
  }

  lemma DecodeFront(img: Bytes)
    requires SUPER_SIZE <= |img|
    ensures DecodeSuper(img) == DecodeSuper(img[..SUPER_SIZE])
  {
    var b := img[..SUPER_SIZE];
    assert b[..20] == img[..20] && b[20..32] == img[20..32] && b[32..96] == img[32..96];
  }

  /** What the header says of the whole: the inodes numbered, the bytes in use, and a file that
      goes on to the next multiple of the padding past them, by one byte at least. */
  lemma HeaderTells(p: Packed, blockLog: U16, compression: U16)
    requires FileOk(p.w) && SizesFit(p) && SUPER_SIZE <= p.w.file.pos && 0 < p.next
    ensures var img := ImageOf(p, blockLog, compression);
            var s := DecodeSuper(img);
            && s.Some? && s.value.inodes == p.next - 1
            && s.value.blockLog == blockLog && s.value.compression == compression
            && s.value.bytesUsed == p.w.file.pos + |AllTables(TablesFor(p))|
            && |img| % PAD_SIZE == 0 && s.value.bytesUsed < |img| <= s.value.bytesUsed + PAD_SIZE
  {
    hide EncodeSuper, DecodeSuper, WrittenTree, TablesFor, TableOf, IndexedAt, Padded, IdEntries, FragmentEntries,
      SameData, Narrow16, Narrow32, Narrow64, Part, WriteBytes;
    SuperRead(p, blockLog, compression);
    TablesShape(p);
    var t := TablesFor(p);
    Narrowed(0, p.next - 1, EndPos(t.ids));
    var file, all := p.w.file, AllTables(t);
    PositionAfter(file, all);
    PaddedLength(file.pos + |all|);
  }

  lemma PositionAfter(f: OutFile, data: Bytes)
    ensures f.pos <= |f.bytes| ==> WriteBytes(f, data).pos == f.pos + |data|
  {
  }

  lemma PaddedLength(n: nat)
    ensures (n + (PAD_SIZE - n % PAD_SIZE)) % PAD_SIZE == 0
  {
  }

  lemma TableHolds(c: Compressor, img: Bytes, t: Indexed, entries: seq<Bytes>, perBlock: nat)
    requires 0 < perBlock && t == IndexedAt(c, entries, perBlock, t.start)
    requires Part(img, t.start, t.table) && Part(img, IndexPos(t), t.index)
    requires |t.table| < 0x1_0000_0000 && EndPos(t) < 0x1_0000_0000_0000_0000
    ensures HoldsTable(c, img, t.start, IndexPos(t), entries, perBlock)
  {
    hide TableBytes, EncodeWords, IndexWords;
  }

  lemma StreamHolds(c: Compressor, img: Bytes, start: nat, s: Bytes)
    requires Part(img, start, TableOf(c, s)) && |TableOf(c, s)| < 0x1_0000_0000
    ensures HoldsStream(c, img, start, s)
  {
    hide TableOf;
  }

  lemma ViewHolds(p: Packed, blockLog: U16, compression: U16)
    requires ConfigOk(p.cfg) && FileOk(p.w) && SizesFit(p) && SUPER_SIZE <= p.w.file.pos
    ensures var img := ImageOf(p, blockLog, compression);
            var t, s := TablesFor(p), WrittenTree(p).0;
            && TreeRoundTrip.Holds(ImageView(p, img), s)
            && HoldsTable(p.cfg.comp, img, t.fragments.start, IndexPos(t.fragments), FragmentEntries(p.w.fragments),
                          FRAGMENTS_PER_BLOCK)
            && HoldsTable(p.cfg.comp, img, t.ids.start, IndexPos(t.ids), IdEntries(s.ids), IDS_PER_BLOCK)
  {
    hide ImageOf, AllTables, WriteNode, TablesFor, TableOf, Padded, IdEntries, FragmentEntries, Located, Part,
      HoldsTable, HoldsStream, IndexedAt, Ids.NoTwice, DecodeSuper, SuperFor, SameData;
    var img, t, s := ImageOf(p, blockLog, compression), TablesFor(p), WrittenTree(p).0;
    TablesShape(p);
    SuperRead(p, blockLog, compression);
    TablesInPlace(img, t);
    WriteNodeGrows(p.cfg.comp, NO_SER, Located(p.client, p.w, p.root), p.next) by { NoIds(); }
    StreamHolds(p.cfg.comp, img, t.inodeStart, Padded(s.inodes));
    StreamHolds(p.cfg.comp, img, DirStart(t), Padded(s.dirs));
    TableHolds(p.cfg.comp, img, t.fragments, FragmentEntries(p.w.fragments), FRAGMENTS_PER_BLOCK);
    TableHolds(p.cfg.comp, img, t.ids, IdEntries(s.ids), IDS_PER_BLOCK);
  }

  lemma NoIds()
    ensures Ids.NoTwice([])
  {
  }

  /** What the pipeline guarantees about the files, seen from the finished image. */
  lemma PackedFilesReadBack(cfg: Config, files: seq<FileData>, p: Packed, blockLog: U16, compression: U16)
    requires ConfigOk(cfg) && Distinct(files) && p.cfg == cfg
    requires p.client == Outcome(cfg, files).client && p.w == HandleAll(cfg, Outcome(cfg, files).sent)
    requires SizesFit(p)
    ensures SUPER_SIZE <= p.w.file.pos && FileOk(p.w)
    ensures AllReadBack(ImageView(p, ImageOf(p, blockLog, compression)), p.client, p.w, files)
    ensures forall e :: e in p.w.fragments ==> EntryFits(e)
  {
    hide Outcome, HandleAll, MeaningOf, WellOrdered, TailsOf, RunsOf, ImageOf, RecordOf, ReadFile, BlockCount,
      RecordFits, Tiles, OwnersKnown, OpenRunLast, KeptAreOwners, FragmentStored, RunStored, EntryFits, WrittenTree,
      TablesOf, TailsHeld, FiledOk, RunsInside, Layout, Went, SameData;
    var o := Outcome(cfg, files);
    OutcomeInv(cfg, files);
    WriterInvHolds(cfg, o.sent);
    TilesAboveSuper(p.w, Layout(cfg, o.sent), p.w.file.pos);
    PosFits(p);
    FragmentsFit(cfg, p.w, MeaningOf(o.sent).fragments);
    SuperRead(p, blockLog, compression);
    var img := ImageOf(p, blockLog, compression);
    forall i | 0 <= i < |files|
      ensures FileReadsBack(ImageView(p, img), p.client, p.w, files[i])
    {
      EveryFileReadsBack(cfg, files, img, i);
      WhereFileWent(cfg, files, i);
      TailNonempty(cfg, files, i);
      RecordsFit(cfg, o, p.w, Layout(cfg, o.sent), TailsOf(cfg, files), RunsOf(cfg, files), files[i].inode,
                 |files[i].data|);
    }
  }

  lemma TailNonempty(cfg: Config, files: seq<FileData>, i: nat)
    requires 0 < cfg.blockSize && i < |files| && Went(cfg, TailsOf(cfg, files), RunsOf(cfg, files), files[i])
    ensures files[i].inode in TailsOf(cfg, files) ==> 0 < |TailsOf(cfg, files)[files[i].inode]|
  {
    hide TailsOf, RunsOf;
  }

  lemma PosFits(p: Packed)
    requires SizesFit(p)
    ensures p.w.file.pos < 0x1_0000_0000_0000_0000
  {
    hide TableOf, TableBytes, EncodeWords, IndexWords, WrittenTree, Padded, IdEntries, FragmentEntries;
  }

  /** Reading the image of a packed tree: the tree, its owners through the loaded ids. */
  lemma PackedTreeReadsBack(files: seq<FileData>, p: Packed, blockLog: U16, compression: U16, fuel: nat)
    requires ConfigOk(p.cfg) && FileOk(p.w) && SizesFit(p) && SUPER_SIZE <= p.w.file.pos
    requires TreeFits(files, p.root) && Height(p.root) <= fuel
    requires AllReadBack(ImageView(p, ImageOf(p, blockLog, compression)), p.client, p.w, files)
    requires forall e :: e in p.w.fragments ==> EntryFits(e)
    ensures ReadImage(p.cfg.comp, ImageOf(p, blockLog, compression), fuel) == ContentAsRead(files, p)
  {
    hide ImageOf, TreeFits, Height, AllReadBack, EntryFits, TablesOf, WriteNode, ReadNode, Located, Expand,
      Expected, ContentOf, SuperOf, HoldsTable, TreeRoundTrip.Holds, DecodeSuper, NodeOk, FragmentEntries,
      IdEntries, Slots, AllReach, AsRead;
    var img := ImageOf(p, blockLog, compression);
    var view, located := ImageView(p, img), Located(p.client, p.w, p.root);
    var t, s := TablesFor(p), WrittenTree(p).0;
    var read, asRead := LoadedIds(s.ids), AsRead(LoadedIds(s.ids), s.ids, p.root);
    SuperRead(p, blockLog, compression);
    SuperFits(p, blockLog, compression);
    ViewHolds(p, blockLog, compression);
    IdsRead(p.cfg.comp, img, t.ids.start, IndexPos(t.ids), s.ids, Narrow16(|s.ids|));
    FragmentsRead(p.cfg.comp, img, t.fragments.start, IndexPos(t.fragments), p.w.fragments, |p.w.fragments|);
    assert p.w.fragments[..|p.w.fragments|] == p.w.fragments;
    LocatedOk(view, p.client, p.w, files, p.root, p.next);
    LocatedAsRead(p.client, p.w, files, read, s.ids, p.root);
    LocatedOk(view, p.client, p.w, files, asRead, p.next);
    WithinItself(s);
    NoIds();
    NodeReadsBack(view, s, NO_SER, located, p.next, fuel);
  }

  function ContentAsRead(files: seq<FileData>, p: Packed): Option<Content> {
    var order := OwnersOf(p);
    if AllReach(LoadedIds(order), order, p.root)
    then Some(ContentOf(files, AsRead(LoadedIds(order), order, p.root), p.next))
    else None
  }

  /** Taking places in and reading owners do not get in each other's way. */
  lemma {:induction false} LocatedAsRead(cs: Client, w: Writer, files: seq<FileData>, read: seq<U32>,
                                         order: seq<U32>, n: Node)
    ensures AsRead(read, order, Located(cs, w, n)) == Located(cs, w, AsRead(read, order, n))
    ensures AllReach(read, order, Located(cs, w, n)) == AllReach(read, order, n)
    ensures TreeFits(files, n) ==> TreeFits(files, AsRead(read, order, n))
    decreases n
  {
    hide MetaAsRead, MetaReaches, RecordOf, NarrowAll, FindFile;
    if n.body.Dir? {
      KidsLocatedAsRead(cs, w, files, read, order, n.body.kids);
    }
    SameLinks(read, order, n.meta);
  }

  lemma {:induction false} KidsLocatedAsRead(cs: Client, w: Writer, files: seq<FileData>, read: seq<U32>,
                                             order: seq<U32>,
                                             kids: seq<Kid>)
    ensures AsReadKids(read, order, LocatedKids(cs, w, kids)) == LocatedKids(cs, w, AsReadKids(read, order, kids))
    ensures KidsReach(read, order, LocatedKids(cs, w, kids)) == KidsReach(read, order, kids)
    ensures KidsFit(files, kids) ==> KidsFit(files, AsReadKids(read, order, kids))
    ensures ListingBound(AsReadKids(read, order, kids)) == ListingBound(kids)
    decreases kids
  {
    hide AsRead, Located, AllReach, TreeFits;
    if kids != [] {
      LocatedAsRead(cs, w, files, read, order, kids[0].node);
      KidsLocatedAsRead(cs, w, files, read, order, kids[1..]);
      var located, asRead := LocatedKids(cs, w, kids), AsReadKids(read, order, kids);
      assert located[1..] == LocatedKids(cs, w, kids[1..]);
      assert asRead[1..] == AsReadKids(read, order, kids[1..]);
    }
  }

  lemma WithinItself(s: Ser)
    ensures Within(s, s)
  {
  }

  // ---- Owners ----

  predicate IsOwner(n: Node, id: U32)
    decreases n
  {
    id == n.meta.uid || id == n.meta.gid || (n.body.Dir? && KidsOwn(n.body.kids, id))
  }

  predicate KidsOwn(kids: seq<Kid>, id: U32)
    decreases kids
  {
    kids != [] && (IsOwner(kids[0].node, id) || KidsOwn(kids[1..], id))
  }

  /** The ids after a walk are those before it and the owners met. */
  lemma {:induction false} WalkCollectsOwners(c: Compressor, s: Ser, n: Node, parent: U32, id: U32)
    ensures id in WriteNode(c, s, n, parent).0.ids <==> id in s.ids || IsOwner(n, id)
    decreases n
  {
    hide EncodeInode, EncodeListing, AddressAt, LeafRaw, DirRaw, HeadOf;
    if n.body.Dir? {
      KidsCollectOwners(c, s, n.body.kids, n.meta.number, id);
    }
  }

  lemma {:induction false} KidsCollectOwners(c: Compressor, s: Ser, kids: seq<Kid>, parent: U32, id: U32)
    ensures id in WriteKids(c, s, kids, parent).0.ids <==> id in s.ids || KidsOwn(kids, id)
    decreases kids
  {
    hide WriteNode, IsOwner;
    if kids != [] {
      WalkCollectsOwners(c, s, kids[0].node, parent, id);
      KidsCollectOwners(c, WriteNode(c, s, kids[0].node, parent).0, kids[1..], parent, id);
    }
  }

  lemma {:induction false} LocatedOwners(cs: Client, w: Writer, n: Node, id: U32)
    ensures IsOwner(Located(cs, w, n), id) == IsOwner(n, id)
    decreases n
  {
    hide RecordOf, NarrowAll;
    if n.body.Dir? {
      LocatedKidsOwn(cs, w, n.body.kids, id);
    }
  }

  lemma {:induction false} LocatedKidsOwn(cs: Client, w: Writer, kids: seq<Kid>, id: U32)
    ensures KidsOwn(LocatedKids(cs, w, kids), id) == KidsOwn(kids, id)
    decreases kids
  {
    hide Located, IsOwner;
    if kids != [] {
      LocatedOwners(cs, w, kids[0].node, id);
      LocatedKidsOwn(cs, w, kids[1..], id);
      assert LocatedKids(cs, w, kids)[1..] == LocatedKids(cs, w, kids[1..]);
    }
  }

  /** The id table holds the owners in the tree, each once. */
  lemma OwnersAreListed(p: Packed)
    ensures Ids.NoTwice(OwnersOf(p))
    ensures forall id :: id in OwnersOf(p) <==> IsOwner(p.root, id)
  {
    hide WriteNode, Located, IsOwner, Ids.NoTwice;
    NoIds();
    WriteNodeGrows(p.cfg.comp, NO_SER, Located(p.client, p.w, p.root), p.next);
    forall id
      ensures id in OwnersOf(p) <==> IsOwner(p.root, id)
    {
      WalkCollectsOwners(p.cfg.comp, NO_SER, Located(p.client, p.w, p.root), p.next, id);
      LocatedOwners(p.client, p.w, p.root, id);
    }
  }

  predicate ReadsBack(read: seq<U32>, order: seq<U32>, id: U32) {
    Ids.Reaches(read, order, id) && Ids.ReadAs(read, order, id) == id
  }

  /** A tree all of whose owners read back reads as itself. */
  lemma {:induction false} ReadsAsItself(read: seq<U32>, order: seq<U32>, n: Node)
    requires forall id :: IsOwner(n, id) ==> ReadsBack(read, order, id)
    ensures AllReach(read, order, n) && AsRead(read, order, n) == n
    decreases n
  {
    hide Ids.Reaches, Ids.ReadAs;
    assert ReadsBack(read, order, n.meta.uid) && ReadsBack(read, order, n.meta.gid);
    if n.body.Dir? {
      KidsReadAsThemselves(read, order, n.body.kids);
    }
  }

  lemma {:induction false} KidsReadAsThemselves(read: seq<U32>, order: seq<U32>, kids: seq<Kid>)
    requires forall id :: KidsOwn(kids, id) ==> ReadsBack(read, order, id)
    ensures KidsReach(read, order, kids) && AsReadKids(read, order, kids) == kids
    decreases kids
  {
    hide AsRead, AllReach, IsOwner, ReadsBack;
    if kids != [] {
      ReadsAsItself(read, order, kids[0].node);
      KidsReadAsThemselves(read, order, kids[1..]);
    }
  }

  /** If the tree as read looks like the tree, every owner reads back. */
  lemma {:induction false} LookAlike(files: seq<FileData>, read: seq<U32>, order: seq<U32>, n: Node, parent: U32,
                                     id: U32)
    requires AllReach(read, order, n) && IsOwner(n, id)
    requires ContentOf(files, AsRead(read, order, n), parent) == ContentOf(files, n, parent)
    ensures ReadsBack(read, order, id)
    decreases n
  {
    hide Ids.Reaches, Ids.ReadAs, FindFile;
    if n.body.Dir? && KidsOwn(n.body.kids, id) {
      KidsLookAlike(files, read, order, n.body.kids, n.meta.number, id);
    }
  }

  lemma {:induction false} KidsLookAlike(files: seq<FileData>, read: seq<U32>, order: seq<U32>, kids: seq<Kid>,
                                         parent: U32, id: U32)
    requires KidsReach(read, order, kids) && KidsOwn(kids, id)
    requires ContentOfKids(files, AsReadKids(read, order, kids), parent) == ContentOfKids(files, kids, parent)
    ensures ReadsBack(read, order, id)
    decreases kids
  {
    hide AllReach, IsOwner, AsRead, ContentOf, ReadsBack;
    var asRead := AsReadKids(read, order, kids);
    assert asRead[1..] == AsReadKids(read, order, kids[1..]);
    assert ContentOfKids(files, asRead, parent)[1..] == ContentOfKids(files, asRead[1..], parent);
    assert ContentOfKids(files, kids, parent)[1..] == ContentOfKids(files, kids[1..], parent);
    assert ContentOfKids(files, asRead, parent)[0] == ContentOfKids(files, kids, parent)[0];
    if IsOwner(kids[0].node, id) {
      LookAlike(files, read, order, kids[0].node, parent, id);
    } else {
      KidsLookAlike(files, read, order, kids[1..], parent, id);
    }
  }

  // ---- The theorems ----

  /** What is packed when all files are in and the tree is `root`. */
  function PackedFor(cfg: Config, files: seq<FileData>, root: Node, next: U32): (p: Packed)
    requires 0 < cfg.blockSize
    ensures FileOk(p.w)
  {
    var o := Outcome(cfg, files);
    Packed(cfg, o.client, HandleAll(cfg, o.sent), root, next)
  }

  /** For any files, any tree over them, any lawful compressor, deduplication on or off: reading
      the bytes of the finished image gives the whole tree with the data of every regular file in
      it, each owner as the loaded ids have it. */
  lemma ImageReadsBack(cfg: Config, files: seq<FileData>, root: Node, next: U32, blockLog: U16, compression: U16,
                       fuel: nat)
    requires ConfigOk(cfg) && Distinct(files) && TreeFits(files, root) && Height(root) <= fuel
    requires SizesFit(PackedFor(cfg, files, root, next))
    ensures var p := PackedFor(cfg, files, root, next);
            ReadImage(cfg.comp, ImageOf(p, blockLog, compression), fuel) == ContentAsRead(files, p)
  {
    hide Outcome, HandleAll, ImageOf, ReadImage, ContentAsRead, TreeFits, Height, AllReadBack, EntryFits, SizesFit;
    var p := PackedFor(cfg, files, root, next);
    PackedFilesReadBack(cfg, files, p, blockLog, compression);
    PackedTreeReadsBack(files, p, blockLog, compression, fuel);
  }

  /** The image reads back as exactly the tree and its files if and only if the tree has at most
      65535 distinct owners. */
  lemma WholeImageReadsBackIff(cfg: Config, files: seq<FileData>, root: Node, next: U32, blockLog: U16,
                               compression: U16,
                               fuel: nat)
    requires ConfigOk(cfg) && Distinct(files) && TreeFits(files, root) && Height(root) <= fuel
    requires SizesFit(PackedFor(cfg, files, root, next))
    ensures var p := PackedFor(cfg, files, root, next);
            ReadImage(cfg.comp, ImageOf(p, blockLog, compression), fuel) == Some(ContentOf(files, root, next))
            <==> OwnersFit(p)
  {
    hide PackedFor, ImageOf, ReadImage, ContentOf, TreeFits, Height, SizesFit, OwnersOf, LoadedIds, IsOwner,
      AllReach, AsRead, Ids.NoTwice, Ids.Reaches, Ids.ReadAs;
    var p := PackedFor(cfg, files, root, next);
    var order := OwnersOf(p);
    var read := LoadedIds(order);
    PackedParts(cfg, files, root, next);
    ImageReadsBack(cfg, files, root, next, blockLog, compression, fuel);
    OwnersAreListed(p);
    LoadedIdsIff(order);
    if OwnersFit(p) {
      ReadsAsItself(read, order, root);
    } else if ContentAsRead(files, p) == Some(ContentOf(files, root, next)) {
      forall id | id in order
        ensures ReadsBack(read, order, id)
      {
        LookAlike(files, read, order, root, next, id);
      }
    }
  }

  lemma PackedParts(cfg: Config, files: seq<FileData>, root: Node, next: U32)
    requires 0 < cfg.blockSize
    ensures PackedFor(cfg, files, root, next).root == root && PackedFor(cfg, files, root, next).next == next
    ensures PackedFor(cfg, files, root, next).cfg == cfg
  {
  }

  /** One owner more than the superblock can count, and a reader gets nothing at all. */
  lemma OwnersAllLost(cfg: Config, files: seq<FileData>, root: Node, next: U32, blockLog: U16, compression: U16,
                      fuel: nat)
    requires ConfigOk(cfg) && Distinct(files) && TreeFits(files, root) && Height(root) <= fuel
    requires SizesFit(PackedFor(cfg, files, root, next)) && |OwnersOf(PackedFor(cfg, files, root, next))| == 0x1_0000
    ensures ReadImage(cfg.comp, ImageOf(PackedFor(cfg, files, root, next), blockLog, compression), fuel) == None
  {
    hide PackedFor, ImageOf, ReadImage, ContentOf, TreeFits, Height, SizesFit, OwnersOf, AsRead;
    PackedParts(cfg, files, root, next);
    ImageReadsBack(cfg, files, root, next, blockLog, compression, fuel);
  }
}
