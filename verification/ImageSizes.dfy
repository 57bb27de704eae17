/** Bounds on an image from what goes into it: when files and tree are small enough, every size the
    format records fits its field. */
module ImageSizes {
  import opened SquashDefs
  import opened Chunking
  import opened Compressors
  import opened BlockReports
  import opened PendingWrites
  import opened RollbackSafety
  import opened Fragments
  import opened FileCuts
  import opened Endian
  import opened Metadata
  import opened Directories
  import opened Inodes
  import opened DataRoundTrip
  import opened IndexedTables
  import opened Trees
  import opened TreeRoundTrip
  import opened HeaderCounts
  import opened Images
  import opened ImageRoundTrip

  // ---- The data area ----

  function DataIn(h: seq<PendingWrite>): nat {
    if h == [] then 0 else DataIn(Init(h)) + if Last(h).Dedup? then 0 else |Last(h).data|
  }

  function FlushesIn(h: seq<PendingWrite>): nat {
    if h == [] then 0 else FlushesIn(Init(h)) + if Last(h).Fragment? then 1 else 0
  }

  /** What is stored is never longer than what was sent. */
  lemma {:induction false} DataAreaBound(cfg: Config, h: seq<PendingWrite>)
    ensures HandleAll(cfg, h).file.pos <= SUPER_SIZE + DataIn(h)
    ensures |HandleAll(cfg, h).fragments| == FlushesIn(h)
  {
    hide FindSame, RangeLen, Stored, SizeWord;
    if h != [] {
      DataAreaBound(cfg, Init(h));
      match Last(h)
      case Fragment(data) => StoredNoLonger(cfg.comp, data);
      case Block(data, _) => StoredNoLonger(cfg.comp, data);
      case Dedup(_) =>
    }
  }

  /** Data sent and still in the open fragment; fragments flushed and open. */
  function Load(p: Progress): nat {
    DataIn(p.sent) + |p.client.current|
  }

  function FragmentsSoFar(p: Progress): nat {
    FlushesIn(p.sent) + if p.client.current == [] then 0 else 1
  }

  function CallsData(calls: seq<WriterCall>): nat {
    if calls == [] then 0 else (if calls[0].PutDedup? then 0 else |calls[0].data|) + CallsData(calls[1..])
  }

  function CallsTails(calls: seq<WriterCall>): nat {
    if calls == [] then 0 else (if calls[0].PutTail? then 1 else 0) + CallsTails(calls[1..])
  }

  lemma SentMore(h: seq<PendingWrite>, out: seq<PendingWrite>)
    requires |out| <= 1
    ensures DataIn(h + out) == DataIn(h) + if out == [] || out[0].Dedup? then 0 else |out[0].data|
    ensures FlushesIn(h + out) == FlushesIn(h) + if out != [] && out[0].Fragment? then 1 else 0
  {
    if out == [] {
      assert h + out == h;
    } else {
      assert Init(h + out) == h;
    }
  }

  lemma CallBound(cfg: Config, p: Progress, call: WriterCall)
    ensures Load(RunCall(cfg, p, call)) <= Load(p) + if call.PutDedup? then 0 else |call.data|
    ensures FragmentsSoFar(RunCall(cfg, p, call)) <= FragmentsSoFar(p) + if call.PutTail? then 1 else 0
  {
    hide Search, Candidates, MeaningOf, DataIn, FlushesIn;
    SentMore(p.sent, Call(cfg, p.client, SentFragments(p), call).1);
  }

  lemma {:induction false} CallsBound(cfg: Config, p: Progress, calls: seq<WriterCall>)
    ensures Load(RunCalls(cfg, p, calls)) <= Load(p) + CallsData(calls)
    ensures FragmentsSoFar(RunCalls(cfg, p, calls)) <= FragmentsSoFar(p) + CallsTails(calls)
    decreases |calls|
  {
    hide Load, FragmentsSoFar, RunCall;
    if calls != [] {
      CallBound(cfg, p, calls[0]);
      CallsBound(cfg, RunCall(cfg, p, calls[0]), calls[1..]);
    }
  }

  lemma {:induction false} CallsSum(a: seq<WriterCall>, b: seq<WriterCall>)
    ensures CallsData(a + b) == CallsData(a) + CallsData(b) && CallsTails(a + b) == CallsTails(a) + CallsTails(b)
  {
    if a == [] {
      assert a + b == b;
    } else {
      assert (a + b)[1..] == a[1..] + b;
      CallsSum(a[1..], b);
    }
  }

  lemma {:induction false} BlocksSum(n: nat, chunks: seq<Bytes>)
    ensures CallsData(PutBlocks(n, chunks)) == |Flat(chunks)| && CallsTails(PutBlocks(n, chunks)) == 0
  {
    if chunks != [] {
      BlocksSum(n, chunks[1..]);
      assert PutBlocks(n, chunks)[1..] == PutBlocks(n, chunks[1..]);
    }
  }

  lemma FileSum(cfg: Config, n: nat, data: Bytes)
    requires 0 < cfg.blockSize
    ensures CallsData(FileCalls(cfg, n, data)) == |data| && CallsTails(FileCalls(cfg, n, data)) <= 1
  {
    hide AllChunks, PutBlocks;
    if cfg.blockSize <= |data| {
      var chunks := AllChunks(cfg.blockSize, data);
      CallsSum(PutBlocks(n, chunks), [PutDedup(n)]);
      BlocksSum(n, chunks);
      AllChunksCover(cfg.blockSize, data);
    }
  }

  function DataBytes(files: seq<FileData>): nat {
    if files == [] then 0 else DataBytes(Init(files)) + |Last(files).data|
  }

  lemma {:induction false} FilesSum(cfg: Config, files: seq<FileData>)
    requires 0 < cfg.blockSize
    ensures CallsData(AllCalls(cfg, files)) == DataBytes(files) && CallsTails(AllCalls(cfg, files)) <= |files|
  {
    hide FileCalls;
    if files != [] {
      var f := Last(files);
      FilesSum(cfg, Init(files));
      CallsSum(AllCalls(cfg, Init(files)), FileCalls(cfg, f.inode, f.data));
      FileSum(cfg, f.inode, f.data);
    }
  }

  /** The data area is no longer than the files, and there are no more fragments than files. */
  lemma DataBound(cfg: Config, files: seq<FileData>)
    requires 0 < cfg.blockSize
    ensures var w := HandleAll(cfg, Outcome(cfg, files).sent);
            w.file.pos <= SUPER_SIZE + DataBytes(files) && |w.fragments| <= |files|
  {
    hide HandleAll, RunCalls, AllCalls, DataIn, FlushesIn, CallsData, CallsTails, DataBytes;
    var p := RunCalls(cfg, NO_PROGRESS, AllCalls(cfg, files));
    FilesSum(cfg, files);
    CallsBound(cfg, NO_PROGRESS, AllCalls(cfg, files));
    NothingIn();
    SentMore(p.sent, Fragments.FinishData(p.client).1);
    DataAreaBound(cfg, Outcome(cfg, files).sent);
  }

  lemma NothingIn()
    ensures DataIn([]) == 0 && FlushesIn([]) == 0
  {
  }

  // ---- The two streams ----

  /** The bytes a node and all below it can take in both streams. */
  function Weight(blockSize: nat, n: Node): nat
    requires 0 < blockSize
    decreases n
  {
    match n.body
    case Reg(_, _, _, _, fileSize) => 56 + 4 * (fileSize / blockSize + 1)
    case Sym(target) => 28 + |target|
    case Dir(kids) => 40 + ListingBound(kids) + KidsWeight(blockSize, kids)
    case _ => 28
  }

  function KidsWeight(blockSize: nat, kids: seq<Kid>): nat
    requires 0 < blockSize
    decreases kids
  {
    if kids == [] then 0 else Weight(blockSize, kids[0].node) + KidsWeight(blockSize, kids[1..])
  }

  /** The files' size words are no more than their lengths ask for, and records are of known kinds. */
  predicate Plausible(blockSize: nat, n: Node)
    requires 0 < blockSize
    decreases n
  {
    match n.body
    case Reg(_, sizes, _, _, fileSize) => |sizes| <= fileSize / blockSize + 1
    case Dev(kind, _) => kind == TYPE_BLK || kind == TYPE_CHR
    case Ipc(kind) => kind == TYPE_PIPE || kind == TYPE_SOCK
    case Dir(kids) => KidsPlausible(blockSize, kids)
    case _ => true
  }

  predicate KidsPlausible(blockSize: nat, kids: seq<Kid>)
    requires 0 < blockSize
    decreases kids
  {
    kids == [] || (Plausible(blockSize, kids[0].node) && KidsPlausible(blockSize, kids[1..]))
  }

  lemma DirRecordBound(raw: Raw)
    requires raw.RawDir?
    ensures RawShape(raw) && RecordSize(raw) <= 40
  {
    assert Width([4, 2, 2, 4]) == 12 && Width([4, 4, 2, 2, 4]) == 16;
    assert Width([4, 4, 4]) == 12 && Width([4, 4, 4, 2, 2, 4]) == 20 && Width([4, 4, 4, 4, 2, 2, 4]) == 24;
  }

  lemma LeafRecordBound(blockSize: nat, n: Node)
    requires 0 < blockSize && Plausible(blockSize, n) && !n.body.Dir? && RawShape(LeafRaw(n))
    ensures RecordSize(LeafRaw(n)) <= Weight(blockSize, n)
  {
    hide Enc, Fours;
    LeafWidths();
    match n.body
    case Reg(_, sizes, _, _, _) => SizesReadBack(sizes);
    case _ => Inodes.WordReadsBack(n.meta.xattr);
  }

  lemma {:induction false} WalkBound(c: Compressor, blockSize: nat, s: Ser, n: Node, parent: U32)
    requires 0 < blockSize && Plausible(blockSize, n)
    ensures var t := WriteNode(c, s, n, parent).0;
            |t.inodes| + |t.dirs| <= |s.inodes| + |s.dirs| + Weight(blockSize, n)
    decreases n
  {
    hide EncodeInode, EncodeListing, AddressAt, HeadOf, IdsAfter, RecordSize, RawShape, DirRaw, LeafRaw;
    match n.body
    case Dir(kids) =>
      var (s1, es) := WriteKids(c, s, kids, n.meta.number);
      var (s2, at) := PutListing(c, s1, es);
      KidsBound(c, blockSize, s, kids, n.meta.number);
      ListingLength(es);
      NamesOfEntries(c, s, kids, n.meta.number);
      DirIsDir(n.meta, es, at, parent);
      DirRecordBound(DirRaw(n.meta, es, at, parent));
      RecordLength(HeadOf(s2.ids, n.meta), DirRaw(n.meta, es, at, parent));
    case _ =>
      if RawShape(LeafRaw(n)) {
        LeafRecordBound(blockSize, n);
        RecordLength(HeadOf(s.ids, n.meta), LeafRaw(n));
      }
  }

  lemma {:induction false} KidsBound(c: Compressor, blockSize: nat, s: Ser, kids: seq<Kid>, parent: U32)
    requires 0 < blockSize && KidsPlausible(blockSize, kids)
    ensures var t := WriteKids(c, s, kids, parent).0;
            |t.inodes| + |t.dirs| <= |s.inodes| + |s.dirs| + KidsWeight(blockSize, kids)
    decreases kids
  {
    hide WriteNode, Weight, Plausible;
    if kids != [] {
      WalkBound(c, blockSize, s, kids[0].node, parent);
      KidsBound(c, blockSize, WriteNode(c, s, kids[0].node, parent).0, kids[1..], parent);
    }
  }

  lemma {:induction false} NamesOfEntries(c: Compressor, s: Ser, kids: seq<Kid>, parent: U32)
    ensures NamesBound(WriteKids(c, s, kids, parent).1) == ListingBound(kids)
    decreases |kids|
  {
    hide WriteNode;
    if kids != [] {
      var (s1, addr) := WriteNode(c, s, kids[0].node, parent);
      NamesOfEntries(c, s1, kids[1..], parent);
      var es := WriteKids(c, s, kids, parent).1;
      assert es[1..] == WriteKids(c, s1, kids[1..], parent).1;
    }
  }

  // ---- Tables ----

  lemma {:induction false} ChunksBound(c: Compressor, chunks: seq<Bytes>)
    ensures |EncodeAll(c, chunks)| <= |Flat(chunks)| + 2 * |chunks|
  {
    hide EncodeBlock;
    if chunks != [] {
      ChunksBound(c, chunks[1..]);
      OneBlockBound(c, chunks[0]);
      FlatCons(chunks);
    }
  }

  lemma OneBlockBound(c: Compressor, x: Bytes)
    ensures |EncodeBlock(c, x)| <= |x| + 2
  {
    StoredNoLonger(c, x);
  }

  /** A finished stream's table. */
  lemma StreamTableBound(c: Compressor, s: Bytes)
    ensures |TableOf(c, Padded(s))| <= 2 * |s| + META_SIZE + 2
  {
    hide EncodeAll, FullChunks, Rest, Flat;
    var t := Padded(s);
    PaddedIsWhole(s);
    ChunksBound(c, FullChunks(META_SIZE, t));
    ChunksCover(META_SIZE, t);
    ChunksCount(META_SIZE, t);
    PaddedBound(s);
  }

  lemma PaddedBound(s: Bytes)
    ensures |Padded(s)| <= |s| + META_SIZE
    ensures |Padded(s)| / META_SIZE <= |s| / META_SIZE + 1 && 2 * (|s| / META_SIZE) <= |s|
  {
  }

  /** An indexed table. */
  lemma IndexedBound(c: Compressor, entries: seq<Bytes>, size: nat, perBlock: nat, start: nat)
    requires 0 < perBlock && forall e :: e in entries ==> |e| == size
    ensures var t := IndexedAt(c, entries, perBlock, start);
            |t.table| <= 2 * (size * |entries|) + 2 && |t.index| <= 8 * |entries|
  {
    hide EncodeAll, AllChunks, Flat, AddressAt;
    var s := Flat(entries);
    FlatLength(entries, size);
    ChunksBound(c, AllChunks(META_SIZE, s));
    AllChunksCover(META_SIZE, s);
    AllChunksCount(META_SIZE, s);
    IndexCount(c, entries, perBlock, start, |entries|);
  }

  lemma {:induction false} IndexCount(c: Compressor, entries: seq<Bytes>, perBlock: nat, start: nat, count: nat)
    requires 0 < perBlock && count <= |entries|
    ensures |IndexWords(c, entries, perBlock, start, count)| <= count
  {
    hide AddressAt, Flat;
    if count > 0 {
      IndexCount(c, entries, perBlock, start, count - 1);
    }
  }

  // ---- Putting it together ----

  /** What goes in, measured before anything is packed. */
  predicate SmallEnough(blockSize: nat, files: seq<FileData>, root: Node)
    requires 0 < blockSize
  {
    && 2 * Weight(blockSize, root) + META_SIZE + 2 < 0x1_0000_0000
    && 32 * |files| + 2 < 0x1_0000_0000
    && DataBytes(files) < 0x8000_0000_0000_0000
  }

  lemma {:induction false} LocatedWeight(cs: Client, w: Writer, blockSize: nat, n: Node)
    requires 0 < blockSize
    ensures Weight(blockSize, Located(cs, w, n)) == Weight(blockSize, n)
    decreases n
  {
    hide RecordOf, NarrowAll;
    if n.body.Dir? {
      LocatedKidsWeight(cs, w, blockSize, n.body.kids);
    }
  }

  lemma {:induction false} LocatedKidsWeight(cs: Client, w: Writer, blockSize: nat, kids: seq<Kid>)
    requires 0 < blockSize
    ensures KidsWeight(blockSize, LocatedKids(cs, w, kids)) == KidsWeight(blockSize, kids)
    ensures ListingBound(LocatedKids(cs, w, kids)) == ListingBound(kids)
    decreases kids
  {
    hide Located, Weight;
    if kids != [] {
      LocatedWeight(cs, w, blockSize, kids[0].node);
      LocatedKidsWeight(cs, w, blockSize, kids[1..]);
      assert LocatedKids(cs, w, kids)[1..] == LocatedKids(cs, w, kids[1..]);
    }
  }

  /** The pipeline leaves each file no more size words than its length asks for. */
  ghost predicate ShortReports(blockSize: nat, cs: Client, w: Writer, files: seq<FileData>)
    requires 0 < blockSize
  {
    forall i :: 0 <= i < |files| ==> ShortReport(blockSize, w, files[i])
  }

  predicate ShortReport(blockSize: nat, w: Writer, f: FileData)
    requires 0 < blockSize
  {
    |ReportOf(w, f.inode).sizes| <= |f.data| / blockSize + 1
  }

  lemma FilesHaveShortReports(cfg: Config, files: seq<FileData>)
    requires ConfigOk(cfg) && Distinct(files) && |HandleAll(cfg, Outcome(cfg, files).sent).fragments| <= FRAGMENT_NONE
    ensures var o := Outcome(cfg, files); ShortReports(cfg.blockSize, o.client, HandleAll(cfg, o.sent), files)
  {
    hide Outcome, HandleAll, ReadFile, MeaningOf, WellOrdered, Tiles, FragmentsStored, RunsStored, Layout;
    var o := Outcome(cfg, files);
    var w := HandleAll(cfg, o.sent);
    OutcomeInv(cfg, files);
    WriterInvHolds(cfg, o.sent);
    TilesAboveSuper(w, Layout(cfg, o.sent), w.file.pos);
    forall i | 0 <= i < |files|
      ensures ShortReport(cfg.blockSize, w, files[i])
    {
      EveryFileReadsBack(cfg, files, w.file.bytes, i);
      RoundUp(cfg.blockSize, |files[i].data|);
    }
  }

  lemma {:induction false} LocatedPlausible(cs: Client, w: Writer, blockSize: nat, files: seq<FileData>, n: Node)
    requires 0 < blockSize && ShortReports(blockSize, cs, w, files) && TreeFits(files, n)
    ensures Plausible(blockSize, Located(cs, w, n))
    decreases n
  {
    hide FindFile;
    match n.body
    case Reg(_, _, _, _, _) =>
      assert ShortReport(blockSize, w, files[FindFile(files, n.meta.number).value]);
    case Dir(kids) => LocatedKidsPlausible(cs, w, blockSize, files, kids);
    case _ =>
  }

  lemma {:induction false} LocatedKidsPlausible(cs: Client, w: Writer, blockSize: nat, files: seq<FileData>,
                                                kids: seq<Kid>)
    requires 0 < blockSize && ShortReports(blockSize, cs, w, files) && KidsFit(files, kids)
    ensures KidsPlausible(blockSize, LocatedKids(cs, w, kids))
    decreases kids
  {
    hide Located, Plausible, ShortReports, TreeFits;
    if kids != [] {
      LocatedPlausible(cs, w, blockSize, files, kids[0].node);
      LocatedKidsPlausible(cs, w, blockSize, files, kids[1..]);
      assert LocatedKids(cs, w, kids)[1..] == LocatedKids(cs, w, kids[1..]);
    }
  }

  lemma TreeBound(cfg: Config, files: seq<FileData>, root: Node, next: U32)
    requires ConfigOk(cfg) && Distinct(files) && TreeFits(files, root) && |files| <= FRAGMENT_NONE
    ensures var s := WrittenTree(PackedFor(cfg, files, root, next)).0;
            |s.inodes| + |s.dirs| <= Weight(cfg.blockSize, root)
  {
    hide Outcome, HandleAll, WriteNode, Located, Weight, TreeFits, ShortReports;
    var p := PackedFor(cfg, files, root, next);
    DataBound(cfg, files);
    FilesHaveShortReports(cfg, files);
    LocatedPlausible(p.client, p.w, cfg.blockSize, files, root);
    LocatedWeight(p.client, p.w, cfg.blockSize, root);
    WalkBound(cfg.comp, cfg.blockSize, NO_SER, Located(p.client, p.w, root), next);
  }

  /** Small files and a small tree fit. */
  lemma SmallImagesFit(cfg: Config, files: seq<FileData>, root: Node, next: U32)
    requires ConfigOk(cfg) && Distinct(files) && TreeFits(files, root) && SmallEnough(cfg.blockSize, files, root)
    ensures SizesFit(PackedFor(cfg, files, root, next))
  {
    hide Outcome, HandleAll, WrittenTree, Weight, TreeFits, DataBytes, TableOf, IndexedAt, Padded, IdEntries,
      FragmentEntries;
    var p := PackedFor(cfg, files, root, next);
    var s, t := WrittenTree(p).0, TablesFor(p);
    TablesShape(p);
    DataBound(cfg, files);
    TreeBound(cfg, files, root, next);
    StreamTableBound(cfg.comp, s.inodes);
    StreamTableBound(cfg.comp, s.dirs);
    IndexedBound(cfg.comp, FragmentEntries(p.w.fragments), FRAGMENT_SIZE, FRAGMENTS_PER_BLOCK, t.fragments.start);
    IndexedBound(cfg.comp, IdEntries(s.ids), ID_SIZE, IDS_PER_BLOCK, t.ids.start);
  }
}
