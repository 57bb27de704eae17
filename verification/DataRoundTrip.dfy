/** The file-data pipeline from end to end: whatever files are put in, reading each inode
    back from the finished output gives its bytes. */
module DataRoundTrip {
  import opened SquashDefs
  import opened Chunking
  import opened Compressors
  import opened BlockReports
  import opened PendingWrites
  import opened RollbackSafety
  import opened Fragments
  import opened FileCuts

  datatype FileData = FileData(inode: nat, data: Bytes)

  predicate Distinct(files: seq<FileData>) {
    forall i, j :: 0 <= i < j < |files| ==> files[i].inode != files[j].inode
  }

  function AllCalls(cfg: Config, files: seq<FileData>): seq<WriterCall>
    requires 0 < cfg.blockSize
  {
    if files == [] then [] else AllCalls(cfg, Init(files)) + FileCalls(cfg, Last(files).inode, Last(files).data)
  }

  /** The tails and the block lists the files ask for. */
  function TailsOf(cfg: Config, files: seq<FileData>): map<nat, Bytes> {
    if files == [] then map[]
    else
      TailsAfter(cfg, TailsOf(cfg, Init(files)), Last(files))
  }

  function RunsOf(cfg: Config, files: seq<FileData>): map<nat, seq<Bytes>>
    requires 0 < cfg.blockSize
  {
    if files == [] then map[]
    else
      RunsAfter(cfg, RunsOf(cfg, Init(files)), Last(files))
  }

  /** The state of a client that has put the given files and finished nothing else. */
  ghost predicate PipelineInv(cfg: Config, p: Progress, tails: map<nat, Bytes>, runs: map<nat, seq<Bytes>>) {
    && WellOrdered(cfg, p.sent)
    && MeaningOf(p.sent).runs == runs
    && (cfg.dedup ==> MeaningOf(p.sent).open == None)
    && ClientInv(cfg, p.client, SentFragments(p), tails)
  }

  lemma {:induction false} RunCallsAppend(cfg: Config, p: Progress, a: seq<WriterCall>, b: seq<WriterCall>)
    ensures RunCalls(cfg, p, a + b) == RunCalls(cfg, RunCalls(cfg, p, a), b)
    decreases |a|
  {
    if a == [] {
      assert a + b == b;
    } else {
      assert (a + b)[1..] == a[1..] + b;
      RunCallsAppend(cfg, RunCall(cfg, p, a[0]), a[1..], b);
    }
  }

  lemma SentOne(cfg: Config, h: seq<PendingWrite>, p: PendingWrite)
    ensures MeaningOf(h + [p]) == Extend(MeaningOf(h), p)
    ensures WellOrdered(cfg, h + [p]) == (WellOrdered(cfg, h) && MayFollow(cfg, MeaningOf(h), p))
  {
    assert Init(h + [p]) == h;
  }

  function WithRun(m: Meaning, n: nat, chunks: seq<Bytes>): Meaning {
    if chunks == [] then m else Meaning(m.fragments, m.runs[n := RunOf(m, n) + chunks], Some(n))
  }

  lemma WithRunStep(m: Meaning, n: nat, chunks: seq<Bytes>)
    requires chunks != []
    ensures WithRun(Extend(m, Block(chunks[0], n)), n, chunks[1..]) == WithRun(m, n, chunks)
  {
    var run := RunOf(m, n);
    assert run + [chunks[0]] + chunks[1..] == run + chunks;
    if chunks[1..] == [] {
      assert run + [chunks[0]] == run + chunks;
    }
  }

  predicate MayStartRun(cfg: Config, m: Meaning, n: nat) {
    m.open == Some(n) || (n !in m.runs && (cfg.dedup ==> m.open == None))
  }

  /** Blocks of one inode, sent in a row. */
  lemma {:induction false} RunBlocks(cfg: Config, p: Progress, n: nat, chunks: seq<Bytes>)
    requires WellOrdered(cfg, p.sent) && BlocksFit(chunks, cfg.blockSize) && MayStartRun(cfg, MeaningOf(p.sent), n)
    ensures WellOrdered(cfg, RunCalls(cfg, p, PutBlocks(n, chunks)).sent)
    ensures RunCalls(cfg, p, PutBlocks(n, chunks)).client == p.client
    ensures MeaningOf(RunCalls(cfg, p, PutBlocks(n, chunks)).sent) == WithRun(MeaningOf(p.sent), n, chunks)
    decreases |chunks|
  {
    hide WellOrdered, WithRun;
    if chunks == [] {
      NoRun(MeaningOf(p.sent), n);
    } else {
      var q := RunCall(cfg, p, PutBlock(n, chunks[0]));
      SentOne(cfg, p.sent, Block(chunks[0], n));
      assert chunks[0] in chunks;
      assert BlocksFit(chunks[1..], cfg.blockSize);
      RunBlocks(cfg, q, n, chunks[1..]);
      WithRunStep(MeaningOf(p.sent), n, chunks);
    }
  }

  lemma NoRun(m: Meaning, n: nat)
    ensures WithRun(m, n, []) == m
  {
  }

  // ---- One file ----

  /** Where the pipeline stands after one more file. */
  function TailsAfter(cfg: Config, tails: map<nat, Bytes>, f: FileData): map<nat, Bytes> {
    if 0 < |f.data| < cfg.blockSize then tails[f.inode := f.data] else tails
  }

  function RunsAfter(cfg: Config, runs: map<nat, seq<Bytes>>, f: FileData): map<nat, seq<Bytes>>
    requires 0 < cfg.blockSize
  {
    if cfg.blockSize <= |f.data| then runs[f.inode := AllChunks(cfg.blockSize, f.data)] else runs
  }

  lemma FileStep(cfg: Config, p: Progress, tails: map<nat, Bytes>, runs: map<nat, seq<Bytes>>, f: FileData)
    requires ConfigOk(cfg) && PipelineInv(cfg, p, tails, runs) && f.inode !in tails && f.inode !in runs
    ensures PipelineInv(cfg, RunCalls(cfg, p, FileCalls(cfg, f.inode, f.data)), TailsAfter(cfg, tails, f),
                        RunsAfter(cfg, runs, f))
  {
    if f.data == [] {
    } else if |f.data| < cfg.blockSize {
      TailStep(cfg, p, tails, runs, f);
    } else {
      LongFileStep(cfg, p, tails, runs, f);
    }
  }

  lemma RunOneCall(cfg: Config, p: Progress, call: WriterCall)
    ensures RunCalls(cfg, p, [call]) == RunCall(cfg, p, call)
  {
  }

  lemma TailStep(cfg: Config, p: Progress, tails: map<nat, Bytes>, runs: map<nat, seq<Bytes>>, f: FileData)
    requires ConfigOk(cfg) && PipelineInv(cfg, p, tails, runs) && f.inode !in tails
    requires 0 < |f.data| < cfg.blockSize
    ensures PipelineInv(cfg, RunCalls(cfg, p, [PutTail(f.inode, f.data)]), tails[f.inode := f.data], runs)
  {
    hide PutFragment, TailsHeld, FiledOk, WellOrdered, MeaningOf;
    RunOneCall(cfg, p, PutTail(f.inode, f.data));
    PutFragmentKeepsInv(cfg, p.client, SentFragments(p), tails, f.inode, f.data);
    var (cs, out) := PutFragment(cfg, p.client, SentFragments(p), f.inode, f.data);
    if out == [] {
      assert p.sent + out == p.sent;
      assert SentFragments(p) + [] == SentFragments(p);
    } else {
      SentOne(cfg, p.sent, out[0]);
    }
  }

  lemma LongFileStep(cfg: Config, p: Progress, tails: map<nat, Bytes>, runs: map<nat, seq<Bytes>>, f: FileData)
    requires ConfigOk(cfg) && PipelineInv(cfg, p, tails, runs) && f.inode !in runs
    requires cfg.blockSize <= |f.data|
    ensures PipelineInv(cfg, RunCalls(cfg, p, FileCalls(cfg, f.inode, f.data)), tails, RunsAfter(cfg, runs, f))
  {
    hide TailsHeld, FiledOk, WellOrdered, MeaningOf, PutBlocks, AllChunks, RunCalls;
    var n, chunks := f.inode, AllChunks(cfg.blockSize, f.data);
    AllChunksCover(cfg.blockSize, f.data);
    FlatNone();
    assert chunks != [];
    RunCallsAppend(cfg, p, PutBlocks(n, chunks), [PutDedup(n)]);
    RunBlocks(cfg, p, n, chunks);
    var q := RunCalls(cfg, p, PutBlocks(n, chunks));
    RunOneCall(cfg, q, PutDedup(n));
    assert RunOf(MeaningOf(p.sent), n) + chunks == chunks;
    if cfg.dedup {
      SentOne(cfg, q.sent, Dedup(n));
    } else {
      assert q.sent + [] == q.sent;
    }
  }

  lemma {:induction false} NotYetPut(cfg: Config, files: seq<FileData>, n: nat)
    requires 0 < cfg.blockSize && forall f :: f in files ==> f.inode != n
    ensures n !in TailsOf(cfg, files) && n !in RunsOf(cfg, files)
  {
    hide AllChunks;
    if files != [] {
      NotYetPut(cfg, Init(files), n);
    }
  }

  lemma {:induction false} FilesKeepInv(cfg: Config, files: seq<FileData>)
    requires ConfigOk(cfg) && Distinct(files)
    ensures PipelineInv(cfg, RunCalls(cfg, NO_PROGRESS, AllCalls(cfg, files)), TailsOf(cfg, files), RunsOf(cfg, files))
  {
    if files != [] {
      var front, f := Init(files), Last(files);
      FilesKeepInv(cfg, front);
      RunCallsAppend(cfg, NO_PROGRESS, AllCalls(cfg, front), FileCalls(cfg, f.inode, f.data));
      NotYetPut(cfg, front, f.inode);
      FileStep(cfg, RunCalls(cfg, NO_PROGRESS, AllCalls(cfg, front)), TailsOf(cfg, front), RunsOf(cfg, front), f);
    }
  }

  /** A place once given to a tail is never changed by later files. */
  lemma {:induction false} IndicesNeverMove(cfg: Config, files: seq<FileData>, more: seq<FileData>, n: nat)
    requires ConfigOk(cfg) && Distinct(files + more) && n in TailsOf(cfg, files)
    ensures IndexOf(RunCalls(cfg, NO_PROGRESS, AllCalls(cfg, files + more)).client, n)
         == IndexOf(RunCalls(cfg, NO_PROGRESS, AllCalls(cfg, files)).client, n)
    ensures n in TailsOf(cfg, files + more)
    decreases |more|
  {
    hide FileCalls, TailsOf, RunsOf, PipelineInv;
    if more == [] {
      assert files + more == files;
    } else {
      var all, f := files + Init(more), Last(more);
      assert Init(files + more) == all && Last(files + more) == f;
      IndicesNeverMove(cfg, files, Init(more), n);
      RunCallsAppend(cfg, NO_PROGRESS, AllCalls(cfg, all), FileCalls(cfg, f.inode, f.data));
      FilesKeepInv(cfg, all);
      NotYetPut(cfg, all, f.inode);
      FileKeepsIndices(cfg, RunCalls(cfg, NO_PROGRESS, AllCalls(cfg, all)), TailsOf(cfg, all), RunsOf(cfg, all), f, n);
      TailsGrow(cfg, files + more, n);
    }
  }

  lemma TailsGrow(cfg: Config, files: seq<FileData>, n: nat)
    requires files != [] && n in TailsOf(cfg, Init(files))
    ensures n in TailsOf(cfg, files)
  {
  }

  lemma FileKeepsIndices(cfg: Config, p: Progress, tails: map<nat, Bytes>, runs: map<nat, seq<Bytes>>, f: FileData,
                         n: nat)
    requires ConfigOk(cfg) && PipelineInv(cfg, p, tails, runs) && f.inode !in tails && f.inode !in runs && n in tails
    ensures IndexOf(RunCalls(cfg, p, FileCalls(cfg, f.inode, f.data)).client, n) == IndexOf(p.client, n)
  {
    hide PutFragment, TailsHeld, FiledOk, WellOrdered, MeaningOf, AllChunks, PutBlocks, RunCalls;
    if f.data == [] {
      NothingCalled(cfg, p);
    } else if |f.data| < cfg.blockSize {
      RunOneCall(cfg, p, PutTail(f.inode, f.data));
      PutFragmentKeepsInv(cfg, p.client, SentFragments(p), tails, f.inode, f.data);
    } else {
      var chunks := AllChunks(cfg.blockSize, f.data);
      AllChunksCover(cfg.blockSize, f.data);
      RunCallsAppend(cfg, p, PutBlocks(f.inode, chunks), [PutDedup(f.inode)]);
      RunBlocks(cfg, p, f.inode, chunks);
      RunOneCall(cfg, RunCalls(cfg, p, PutBlocks(f.inode, chunks)), PutDedup(f.inode));
    }
  }

  lemma NothingCalled(cfg: Config, p: Progress)
    ensures RunCalls(cfg, p, []) == p
  {
  }

  // ---- Finishing, and reading back ----

  /** The client when every file is in and the last fragment is flushed. */
  function Outcome(cfg: Config, files: seq<FileData>): Progress
    requires 0 < cfg.blockSize
  {
    Finish(RunCalls(cfg, NO_PROGRESS, AllCalls(cfg, files)))
  }

  /** Every file leaves a well-ordered history and consistent indices, with no fragment open. */
  lemma OutcomeInv(cfg: Config, files: seq<FileData>)
    requires ConfigOk(cfg) && Distinct(files)
    ensures PipelineInv(cfg, Outcome(cfg, files), TailsOf(cfg, files), RunsOf(cfg, files))
    ensures Outcome(cfg, files).client.current == []
  {
    hide TailsHeld, FiledOk, WellOrdered, MeaningOf, RunCalls, AllCalls, TailsOf, RunsOf;
    FilesKeepInv(cfg, files);
    var p := RunCalls(cfg, NO_PROGRESS, AllCalls(cfg, files));
    if p.client.current != [] {
      FlushKeepsInv(cfg, p.client, SentFragments(p), TailsOf(cfg, files));
      SentOne(cfg, p.sent, Fragment(p.client.current));
    } else {
      assert p.sent + [] == p.sent;
    }
  }

  /** What the inode of a regular file records. */
  datatype FileRecord = FileRecord(start: nat, sizes: seq<nat>, fragment: nat, offset: nat, fileSize: nat)

  function RecordOf(cs: Client, w: Writer, n: nat, fileSize: nat): FileRecord {
    FileRecord(ReportOf(w, n).start, ReportOf(w, n).sizes, IndexOf(cs, n).fragment, IndexOf(cs, n).offset, fileSize)
  }

  /** How many size words follow an inode: a reader has only this to go by. */
  function BlockCount(blockSize: nat, fileSize: nat, fragment: nat): nat
    requires 0 < blockSize
  {
    if fragment == FRAGMENT_NONE then (fileSize + blockSize - 1) / blockSize else fileSize / blockSize
  }

  function ReadTail(c: Compressor, blockSize: nat, img: Bytes, fragments: seq<FragmentEntry>, r: FileRecord): Bytes
    requires 0 < blockSize
  {
    if r.fragment < |fragments| then
      var e := fragments[r.fragment];
      Slice(ReadBlock(c, img, e.start, e.size, blockSize), r.offset, r.fileSize % blockSize)
    else
      []
  }

  /** A reader: the blocks, then the tail if a fragment is recorded, cut to the file's size. */
  function ReadFile(c: Compressor, blockSize: nat, img: Bytes, fragments: seq<FragmentEntry>, r: FileRecord): Bytes
    requires 0 < blockSize
  {
    var all := ReadBlocks(c, img, r.start, r.sizes, blockSize)
               + if r.fragment == FRAGMENT_NONE then [] else ReadTail(c, blockSize, img, fragments, r);
    if r.fileSize <= |all| then all[..r.fileSize] else all
  }

  /** An image whose data area is the one the writer left; the superblock and whatever
      follows may be written later. */
  predicate SameData(img: Bytes, w: Writer) {
    SUPER_SIZE <= w.file.pos <= |img| && w.file.pos <= |w.file.bytes|
    && img[SUPER_SIZE..w.file.pos] == w.file.bytes[SUPER_SIZE..w.file.pos]
  }

  lemma DataSlice(img: Bytes, w: Writer, start: nat, len: nat)
    requires SameData(img, w) && Inside(start, len, w.file.pos)
    ensures Slice(img, start, len) == Slice(w.file.bytes, start, len)
  {
    var end := w.file.pos;
    SubSlice(img, SUPER_SIZE, end, start - SUPER_SIZE, start - SUPER_SIZE + len);
    SubSlice(w.file.bytes, SUPER_SIZE, end, start - SUPER_SIZE, start - SUPER_SIZE + len);
  }

  /** A short file is a tail and nothing else, a long one a block list and nothing else. */
  predicate Went(cfg: Config, tails: map<nat, Bytes>, runs: map<nat, seq<Bytes>>, f: FileData)
    requires 0 < cfg.blockSize
  {
    && (if 0 < |f.data| < cfg.blockSize then f.inode in tails && tails[f.inode] == f.data else f.inode !in tails)
    && (if cfg.blockSize <= |f.data| then f.inode in runs && runs[f.inode] == AllChunks(cfg.blockSize, f.data)
        else f.inode !in runs)
  }

  lemma {:induction false} WhereFileWent(cfg: Config, files: seq<FileData>, i: nat)
    requires ConfigOk(cfg) && Distinct(files) && i < |files|
    ensures Went(cfg, TailsOf(cfg, files), RunsOf(cfg, files), files[i])
  {
    hide AllChunks;
    var front, last := Init(files), Last(files);
    if i < |front| {
      WhereFileWent(cfg, front, i);
      assert files[i].inode != last.inode;
    } else {
      NotYetPut(cfg, front, last.inode);
    }
  }

  /** A tail's fragment, read from the image, holds it where its index says. */
  lemma TailReadsBack(cfg: Config, p: Progress, w: Writer, owners: seq<Owner>, img: Bytes,
                      tails: map<nat, Bytes>, runs: map<nat, seq<Bytes>>, n: nat)
    requires ConfigOk(cfg) && PipelineInv(cfg, p, tails, runs) && p.client.current == []
    requires WriterInv(cfg, MeaningOf(p.sent), w, owners) && SameData(img, w)
    requires n in tails && 0 < |tails[n]| < cfg.blockSize
    ensures IndexOf(p.client, n).fragment < |w.fragments|
    ensures ReadTail(cfg.comp, cfg.blockSize, img, w.fragments, RecordOf(p.client, w, n, |tails[n]|)) == tails[n]
  {
    hide Tiles, OwnersKnown, KeptAreOwners, OpenRunLast, RunsStored, RunsInside, FiledOk, WellOrdered, SameData,
      ReadBlock, Stored, SizeWord, WordLen, MeaningOf;
    var index := IndexOf(p.client, n);
    var flushed := SentFragments(p);
    assert Holds(p.client, flushed, index, tails[n]);
    assert index.fragment < |flushed|;
    var e := w.fragments[index.fragment];
    assert FragmentStored(cfg, w, index.fragment, flushed[index.fragment]);
    DataSlice(img, w, e.start, WordLen(e.size));
    ReadBlockInverts(cfg.comp, img, e.start, flushed[index.fragment], cfg.blockSize);
    SmallModulus(|tails[n]|, cfg.blockSize);
  }

  lemma SmallModulus(a: nat, b: nat)
    requires a < b
    ensures a % b == a && a / b == 0
  {
  }

  lemma RunReadsBack(cfg: Config, w: Writer, img: Bytes, n: nat, blocks: seq<Bytes>)
    requires ConfigOk(cfg) && SameData(img, w) && n in w.reports && RunStored(cfg, w, n, blocks)
    requires Inside(w.reports[n].start, RangeLen(w.reports[n].sizes), w.file.pos)
    ensures ReadBlocks(cfg.comp, img, w.reports[n].start, w.reports[n].sizes, cfg.blockSize) == Flat(blocks)
    ensures |w.reports[n].sizes| == |blocks|
  {
    hide SameData, ReadBlocks, StoredRun;
    DataSlice(img, w, w.reports[n].start, RangeLen(w.reports[n].sizes));
    ReadBlocksInverts(cfg.comp, img, w.reports[n].start, blocks, cfg.blockSize);
  }

  lemma CutExactly(data: Bytes)
    ensures data + [] == data && [] + data == data && data[..|data|] == data
  {
  }

  /** The data round trip: for any files with distinct inodes, any block size, any lawful
      compressor, and deduplication on or off, each file reads back as it was appended, and
      its record carries exactly as many size words as a reader will take. */
  lemma EveryFileReadsBack(cfg: Config, files: seq<FileData>, img: Bytes, i: nat)
    requires ConfigOk(cfg) && Distinct(files) && i < |files|
    requires var w := HandleAll(cfg, Outcome(cfg, files).sent); SameData(img, w) && |w.fragments| <= FRAGMENT_NONE
    ensures var p := Outcome(cfg, files);
            var w := HandleAll(cfg, p.sent);
            var r := RecordOf(p.client, w, files[i].inode, |files[i].data|);
            ReadFile(cfg.comp, cfg.blockSize, img, w.fragments, r) == files[i].data
            && |r.sizes| == BlockCount(cfg.blockSize, r.fileSize, r.fragment)
  {
    hide HandleAll, MeaningOf, WellOrdered, Outcome, ReadBlocks, ReadTail, RunStored, FragmentsStored, TailsHeld,
      FiledOk, Tiles, OwnersKnown, TailsOf, RunsOf, SameData, AllChunks, Flat, FragmentsInside, Layout;
    var p := Outcome(cfg, files);
    var w := HandleAll(cfg, p.sent);
    var n, data := files[i].inode, files[i].data;
    OutcomeInv(cfg, files);
    WriterInvHolds(cfg, p.sent);
    WhereFileWent(cfg, files, i);
    CutExactly(data);
    NoBlocks(cfg, img, 0);
    NotATail(p.client, SentFragments(p), TailsOf(cfg, files), n);
    if cfg.blockSize <= |data| {
      RunReadsBack(cfg, w, img, n, AllChunks(cfg.blockSize, data));
      AllChunksCover(cfg.blockSize, data);
      AllChunksCount(cfg.blockSize, data);
    } else if 0 < |data| {
      TailReadsBack(cfg, p, w, Layout(cfg, p.sent), img, TailsOf(cfg, files), RunsOf(cfg, files), n);
      SmallModulus(|data|, cfg.blockSize);
    } else {
      SmallModulus(cfg.blockSize - 1, cfg.blockSize);
    }
  }

  lemma NoBlocks(cfg: Config, img: Bytes, start: nat)
    ensures ReadBlocks(cfg.comp, img, start, [], cfg.blockSize) == []
  {
  }

  lemma NotATail(cs: Client, flushed: seq<Bytes>, tails: map<nat, Bytes>, n: nat)
    requires TailsHeld(cs, flushed, tails)
    ensures n !in tails ==> IndexOf(cs, n) == FragmentIndex(FRAGMENT_NONE, 0)
  {
  }

  /** What the inode of each file records: an empty file nothing; one shorter than a block a place
      inside a fragment and no blocks; a longer one its blocks behind the superblock and no
      fragment. The mark for none is the largest 32-bit number. */
  lemma WhatARecordSays(cfg: Config, files: seq<FileData>, i: nat)
    requires ConfigOk(cfg) && Distinct(files) && i < |files|
    ensures var p, len := Outcome(cfg, files), |files[i].data|;
            var w := HandleAll(cfg, p.sent);
            var r := RecordOf(p.client, w, files[i].inode, len);
            && r.fileSize == len
            && if len == 0 then r.start == 0 && r.sizes == [] && r.fragment == 0xffff_ffff && r.offset == 0
               else if len < cfg.blockSize then
                 && r.start == 0 && r.sizes == []
                 && r.fragment < |SentFragments(p)| == |w.fragments|
                 && r.offset + len <= |SentFragments(p)[r.fragment]| <= cfg.blockSize
               else
                 && 96 <= r.start && |r.sizes| == (len + cfg.blockSize - 1) / cfg.blockSize
                 && r.fragment == 0xffff_ffff && r.offset == 0
  {
    hide HandleAll, MeaningOf, WellOrdered, Outcome, RunStored, TailsHeld, FiledOk, Tiles, OwnersKnown, TailsOf,
      RunsOf, AllChunks, FragmentsInside, Layout;
    var p := Outcome(cfg, files);
    var w := HandleAll(cfg, p.sent);
    var n, data := files[i].inode, files[i].data;
    OutcomeInv(cfg, files);
    WriterInvHolds(cfg, p.sent);
    WhereFileWent(cfg, files, i);
    NotATail(p.client, SentFragments(p), TailsOf(cfg, files), n);
    if cfg.blockSize <= |data| {
      StoredWords(cfg, w, n, AllChunks(cfg.blockSize, data)) by { assert n in w.reports; }
      AllChunksCount(cfg.blockSize, data);
    } else if 0 < |data| {
      TailPlace(cfg, p, w, TailsOf(cfg, files), n);
    }
  }

  lemma StoredWords(cfg: Config, w: Writer, n: nat, blocks: seq<Bytes>)
    requires n in w.reports && RunStored(cfg, w, n, blocks)
    ensures |w.reports[n].sizes| == |blocks|
  {
  }

  lemma TailPlace(cfg: Config, p: Progress, w: Writer, tails: map<nat, Bytes>, n: nat)
    requires ClientInv(cfg, p.client, SentFragments(p), tails) && p.client.current == []
    requires FragmentsStored(cfg, w, SentFragments(p)) && n in tails && tails[n] != []
    ensures var index := IndexOf(p.client, n);
            && index.fragment < |w.fragments| == |SentFragments(p)|
            && index.offset + |tails[n]| <= |SentFragments(p)[index.fragment]| <= cfg.blockSize
  {
    hide MeaningOf, FiledOk, Stored, SizeWord;
    var index, flushed := IndexOf(p.client, n), SentFragments(p);
    assert Holds(p.client, flushed, index, tails[n]);
    assert FragmentStored(cfg, w, index.fragment, flushed[index.fragment]);
  }

  /** The blocks sent for a file of a block or more: block `k` is the file's bytes from
      `blockSize * k` on, a whole block each but the last. */
  lemma BlocksInPlace(cfg: Config, files: seq<FileData>, i: nat, k: nat)
    requires ConfigOk(cfg) && Distinct(files) && i < |files| && cfg.blockSize <= |files[i].data|
    requires k < (|files[i].data| + cfg.blockSize - 1) / cfg.blockSize
    ensures var data, at := files[i].data, cfg.blockSize * k;
            var run := RunOf(MeaningOf(Outcome(cfg, files).sent), files[i].inode);
            && k < |run| && at < |data|
            && run[k] == if at + cfg.blockSize <= |data| then data[at..at + cfg.blockSize] else data[at..]
  {
    hide MeaningOf, WellOrdered, Outcome, ClientInv, TailsOf, RunsOf, AllChunks;
    OutcomeInv(cfg, files);
    WhereFileWent(cfg, files, i);
    AllChunksCount(cfg.blockSize, files[i].data);
    AllChunksAt(cfg.blockSize, files[i].data, k);
  }
}
