/** How well tails are packed: a fragment is flushed only when the next tail does not fit, so any
    two fragments in a row together hold more than a block. */
module FragmentPacking {
  import opened SquashDefs
  import opened Arithmetic
  import opened Chunking
  import opened PendingWrites
  import opened RollbackSafety
  import opened Fragments
  import opened FileCuts
  import opened DataRoundTrip

  /** Neighbours do not fit one block together. */
  predicate Tight(blockSize: nat, s: seq<Bytes>) {
    forall k :: 0 <= k < |s| - 1 ==> |s[k]| + |s[k + 1]| > blockSize
  }

  /** The fragments so far, the open one last. */
  function AllFragments(p: Progress): seq<Bytes> {
    SentFragments(p) + if p.client.current == [] then [] else [p.client.current]
  }

  ghost predicate PackedInv(cfg: Config, p: Progress) {
    Tight(cfg.blockSize, AllFragments(p)) && (p.client.current == [] ==> SentFragments(p) == [])
  }

  predicate CallOk(cfg: Config, call: WriterCall) {
    call.PutTail? ==> 0 < |call.data| < cfg.blockSize
  }

  function TailLength(calls: seq<WriterCall>): nat {
    if calls == [] then 0 else (if calls[0].PutTail? then |calls[0].data| else 0) + TailLength(calls[1..])
  }

  lemma FragmentsSent(h: seq<PendingWrite>, out: seq<PendingWrite>)
    requires |out| <= 1
    ensures MeaningOf(h + out).fragments
         == MeaningOf(h).fragments + if out != [] && out[0].Fragment? then [out[0].data] else []
  {
    hide MeaningOf;
    if out == [] {
      assert h + out == h && MeaningOf(h).fragments + [] == MeaningOf(h).fragments;
    } else {
      LastMeaning(h, out[0]);
      assert h + out == h + [out[0]];
    }
  }

  lemma LastMeaning(h: seq<PendingWrite>, p: PendingWrite)
    ensures MeaningOf(h + [p]) == Extend(MeaningOf(h), p)
  {
    assert Init(h + [p]) == h;
  }

  /** One more tail lengthens the last fragment or opens a new one. */
  lemma TailPacks(cfg: Config, p: Progress, n: nat, data: Bytes)
    requires 0 < |data| && PackedInv(cfg, p)
    ensures var q := RunCall(cfg, p, PutTail(n, data));
            && PackedInv(cfg, q)
            && |Flat(AllFragments(q))| <= |Flat(AllFragments(p))| + |data|
            && (!cfg.dedup ==> |Flat(AllFragments(q))| == |Flat(AllFragments(p))| + |data|)
  {
    hide PutFragment, MeaningOf, Found, Flat;
    var fs, cs := SentFragments(p), p.client;
    var (cs', out) := PutFragment(cfg, cs, fs, n, data);
    WhereATailGoes(cfg, cs, fs, n, data);
    FragmentsSent(p.sent, out);
    OneMoreTail(fs, cs.current, data);
    FoundMeansDedup(cfg, cs, fs, data);
    if cs.current != [] {
      StaysTight(cfg.blockSize, fs, cs.current, data);
    }
  }

  lemma FoundMeansDedup(cfg: Config, cs: Client, flushed: seq<Bytes>, data: Bytes)
    ensures Found(cfg, cs, flushed, data) ==> cfg.dedup
  {
  }

  lemma StaysTight(blockSize: nat, fs: seq<Bytes>, current: Bytes, data: Bytes)
    requires Tight(blockSize, fs + [current])
    ensures Tight(blockSize, fs + [current + data])
    ensures |current| + |data| > blockSize ==> Tight(blockSize, fs + [current] + [data])
  {
    var was, longer, more := fs + [current], fs + [current + data], fs + [current] + [data];
    forall k | 0 <= k < |fs|
      ensures |longer[k]| + |longer[k + 1]| > blockSize
      ensures |more[k]| + |more[k + 1]| > blockSize
    {
      assert |was[k]| + |was[k + 1]| > blockSize;
      assert longer[k] == was[k] == more[k] && more[k + 1] == was[k + 1];
    }
  }

  /** The lengths after adding to the last fragment, or behind it. */
  lemma OneMoreTail(fs: seq<Bytes>, current: Bytes, data: Bytes)
    ensures |Flat(fs + [current + data])| == |Flat(fs)| + |current| + |data|
    ensures |Flat(fs + [current])| == |Flat(fs)| + |current|
    ensures |Flat(fs + [current] + [data])| == |Flat(fs)| + |current| + |data|
    ensures fs + [] == fs && [] + data == data
  {
    hide Flat;
    SnocLength(fs, current + data);
    SnocLength(fs, current);
    SnocLength(fs + [current], data);
  }

  lemma SnocLength(fs: seq<Bytes>, x: Bytes)
    ensures |Flat(fs + [x])| == |Flat(fs)| + |x|
  {
    hide Flat;
    FlatSnoc(fs + [x]);
    assert Init(fs + [x]) == fs;
  }

  lemma OtherCallPacks(cfg: Config, p: Progress, call: WriterCall)
    requires !call.PutTail?
    ensures RunCall(cfg, p, call).client == p.client
    ensures AllFragments(RunCall(cfg, p, call)) == AllFragments(p)
    ensures PackedInv(cfg, p) ==> PackedInv(cfg, RunCall(cfg, p, call))
  {
    hide MeaningOf, Tight;
    FragmentsSent(p.sent, Call(cfg, p.client, SentFragments(p), call).1);
  }

  lemma {:induction false} CallsPack(cfg: Config, p: Progress, calls: seq<WriterCall>)
    requires PackedInv(cfg, p) && forall call :: call in calls ==> CallOk(cfg, call)
    ensures var q := RunCalls(cfg, p, calls);
            && PackedInv(cfg, q)
            && |Flat(AllFragments(q))| <= |Flat(AllFragments(p))| + TailLength(calls)
            && (!cfg.dedup ==> |Flat(AllFragments(q))| == |Flat(AllFragments(p))| + TailLength(calls))
    decreases |calls|
  {
    hide PackedInv, RunCall, AllFragments, Flat;
    if calls != [] {
      assert CallOk(cfg, calls[0]);
      if calls[0].PutTail? {
        TailPacks(cfg, p, calls[0].inode, calls[0].data);
      } else {
        OtherCallPacks(cfg, p, calls[0]);
      }
      CallsPack(cfg, RunCall(cfg, p, calls[0]), calls[1..]);
    }
  }

  /** The bytes of all files shorter than a block. */
  function TailBytes(blockSize: nat, files: seq<FileData>): nat {
    if files == [] then 0
    else TailBytes(blockSize, Init(files)) + if |Last(files).data| < blockSize then |Last(files).data| else 0
  }

  lemma {:induction false} TailLengths(a: seq<WriterCall>, b: seq<WriterCall>)
    ensures TailLength(a + b) == TailLength(a) + TailLength(b)
  {
    if a == [] {
      assert a + b == b;
    } else {
      assert (a + b)[1..] == a[1..] + b;
      TailLengths(a[1..], b);
    }
  }

  lemma {:induction false} BlocksAreNoTails(n: nat, chunks: seq<Bytes>)
    ensures TailLength(PutBlocks(n, chunks)) == 0 && forall call :: call in PutBlocks(n, chunks) ==> call.PutBlock?
  {
    if chunks != [] {
      BlocksAreNoTails(n, chunks[1..]);
      assert PutBlocks(n, chunks)[1..] == PutBlocks(n, chunks[1..]);
    }
  }

  lemma FileTails(cfg: Config, n: nat, data: Bytes)
    requires 0 < cfg.blockSize
    ensures TailLength(FileCalls(cfg, n, data)) == if |data| < cfg.blockSize then |data| else 0
    ensures forall call :: call in FileCalls(cfg, n, data) ==> CallOk(cfg, call)
  {
    hide AllChunks, PutBlocks;
    if cfg.blockSize <= |data| {
      var chunks := AllChunks(cfg.blockSize, data);
      TailLengths(PutBlocks(n, chunks), [PutDedup(n)]);
      BlocksAreNoTails(n, chunks);
    }
  }

  lemma {:induction false} FilesTails(cfg: Config, files: seq<FileData>)
    requires 0 < cfg.blockSize
    ensures TailLength(AllCalls(cfg, files)) == TailBytes(cfg.blockSize, files)
    ensures forall call :: call in AllCalls(cfg, files) ==> CallOk(cfg, call)
  {
    hide FileCalls, CallOk;
    if files != [] {
      var f := Last(files);
      FilesTails(cfg, Init(files));
      TailLengths(AllCalls(cfg, Init(files)), FileCalls(cfg, f.inode, f.data));
      FileTails(cfg, f.inode, f.data);
    }
  }

  /** Two at a time: as many fragments as that leave no more than half their room empty. */
  lemma {:induction false} TightCount(blockSize: nat, s: seq<Bytes>)
    requires Tight(blockSize, s)
    ensures |s| / 2 * (blockSize + 1) <= |Flat(s)|
    decreases |s|
  {
    if |s| >= 2 {
      var rest := s[2..];
      assert Tight(blockSize, rest) by {
        assert forall k :: 0 <= k < |rest| ==> rest[k] == s[k + 2];
      }
      TightCount(blockSize, rest);
      FlatTwo(s);
      assert |s[0]| + |s[0 + 1]| > blockSize;
      TimesNext(blockSize + 1, |rest| / 2);
    }
  }

  lemma FlatTwo(s: seq<Bytes>)
    requires |s| >= 2
    ensures |Flat(s)| == |s[0]| + |s[1]| + |Flat(s[2..])|
  {
    assert s[1..][1..] == s[2..];
    assert s[1..][0] == s[1];
  }

  /** For any files: the fragments are those of the table; neighbours never fit one block; their
      bytes are at most those of the short files, and exactly those without deduplication; so there
      are at most about twice as many as the bytes need. */
  lemma FragmentsArePacked(cfg: Config, files: seq<FileData>)
    requires ConfigOk(cfg) && Distinct(files)
    ensures var p := Outcome(cfg, files);
            var fs := SentFragments(p);
            && |HandleAll(cfg, p.sent).fragments| == |fs|
            && Tight(cfg.blockSize, fs)
            && |Flat(fs)| <= TailBytes(cfg.blockSize, files)
            && (!cfg.dedup ==> |Flat(fs)| == TailBytes(cfg.blockSize, files))
            && |fs| / 2 * (cfg.blockSize + 1) <= TailBytes(cfg.blockSize, files)
  {
    hide RunCalls, AllCalls, MeaningOf, Flat, Tight, TailLength, HandleAll, Layout, FragmentStored, PipelineInv,
      LayoutInv, RunsStored;
    var p := RunCalls(cfg, NO_PROGRESS, AllCalls(cfg, files));
    FilesTails(cfg, files);
    NothingPacked(cfg);
    CallsPack(cfg, NO_PROGRESS, AllCalls(cfg, files));
    FragmentsSent(p.sent, Fragments.FinishData(p.client).1);
    TightCount(cfg.blockSize, SentFragments(Outcome(cfg, files)));
    OutcomeOrdered(cfg, files);
    WriterInvHolds(cfg, Outcome(cfg, files).sent);
  }

  lemma OutcomeOrdered(cfg: Config, files: seq<FileData>)
    requires ConfigOk(cfg) && Distinct(files)
    ensures WellOrdered(cfg, Outcome(cfg, files).sent)
  {
    hide Outcome, WellOrdered, ClientInv;
    OutcomeInv(cfg, files);
  }

  lemma NothingPacked(cfg: Config)
    ensures PackedInv(cfg, NO_PROGRESS) && Flat(AllFragments(NO_PROGRESS)) == []
  {
    assert AllFragments(NO_PROGRESS) == [];
  }
}
