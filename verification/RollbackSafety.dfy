/** Every write keeps the extents it does not own: the proof that rewinding a live
    output file is safe. */
module RollbackSafety {
  import opened SquashDefs
  import opened Compressors
  import opened BlockReports
  import opened PendingWrites

  // ---- Extents ----

  /** Tiling looks only at the extents of its owners. */
  lemma {:induction false} TilesFrame(w: Writer, v: Writer, owners: seq<Owner>, end: nat)
    requires Tiles(w, owners, end)
    requires forall o :: o in owners ==> StartOf(v, o) == StartOf(w, o) && LengthOf(v, o) == LengthOf(w, o)
    ensures Tiles(v, owners, end)
    decreases |owners|
  {
    if owners != [] {
      assert Last(owners) in owners;
      TilesFrame(w, v, Init(owners), StartOf(w, Last(owners)));
    }
  }

  lemma {:induction false} TilesAboveSuper(w: Writer, owners: seq<Owner>, end: nat)
    requires Tiles(w, owners, end)
    ensures SUPER_SIZE <= end
    decreases |owners|
  {
    if owners != [] {
      TilesAboveSuper(w, Init(owners), StartOf(w, Last(owners)));
    }
  }

  lemma OwnerAppended(w: Writer, v: Writer, owners: seq<Owner>, o: Owner)
    requires OwnersKnown(w, owners) && o !in owners
    requires Tiles(v, owners, StartOf(v, o))
    requires match o
             case FragmentOwner(k) => k == |w.fragments| && |v.fragments| == k + 1 && v.reports.Keys == w.reports.Keys
             case RunOwner(n) => |v.fragments| == |w.fragments| && v.reports.Keys == w.reports.Keys + {n}
    ensures OwnersKnown(v, owners + [o])
    ensures Tiles(v, owners + [o], StartOf(v, o) + LengthOf(v, o))
  {
    var longer := owners + [o];
    assert Init(longer) == owners;
    assert forall q :: q in longer <==> q in owners || q == o;
    assert NoRepeats(longer) by {
      forall i, j | 0 <= i < j < |longer|
        ensures longer[i] != longer[j]
      {
        if j < |owners| {
          assert longer[i] == owners[i] && longer[j] == owners[j];
        } else {
          assert longer[i] in owners;
        }
      }
    }
  }

  lemma LastOwnerIsUnique(owners: seq<Owner>)
    requires owners != [] && NoRepeats(owners)
    ensures Last(owners) !in Init(owners)
    ensures NoRepeats(Init(owners))
    ensures forall o :: o in owners <==> o in Init(owners) || o == Last(owners)
  {
    assert owners == Init(owners) + [Last(owners)];
  }

  lemma FragmentLayout(dedup: bool, w: Writer, owners: seq<Owner>, open: Option<nat>, stored: Bytes, word: nat)
    requires LayoutInv(dedup, w, owners, open) && WordLen(word) == |stored|
    ensures LayoutInv(dedup, AppendFragment(w, stored, word), owners + [FragmentOwner(|w.fragments|)], None)
  {
    var v := AppendFragment(w, stored, word);
    TilesAboveSuper(w, owners, w.file.pos);
    TilesFrame(w, v, owners, w.file.pos);
    OwnerAppended(w, v, owners, FragmentOwner(|w.fragments|));
  }

  lemma NewRunLayout(dedup: bool, w: Writer, owners: seq<Owner>, open: Option<nat>, n: nat, stored: Bytes, word: nat)
    requires LayoutInv(dedup, w, owners, open) && WordLen(word) == |stored| && n !in w.reports
    ensures LayoutInv(dedup, AppendBlock(w, n, stored, word), owners + [RunOwner(n)], Some(n))
  {
    hide RangeLen, NoRepeats, Tiles;
    var v := AppendBlock(w, n, stored, word);
    RangeLenSnoc([], word);
    assert v.reports[n] == BlockReport(w.file.pos, [] + [word]);
    TilesAboveSuper(w, owners, w.file.pos);
    TilesFrame(w, v, owners, w.file.pos);
    OwnerAppended(w, v, owners, RunOwner(n));
  }

  lemma GrowRunLayout(dedup: bool, w: Writer, owners: seq<Owner>, n: nat, stored: Bytes, word: nat)
    requires LayoutInv(dedup, w, owners, Some(n)) && WordLen(word) == |stored|
    ensures LayoutInv(dedup, AppendBlock(w, n, stored, word), owners, Some(n))
  {
    var v := AppendBlock(w, n, stored, word);
    RangeLenSnoc(w.reports[n].sizes, word);
    assert v.reports[n] == BlockReport(w.reports[n].start, w.reports[n].sizes + [word]);
    LastOwnerIsUnique(owners);
    TilesFrame(w, v, Init(owners), w.reports[n].start);
  }

  /** Sharing gives the last extent up; the file then ends where that run began. */
  lemma ShareLayout(w: Writer, owners: seq<Owner>, n: nat, i: nat)
    requires LayoutInv(true, w, owners, Some(n)) && RunOwner(i) in owners && i != n
    ensures ShareReport(w, n, i).file.pos == w.reports[n].start
    ensures LayoutInv(true, ShareReport(w, n, i), Init(owners), None)
  {
    hide RangeLen, NoRepeats;
    var v := ShareReport(w, n, i);
    LastOwnerIsUnique(owners);
    assert i in w.reports;
    TilesFrame(w, v, Init(owners), w.reports[n].start);
  }

  lemma KeepLayout(w: Writer, owners: seq<Owner>, n: nat, sum: int)
    requires LayoutInv(true, w, owners, Some(n))
    ensures LayoutInv(true, Keep(w, sum, n), owners, None)
  {
    TilesFrame(w, Keep(w, sum, n), owners, w.file.pos);
  }

  // ---- Contents ----

  predicate SameBelow(a: Bytes, b: Bytes, limit: nat) {
    limit <= |a| && limit <= |b| && a[..limit] == b[..limit]
  }

  lemma SliceBelow(a: Bytes, b: Bytes, limit: nat, start: nat, len: nat)
    requires SameBelow(a, b, limit) && start + len <= limit
    ensures Slice(a, start, len) == Slice(b, start, len)
  {
    SubSlice(a, 0, limit, start, start + len);
    SubSlice(b, 0, limit, start, start + len);
  }

  lemma WriteKeepsBelow(f: OutFile, data: Bytes)
    requires f.pos <= |f.bytes|
    ensures SameBelow(f.bytes, WriteBytes(f, data).bytes, f.pos)
    ensures Slice(WriteBytes(f, data).bytes, f.pos, |data|) == data
  {
    var g := WriteBytes(f, data);
    assert g.bytes[..f.pos] == f.bytes[..f.pos];
    assert g.bytes[f.pos..f.pos + |data|] == data;
  }

  lemma FragmentsFrame(cfg: Config, w: Writer, v: Writer, contents: seq<Bytes>, limit: nat)
    requires FragmentsStored(cfg, w, contents) && FragmentsInside(w, limit)
    requires w.fragments <= v.fragments && SameBelow(w.file.bytes, v.file.bytes, limit)
    ensures forall k :: 0 <= k < |contents| ==> FragmentStored(cfg, v, k, contents[k])
  {
    forall k | 0 <= k < |contents|
      ensures FragmentStored(cfg, v, k, contents[k])
    {
      assert FragmentStored(cfg, w, k, contents[k]);
      var e := w.fragments[k];
      assert v.fragments[k] == e;
      SliceBelow(w.file.bytes, v.file.bytes, limit, e.start, WordLen(e.size));
    }
  }

  lemma RunFrame(cfg: Config, w: Writer, v: Writer, n: nat, m: nat, blocks: seq<Bytes>, limit: nat)
    requires n in w.reports && RunStored(cfg, w, n, blocks) && m in v.reports && v.reports[m] == w.reports[n]
    requires w.reports[n].start + RangeLen(w.reports[n].sizes) <= limit
    requires SameBelow(w.file.bytes, v.file.bytes, limit)
    ensures RunStored(cfg, v, m, blocks)
  {
    hide RangeLen, Words, StoredRun, Stored, SizeWord;
    var r := w.reports[n];
    SliceBelow(w.file.bytes, v.file.bytes, limit, r.start, RangeLen(r.sizes));
  }

  lemma RunGrows(cfg: Config, w: Writer, n: nat, blocks: seq<Bytes>, data: Bytes)
    requires ConfigOk(cfg) && FileOk(w) && 0 < |data| <= cfg.blockSize
    requires n in w.reports ==>
      && RunStored(cfg, w, n, blocks)
      && w.reports[n].start + RangeLen(w.reports[n].sizes) == w.file.pos
    requires n !in w.reports ==> blocks == []
    ensures RunStored(cfg, AppendBlock(w, n, Stored(cfg.comp, data), SizeWord(cfg.comp, data)), n, blocks + [data])
  {
    hide Lawful, Slice, Stored, SizeWord, RangeLen, Words, StoredRun, WriteBytes, SameBelow;
    var x, word := Stored(cfg.comp, data), SizeWord(cfg.comp, data);
    var v := AppendBlock(w, n, x, word);
    RangeLenSnoc(ReportOf(w, n).sizes, word);
    RunSnoc(cfg.comp, blocks, data);
    BlockRoundTrip(cfg.comp, data, cfg.blockSize);
    WriteKeepsBelow(w.file, x);
    WriteGrows(w.file, x);
    if n in w.reports {
      var start, len := w.reports[n].start, RangeLen(w.reports[n].sizes);
      SliceBelow(w.file.bytes, v.file.bytes, w.file.pos, start, len);
      JoinSlices(v.file.bytes, start, StoredRun(cfg.comp, blocks), x);
    } else {
      assert [] + x == x && [] + [word] == [word];
    }
  }

  lemma RunSnoc(c: Compressor, blocks: seq<Bytes>, data: Bytes)
    ensures Words(c, blocks + [data]) == Words(c, blocks) + [SizeWord(c, data)]
    ensures StoredRun(c, blocks + [data]) == StoredRun(c, blocks) + Stored(c, data)
    ensures Words(c, []) == [] && StoredRun(c, []) == []
  {
    assert Init(blocks + [data]) == blocks;
  }

  lemma WriteGrows(f: OutFile, data: Bytes)
    requires f.pos <= |f.bytes|
    ensures WriteBytes(f, data).pos == f.pos + |data| <= |WriteBytes(f, data).bytes|
  {
  }

  lemma JoinSlices(img: Bytes, start: nat, a: Bytes, b: Bytes)
    requires Slice(img, start, |a|) == a && Slice(img, start + |a|, |b|) == b
    requires start + |a| + |b| <= |img|
    ensures Slice(img, start, |a + b|) == a + b
  {
    assert img[start..start + |a + b|] == img[start..start + |a|] + img[start + |a|..start + |a| + |b|];
  }

  // ---- One write at a time ----

  lemma FragmentStep(cfg: Config, m: Meaning, w: Writer, owners: seq<Owner>, data: Bytes)
    requires ConfigOk(cfg) && WriterInv(cfg, m, w, owners) && MayFollow(cfg, m, Fragment(data))
    ensures WriterInv(cfg, Extend(m, Fragment(data)), Handle(cfg, w, Fragment(data)),
                      owners + [FragmentOwner(|w.fragments|)])
  {
    hide RunStored, SameBelow;
    var v := Handle(cfg, w, Fragment(data));
    BlockRoundTrip(cfg.comp, data, cfg.blockSize);
    FragmentLayout(cfg.dedup, w, owners, m.open, Stored(cfg.comp, data), SizeWord(cfg.comp, data));
    WriteKeepsBelow(w.file, Stored(cfg.comp, data));
    FragmentsFrame(cfg, w, v, m.fragments, w.file.pos);
    RunsFrame(cfg, m.runs, w, v, w.file.pos);
  }

  lemma RunsFrame(cfg: Config, runs: map<nat, seq<Bytes>>, w: Writer, v: Writer, limit: nat)
    requires RunsStored(cfg, w, runs) && RunsInside(w, limit, None) && v.reports == w.reports
    requires SameBelow(w.file.bytes, v.file.bytes, limit)
    ensures RunsStored(cfg, v, runs)
  {
    hide RunStored, FragmentStored, SameBelow;
    forall n | n in v.reports
      ensures RunStored(cfg, v, n, runs[n])
    {
      RunFrame(cfg, w, v, n, n, runs[n], limit);
    }
  }

  lemma BlockStep(cfg: Config, m: Meaning, w: Writer, owners: seq<Owner>, data: Bytes, n: nat)
    requires ConfigOk(cfg) && WriterInv(cfg, m, w, owners) && MayFollow(cfg, m, Block(data, n))
    ensures WriterInv(cfg, Extend(m, Block(data, n)), Handle(cfg, w, Block(data, n)),
                      if m.open == Some(n) then owners else owners + [RunOwner(n)])
  {
    hide FragmentStored, RunStored;
    BlockRoundTrip(cfg.comp, data, cfg.blockSize);
    if m.open == Some(n) {
      assert StartOf(w, RunOwner(n)) + LengthOf(w, RunOwner(n)) == w.file.pos;
    }
    BlockContents(cfg, m, w, data, n);
    if m.open == Some(n) {
      GrowRunLayout(cfg.dedup, w, owners, n, Stored(cfg.comp, data), SizeWord(cfg.comp, data));
    } else {
      NewRunLayout(cfg.dedup, w, owners, m.open, n, Stored(cfg.comp, data), SizeWord(cfg.comp, data));
    }
  }

  lemma BlockContents(cfg: Config, m: Meaning, w: Writer, data: Bytes, n: nat)
    requires ConfigOk(cfg) && FileOk(w) && 0 < |data| <= cfg.blockSize
    requires FragmentsStored(cfg, w, m.fragments) && RunsStored(cfg, w, m.runs)
    requires RunsInside(w, w.file.pos, None) && FragmentsInside(w, w.file.pos)
    requires n in w.reports ==> w.reports[n].start + RangeLen(w.reports[n].sizes) == w.file.pos
    ensures FragmentsStored(cfg, Handle(cfg, w, Block(data, n)), m.fragments)
    ensures RunsStored(cfg, Handle(cfg, w, Block(data, n)), m.runs[n := RunOf(m, n) + [data]])
  {
    hide RunStored, FragmentStored, SameBelow;
    var v := Handle(cfg, w, Block(data, n));
    WriteKeepsBelow(w.file, Stored(cfg.comp, data));
    FragmentsFrame(cfg, w, v, m.fragments, w.file.pos);
    RunGrows(cfg, w, n, RunOf(m, n), data);
    OtherRunsFrame(cfg, m.runs, w, v, n);
  }

  lemma OtherRunsFrame(cfg: Config, runs: map<nat, seq<Bytes>>, w: Writer, v: Writer, n: nat)
    requires RunsStored(cfg, w, runs) && RunsInside(w, w.file.pos, None)
    requires n in v.reports && v.reports == w.reports[n := v.reports[n]]
    requires SameBelow(w.file.bytes, v.file.bytes, w.file.pos)
    ensures forall k :: k in v.reports && k != n ==> RunStored(cfg, v, k, runs[k])
  {
    hide RunStored, FragmentStored, SameBelow;
    forall k | k in v.reports && k != n
      ensures RunStored(cfg, v, k, runs[k])
    {
      RunFrame(cfg, w, v, k, k, runs[k], w.file.pos);
    }
  }

  /** Two reports compare equal exactly when their inodes have the same blocks. */
  lemma SameContentMeansSameBlocks(cfg: Config, runs: map<nat, seq<Bytes>>, w: Writer, n: nat, k: nat)
    requires ConfigOk(cfg) && RunsStored(cfg, w, runs) && n in w.reports && k in w.reports
    ensures SameContent(w.file.bytes, ReportOf(w, n), ReportOf(w, k)) <==> runs[n] == runs[k]
  {
    assert RunStored(cfg, w, n, runs[n]) && RunStored(cfg, w, k, runs[k]);
    if SameContent(w.file.bytes, ReportOf(w, n), ReportOf(w, k)) {
      RunInjective(cfg.comp, runs[n], runs[k]);
    }
  }

  lemma {:induction false} FindSameFinds(w: Writer, n: nat, candidates: seq<nat>)
    ensures match FindSame(w, n, candidates)
            case Some(i) => i in candidates && SameContent(w.file.bytes, ReportOf(w, n), ReportOf(w, i))
            case None => forall i :: i in candidates ==> !SameContent(w.file.bytes, ReportOf(w, n), ReportOf(w, i))
  {
    if candidates != [] {
      FindSameFinds(w, n, candidates[1..]);
    }
  }

  lemma DedupStep(cfg: Config, m: Meaning, w: Writer, owners: seq<Owner>, n: nat)
    requires ConfigOk(cfg) && WriterInv(cfg, m, w, owners) && MayFollow(cfg, m, Dedup(n))
    ensures WriterInv(cfg, Extend(m, Dedup(n)), Handle(cfg, w, Dedup(n)),
                      DedupOwners(w, owners, cfg.blockedSum(n), n))
  {
    hide FragmentStored, RunStored, SameContent, RangeLen;
    var sum := cfg.blockedSum(n);
    FindSameFinds(w, n, KeptUnder(w, sum));
    match FindSame(w, n, KeptUnder(w, sum)) {
      case Some(i) =>
        assert RunOwner(i) in owners && i != n && i in w.reports;
        ShareLayout(w, owners, n, i);
        ShareContents(cfg, m, w, n, i);
      case None =>
        KeepLayout(w, owners, n, sum);
        FragmentsFrame(cfg, w, Keep(w, sum, n), m.fragments, w.file.pos);
        RunsFrame(cfg, m.runs, w, Keep(w, sum, n), w.file.pos);
    }
  }

  lemma ShareContents(cfg: Config, m: Meaning, w: Writer, n: nat, i: nat)
    requires ConfigOk(cfg) && FileOk(w) && FragmentsStored(cfg, w, m.fragments) && RunsStored(cfg, w, m.runs)
    requires RunsInside(w, w.file.pos, None) && FragmentsInside(w, w.file.pos)
    requires n in w.reports && i in w.reports && SameContent(w.file.bytes, ReportOf(w, n), ReportOf(w, i))
    ensures FragmentsStored(cfg, ShareReport(w, n, i), m.fragments)
    ensures RunsStored(cfg, ShareReport(w, n, i), m.runs)
  {
    hide FragmentStored, RunStored, SameContent, RangeLen;
    var v := ShareReport(w, n, i);
    SameContentMeansSameBlocks(cfg, m.runs, w, n, i);
    FragmentsFrame(cfg, w, v, m.fragments, w.file.pos);
    forall k | k in v.reports
      ensures RunStored(cfg, v, k, m.runs[k])
    {
      if k == n {
        RunFrame(cfg, w, v, i, n, m.runs[i], w.file.pos);
      } else {
        RunFrame(cfg, w, v, k, k, m.runs[k], w.file.pos);
      }
    }
  }

  lemma WriteStep(cfg: Config, m: Meaning, w: Writer, owners: seq<Owner>, p: PendingWrite)
    requires ConfigOk(cfg) && WriterInv(cfg, m, w, owners) && MayFollow(cfg, m, p)
    ensures WriterInv(cfg, Extend(m, p), Handle(cfg, w, p), OwnersAfter(cfg, m, w, owners, p))
  {
    match p
    case Fragment(data) => FragmentStep(cfg, m, w, owners, data);
    case Block(data, n) => BlockStep(cfg, m, w, owners, data, n);
    case Dedup(n) => DedupStep(cfg, m, w, owners, n);
  }

  /** Over every well-ordered history: each fragment and each run holds exactly what was sent
      for it, the kept extents tile the data area up to the position, and an open run is last. */
  lemma {:induction false} WriterInvHolds(cfg: Config, h: seq<PendingWrite>)
    requires ConfigOk(cfg) && WellOrdered(cfg, h)
    ensures WriterInv(cfg, MeaningOf(h), HandleAll(cfg, h), Layout(cfg, h))
  {
    if h == [] {
      assert Tiles(INITIAL_WRITER, [], SUPER_SIZE);
    } else {
      WriterInvHolds(cfg, Init(h));
      WriteStep(cfg, MeaningOf(Init(h)), HandleAll(cfg, Init(h)), Layout(cfg, Init(h)), Last(h));
    }
  }
}
