/** What block deduplication achieves over a whole history: nothing live is overwritten,
    nothing is stored twice, and every stored byte is accounted for. */
module BlockDedup {
  import opened SquashDefs
  import opened Compressors
  import opened BlockReports
  import opened PendingWrites
  import opened RollbackSafety

  /** The extents of two owners never overlap, and none reaches past the position. */
  lemma {:induction false} ExtentsAreDisjoint(w: Writer, owners: seq<Owner>, end: nat, i: nat, j: nat)
    requires Tiles(w, owners, end) && i < j < |owners|
    ensures SUPER_SIZE <= StartOf(w, owners[i])
    ensures StartOf(w, owners[i]) + LengthOf(w, owners[i]) <= StartOf(w, owners[j])
    ensures StartOf(w, owners[j]) + LengthOf(w, owners[j]) <= end
    decreases |owners|
  {
    if j < |owners| - 1 {
      ExtentsAreDisjoint(w, Init(owners), StartOf(w, Last(owners)), i, j);
    } else {
      OwnerBelow(w, Init(owners), StartOf(w, Last(owners)), i);
    }
  }

  lemma {:induction false} OwnerBelow(w: Writer, owners: seq<Owner>, end: nat, i: nat)
    requires Tiles(w, owners, end) && i < |owners|
    ensures SUPER_SIZE <= StartOf(w, owners[i])
    ensures StartOf(w, owners[i]) + LengthOf(w, owners[i]) <= end
    decreases |owners|
  {
    TilesAboveSuper(w, Init(owners), StartOf(w, Last(owners)));
    if i < |owners| - 1 {
      OwnerBelow(w, Init(owners), StartOf(w, Last(owners)), i);
    }
  }

  /** A report other than the one a write is about. */
  predicate NotTouchedBy(p: PendingWrite, n: nat) {
    p.Fragment? || p.inode != n
  }

  /** One more write leaves every fragment entry, every other inode's report, and all the
      bytes below them as they were, although it may rewind the file. */
  lemma NothingLiveIsOverwritten(cfg: Config, h: seq<PendingWrite>, p: PendingWrite)
    requires ConfigOk(cfg) && WellOrdered(cfg, h + [p])
    ensures FragmentsSurvive(HandleAll(cfg, h), HandleAll(cfg, h + [p]))
    ensures forall n :: n in HandleAll(cfg, h).reports && NotTouchedBy(p, n) ==>
              ReportSurvives(HandleAll(cfg, h), HandleAll(cfg, h + [p]), n)
  {
    hide ReportSurvives, FragmentsSurvive, WriterInv, Handle, Extend;
    assert Init(h + [p]) == h;
    WriterInvHolds(cfg, h);
    var m, w := MeaningOf(h), HandleAll(cfg, h);
    WriteStep(cfg, m, w, Layout(cfg, h), p);
    OneWriteSpares(cfg, m, w, Layout(cfg, h), OwnersAfter(cfg, m, w, Layout(cfg, h), p), p);
  }

  predicate FragmentsSurvive(w: Writer, v: Writer) {
    && w.fragments <= v.fragments
    && forall k :: 0 <= k < |w.fragments| ==>
         && w.fragments[k].start + WordLen(w.fragments[k].size) <= v.file.pos
         && Slice(v.file.bytes, w.fragments[k].start, WordLen(w.fragments[k].size))
            == Slice(w.file.bytes, w.fragments[k].start, WordLen(w.fragments[k].size))
  }

  predicate ReportSurvives(w: Writer, v: Writer, n: nat)
    requires n in w.reports
  {
    && n in v.reports && v.reports[n] == w.reports[n] && EndOf(v, n) <= v.file.pos
    && Slice(v.file.bytes, w.reports[n].start, RangeLen(w.reports[n].sizes))
       == Slice(w.file.bytes, w.reports[n].start, RangeLen(w.reports[n].sizes))
  }

  lemma OneWriteSpares(cfg: Config, m: Meaning, w: Writer, owners: seq<Owner>, owners': seq<Owner>, p: PendingWrite)
    requires WriterInv(cfg, m, w, owners)
    requires WriterInv(cfg, Extend(m, p), Handle(cfg, w, p), owners')
    ensures FragmentsSurvive(w, Handle(cfg, w, p))
    ensures forall n :: n in w.reports && NotTouchedBy(p, n) ==> ReportSurvives(w, Handle(cfg, w, p), n)
  {
    hide WriteBytes, Tiles, OwnersKnown, KeptAreOwners, OpenRunLast, FindSame, FragmentStored, RunStored,
      FragmentsSurvive, ReportSurvives, ReportsNonempty, RangeLen;
    var v := Handle(cfg, w, p);
    SameFragments(cfg, w, v, m.fragments, Extend(m, p).fragments);
    forall n | n in w.reports && NotTouchedBy(p, n)
      ensures ReportSurvives(w, v, n)
    {
      SameReport(cfg, w, v, n, m.runs[n]);
    }
  }

  lemma SameFragments(cfg: Config, w: Writer, v: Writer, contents: seq<Bytes>, contents': seq<Bytes>)
    requires FragmentsStored(cfg, w, contents) && FragmentsStored(cfg, v, contents') && contents <= contents'
    requires w.fragments <= v.fragments && FragmentsInside(v, v.file.pos)
    ensures FragmentsSurvive(w, v)
  {
    hide Slice, Stored, SizeWord, WordLen;
    forall k | 0 <= k < |w.fragments|
      ensures Slice(v.file.bytes, w.fragments[k].start, WordLen(w.fragments[k].size))
           == Slice(w.file.bytes, w.fragments[k].start, WordLen(w.fragments[k].size))
      ensures w.fragments[k].start + WordLen(w.fragments[k].size) <= v.file.pos
    {
      assert FragmentStored(cfg, w, k, contents[k]) && FragmentStored(cfg, v, k, contents'[k]);
      assert v.fragments[k] == w.fragments[k];
    }
  }

  lemma SameReport(cfg: Config, w: Writer, v: Writer, n: nat, blocks: seq<Bytes>)
    requires n in w.reports && RunStored(cfg, w, n, blocks)
    requires n in v.reports && RunStored(cfg, v, n, blocks) && v.reports[n] == w.reports[n]
    requires EndOf(v, n) <= v.file.pos
    ensures ReportSurvives(w, v, n)
  {
  }

  // ---- Completeness, when every inode is filed under one checksum ----

  /** `blocked_checksums` is read and never updated, so all inodes share the initial sum. */
  ghost predicate OneBucket(cfg: Config, sum: int) {
    forall n: nat :: cfg.blockedSum(n) == sum
  }

  ghost predicate KeptOnce(m: Meaning, kept: seq<nat>) {
    && (forall i :: 0 <= i < |kept| ==> kept[i] in m.runs)
    && (forall i, j :: 0 <= i < j < |kept| ==> m.runs[kept[i]] != m.runs[kept[j]])
  }

  /** Inode `i` is kept, and `n` has its blocks and its report. */
  predicate Twins(m: Meaning, w: Writer, kept: seq<nat>, n: nat, i: nat) {
    i in kept && RunOf(m, i) == RunOf(m, n) && ReportOf(w, i) == ReportOf(w, n)
  }

  ghost predicate HasKeptTwin(m: Meaning, w: Writer, kept: seq<nat>, n: nat) {
    exists i :: Twins(m, w, kept, n, i)
  }

  ghost predicate DedupComplete(m: Meaning, w: Writer, sum: int) {
    && KeptOnce(m, KeptUnder(w, sum))
    && forall n :: n in m.runs && m.open != Some(n) ==> HasKeptTwin(m, w, KeptUnder(w, sum), n)
  }

  /** Kept inodes are finished runs. */
  lemma KeptAreFinished(cfg: Config, m: Meaning, w: Writer, owners: seq<Owner>, sum: int)
    requires WriterInv(cfg, m, w, owners)
    ensures FileOk(w) && w.reports.Keys == m.runs.Keys
    ensures forall i :: i in KeptUnder(w, sum) ==> i in m.runs && m.open != Some(i)
  {
    hide RunStored, FragmentStored, Tiles, NoRepeats, RunsInside, FragmentsInside, ReportsNonempty, OpenRunLast;
  }

  lemma TwinsStay(m: Meaning, w: Writer, m': Meaning, v: Writer, sum: int, n: nat)
    requires v.kept == w.kept
    requires HasKeptTwin(m, w, KeptUnder(w, sum), n)
    requires forall i :: i in KeptUnder(w, sum) || i == n ==>
               RunOf(m', i) == RunOf(m, i) && ReportOf(v, i) == ReportOf(w, i)
    ensures HasKeptTwin(m', v, KeptUnder(v, sum), n)
  {
    hide RunOf, ReportOf;
    var i :| Twins(m, w, KeptUnder(w, sum), n, i);
    assert Twins(m', v, KeptUnder(v, sum), n, i);
  }

  /** A write that leaves finished runs and their reports alone keeps the bucket complete. */
  lemma CompleteFrame(m: Meaning, w: Writer, m': Meaning, v: Writer, sum: int)
    requires DedupComplete(m, w, sum) && v.kept == w.kept
    requires forall i :: i in KeptUnder(w, sum) ==> i in m.runs && m.open != Some(i)
    requires forall n :: n in m'.runs && m'.open != Some(n) ==> n in m.runs && m.open != Some(n)
    requires forall n :: n in m.runs && m.open != Some(n) ==>
      n in m'.runs && m'.runs[n] == m.runs[n] && ReportOf(v, n) == ReportOf(w, n)
    ensures DedupComplete(m', v, sum)
  {
    hide HasKeptTwin, ReportOf;
    forall n | n in m'.runs && m'.open != Some(n)
      ensures HasKeptTwin(m', v, KeptUnder(v, sum), n)
    {
      TwinsStay(m, w, m', v, sum, n);
    }
  }

  lemma DedupCompleteStep(cfg: Config, m: Meaning, w: Writer, owners: seq<Owner>, sum: int, p: PendingWrite)
    requires ConfigOk(cfg) && cfg.dedup && OneBucket(cfg, sum)
    requires WriterInv(cfg, m, w, owners) && MayFollow(cfg, m, p) && DedupComplete(m, w, sum)
    ensures DedupComplete(Extend(m, p), Handle(cfg, w, p), sum)
  {
    hide HasKeptTwin, KeptOnce, WriterInv, WriteBytes, FindSame, KeptUnder;
    KeptAreFinished(cfg, m, w, owners, sum);
    match p
    case Fragment(data) =>
      assert forall n :: n in m.runs ==> m.open != Some(n);
      CompleteFrame(m, w, Extend(m, p), Handle(cfg, w, p), sum);
    case Block(data, n) =>
      CompleteFrame(m, w, Extend(m, p), Handle(cfg, w, p), sum);
    case Dedup(n) =>
      DedupKeepsComplete(cfg, m, w, owners, sum, n);
  }

  lemma DedupKeepsComplete(cfg: Config, m: Meaning, w: Writer, owners: seq<Owner>, sum: int, n: nat)
    requires ConfigOk(cfg) && OneBucket(cfg, sum)
    requires WriterInv(cfg, m, w, owners) && MayFollow(cfg, m, Dedup(n)) && DedupComplete(m, w, sum)
    ensures DedupComplete(Extend(m, Dedup(n)), Handle(cfg, w, Dedup(n)), sum)
  {
    hide HasKeptTwin, KeptOnce, SameContent, RangeLen, RunStored, FragmentStored, Tiles, OwnersKnown, RunsInside,
      FragmentsInside, FindSame;
    var kept := KeptUnder(w, sum);
    KeptAreFinished(cfg, m, w, owners, sum);
    FindSameFinds(w, n, kept);
    forall i | i in kept
      ensures i in w.reports && i != n
      ensures SameContent(w.file.bytes, ReportOf(w, n), ReportOf(w, i)) <==> m.runs[n] == m.runs[i]
    {
      SameContentMeansSameBlocks(cfg, m.runs, w, n, i);
    }
    match FindSame(w, n, kept)
    case Some(i) => ShareKeepsComplete(m, w, sum, n, i);
    case None => KeepKeepsComplete(m, w, sum, n);
  }

  lemma ShareKeepsComplete(m: Meaning, w: Writer, sum: int, n: nat, i: nat)
    requires DedupComplete(m, w, sum) && m.open == Some(n) && n in m.runs
    requires forall k :: k in KeptUnder(w, sum) ==> k in m.runs && k != n
    requires i in KeptUnder(w, sum) && m.runs[n] == m.runs[i]
    ensures DedupComplete(Extend(m, Dedup(n)), ShareReport(w, n, i), sum)
  {
    hide HasKeptTwin, RangeLen;
    var m', v := Extend(m, Dedup(n)), ShareReport(w, n, i);
    forall k | k in m'.runs
      ensures HasKeptTwin(m', v, KeptUnder(v, sum), k)
    {
      if k == n {
        TwinOf(m', v, KeptUnder(v, sum), n, i);
      } else {
        TwinsStay(m, w, m', v, sum, k);
      }
    }
  }

  lemma TwinOf(m: Meaning, w: Writer, kept: seq<nat>, n: nat, i: nat)
    requires Twins(m, w, kept, n, i)
    ensures HasKeptTwin(m, w, kept, n)
  {
  }

  lemma KeepKeepsComplete(m: Meaning, w: Writer, sum: int, n: nat)
    requires DedupComplete(m, w, sum) && m.open == Some(n) && n in m.runs
    requires forall k :: k in KeptUnder(w, sum) ==> k in m.runs && k != n && m.runs[n] != m.runs[k]
    ensures DedupComplete(Extend(m, Dedup(n)), Keep(w, sum, n), sum)
  {
    hide HasKeptTwin;
    var m', v := Extend(m, Dedup(n)), Keep(w, sum, n);
    var kept, kept' := KeptUnder(w, sum), KeptUnder(v, sum);
    assert kept' == kept + [n];
    forall k | k in m'.runs
      ensures HasKeptTwin(m', v, kept', k)
    {
      if k == n {
        TwinOf(m', v, kept', n, n);
      } else {
        MoreKept(m, w, m', v, kept, kept', k);
      }
    }
  }

  lemma MoreKept(m: Meaning, w: Writer, m': Meaning, v: Writer, kept: seq<nat>, kept': seq<nat>, k: nat)
    requires HasKeptTwin(m, w, kept, k) && kept <= kept' && m'.runs == m.runs && v.reports == w.reports
    ensures HasKeptTwin(m', v, kept', k)
  {
    var i :| Twins(m, w, kept, k, i);
    assert Twins(m', v, kept', k, i);
  }

  /** After any history no two kept inodes have the same blocks, and every finished inode
      shares the report of a kept inode with the same blocks. */
  lemma {:induction false} BlockDedupIsComplete(cfg: Config, h: seq<PendingWrite>, sum: int)
    requires ConfigOk(cfg) && cfg.dedup && OneBucket(cfg, sum) && WellOrdered(cfg, h)
    ensures DedupComplete(MeaningOf(h), HandleAll(cfg, h), sum)
  {
    if h != [] {
      WriterInvHolds(cfg, Init(h));
      BlockDedupIsComplete(cfg, Init(h), sum);
      DedupCompleteStep(cfg, MeaningOf(Init(h)), HandleAll(cfg, Init(h)), Layout(cfg, Init(h)), sum, Last(h));
    }
  }

  // ---- Conservation of space ----

  function FragmentBytes(fragments: seq<FragmentEntry>): nat {
    if fragments == [] then 0 else FragmentBytes(Init(fragments)) + WordLen(Last(fragments).size)
  }

  function RunBytes(w: Writer, inodes: seq<nat>): nat {
    if inodes == [] then 0 else RunBytes(w, Init(inodes)) + RangeLen(ReportOf(w, Last(inodes)).sizes)
  }

  function RunsIn(owners: seq<Owner>): seq<nat> {
    if owners == [] then []
    else RunsIn(Init(owners)) + if Last(owners).RunOwner? then [Last(owners).inode] else []
  }

  function OpenRun(open: Option<nat>): seq<nat> {
    if open.Some? then [open.value] else []
  }

  function FragmentsIn(owners: seq<Owner>): nat {
    if owners == [] then 0 else FragmentsIn(Init(owners)) + if Last(owners).FragmentOwner? then 1 else 0
  }

  /** Fragments own extents in the order of their numbers. */
  predicate FragmentsInOrder(owners: seq<Owner>) {
    owners == []
    || (FragmentsInOrder(Init(owners))
        && (Last(owners).FragmentOwner? ==> Last(owners).index == FragmentsIn(Init(owners))))
  }

  lemma {:induction false} TilesAddUp(w: Writer, owners: seq<Owner>, end: nat)
    requires Tiles(w, owners, end) && FragmentsInOrder(owners) && FragmentsIn(owners) <= |w.fragments|
    ensures end == SUPER_SIZE + FragmentBytes(w.fragments[..FragmentsIn(owners)]) + RunBytes(w, RunsIn(owners))
    decreases |owners|
  {
    if owners != [] {
      var front, o := Init(owners), Last(owners);
      TilesAddUp(w, front, StartOf(w, o));
      match o
      case FragmentOwner(k) =>
        assert Init(w.fragments[..k + 1]) == w.fragments[..k];
        assert RunsIn(owners) == RunsIn(front);
      case RunOwner(n) =>
        assert Init(RunsIn(owners)) == RunsIn(front);
    }
  }

  lemma {:induction false} LayoutShape(cfg: Config, h: seq<PendingWrite>)
    requires ConfigOk(cfg) && WellOrdered(cfg, h)
    ensures FragmentsInOrder(Layout(cfg, h))
    ensures FragmentsIn(Layout(cfg, h)) == |HandleAll(cfg, h).fragments|
  {
    if h != [] {
      LayoutShape(cfg, Init(h));
      WriterInvHolds(cfg, Init(h));
      LayoutShapeStep(cfg, MeaningOf(Init(h)), HandleAll(cfg, Init(h)), Layout(cfg, Init(h)), Last(h));
    }
  }

  lemma LayoutShapeStep(cfg: Config, m: Meaning, w: Writer, owners: seq<Owner>, p: PendingWrite)
    requires WriterInv(cfg, m, w, owners) && MayFollow(cfg, m, p)
    requires FragmentsInOrder(owners) && FragmentsIn(owners) == |w.fragments|
    ensures FragmentsInOrder(OwnersAfter(cfg, m, w, owners, p))
    ensures FragmentsIn(OwnersAfter(cfg, m, w, owners, p)) == |Handle(cfg, w, p).fragments|
  {
    hide SameContent, RangeLen, RunStored, FragmentStored, Tiles, WriteBytes, OwnersKnown, RunsInside,
      FragmentsInside, KeptAreOwners, FindSame;
    match p
    case Fragment(_) =>
      assert Init(owners + [FragmentOwner(|w.fragments|)]) == owners;
    case Block(_, n) =>
      assert Init(owners + [RunOwner(n)]) == owners;
    case Dedup(n) =>
      assert Last(owners).RunOwner?;
  }

  /** The runs that own extents are the kept inodes in the order they were kept, then the
      one still open. */
  lemma {:induction false} OwnersAreKept(cfg: Config, h: seq<PendingWrite>, sum: int)
    requires ConfigOk(cfg) && cfg.dedup && OneBucket(cfg, sum) && WellOrdered(cfg, h)
    ensures RunsIn(Layout(cfg, h)) == KeptUnder(HandleAll(cfg, h), sum) + OpenRun(MeaningOf(h).open)
  {
    if h != [] {
      OwnersAreKept(cfg, Init(h), sum);
      WriterInvHolds(cfg, Init(h));
      OwnersAreKeptStep(cfg, MeaningOf(Init(h)), HandleAll(cfg, Init(h)), Layout(cfg, Init(h)), sum, Last(h));
    }
  }

  lemma OwnersAreKeptStep(cfg: Config, m: Meaning, w: Writer, owners: seq<Owner>, sum: int, p: PendingWrite)
    requires ConfigOk(cfg) && OneBucket(cfg, sum) && cfg.dedup && WriterInv(cfg, m, w, owners) && MayFollow(cfg, m, p)
    requires RunsIn(owners) == KeptUnder(w, sum) + OpenRun(m.open)
    ensures RunsIn(OwnersAfter(cfg, m, w, owners, p))
         == KeptUnder(Handle(cfg, w, p), sum) + OpenRun(Extend(m, p).open)
  {
    hide SameContent, RangeLen, RunStored, FragmentStored, Tiles, WriteBytes, OwnersKnown, RunsInside,
      FragmentsInside, KeptAreOwners, FindSame, RunsIn, ReportsNonempty;
    match p
    case Fragment(_) =>
      RunsInAppend(owners, FragmentOwner(|w.fragments|));
    case Block(_, n) =>
      RunsInAppend(owners, RunOwner(n));
    case Dedup(n) =>
      assert owners == Init(owners) + [RunOwner(n)];
      RunsInAppend(Init(owners), RunOwner(n));
      SameFront(RunsIn(Init(owners)), KeptUnder(w, sum), n);
  }

  lemma RunsInAppend(owners: seq<Owner>, o: Owner)
    ensures RunsIn(owners + [o]) == RunsIn(owners) + if o.RunOwner? then [o.inode] else []
  {
    assert Init(owners + [o]) == owners;
  }

  lemma SameFront(a: seq<nat>, b: seq<nat>, n: nat)
    requires a + [n] == b + [n]
    ensures a == b
  {
    assert a == Init(a + [n]) && b == Init(b + [n]);
  }

  /** With deduplication on, between files: every stored byte is a byte of a fragment or of the
      run of exactly one kept inode. */
  lemma SpaceIsConserved(cfg: Config, h: seq<PendingWrite>, sum: int)
    requires ConfigOk(cfg) && cfg.dedup && OneBucket(cfg, sum) && WellOrdered(cfg, h)
    requires MeaningOf(h).open == None
    ensures var w := HandleAll(cfg, h);
            w.file.pos == SUPER_SIZE + FragmentBytes(w.fragments) + RunBytes(w, KeptUnder(w, sum))
  {
    hide HandleAll, MeaningOf, WellOrdered, Layout, FragmentsStored, RunsStored, OwnersKnown, RunsInside,
      FragmentsInside, KeptAreOwners, OneBucket, ConfigOk, KeptUnder, RunBytes, FragmentBytes, Tiles,
      FragmentsInOrder, RunsIn, FragmentsIn;
    var w := HandleAll(cfg, h);
    WriterInvHolds(cfg, h);
    LayoutShape(cfg, h);
    OwnersAreKept(cfg, h, sum);
    TilesAddUp(w, Layout(cfg, h), w.file.pos);
    assert w.fragments[..|w.fragments|] == w.fragments;
    assert KeptUnder(w, sum) + [] == KeptUnder(w, sum);
  }
}
