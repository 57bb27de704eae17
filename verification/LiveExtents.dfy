/** Every report owns its extent or shares that of a closed run which does; hence any two reports
    are the same or apart, and none meets a fragment. */
module LiveExtents {
  import opened SquashDefs
  import opened Compressors
  import opened BlockReports
  import opened PendingWrites
  import opened RollbackSafety
  import opened BlockDedup

  /** A closed run that owns the extent `n` reports. */
  predicate Lends(w: Writer, owners: seq<Owner>, open: Option<nat>, n: nat, i: nat) {
    RunOwner(i) in owners && open != Some(i) && i in w.reports && n in w.reports && w.reports[i] == w.reports[n]
  }

  ghost predicate Owned(w: Writer, owners: seq<Owner>, open: Option<nat>, n: nat) {
    RunOwner(n) in owners || exists i :: Lends(w, owners, open, n, i)
  }

  ghost predicate AllOwned(dedup: bool, w: Writer, owners: seq<Owner>, open: Option<nat>) {
    && (forall n :: n in w.reports ==> Owned(w, owners, open, n))
    && (!dedup ==> forall n :: n in w.reports ==> RunOwner(n) in owners)
  }

  lemma StillOwned(w: Writer, owners: seq<Owner>, open: Option<nat>, v: Writer, owners': seq<Owner>,
                   open': Option<nat>, n: nat)
    requires Owned(w, owners, open, n) && n in w.reports && n in v.reports && v.reports[n] == w.reports[n]
    requires RunOwner(n) in owners ==> RunOwner(n) in owners'
    requires forall i :: i in w.reports && RunOwner(i) in owners && open != Some(i) ==>
               RunOwner(i) in owners' && open' != Some(i) && i in v.reports && v.reports[i] == w.reports[i]
    ensures Owned(v, owners', open', n)
  {
    if RunOwner(n) !in owners {
      var i :| Lends(w, owners, open, n, i);
      assert Lends(v, owners', open', n, i);
    }
  }

  lemma FragmentKeepsOwned(cfg: Config, m: Meaning, w: Writer, owners: seq<Owner>, data: Bytes)
    requires FileOk(w) && AllOwned(cfg.dedup, w, owners, m.open)
    ensures AllOwned(cfg.dedup, Handle(cfg, w, Fragment(data)), owners + [FragmentOwner(|w.fragments|)], None)
  {
    hide WriteBytes, Owned;
    var v, owners' := Handle(cfg, w, Fragment(data)), owners + [FragmentOwner(|w.fragments|)];
    forall n | n in v.reports
      ensures Owned(v, owners', None, n)
    {
      StillOwned(w, owners, m.open, v, owners', None, n);
    }
  }

  lemma BlockKeepsOwned(cfg: Config, m: Meaning, w: Writer, owners: seq<Owner>, data: Bytes, n: nat)
    requires FileOk(w) && AllOwned(cfg.dedup, w, owners, m.open) && w.reports.Keys == m.runs.Keys
    requires m.open == Some(n) ==> RunOwner(n) in owners
    requires m.open == Some(n) || n !in m.runs
    ensures AllOwned(cfg.dedup, Handle(cfg, w, Block(data, n)),
                     if m.open == Some(n) then owners else owners + [RunOwner(n)], Some(n))
  {
    hide WriteBytes, Owned;
    var v, owners' := Handle(cfg, w, Block(data, n)), if m.open == Some(n) then owners else owners + [RunOwner(n)];
    forall k | k in v.reports
      ensures Owned(v, owners', Some(n), k)
    {
      if k == n {
        OwnRun(v, owners', Some(n), n);
      } else {
        StillOwned(w, owners, m.open, v, owners', Some(n), k);
      }
    }
  }

  lemma OwnRun(w: Writer, owners: seq<Owner>, open: Option<nat>, n: nat)
    requires RunOwner(n) in owners
    ensures Owned(w, owners, open, n)
  {
  }

  lemma ShareKeepsOwned(w: Writer, owners: seq<Owner>, n: nat, i: nat)
    requires LayoutInv(true, w, owners, Some(n)) && AllOwned(true, w, owners, Some(n))
    requires RunOwner(i) in owners && i != n
    ensures AllOwned(true, ShareReport(w, n, i), Init(owners), None)
  {
    hide Owned, Tiles, RunsInside, FragmentsInside, ReportsNonempty, KeptAreOwners, RangeLen;
    var v := ShareReport(w, n, i);
    LastOwnerIsUnique(owners);
    forall k | k in v.reports
      ensures Owned(v, Init(owners), None, k)
    {
      if k == n {
        Borrowed(v, Init(owners), None, n, i);
      } else {
        StillOwned(w, owners, Some(n), v, Init(owners), None, k);
      }
    }
  }

  lemma Borrowed(w: Writer, owners: seq<Owner>, open: Option<nat>, n: nat, i: nat)
    requires Lends(w, owners, open, n, i)
    ensures Owned(w, owners, open, n)
  {
  }

  lemma KeepKeepsOwned(w: Writer, owners: seq<Owner>, n: nat, sum: int)
    requires AllOwned(true, w, owners, Some(n))
    ensures AllOwned(true, Keep(w, sum, n), owners, None)
  {
    hide Owned;
    var v := Keep(w, sum, n);
    forall k | k in v.reports
      ensures Owned(v, owners, None, k)
    {
      StillOwned(w, owners, Some(n), v, owners, None, k);
    }
  }

  lemma WriteKeepsOwned(cfg: Config, m: Meaning, w: Writer, owners: seq<Owner>, p: PendingWrite)
    requires WriterInv(cfg, m, w, owners) && MayFollow(cfg, m, p) && AllOwned(cfg.dedup, w, owners, m.open)
    ensures AllOwned(cfg.dedup, Handle(cfg, w, p), OwnersAfter(cfg, m, w, owners, p), Extend(m, p).open)
  {
    hide AllOwned, Tiles, RunsInside, FragmentsInside, ReportsNonempty, RunStored, FragmentStored, FindSame, RangeLen,
      WriteBytes, NoRepeats;
    match p
    case Fragment(data) => FragmentKeepsOwned(cfg, m, w, owners, data);
    case Block(data, n) => BlockKeepsOwned(cfg, m, w, owners, data, n);
    case Dedup(n) =>
      var sum := cfg.blockedSum(n);
      FindSameFinds(w, n, KeptUnder(w, sum));
      match FindSame(w, n, KeptUnder(w, sum))
      case Some(i) => ShareKeepsOwned(w, owners, n, i);
      case None => KeepKeepsOwned(w, owners, n, sum);
  }

  /** After any history every report has its own extent or that of a closed run; without
      deduplication always its own. */
  lemma {:induction false} EveryReportIsOwned(cfg: Config, h: seq<PendingWrite>)
    requires ConfigOk(cfg) && WellOrdered(cfg, h)
    ensures AllOwned(cfg.dedup, HandleAll(cfg, h), Layout(cfg, h), MeaningOf(h).open)
  {
    if h != [] {
      EveryReportIsOwned(cfg, Init(h));
      WriterInvHolds(cfg, Init(h));
      WriteKeepsOwned(cfg, MeaningOf(Init(h)), HandleAll(cfg, Init(h)), Layout(cfg, Init(h)), Last(h));
    }
  }

  /** Two ranges without a common byte. */
  predicate Apart(start1: nat, len1: nat, start2: nat, len2: nat) {
    start1 + len1 <= start2 || start2 + len2 <= start1
  }

  /** A report's extent is that of some owner. */
  lemma OwnerOf(w: Writer, owners: seq<Owner>, open: Option<nat>, n: nat) returns (o: Owner)
    requires Owned(w, owners, open, n) && n in w.reports && forall k :: RunOwner(k) in owners ==> k in w.reports
    ensures o in owners && o.RunOwner? && w.reports[o.inode] == w.reports[n]
  {
    o := RunOwner(n);
    if RunOwner(n) !in owners {
      var i :| Lends(w, owners, open, n, i);
      o := RunOwner(i);
    }
  }

  lemma OwnersApart(w: Writer, owners: seq<Owner>, end: nat, a: Owner, b: Owner)
    requires Tiles(w, owners, end) && a in owners && b in owners && a != b
    ensures Apart(StartOf(w, a), LengthOf(w, a), StartOf(w, b), LengthOf(w, b))
  {
    hide Tiles, StartOf, LengthOf;
    var i :| 0 <= i < |owners| && owners[i] == a;
    var j :| 0 <= j < |owners| && owners[j] == b;
    if i < j {
      ExtentsAreDisjoint(w, owners, end, i, j);
    } else {
      ExtentsAreDisjoint(w, owners, end, j, i);
    }
  }

  /** At every moment, deduplication on or off: two inodes have the same report, or reports that lie
      apart; a report and a fragment lie apart; two fragments lie apart; all lie below the position. */
  lemma LiveExtentsAreApart(cfg: Config, h: seq<PendingWrite>)
    requires ConfigOk(cfg) && WellOrdered(cfg, h)
    ensures var w := HandleAll(cfg, h);
            && (forall n, k :: n in w.reports && k in w.reports ==>
                  w.reports[n] == w.reports[k]
                  || Apart(w.reports[n].start, RangeLen(w.reports[n].sizes),
                           w.reports[k].start, RangeLen(w.reports[k].sizes)))
            && (forall n, f :: n in w.reports && 0 <= f < |w.fragments| ==>
                  Apart(w.reports[n].start, RangeLen(w.reports[n].sizes),
                        w.fragments[f].start, WordLen(w.fragments[f].size)))
            && RunsInside(w, w.file.pos, None) && FragmentsInside(w, w.file.pos)
            && (forall f, g :: 0 <= f < g < |w.fragments| ==>
                  Apart(w.fragments[f].start, WordLen(w.fragments[f].size),
                        w.fragments[g].start, WordLen(w.fragments[g].size)))
  {
    hide HandleAll, Layout, Tiles, Owned, RangeLen, WordLen, RunsStored, FragmentsStored, MeaningOf, WellOrdered,
      NoRepeats, Apart;
    var w, owners := HandleAll(cfg, h), Layout(cfg, h);
    EveryReportIsOwned(cfg, h);
    WriterInvHolds(cfg, h);
    forall n, k | n in w.reports && k in w.reports && w.reports[n] != w.reports[k]
      ensures Apart(w.reports[n].start, RangeLen(w.reports[n].sizes), w.reports[k].start, RangeLen(w.reports[k].sizes))
    {
      var a := OwnerOf(w, owners, MeaningOf(h).open, n);
      var b := OwnerOf(w, owners, MeaningOf(h).open, k);
      OwnersApart(w, owners, w.file.pos, a, b);
    }
    forall n, f | n in w.reports && 0 <= f < |w.fragments|
      ensures Apart(w.reports[n].start, RangeLen(w.reports[n].sizes),
                    w.fragments[f].start, WordLen(w.fragments[f].size))
    {
      var a := OwnerOf(w, owners, MeaningOf(h).open, n);
      OwnersApart(w, owners, w.file.pos, a, FragmentOwner(f));
    }
    forall f, g | 0 <= f < g < |w.fragments|
      ensures Apart(w.fragments[f].start, WordLen(w.fragments[f].size),
                    w.fragments[g].start, WordLen(w.fragments[g].size))
    {
      OwnersApart(w, owners, w.file.pos, FragmentOwner(f), FragmentOwner(g));
    }
  }
}
