/** Every run ends: each step of a thread that can run uses up some of a bounded supply. */
module ThreadTermination {
  import opened SquashDefs
  import opened PendingWrites
  import opened Fragments
  import opened DataRoundTrip
  import opened TwoThreads
  import opened ScheduleIndependence

  /** Steps the client may still take, given that no bucket ever holds more than `total` inodes. */
  function ClientWork(total: nat, s: System): nat {
    |s.calls| * (2 * total + 6)
    + match s.pc
      case Ready => 4
      case Searching(_, _, candidates) => 2 * |candidates| + 7
      case Reading(_, _, rest, _, _) => 2 * |rest| + 8
      case Placing(_, _) => 5 + if s.client.current == [] then 0 else 1
      case Finishing => 3
      case Closing => 2
      case Joining => 1
      case Done => 0
  }

  function WriterWork(s: System): nat {
    match s.wpc
    case Popping => 1
    case Holding(_) => 4
    case Entering(_, _) => 3
    case Exited => 0
  }

  function Awake(s: System): nat {
    (if s.queue.pusherSleeps || s.fragmentSleep then 0 else 1) + if s.queue.popperSleeps then 0 else 1
  }

  function Measure(total: nat, s: System): nat {
    10 * ClientWork(total, s) + 5 * |s.queue.items| + WriterWork(s) + Awake(s)
  }

  /** Each call files at most one inode. */
  function Pending(s: System): nat {
    if s.pc.Searching? || s.pc.Reading? then 1 else 0
  }

  ghost predicate BucketsBounded(total: nat, s: System) {
    && (forall sum :: |Candidates(s.client, sum)| + |s.calls| + Pending(s) <= total)
    && (s.pc.Searching? ==> |s.pc.candidates| <= total)
    && (s.pc.Reading? ==> |s.pc.candidates| < total)
  }

  lemma OneCallLess(total: nat, calls: seq<WriterCall>)
    requires calls != []
    ensures |calls| * (2 * total + 6) == |calls[1..]| * (2 * total + 6) + 2 * total + 6
  {
    var n := |calls[1..]|;
    assert |calls| == n + 1;
  }

  lemma SameBuckets(total: nat, s: System, t: System)
    requires BucketsBounded(total, s) && t.client.dups == s.client.dups
    requires |t.calls| + Pending(t) <= |s.calls| + Pending(s)
    requires t.pc.Searching? ==> |t.pc.candidates| <= total
    requires t.pc.Reading? ==> |t.pc.candidates| < total
    ensures BucketsBounded(total, t)
  {
    assert forall sum :: Candidates(t.client, sum) == Candidates(s.client, sum);
  }

  lemma NextCallMeasured(cfg: Config, total: nat, s: System)
    requires BucketsBounded(total, s) && ClientCanRun(s) && s.pc.Ready? && s.calls != []
    ensures BucketsBounded(total, ClientRuns(cfg, s))
    ensures Measure(total, ClientRuns(cfg, s)) < Measure(total, s)
  {
    OneCallLess(total, s.calls);
    if s.calls[0].PutTail? {
      assert |Candidates(s.client, cfg.cksum(s.calls[0].data))| <= total;
    }
    SameBuckets(total, s, ClientRuns(cfg, s));
  }

  lemma SearchMeasured(cfg: Config, total: nat, s: System)
    requires BucketsBounded(total, s) && ClientCanRun(s) && (s.pc.Searching? || s.pc.Reading?)
    ensures BucketsBounded(total, ClientRuns(cfg, s))
    ensures Measure(total, ClientRuns(cfg, s)) < Measure(total, s)
  {
    hide PrefixAt, ReadFragment;
    var t := ClientRuns(cfg, s);
    if s.pc.candidates == [] && s.pc.Searching? {
      forall sum
        ensures |Candidates(t.client, sum)| <= |Candidates(s.client, sum)| + 1
      {
      }
    } else {
      SameBuckets(total, s, t);
    }
  }

  lemma PlaceMeasured(cfg: Config, total: nat, s: System)
    requires BucketsBounded(total, s) && ClientCanRun(s) && s.pc.Placing?
    ensures BucketsBounded(total, ClientRuns(cfg, s))
    ensures Measure(total, ClientRuns(cfg, s)) < Measure(total, s)
  {
    SameBuckets(total, s, ClientRuns(cfg, s));
  }

  lemma EndingMeasured(cfg: Config, total: nat, s: System)
    requires BucketsBounded(total, s) && ClientCanRun(s) && EndOk(s)
    requires (s.pc.Ready? && s.calls == []) || s.pc.Finishing? || s.pc.Closing? || s.pc.Joining?
    ensures BucketsBounded(total, ClientRuns(cfg, s))
    ensures Measure(total, ClientRuns(cfg, s)) < Measure(total, s)
  {
    SameBuckets(total, s, ClientRuns(cfg, s));
  }

  lemma ClientRunMeasured(cfg: Config, total: nat, s: System)
    requires BucketsBounded(total, s) && ClientCanRun(s) && EndOk(s)
    ensures BucketsBounded(total, ClientRuns(cfg, s))
    ensures Measure(total, ClientRuns(cfg, s)) < Measure(total, s)
  {
    hide BucketsBounded, EndOk, ClientRuns, Measure;
    match s.pc
    case Ready =>
      if s.calls == [] {
        EndingMeasured(cfg, total, s);
      } else {
        NextCallMeasured(cfg, total, s);
      }
    case Searching(_, _, _) => SearchMeasured(cfg, total, s);
    case Reading(_, _, _, _, _) => SearchMeasured(cfg, total, s);
    case Placing(_, _) => PlaceMeasured(cfg, total, s);
    case _ => EndingMeasured(cfg, total, s);
  }

  lemma WriterRunDecreases(cfg: Config, total: nat, s: System)
    requires FileOk(s.w) && WriterCanRun(s)
    ensures Measure(total, WriterRuns(cfg, s)) < Measure(total, s)
  {
  }

  /** Whether an actor really runs a step. */
  predicate Runs(s: System, a: Actor) {
    match a
    case ClientActs => ClientCanRun(s)
    case WriterActs => WriterCanRun(s)
    case _ => false
  }

  predicate Stirs(a: Actor) {
    a.ClientStirs? || a.WriterStirs?
  }

  function RunCount(cfg: Config, s: System, schedule: seq<Actor>): nat
    requires FileOk(s.w)
  {
    if schedule == [] then 0
    else RunCount(cfg, s, Init(schedule)) + if Runs(Exec(cfg, s, Init(schedule)), Last(schedule)) then 1 else 0
  }

  function StirCount(schedule: seq<Actor>): nat {
    if schedule == [] then 0 else StirCount(Init(schedule)) + if Stirs(Last(schedule)) then 1 else 0
  }

  lemma ActBounded(cfg: Config, total: nat, s: System, a: Actor)
    requires FileOk(s.w) && BucketsBounded(total, s) && EndOk(s)
    ensures BucketsBounded(total, Act(cfg, s, a))
  {
    hide ClientRuns, WriterRuns, BucketsBounded, EndOk;
    match a
    case ClientActs =>
      if ClientCanRun(s) {
        ClientRunMeasured(cfg, total, s);
      }
    case WriterActs => OtherRunBounded(total, s, Act(cfg, s, a)) by { WriterRunIsApart(cfg, s); }
    case _ => OtherRunBounded(total, s, Act(cfg, s, a));
  }

  lemma WriterRunIsApart(cfg: Config, s: System)
    requires FileOk(s.w)
    ensures WriterRuns(cfg, s).client == s.client && WriterRuns(cfg, s).pc == s.pc
      && WriterRuns(cfg, s).calls == s.calls
  {
  }

  lemma OtherRunBounded(total: nat, s: System, t: System)
    requires BucketsBounded(total, s) && t.client == s.client && t.pc == s.pc && t.calls == s.calls
    ensures BucketsBounded(total, t)
  {
  }

  lemma ActMeasured(cfg: Config, total: nat, s: System, a: Actor)
    requires FileOk(s.w) && BucketsBounded(total, s) && EndOk(s)
    ensures Measure(total, Act(cfg, s, a)) + (if Runs(s, a) then 1 else 0)
         <= Measure(total, s) + 2 * (if Stirs(a) then 1 else 0)
  {
    hide ClientRuns, WriterRuns, BucketsBounded, EndOk, ClientWork;
    match a
    case ClientActs =>
      if ClientCanRun(s) {
        ClientRunMeasured(cfg, total, s);
      }
    case WriterActs =>
      if WriterCanRun(s) {
        WriterRunDecreases(cfg, total, s);
      }
    case _ =>
      StirsKeepWork(cfg, total, s, a);
  }

  lemma StirsKeepWork(cfg: Config, total: nat, s: System, a: Actor)
    requires FileOk(s.w) && Stirs(a)
    ensures ClientWork(total, Act(cfg, s, a)) == ClientWork(total, s)
  {
  }

  /** In any schedule the number of real steps is bounded by the measure of the start plus
      twice the number of spurious wakeups. */
  lemma {:induction false} StepsAreBounded(cfg: Config, files: seq<FileData>, bound: nat, schedule: seq<Actor>)
    requires ConfigOk(cfg) && Distinct(files) && 0 < bound
    ensures var s0 := Start(AllCalls(cfg, files), bound);
            var total := |AllCalls(cfg, files)|;
            && BucketsBounded(total, Exec(cfg, s0, schedule))
            && Measure(total, Exec(cfg, s0, schedule)) + RunCount(cfg, s0, schedule)
               <= Measure(total, s0) + 2 * StirCount(schedule)
  {
    hide Act, Measure, BucketsBounded, AllCalls, SystemInv, WellOrdered, Runs, Stirs, Start;
    var calls := AllCalls(cfg, files);
    var s0 := Start(calls, bound);
    if schedule == [] {
      StartBounded(calls, bound);
    } else {
      StepsAreBounded(cfg, files, bound, Init(schedule));
      var s := Exec(cfg, s0, Init(schedule));
      EndOkHolds(cfg, files, bound, Init(schedule));
      ActBounded(cfg, |calls|, s, Last(schedule));
      ActMeasured(cfg, |calls|, s, Last(schedule));
    }
  }

  lemma StartBounded(calls: seq<WriterCall>, bound: nat)
    ensures BucketsBounded(|calls|, Start(calls, bound))
  {
  }

  lemma EndOkHolds(cfg: Config, files: seq<FileData>, bound: nat, schedule: seq<Actor>)
    requires ConfigOk(cfg) && Distinct(files) && 0 < bound
    ensures SystemInv(cfg, Alone(cfg, AllCalls(cfg, files)), Exec(cfg, Start(AllCalls(cfg, files), bound), schedule))
    ensures WellOrdered(cfg, Alone(cfg, AllCalls(cfg, files)).sent)
    ensures EndOk(Exec(cfg, Start(AllCalls(cfg, files), bound), schedule))
  {
    hide AllCalls, RunCalls, Exec, WellOrdered, MeaningOf, ClientInv;
    OutcomeInv(cfg, files);
    ReachableInv(cfg, AllCalls(cfg, files), bound, schedule);
  }

  /** From every reachable state the run can be brought to its end. */
  lemma EveryRunCanFinish(cfg: Config, files: seq<FileData>, bound: nat, schedule: seq<Actor>)
    returns (rest: seq<Actor>)
    requires ConfigOk(cfg) && Distinct(files) && 0 < bound
    ensures var end := Exec(cfg, Start(AllCalls(cfg, files), bound), schedule + rest);
            end.pc == Done && end.wpc == Exited && end.queue.items == []
    decreases Measure(|AllCalls(cfg, files)|, Exec(cfg, Start(AllCalls(cfg, files), bound), schedule))
  {
    hide AllCalls, Act, Measure, SystemInv, WellOrdered, BucketsBounded, Start;
    var s0 := Start(AllCalls(cfg, files), bound);
    var s := Exec(cfg, s0, schedule);
    if s.pc == Done {
      rest := [];
      assert schedule + rest == schedule;
      ScheduleDoesNotMatter(cfg, files, bound, schedule);
    } else {
      EndOkHolds(cfg, files, bound, schedule);
      SomeoneCanRun(cfg, Alone(cfg, AllCalls(cfg, files)), s);
      var a := if ClientCanRun(s) then ClientActs else WriterActs;
      StepsAreBounded(cfg, files, bound, schedule);
      ActMeasured(cfg, |AllCalls(cfg, files)|, s, a);
      assert Init(schedule + [a]) == schedule;
      var tail := EveryRunCanFinish(cfg, files, bound, schedule + [a]);
      rest := [a] + tail;
      assert schedule + rest == schedule + [a] + tail;
    }
  }
}
