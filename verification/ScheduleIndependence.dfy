/** Whatever the schedule, both threads end where one thread would. */
module ScheduleIndependence {
  import opened SquashDefs
  import opened Compressors
  import opened PendingWrites
  import opened RollbackSafety
  import opened Fragments
  import opened DataRoundTrip
  import opened SqshWriters
  import opened BoundedQueue
  import opened TwoThreads

  // ---- What the client would still do, alone ----

  function At(s: System): Progress {
    Progress(s.client, s.sent)
  }

  function AfterMiss(cfg: Config, p: Progress, n: nat, data: Bytes): Progress {
    After(p, PlaceNew(cfg, File(cfg, p.client, n, data), n, data))
  }

  function AfterHit(p: Progress, n: nat, index: FragmentIndex): Progress {
    p.(client := p.client.(indices := p.client.indices[n := index]))
  }

  function AfterSearch(cfg: Config, p: Progress, n: nat, data: Bytes, candidates: seq<nat>): Progress {
    match Search(p.client, SentFragments(p), data, candidates)
    case Some(index) => AfterHit(p, n, index)
    case None => AfterMiss(cfg, p, n, data)
  }

  /** The client's state once the call it is in is over. */
  function CallOver(cfg: Config, s: System): Progress {
    match s.pc
    case Searching(n, data, candidates) => AfterSearch(cfg, At(s), n, data, candidates)
    case Reading(n, data, rest, index, _) =>
      if Holds(s.client, SentFragments(At(s)), index, data) then AfterHit(At(s), n, index)
      else AfterSearch(cfg, At(s), n, data, rest)
    case Placing(n, data) => After(At(s), PlaceNew(cfg, s.client, n, data))
    case _ => At(s)
  }

  /** Where the client would end if the rest of its program ran with nobody else around. */
  function EndsAt(cfg: Config, s: System): Progress {
    match s.pc
    case Closing => At(s)
    case Joining => At(s)
    case Done => At(s)
    case _ => Finish(RunCalls(cfg, CallOver(cfg, s), s.calls))
  }

  // ---- The invariant ----

  function InHand(wpc: WriterPc): seq<PendingWrite> {
    match wpc
    case Holding(p) => [p]
    case Entering(data, _) => [Fragment(data)]
    case _ => []
  }

  /** Everything sent is done, in hand, or queued, in that order. */
  predicate NothingLost(s: System) {
    s.sent == s.done + InHand(s.wpc) + s.queue.items && |s.queue.items| <= s.queue.bound && 0 < s.queue.bound
  }

  /** The writer's state is that of handling what is done, or one table entry short of it. */
  predicate WriterOk(cfg: Config, s: System) {
    match s.wpc
    case Entering(data, e) =>
      s.w.(fragments := s.w.fragments + [e]) == HandleAll(cfg, s.done + [Fragment(data)])
    case _ => s.w == HandleAll(cfg, s.done)
  }

  /** Whose index may not be recorded yet although it is filed. */
  predicate Filing(s: System, n: nat) {
    s.pc.Placing? && s.pc.n == n
  }

  predicate KnownCandidates(s: System, candidates: seq<nat>) {
    forall i :: i in candidates ==> i in s.client.indices
  }

  ghost predicate ClientOk(s: System) {
    && s.client.count == |SentFragments(At(s))|
    && (forall n :: n in s.client.indices ==> s.client.indices[n].fragment <= s.client.count)
    && (forall sum, i :: sum in s.client.dups && i in s.client.dups[sum] ==> i in s.client.indices || Filing(s, i))
    && match s.pc
       case Searching(_, _, candidates) => KnownCandidates(s, candidates)
       case Reading(_, _, rest, index, e) =>
         && KnownCandidates(s, rest)
         && index.fragment < s.client.count
         && index.fragment < |s.w.fragments| && e == s.w.fragments[index.fragment]
       case _ => true
  }

  predicate EndOk(s: System) {
    && (s.queue.finished <==> s.pc.Joining? || s.pc.Done?)
    && (s.wpc.Exited? ==> s.queue.finished && s.queue.items == [])
    && (s.pc.Done? ==> s.wpc.Exited?)
    && (s.pc.Finishing? || s.pc.Closing? ==> s.calls == [])
  }

  /** The next candidate sits in a flushed fragment that has no entry yet. */
  predicate AwaitsFragment(s: System) {
    && s.pc.Searching? && s.pc.candidates != []
    && |s.w.fragments| <= IndexOf(s.client, Last(s.pc.candidates)).fragment < s.client.count
  }

  /** What the client sleeps for: a place in the queue only when about to push, a fragment only
      when its entry is missing. */
  predicate SleepOk(s: System) {
    && NoLostWakeup(s.queue)
    && (s.queue.popperSleeps ==> s.wpc.Popping?)
    && (s.queue.pusherSleeps ==> !s.fragmentSleep && !s.pc.Joining? && !s.pc.Done?)
    && (s.fragmentSleep ==> AwaitsFragment(s))
  }

  ghost predicate SystemInv(cfg: Config, goal: Progress, s: System) {
    && NothingLost(s)
    && WriterOk(cfg, s)
    && ClientOk(s)
    && EndOk(s)
    && SleepOk(s)
    && EndsAt(cfg, s) == goal
  }

  // ---- Histories only grow ----

  lemma {:induction false} RunCallsGrows(cfg: Config, p: Progress, calls: seq<WriterCall>)
    ensures p.sent <= RunCalls(cfg, p, calls).sent
    decreases |calls|
  {
    if calls != [] {
      RunCallsGrows(cfg, RunCall(cfg, p, calls[0]), calls[1..]);
    }
  }

  lemma EndsAtGrows(cfg: Config, s: System)
    ensures s.sent <= EndsAt(cfg, s).sent
  {
    RunCallsGrows(cfg, CallOver(cfg, s), s.calls);
  }

  lemma {:induction false} PrefixWellOrdered(cfg: Config, g: seq<PendingWrite>, h: seq<PendingWrite>)
    requires g <= h && WellOrdered(cfg, h)
    ensures WellOrdered(cfg, g)
    decreases |h|
  {
    if |g| < |h| {
      PrefixWellOrdered(cfg, g, Init(h));
    } else {
      assert g == h;
    }
  }

  lemma {:induction false} PrefixFragments(g: seq<PendingWrite>, h: seq<PendingWrite>)
    requires g <= h
    ensures MeaningOf(g).fragments <= MeaningOf(h).fragments
    decreases |h|
  {
    if |g| < |h| {
      PrefixFragments(g, Init(h));
    } else {
      assert g == h;
    }
  }

  // ---- Reading while the writer writes ----

  function Completed(s: System): seq<PendingWrite> {
    s.done + if s.wpc.Entering? then [Fragment(s.wpc.data)] else []
  }

  lemma CompletedIsSent(s: System)
    requires NothingLost(s)
    ensures Completed(s) <= s.sent
  {
  }

  lemma TableAgrees(cfg: Config, s: System)
    requires WriterOk(cfg, s)
    ensures s.w.fragments <= HandleAll(cfg, Completed(s)).fragments && s.w.file == HandleAll(cfg, Completed(s)).file
  {
    hide HandleAll;
    assert s.done + [] == s.done;
  }

  lemma CompletedOrdered(cfg: Config, goal: Progress, s: System)
    requires WellOrdered(cfg, goal.sent) && NothingLost(s) && EndsAt(cfg, s) == goal
    ensures WellOrdered(cfg, Completed(s))
    ensures MeaningOf(Completed(s)).fragments <= SentFragments(At(s))
  {
    hide MeaningOf, WellOrdered, EndsAt;
    EndsAtGrows(cfg, s);
    CompletedIsSent(s);
    PrefixWellOrdered(cfg, Completed(s), goal.sent);
    PrefixFragments(Completed(s), s.sent);
  }

  lemma EntryCount(cfg: Config, h: seq<PendingWrite>)
    requires ConfigOk(cfg) && WellOrdered(cfg, h)
    ensures |HandleAll(cfg, h).fragments| == |MeaningOf(h).fragments|
  {
    hide HandleAll, MeaningOf, WellOrdered, LayoutInv, RunsStored;
    WriterInvHolds(cfg, h);
  }

  /** The writer's table is exact at every moment, even between the two halves of a fragment
      write, and what it lists unpacks to what was sent. */
  lemma FragmentsReadBack(cfg: Config, goal: Progress, s: System, k: nat)
    requires ConfigOk(cfg) && WellOrdered(cfg, goal.sent) && SystemInv(cfg, goal, s)
    requires k < |s.w.fragments|
    ensures k < |SentFragments(At(s))|
    ensures ReadFragment(cfg, s.w, s.w.fragments[k]) == SentFragments(At(s))[k]
  {
    hide HandleAll, MeaningOf, WellOrdered, EndsAt, ClientOk, SleepOk, EndOk, Unblock, WordLen, NothingLost, WriterOk,
      Completed;
    CompletedOrdered(cfg, goal, s);
    TableAgrees(cfg, s);
    EntryCount(cfg, Completed(s));
    assert s.w.fragments[k] == HandleAll(cfg, Completed(s)).fragments[k];
    FlushedReadsBack(cfg, Completed(s), k);
  }

  // ---- The client's steps ----

  lemma NextCallKeepsGoal(cfg: Config, s: System)
    requires s.pc == Ready && s.calls != []
    ensures EndsAt(cfg, NextCall(cfg, s)) == EndsAt(cfg, s)
  {
    hide Search, PlaceNew, File, MeaningOf;
    assert s.sent + [] == s.sent;
  }

  lemma SearchKeepsGoal(cfg: Config, s: System)
    requires s.pc.Searching?
    ensures EndsAt(cfg, SearchStep(cfg, s)) == EndsAt(cfg, s)
  {
    hide PlaceNew, File, MeaningOf, RunCalls;
  }

  lemma ReadKeepsGoal(cfg: Config, goal: Progress, s: System)
    requires ConfigOk(cfg) && WellOrdered(cfg, goal.sent) && SystemInv(cfg, goal, s) && s.pc.Reading?
    ensures EndsAt(cfg, ClientRuns(cfg, s)) == EndsAt(cfg, s)
  {
    hide PlaceNew, File, MeaningOf, RunCalls, WellOrdered, ReadFragment, Search, WriterOk, NothingLost, SleepOk;
    FragmentsReadBack(cfg, goal, s, s.pc.index.fragment);
  }

  lemma PlaceKeepsGoal(cfg: Config, s: System)
    requires s.pc.Placing?
    ensures EndsAt(cfg, PlaceStep(cfg, s)) == EndsAt(cfg, s)
  {
    hide RunCalls;
    assert s.sent + [] == s.sent;
    assert s.sent + [Fragment(s.client.current)] + [] == s.sent + [Fragment(s.client.current)];
  }

  lemma FinishKeepsGoal(cfg: Config, s: System)
    requires s.pc == Finishing && s.calls == []
    ensures EndsAt(cfg, ClientRuns(cfg, s)) == EndsAt(cfg, s)
  {
    assert s.sent + [] == s.sent;
  }

  /** Only the client's own fields, the queue and the history may change. */
  predicate WriterUntouched(s: System, t: System) {
    t.w == s.w && t.wpc == s.wpc && t.done == s.done && t.queue.bound == s.queue.bound
  }

  lemma PushKeepsAccount(cfg: Config, s: System, p: PendingWrite, next: System)
    requires NothingLost(s) && WriterOk(cfg, s)
    requires WriterUntouched(s, next) && next.queue == s.queue && next.sent == s.sent
    ensures var t := TryPush(s, p, next);
            NothingLost(t) && WriterOk(cfg, t) && WriterUntouched(s, t)
  {
    hide HandleAll;
  }

  lemma SentGrowsByOne(s: System, p: PendingWrite, next: System)
    requires |s.queue.items| < s.queue.bound
    ensures SentFragments(At(TryPush(s, p, next)))
         == SentFragments(At(s)) + if p.Fragment? then [p.data] else []
  {
    assert Init(s.sent + [p]) == s.sent;
  }

  /** The parts of the invariant that a client step must re-establish. */
  ghost predicate ClientSide(s: System) {
    ClientOk(s) && EndOk(s) && SleepOk(s)
  }

  lemma NextCallInv(cfg: Config, s: System)
    requires ClientSide(s) && NothingLost(s) && ClientCanRun(s) && s.pc == Ready && s.calls != []
    ensures ClientSide(NextCall(cfg, s))
  {
    hide MeaningOf;
    match s.calls[0]
    case PutTail(n, data) =>
    case PutBlock(n, data) =>
      if |s.queue.items| < s.queue.bound {
        SentGrowsByOne(s, Block(data, n), s.(calls := s.calls[1..]));
      }
    case PutDedup(n) =>
      if |s.queue.items| < s.queue.bound {
        SentGrowsByOne(s, Dedup(n), s.(calls := s.calls[1..]));
      }
  }

  lemma SearchInv(cfg: Config, s: System)
    requires ClientSide(s) && NothingLost(s) && ClientCanRun(s) && s.pc.Searching?
    ensures ClientSide(SearchStep(cfg, s))
  {
    hide MeaningOf, PrefixAt;
    if s.pc.candidates != [] {
      assert Last(s.pc.candidates) in s.pc.candidates;
    }
  }

  lemma ReadInv(cfg: Config, s: System)
    requires ClientSide(s) && NothingLost(s) && ClientCanRun(s) && s.pc.Reading?
    ensures ClientSide(ClientRuns(cfg, s))
  {
    hide MeaningOf, PrefixAt, ReadFragment;
  }

  lemma PlaceInv(cfg: Config, s: System)
    requires ClientSide(s) && NothingLost(s) && ClientCanRun(s) && s.pc.Placing?
    ensures ClientSide(PlaceStep(cfg, s))
  {
    hide MeaningOf;
    if NeedsFlush(cfg, s.client, s.pc.data) && |s.queue.items| < s.queue.bound {
      SentGrowsByOne(s, Fragment(s.client.current), s.(client := Flushed(s.client)));
    }
  }

  lemma FinishInv(cfg: Config, s: System)
    requires ClientSide(s) && NothingLost(s) && ClientCanRun(s) && s.pc == Finishing
    ensures ClientSide(ClientRuns(cfg, s))
  {
    hide MeaningOf;
    if |s.queue.items| < s.queue.bound {
      SentGrowsByOne(s, Fragment(s.client.current), s.(client := Flushed(s.client), pc := Closing));
    }
  }

  lemma OtherInv(cfg: Config, s: System)
    requires ClientSide(s) && NothingLost(s) && ClientCanRun(s)
    requires s.pc == Closing || s.pc == Joining || (s.pc == Ready && s.calls == [])
    ensures ClientSide(ClientRuns(cfg, s)) && NothingLost(ClientRuns(cfg, s))
    ensures EndsAt(cfg, ClientRuns(cfg, s)) == EndsAt(cfg, s)
  {
    hide MeaningOf;
  }

  lemma ClientStepInv(cfg: Config, goal: Progress, s: System)
    requires ConfigOk(cfg) && WellOrdered(cfg, goal.sent) && SystemInv(cfg, goal, s) && ClientCanRun(s)
    ensures SystemInv(cfg, goal, ClientRuns(cfg, s))
  {
    hide ClientOk, EndOk, SleepOk, EndsAt, WriterOk, NothingLost, WellOrdered;
    ClientStepAccount(cfg, s);
    match s.pc
    case Ready =>
      if s.calls == [] {
        OtherInv(cfg, s);
      } else {
        NextCallInv(cfg, s);
        NextCallKeepsGoal(cfg, s);
      }
    case Searching(_, _, _) =>
      SearchInv(cfg, s);
      SearchKeepsGoal(cfg, s);
    case Reading(_, _, _, _, _) =>
      ReadInv(cfg, s);
      ReadKeepsGoal(cfg, goal, s);
    case Placing(_, _) =>
      PlaceInv(cfg, s);
      PlaceKeepsGoal(cfg, s);
    case Finishing =>
      FinishedCalls(s);
      FinishInv(cfg, s);
      FinishKeepsGoal(cfg, s);
    case Closing => OtherInv(cfg, s);
    case Joining => OtherInv(cfg, s);
    case Done =>
  }

  lemma FinishedCalls(s: System)
    requires EndOk(s)
    ensures s.pc == Finishing ==> s.calls == []
  {
  }

  lemma ClientStepAccount(cfg: Config, s: System)
    requires NothingLost(s) && WriterOk(cfg, s)
    ensures NothingLost(ClientRuns(cfg, s)) && WriterOk(cfg, ClientRuns(cfg, s))
    ensures WriterUntouched(s, ClientRuns(cfg, s))
  {
    hide HandleAll, NothingLost, WriterOk, TryPush, Compare, ReadFragment;
    match s.pc
    case Ready =>
      if s.calls != [] {
        var next := s.(calls := s.calls[1..]);
        match s.calls[0]
        case PutTail(n, data) =>
          LocalStep(cfg, s, NextCall(cfg, s));
        case PutBlock(n, data) => PushKeepsAccount(cfg, s, Block(data, n), next);
        case PutDedup(n) =>
          PushKeepsAccount(cfg, s, Dedup(n), next);
          LocalStep(cfg, s, next);
      } else {
        LocalStep(cfg, s, ClientRuns(cfg, s));
      }
    case Searching(n, data, candidates) =>
      CompareIsLocal(s);
      LocalStep(cfg, s, ClientRuns(cfg, s));
    case Reading(_, _, _, _, _) =>
      CompareIsLocal(s);
      LocalStep(cfg, s, ClientRuns(cfg, s));
    case Placing(_, _) =>
      PushKeepsAccount(cfg, s, Fragment(s.client.current), s.(client := Flushed(s.client)));
      LocalStep(cfg, s, s.(client := Place(s.client, s.pc.n, s.pc.data), pc := Ready));
    case Finishing =>
      PushKeepsAccount(cfg, s, Fragment(s.client.current), s.(client := Flushed(s.client), pc := Closing));
      LocalStep(cfg, s, s.(pc := Closing));
    case _ =>
      LocalStep(cfg, s, ClientRuns(cfg, s));
  }

  lemma LocalStep(cfg: Config, s: System, t: System)
    requires NothingLost(s) && WriterOk(cfg, s)
    requires WriterUntouched(s, t) && t.queue.items == s.queue.items && t.sent == s.sent
    ensures NothingLost(t) && WriterOk(cfg, t)
  {
  }

  lemma CompareIsLocal(s: System)
    ensures forall n, data, rest, index, content ::
      var t := Compare(s, n, data, rest, index, content);
      WriterUntouched(s, t) && t.queue == s.queue && t.sent == s.sent
  {
  }

  // ---- The writer's steps ----

  /** The client's own fields and the history of pushes stay as they are. */
  predicate ClientUntouched(s: System, t: System) {
    t.client == s.client && t.pc == s.pc && t.calls == s.calls && t.sent == s.sent && t.queue.bound == s.queue.bound
  }

  lemma UntouchedClientEndsTheSame(cfg: Config, s: System, t: System)
    requires ClientUntouched(s, t)
    ensures EndsAt(cfg, t) == EndsAt(cfg, s)
  {
  }

  lemma PopInv(cfg: Config, s: System)
    requires NothingLost(s) && WriterOk(cfg, s) && ClientSide(s) && WriterCanRun(s) && s.wpc == Popping
    ensures NothingLost(PopStep(s)) && WriterOk(cfg, PopStep(s)) && ClientSide(PopStep(s))
    ensures ClientUntouched(s, PopStep(s))
  {
    hide MeaningOf, HandleAll;
    if s.queue.items != [] {
      assert s.queue.items == [s.queue.items[0]] + s.queue.items[1..];
    }
  }

  lemma HoldInv(cfg: Config, s: System)
    requires FileOk(s.w) && NothingLost(s) && WriterOk(cfg, s) && ClientSide(s) && s.wpc.Holding?
    ensures var t := WriterRuns(cfg, s);
            NothingLost(t) && WriterOk(cfg, t) && ClientSide(t) && ClientUntouched(s, t)
  {
    hide MeaningOf, WriteBytes, Stored, SizeWord, AppendBlock, DedupRun;
    var p := s.wpc.p;
    assert Init(s.done + [p]) == s.done;
    assert s.done + [p] + [] + s.queue.items == s.done + [p] + s.queue.items;
    HandleKeepsFragments(cfg, s.w, p);
  }

  lemma HandleKeepsFragments(cfg: Config, w: Writer, p: PendingWrite)
    requires FileOk(w)
    ensures !p.Fragment? ==> Handle(cfg, w, p).fragments == w.fragments
  {
  }

  lemma EnterInv(cfg: Config, s: System)
    requires FileOk(s.w) && NothingLost(s) && WriterOk(cfg, s) && ClientSide(s) && s.wpc.Entering?
    ensures var t := WriterRuns(cfg, s);
            NothingLost(t) && WriterOk(cfg, t) && ClientSide(t) && ClientUntouched(s, t)
  {
    hide MeaningOf, HandleAll;
    var p := Fragment(s.wpc.data);
    assert s.done + [p] + [] + s.queue.items == s.done + [p] + s.queue.items;
  }

  lemma WriterStepInv(cfg: Config, goal: Progress, s: System)
    requires FileOk(s.w) && SystemInv(cfg, goal, s) && WriterCanRun(s)
    ensures SystemInv(cfg, goal, WriterRuns(cfg, s))
  {
    hide NothingLost, WriterOk, ClientOk, EndOk, SleepOk, EndsAt;
    match s.wpc {
      case Popping => PopInv(cfg, s);
      case Holding(_) => HoldInv(cfg, s);
      case Entering(_, _) => EnterInv(cfg, s);
      case Exited =>
    }
    UntouchedClientEndsTheSame(cfg, s, WriterRuns(cfg, s));
  }

  // ---- Every schedule ----

  lemma ActInv(cfg: Config, goal: Progress, s: System, a: Actor)
    requires ConfigOk(cfg) && WellOrdered(cfg, goal.sent) && FileOk(s.w) && SystemInv(cfg, goal, s)
    ensures SystemInv(cfg, goal, Act(cfg, s, a))
  {
    hide NothingLost, WriterOk, ClientOk, EndOk, SleepOk, EndsAt, WellOrdered, WriterRuns, ClientRuns;
    match a
    case ClientActs =>
      if ClientCanRun(s) {
        ClientStepInv(cfg, goal, s);
      }
    case WriterActs =>
      if WriterCanRun(s) {
        WriterStepInv(cfg, goal, s);
      }
    case ClientStirs => StirInv(cfg, goal, s, a);
    case WriterStirs => StirInv(cfg, goal, s, a);
  }

  lemma StirInv(cfg: Config, goal: Progress, s: System, a: Actor)
    requires FileOk(s.w) && SystemInv(cfg, goal, s) && (a == ClientStirs || a == WriterStirs)
    ensures SystemInv(cfg, goal, Act(cfg, s, a))
  {
    hide MeaningOf, HandleAll, RunCalls;
  }

  /** The client's program run with nobody else around. */
  function Alone(cfg: Config, calls: seq<WriterCall>): Progress {
    Finish(RunCalls(cfg, NO_PROGRESS, calls))
  }

  lemma StartInv(cfg: Config, calls: seq<WriterCall>, bound: nat)
    requires 0 < bound
    ensures SystemInv(cfg, Alone(cfg, calls), Start(calls, bound))
  {
    hide RunCalls;
    assert [] + InHand(Popping) + [] == [];
  }

  lemma {:induction false} ReachableInv(cfg: Config, calls: seq<WriterCall>, bound: nat, schedule: seq<Actor>)
    requires ConfigOk(cfg) && WellOrdered(cfg, Alone(cfg, calls).sent) && 0 < bound
    ensures SystemInv(cfg, Alone(cfg, calls), Exec(cfg, Start(calls, bound), schedule))
  {
    hide SystemInv, Alone, WellOrdered, Act;
    StartInv(cfg, calls, bound);
    if schedule != [] {
      ReachableInv(cfg, calls, bound, Init(schedule));
      ActInv(cfg, Alone(cfg, calls), Exec(cfg, Start(calls, bound), Init(schedule)), Last(schedule));
    }
  }

  /** For any files, any queue bound and any schedule: when the client is done, the client's
      indices and fragments, the writes sent, and the file, fragment table and reports are
      those of the single thread, and nothing is left in the queue or in hand. */
  lemma ScheduleDoesNotMatter(cfg: Config, files: seq<FileData>, bound: nat, schedule: seq<Actor>)
    requires ConfigOk(cfg) && Distinct(files) && 0 < bound
    ensures var s := Exec(cfg, Start(AllCalls(cfg, files), bound), schedule);
            s.pc == Done ==>
              && s.client == Outcome(cfg, files).client
              && s.sent == Outcome(cfg, files).sent
              && s.w == HandleAll(cfg, Outcome(cfg, files).sent)
              && s.queue.items == [] && s.wpc == Exited
  {
    hide RunCalls, AllCalls, HandleAll, MeaningOf, ClientOk, WellOrdered, TailsHeld, FiledOk, Exec;
    OutcomeInv(cfg, files);
    ReachableInv(cfg, AllCalls(cfg, files), bound, schedule);
    var s := Exec(cfg, Start(AllCalls(cfg, files), bound), schedule);
    if s.pc == Done {
      assert s.done + [] + [] == s.done;
    }
  }

  /** At every moment of every schedule, fragments entered plus fragment writes still on their
      way add up to the client's fragment count. */
  lemma FragmentsAreConserved(cfg: Config, files: seq<FileData>, bound: nat, schedule: seq<Actor>)
    requires ConfigOk(cfg) && Distinct(files) && 0 < bound
    ensures var s := Exec(cfg, Start(AllCalls(cfg, files), bound), schedule);
            |s.w.fragments| + |FragmentsAmong(InHand(s.wpc) + s.queue.items)| == s.client.count
  {
    hide RunCalls, AllCalls, HandleAll, MeaningOf, WellOrdered, TailsHeld, FiledOk, Exec, EndsAt, SleepOk, EndOk;
    OutcomeInv(cfg, files);
    ReachableInv(cfg, AllCalls(cfg, files), bound, schedule);
    var s := Exec(cfg, Start(AllCalls(cfg, files), bound), schedule);
    EntriesCount(cfg, Outcome(cfg, files), s);
  }

  function FragmentsAmong(writes: seq<PendingWrite>): seq<Bytes> {
    if writes == [] then []
    else FragmentsAmong(Init(writes)) + if Last(writes).Fragment? then [Last(writes).data] else []
  }

  lemma {:induction false} MeaningCountsFragments(h: seq<PendingWrite>, more: seq<PendingWrite>)
    ensures MeaningOf(h + more).fragments == MeaningOf(h).fragments + FragmentsAmong(more)
    decreases |more|
  {
    if more == [] {
      assert h + more == h;
    } else {
      assert Init(h + more) == h + Init(more);
      MeaningCountsFragments(h, Init(more));
    }
  }

  lemma EntriesCount(cfg: Config, goal: Progress, s: System)
    requires ConfigOk(cfg) && WellOrdered(cfg, goal.sent) && SystemInv(cfg, goal, s)
    ensures |s.w.fragments| + |FragmentsAmong(InHand(s.wpc) + s.queue.items)| == s.client.count
  {
    hide HandleAll, WellOrdered, SleepOk, EndOk, FragmentsAmong, MeaningOf, EndsAt;
    CompletedOrdered(cfg, goal, s);
    EntryCount(cfg, Completed(s));
    assert s.done + [] == s.done;
    assert s.sent == s.done + (InHand(s.wpc) + s.queue.items);
    MeaningCountsFragments(s.done, InHand(s.wpc) + s.queue.items);
    if s.wpc.Entering? {
      SentOne(cfg, s.done, Fragment(s.wpc.data));
    }
  }

  // ---- Deadlock freedom ----

  /** Until the client is done, one of the threads can run. */
  lemma SomeoneCanRun(cfg: Config, goal: Progress, s: System)
    requires ConfigOk(cfg) && WellOrdered(cfg, goal.sent) && SystemInv(cfg, goal, s) && s.pc != Done
    ensures ClientCanRun(s) || WriterCanRun(s)
  {
    hide HandleAll, WellOrdered, MeaningOf, EndsAt;
    EntriesCount(cfg, goal, s);
    assert [] + s.queue.items == s.queue.items;
    if s.queue.popperSleeps {
      assert FragmentsAmong([]) == [];
    }
  }
}
