/** The client thread and the writer thread as a state machine: every step is one critical
    section, and a schedule may interleave them in any way. */
module TwoThreads {
  import opened SquashDefs
  import opened Compressors
  import opened PendingWrites
  import opened Fragments
  import opened BoundedQueue

  /** Where the client is. `Searching` holds the candidates still to look at, latest last;
      `Reading` has taken a fragment's entry and has yet to read its bytes. */
  datatype ClientPc =
    | Ready
    | Searching(n: nat, data: Bytes, candidates: seq<nat>)
    | Reading(n: nat, data: Bytes, candidates: seq<nat>, index: FragmentIndex, entry: FragmentEntry)
    | Placing(n: nat, data: Bytes)
    | Finishing
    | Closing
    | Joining
    | Done

  /** Where the writer is. Between writing a fragment and entering it in the table there is a
      moment when the file has it and the table does not. */
  datatype WriterPc =
    | Popping
    | Holding(p: PendingWrite)
    | Entering(data: Bytes, entry: FragmentEntry)
    | Exited

  /** `fragmentSleep`: the client sleeps until the fragment table grows. `sent` and `done` are
      the writes pushed and completed so far. */
  datatype System = System(
    client: Client,
    pc: ClientPc,
    calls: seq<WriterCall>,
    fragmentSleep: bool,
    queue: QueueState<PendingWrite>,
    w: Writer,
    wpc: WriterPc,
    sent: seq<PendingWrite>,
    done: seq<PendingWrite>)

  function Start(calls: seq<WriterCall>, bound: nat): (s: System)
    ensures FileOk(s.w)
  {
    System(INITIAL_CLIENT, Ready, calls, false, QueueState([], bound, false, false, false),
           INITIAL_WRITER, Popping, [], [])
  }

  // ---- The client ----

  /** Push `p` and go on as `next`, or sleep. */
  function TryPush(s: System, p: PendingWrite, next: System): System {
    if |s.queue.items| < s.queue.bound then
      next.(queue := Push(s.queue, p), sent := s.sent + [p])
    else
      s.(queue := Push(s.queue, p))
  }

  /** Take the place if it holds the tail, else look at the next candidate. */
  function Compare(s: System, n: nat, data: Bytes, rest: seq<nat>, index: FragmentIndex, content: Bytes): System {
    if PrefixAt(data, content, index.offset) then
      s.(client := s.client.(indices := s.client.indices[n := index]), pc := Ready)
    else
      s.(pc := Searching(n, data, rest))
  }

  function ReadFragment(cfg: Config, w: Writer, e: FragmentEntry): Bytes {
    Unblock(cfg.comp, Slice(w.file.bytes, e.start, WordLen(e.size)), e.size, cfg.blockSize)
  }

  function NextCall(cfg: Config, s: System): System
    requires s.calls != []
  {
    var next := s.(calls := s.calls[1..]);
    match s.calls[0]
    case PutTail(n, data) =>
      next.(pc := if cfg.dedup then Searching(n, data, Candidates(s.client, cfg.cksum(data))) else Placing(n, data))
    case PutBlock(n, data) => TryPush(s, Block(data, n), next)
    case PutDedup(n) => if cfg.dedup then TryPush(s, Dedup(n), next) else next
  }

  function SearchStep(cfg: Config, s: System): System
    requires s.pc.Searching?
  {
    var Searching(n, data, candidates) := s.pc;
    if candidates == [] then
      s.(client := File(cfg, s.client, n, data), pc := Placing(n, data))
    else
      var index := IndexOf(s.client, Last(candidates));
      if index.fragment == s.client.count then
        Compare(s, n, data, Init(candidates), index, s.client.current)
      else if index.fragment < |s.w.fragments| then
        s.(pc := Reading(n, data, Init(candidates), index, s.w.fragments[index.fragment]))
      else
        s.(fragmentSleep := true)
  }

  function PlaceStep(cfg: Config, s: System): System
    requires s.pc.Placing?
  {
    if NeedsFlush(cfg, s.client, s.pc.data) then
      TryPush(s, Fragment(s.client.current), s.(client := Flushed(s.client)))
    else
      s.(client := Place(s.client, s.pc.n, s.pc.data), pc := Ready)
  }

  function ClientRuns(cfg: Config, s: System): System {
    match s.pc
    case Ready => if s.calls == [] then s.(pc := Finishing) else NextCall(cfg, s)
    case Searching(_, _, _) => SearchStep(cfg, s)
    case Reading(n, data, rest, index, e) => Compare(s, n, data, rest, index, ReadFragment(cfg, s.w, e))
    case Placing(_, _) => PlaceStep(cfg, s)
    case Finishing =>
      if s.client.current == [] then s.(pc := Closing)
      else TryPush(s, Fragment(s.client.current), s.(client := Flushed(s.client), pc := Closing))
    case Closing => s.(queue := Close(s.queue), pc := Joining)
    case Joining => s.(pc := Done)
    case Done => s
  }

  predicate ClientCanRun(s: System) {
    && !s.queue.pusherSleeps && !s.fragmentSleep
    && s.pc != Done && (s.pc == Joining ==> s.wpc == Exited)
  }

  // ---- The writer ----

  function PopStep(s: System): System {
    var (q, r) := Pop(s.queue);
    match r
    case Popped(p) => s.(queue := q, wpc := Holding(p))
    case Ended => s.(queue := q, wpc := Exited)
    case Asleep => s.(queue := q)
  }

  function WriterRuns(cfg: Config, s: System): System
    requires FileOk(s.w)
  {
    match s.wpc
    case Popping => PopStep(s)
    case Holding(p) =>
      if p.Fragment? then
        s.(w := s.w.(file := WriteBytes(s.w.file, Stored(cfg.comp, p.data))),
           wpc := Entering(p.data, FragmentEntry(s.w.file.pos, SizeWord(cfg.comp, p.data))))
      else
        s.(w := Handle(cfg, s.w, p), wpc := Popping, done := s.done + [p])
    case Entering(data, e) =>
      s.(w := s.w.(fragments := s.w.fragments + [e]), wpc := Popping, done := s.done + [Fragment(data)],
         fragmentSleep := false)
    case Exited => s
  }

  predicate WriterCanRun(s: System) {
    !s.queue.popperSleeps && s.wpc != Exited
  }

  // ---- Schedules ----

  /** Besides running, a sleeping thread may wake for no reason and test its predicate again. */
  datatype Actor = ClientActs | WriterActs | ClientStirs | WriterStirs

  function Act(cfg: Config, s: System, a: Actor): (t: System)
    requires FileOk(s.w)
    ensures FileOk(t.w)
  {
    match a
    case ClientActs => if ClientCanRun(s) then ClientRuns(cfg, s) else s
    case WriterActs => if WriterCanRun(s) then WriterRuns(cfg, s) else s
    case ClientStirs => s.(fragmentSleep := false, queue := s.queue.(pusherSleeps := false))
    case WriterStirs => s.(queue := s.queue.(popperSleeps := false))
  }

  function Exec(cfg: Config, s: System, schedule: seq<Actor>): (t: System)
    requires FileOk(s.w)
    ensures FileOk(t.w)
  {
    if schedule == [] then s else Act(cfg, Exec(cfg, s, Init(schedule)), Last(schedule))
  }
}
