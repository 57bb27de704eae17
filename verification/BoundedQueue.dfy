/** The bounded FIFO between the two threads. Each operation is one critical section: it
    tests its wait predicate, and either takes effect and notifies, or goes to sleep until
    it is notified. One thread pushes and one thread pops. */
module BoundedQueue {
  datatype QueueState<T> = QueueState(
    items: seq<T>,
    bound: nat,
    finished: bool,
    pusherSleeps: bool,
    popperSleeps: bool)

  datatype PopResult<T> = Popped(item: T) | Ended | Asleep

  function Push<T>(q: QueueState<T>, e: T): QueueState<T> {
    if |q.items| < q.bound then q.(items := q.items + [e], pusherSleeps := false, popperSleeps := false)
    else q.(pusherSleeps := true)
  }

  function Pop<T>(q: QueueState<T>): (QueueState<T>, PopResult<T>) {
    if !q.finished && q.items == [] then (q.(popperSleeps := true), Asleep)
    else if q.items == [] then (q.(popperSleeps := false), Ended)
    else (q.(items := q.items[1..], pusherSleeps := false, popperSleeps := false), Popped(q.items[0]))
  }

  function Close<T>(q: QueueState<T>): QueueState<T> {
    q.(finished := true, popperSleeps := false)
  }

  /** Nobody sleeps while what it waits for holds. */
  predicate NoLostWakeup<T>(q: QueueState<T>) {
    && (q.pusherSleeps ==> |q.items| >= q.bound)
    && (q.popperSleeps ==> !q.finished && q.items == [])
  }

  lemma SectionsKeepWakeups<T>(q: QueueState<T>, e: T)
    requires NoLostWakeup(q)
    ensures NoLostWakeup(Push(q, e)) && NoLostWakeup(Pop(q).0) && NoLostWakeup(Close(q))
    ensures |q.items| <= q.bound ==> |Push(q, e).items| <= q.bound
  {
  }

  /** Ghost fields keep what went in and what came out. */
  class BoundedWorkQueue<T> {
    var finished: bool
    const bound: nat
    var queue: seq<T>
    var pusherSleeps: bool
    var popperSleeps: bool
    ghost var sent: seq<T>
    ghost var received: seq<T>

    function State(): QueueState<T>
      reads this
    {
      QueueState(queue, bound, finished, pusherSleeps, popperSleeps)
    }

    /** First in, first out, nothing lost or made up; never too full; nobody sleeps in vain. */
    ghost predicate Valid()
      reads this
    {
      sent == received + queue && |queue| <= bound && NoLostWakeup(State())
    }

    constructor (bound: nat)
      ensures Valid() && this.bound == bound && sent == [] && received == [] && !finished
    {
      this.bound := bound;
      finished, queue, pusherSleeps, popperSleeps := false, [], false, false;
      sent, received := [], [];
    }

    /** One try to push: it fails exactly when as many elements as fit are on their way, and then
        the caller sleeps; else the element is the next to be received after those. */
    method PushSection(e: T) returns (pushed: bool)
      requires Valid()
      modifies this
      ensures Valid() && State() == Push(old(State()), e) && received == old(received)
      ensures pushed <==> |old(sent)| - |old(received)| < bound
      ensures sent == (if pushed then old(sent) + [e] else old(sent))
      ensures pusherSleeps == !pushed && (pushed ==> !popperSleeps)
    {
      if !(|queue| < bound) {
        pusherSleeps := true;
        return false;
      }
      pusherSleeps := false;
      queue := queue + [e];
      sent := sent + [e];
      popperSleeps := false;
      pushed := true;
    }

    /** One try to pop: the oldest element not yet received; the end exactly when the queue is
        finished and all that was sent is received; else the caller sleeps. */
    method PopSection() returns (result: PopResult<T>)
      requires Valid()
      modifies this
      ensures Valid() && (State(), result) == Pop(old(State())) && sent == old(sent)
      ensures result.Popped? <==> |old(received)| < |sent|
      ensures result.Popped? ==> received == old(received) + [result.item] && received <= sent && !pusherSleeps
      ensures !result.Popped? ==> received == old(received) == sent
      ensures result.Ended? <==> old(finished) && old(received) == sent
      ensures result.Asleep? <==> popperSleeps
    {
      if !(finished || queue != []) {
        popperSleeps := true;
        return Asleep;
      }
      popperSleeps := false;
      if queue == [] {
        return Ended;
      }
      var e := queue[0];
      assert queue == [e] + queue[1..];
      queue := queue[1..];
      received := received + [e];
      pusherSleeps := false;
      result := Popped(e);
    }

    /** Whoever waits for elements wakes up; what is on its way stays on its way. */
    method FinishSection()
      requires Valid()
      modifies this
      ensures Valid() && State() == Close(old(State())) && sent == old(sent) && received == old(received)
      ensures finished && !popperSleeps
    {
      finished := true;
      popperSleeps := false;
    }
  }
}
