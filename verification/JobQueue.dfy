/** The scorer server's bounded FIFO: submissions, starts and completions. */
module JobQueue {
  import opened Sums

  /** The queue seen from outside: tickets are positions in `accepted`. */
  datatype QueueState<Job> = QueueState(accepted: seq<Job>, started: nat, finished: set<nat>, depth: nat, slots: nat)
  {
    function Waiting(): int
    {
      |accepted| - started
    }

    function Active(): int
    {
      started - |finished|
    }

    /** Accepted jobs whose run has not finished. */
    function Outstanding(): int
    {
      |accepted| - |finished|
    }
  }

  ghost predicate Inv<Job>(q: QueueState<Job>)
  {
    && q.slots >= 1
    && q.started <= |q.accepted|
    && (forall t :: t in q.finished ==> t < q.started)
    && 0 <= q.Active() <= q.slots
    && q.Waiting() <= q.depth
    && (q.Waiting() > 0 ==> q.Active() == q.slots)
  }

  /** As many waiting jobs start, in order, as there are free slots. */
  function Drained<Job>(q: QueueState<Job>): QueueState<Job>
  {
    q.(started := Max(q.started, Min(|q.accepted|, |q.finished| + q.slots)))
  }

  function Submit<Job>(q: QueueState<Job>, job: Job): QueueState<Job>
  {
    if q.Waiting() >= q.depth then q else Drained(q.(accepted := q.accepted + [job]))
  }

  function Finish<Job>(q: QueueState<Job>, ticket: nat): QueueState<Job>
  {
    Drained(q.(finished := q.finished + {ticket}))
  }

  predicate Running<Job>(q: QueueState<Job>, ticket: nat)
  {
    ticket < q.started && ticket !in q.finished
  }

  function Empty<Job>(depth: nat, slots: nat): QueueState<Job>
  {
    QueueState([], 0, {}, depth, slots)
  }

  /** The tickets below `n`. */
  function Tickets(n: nat): (s: set<nat>)
    ensures |s| == n && forall t: nat :: t in s <==> t < n
  {
    if n == 0 then {} else Tickets(n - 1) + {n - 1}
  }

  lemma {:induction false} SubsetSize(a: set<nat>, b: set<nat>)
    requires a <= b
    ensures |a| <= |b|
  {
    if a != {} {
      var x :| x in a;
      SubsetSize(a - {x}, b - {x});
    }
  }

  lemma SubmitKeepsInv<Job>(q: QueueState<Job>, job: Job)
    requires Inv(q)
    ensures Inv(Submit(q, job))
  {
  }

  lemma FinishKeepsInv<Job>(q: QueueState<Job>, ticket: nat)
    requires Inv(q) && Running(q, ticket)
    ensures Inv(Finish(q, ticket))
    ensures Finish(q, ticket).Outstanding() == q.Outstanding() - 1
  {
    assert |q.finished + {ticket}| == |q.finished| + 1;
    SubsetSize(q.finished + {ticket}, Tickets(q.started));
  }

  // ---- the object ------------------------------------------------------------------------

  class ScorerJobQueue<Job> {
    const maxQueueDepth: nat
    const concurrency: nat
    var queue: seq<Job>
    var active: nat
    /** Every job the queue took, and the jobs `run` was called with, in the order of the calls. */
    ghost var accepted: seq<Job>
    ghost var runs: seq<Job>
    ghost var finished: set<nat>

    ghost function State(): QueueState<Job>
      reads this
    {
      QueueState(accepted, |runs|, finished, maxQueueDepth, concurrency)
    }

    /** Between events: each accepted job has run once, in order, or waits. */
    ghost predicate Valid()
      reads this
    {
      Linked() && Inv(State())
    }

    ghost predicate Linked()
      reads this
    {
      accepted == runs + queue && active == State().Active() && concurrency >= 1
    }

    constructor (depth: int, slots: int)
      ensures Valid() && State() == Empty(if depth < 0 then 0 else depth, if slots < 1 then 1 else slots)
    {
      maxQueueDepth := if depth < 0 then 0 else depth;
      concurrency := if slots < 1 then 1 else slots;
      queue, active := [], 0;
      accepted, runs, finished := [], [], {};
    }

    /** Starts waiting jobs while a slot is free. */
    method Drain()
      requires Linked() && active <= concurrency
      modifies `queue, `active, `runs
      ensures Linked() && State() == Drained(old(State()))
    {
      while active < concurrency && |queue| > 0
        invariant Linked()
        invariant |runs| >= |old(runs)|
        invariant active <= concurrency
        decreases |queue|
      {
        var item := queue[0];
        queue := queue[1..];
        active := active + 1;
        runs := runs + [item];
      }
    }

    /** A submission: refused when `maxQueueDepth` jobs wait, else queued and drained. */
    method Enqueue(job: Job) returns (taken: bool)
      requires Valid()
      modifies `queue, `active, `runs, `accepted
      ensures Valid() && State() == Submit(old(State()), job)
      ensures taken <==> old(State().Waiting()) < maxQueueDepth
      ensures taken ==> accepted == old(accepted) + [job]
    {
      SubmitKeepsInv(State(), job);
      if |queue| >= maxQueueDepth {
        return false;
      }
      queue := queue + [job];
      accepted := accepted + [job];
      Drain();
      return true;
    }

    /** The completion handler of one run. */
    method Complete(ghost ticket: nat)
      requires Valid() && Running(State(), ticket)
      modifies `queue, `active, `runs, `finished
      ensures Valid() && State() == Finish(old(State()), ticket)
    {
      FinishKeepsInv(State(), ticket);
      assert |finished + {ticket}| == |finished| + 1;
      active := active - 1;
      finished := finished + {ticket};
      Drain();
    }
  }

  // ---- every run of the queue ------------------------------------------------------------

  datatype Event<Job> = Submitted(job: Job) | Done(ticket: nat)

  function Apply<Job>(q: QueueState<Job>, e: Event<Job>): QueueState<Job>
  {
    match e
    case Submitted(job) => Submit(q, job)
    case Done(ticket) => Finish(q, ticket)
  }

  predicate Possible<Job>(q: QueueState<Job>, e: Event<Job>)
  {
    e.Done? ==> Running(q, e.ticket)
  }

  /** A sequence of events in which only running jobs complete. */
  predicate PossibleRun<Job>(q: QueueState<Job>, es: seq<Event<Job>>)
    decreases |es|
  {
    es == [] || (Possible(q, es[0]) && PossibleRun(Apply(q, es[0]), es[1..]))
  }

  function ApplyAll<Job>(q: QueueState<Job>, es: seq<Event<Job>>): QueueState<Job>
    decreases |es|
  {
    if es == [] then q else ApplyAll(Apply(q, es[0]), es[1..])
  }

  /** The jobs that get in, in order. */
  function AcceptedIn<Job>(q: QueueState<Job>, es: seq<Event<Job>>): seq<Job>
    decreases |es|
  {
    if es == [] then [] else AcceptedBy(q, es[0]) + AcceptedIn(Apply(q, es[0]), es[1..])
  }

  function AcceptedBy<Job>(q: QueueState<Job>, e: Event<Job>): seq<Job>
  {
    if e.Submitted? && q.Waiting() < q.depth then [e.job] else []
  }

  lemma EventStep<Job>(q: QueueState<Job>, e: Event<Job>)
    requires Inv(q) && Possible(q, e)
    ensures var r := Apply(q, e);
            && Inv(r) && r.depth == q.depth && r.slots == q.slots
            && r.accepted == q.accepted + AcceptedBy(q, e)
            && q.started <= r.started && q.finished <= r.finished
  {
    match e {
      case Submitted(job) => SubmitKeepsInv(q, job);
      case Done(ticket) => FinishKeepsInv(q, ticket);
    }
  }

  /**
   * Over every run: the limits hold, nothing waits beside a free slot, what was accepted is
   * exactly what was submitted in time, in order, and starts and completions only grow.
   */
  lemma {:induction false} RunSafe<Job>(q: QueueState<Job>, es: seq<Event<Job>>)
    requires Inv(q) && PossibleRun(q, es)
    ensures var r := ApplyAll(q, es);
            && Inv(r) && r.depth == q.depth && r.slots == q.slots
            && r.accepted == q.accepted + AcceptedIn(q, es)
            && q.started <= r.started && q.finished <= r.finished
    decreases |es|
  {
    if es != [] {
      EventStep(q, es[0]);
      RunSafe(Apply(q, es[0]), es[1..]);
    }
  }

  /** While anything is outstanding some job is running, so the queue can always move. */
  lemma NeverStuck<Job>(q: QueueState<Job>)
    requires Inv(q) && q.Outstanding() > 0
    ensures exists t :: Running(q, t)
  {
    var all := Tickets(q.started);
    if forall t :: t in all ==> t in q.finished {
      SubsetSize(all, q.finished);
      assert false;
    }
    var t :| t in all && t !in q.finished;
    assert Running(q, t);
  }

  /** Each completion lowers what is outstanding; as many as were outstanding leave nothing behind. */
  lemma {:induction false} CompletionsDrain<Job>(q: QueueState<Job>, es: seq<Event<Job>>)
    requires Inv(q) && PossibleRun(q, es)
    requires forall k :: 0 <= k < |es| ==> es[k].Done?
    ensures ApplyAll(q, es).Outstanding() == q.Outstanding() - |es|
    ensures |es| == q.Outstanding() ==>
              var r := ApplyAll(q, es);
              r.started == |r.accepted| && r.accepted == q.accepted
              && r.finished == Tickets(|q.accepted|)
    decreases |es|
  {
    RunSafe(q, es);
    if es != [] {
      FinishKeepsInv(q, es[0].ticket);
      CompletionsDrain(Finish(q, es[0].ticket), es[1..]);
    } else if q.Outstanding() == 0 {
      var all := Tickets(|q.accepted|);
      SubsetEqual(q.finished, all);
    }
  }

  lemma SubsetEqual(a: set<nat>, b: set<nat>)
    requires a <= b && |a| == |b|
    ensures a == b
  {
    if x :| x in b && x !in a {
      SubsetSize(a, b - {x});
    }
  }

  /**
   * A submission is refused with a slot free only when the queue was configured with no waiting
   * room at all; such a queue refuses everything.
   */
  lemma IdleRefusalIff<Job>(q: QueueState<Job>, job: Job)
    requires Inv(q) && q.Active() < q.slots
    ensures Submit(q, job) == q <==> q.depth == 0
  {
    assert q.Waiting() == 0;
    assert |q.accepted + [job]| == |q.accepted| + 1;
  }

  lemma {:induction false} NoRoomRefusesAll<Job>(q: QueueState<Job>, es: seq<Event<Job>>)
    requires Inv(q) && q.depth == 0 && PossibleRun(q, es)
    ensures AcceptedIn(q, es) == []
    decreases |es|
  {
    if es != [] {
      EventStep(q, es[0]);
      NoRoomRefusesAll(Apply(q, es[0]), es[1..]);
    }
  }
}
