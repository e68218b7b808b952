/** Admission and shedding: many reader threads, two lock-free counters, one bounded
    queue and one worker, interleaved one atomic access at a time. */
module Admission {
  import opened Core

  datatype Config = Config(readers: nat, budget: nat, capacity: nat)

  datatype Job = Job(thread: int, bytes: nat)

  /** What became of a selection. */
  datatype Outcome = Queued | Shed | Closed | Unread

  /** A job that still holds its permit is dropped for one of two reasons. */
  type Refusal = o: Outcome | o == Shed || o == Closed witness Shed

  /** Where a reader thread stands. A loaded value may be stale by the time it is used. */
  datatype Phase =
    | Selected
    | GateLoaded(seen: int)
    | Reading
    | Offering(bytes: nat)
    | BudgetLoaded(bytes: nat, seen: int)
    | Starved(bytes: nat)
    | Holding(bytes: nat)
    | Full(bytes: nat)
    | Dropping(bytes: nat, refusal: Refusal)
    | Leaving(outcome: Outcome)
    | Ended(outcome: Outcome)

  datatype State = State(
    active: int,
    used: int,
    queue: seq<Job>,
    working: Option<Job>,
    closed: bool,
    threads: map<int, Phase>,
    // Histories, for stating order.
    sent: seq<Job>,
    consumed: seq<Job>,
    discarded: seq<Job>)

  const START: State := State(0, 0, [], None, false, map[], [], [], [])

  /** The atomic accesses of a thread, and the steps of the worker. */
  datatype Action =
    | Select(t: int)
    | LoadGate(t: int)
    | GateCas(t: int, spurious: bool)
    | Drained(t: int, bytes: nat)
    | DrainedNothing(t: int)
    | LoadBudget(t: int)
    | BudgetCas(t: int, spurious: bool)
    | TrySend(t: int)
    | Retry(t: int)
    | GiveUp(t: int)
    | DropPermit(t: int)
    | Leave(t: int)
    | Receive
    | Finish
    | WorkerDies
    | Discard

  predicate Enabled(s: State, a: Action) {
    match a
    case Select(t) => t !in s.threads
    case LoadGate(t) => t in s.threads && s.threads[t].Selected?
    case GateCas(t, _) => t in s.threads && s.threads[t].GateLoaded?
    case Drained(t, _) => t in s.threads && s.threads[t].Reading?
    case DrainedNothing(t) => t in s.threads && s.threads[t].Reading?
    case LoadBudget(t) => t in s.threads && s.threads[t].Offering?
    case BudgetCas(t, _) => t in s.threads && s.threads[t].BudgetLoaded?
    case TrySend(t) => t in s.threads && s.threads[t].Holding?
    case Retry(t) => t in s.threads && (s.threads[t].Starved? || s.threads[t].Full?)
    case GiveUp(t) => t in s.threads && (s.threads[t].Starved? || s.threads[t].Full?)
    case DropPermit(t) => t in s.threads && s.threads[t].Dropping?
    case Leave(t) => t in s.threads && s.threads[t].Leaving?
    case Receive => !s.closed && s.working == None && s.queue != []
    case Finish => !s.closed && s.working.Some?
    case WorkerDies => !s.closed
    case Discard => s.closed && (s.working.Some? || s.queue != [])
  }

  function Goto(s: State, t: int, p: Phase): State {
    s.(threads := s.threads[t := p])
  }

  /** `ReaderGate::try_acquire` after a load: refuse, swap, or reload on failure. */
  function GateStep(c: Config, s: State, t: int, spurious: bool): State
    requires t in s.threads && s.threads[t].GateLoaded?
  {
    var seen := s.threads[t].seen;
    if seen >= c.readers then Goto(s, t, Ended(Shed))
    else if s.active == seen && !spurious then Goto(s.(active := seen + 1), t, Reading)
    else Goto(s, t, GateLoaded(s.active))
  }

  /** `ByteBudget::try_reserve` after a load; `checked_add` and the limit in one test. */
  function BudgetStep(c: Config, s: State, t: int, spurious: bool): State
    requires t in s.threads && s.threads[t].BudgetLoaded?
  {
    var BudgetLoaded(bytes, seen) := s.threads[t];
    if seen + bytes >= TWO64 || seen + bytes > c.budget then Goto(s, t, Starved(bytes))
    else if s.used == seen && !spurious then Goto(s.(used := seen + bytes), t, Holding(bytes))
    else Goto(s, t, BudgetLoaded(bytes, s.used))
  }

  function SendStep(c: Config, s: State, t: int): State
    requires t in s.threads && s.threads[t].Holding?
  {
    var bytes := s.threads[t].bytes;
    if s.closed then Goto(s, t, Dropping(bytes, Closed))
    else if |s.queue| >= c.capacity then Goto(s, t, Full(bytes))
    else
      var job := Job(t, bytes);
      Goto(s.(queue := s.queue + [job], sent := s.sent + [job]), t, Leaving(Queued))
  }

  /** A dead worker's job and queue are dropped one permit at a time, oldest first. */
  function DiscardStep(s: State): State
    requires s.working.Some? || s.queue != []
  {
    if s.working.Some? then
      s.(working := None, used := s.used - s.working.value.bytes, discarded := s.discarded + [s.working.value])
    else
      s.(queue := s.queue[1..], used := s.used - s.queue[0].bytes, discarded := s.discarded + [s.queue[0]])
  }

  function Apply(c: Config, s: State, a: Action): State
    requires Enabled(s, a)
  {
    match a
    case Select(t) => Goto(s, t, Selected)
    case LoadGate(t) => Goto(s, t, GateLoaded(s.active))
    case GateCas(t, spurious) => GateStep(c, s, t, spurious)
    case Drained(t, bytes) => Goto(s, t, if bytes > c.budget then Leaving(Shed) else Offering(bytes))
    case DrainedNothing(t) => Goto(s, t, Leaving(Unread))
    case LoadBudget(t) => Goto(s, t, BudgetLoaded(s.threads[t].bytes, s.used))
    case BudgetCas(t, spurious) => BudgetStep(c, s, t, spurious)
    case TrySend(t) => SendStep(c, s, t)
    case Retry(t) =>
      var bytes := s.threads[t].bytes;
      Goto(s, t, if s.threads[t].Starved? then Offering(bytes) else Holding(bytes))
    case GiveUp(t) =>
      Goto(s, t, if s.threads[t].Starved? then Leaving(Shed) else Dropping(s.threads[t].bytes, Shed))
    case DropPermit(t) =>
      Goto(s.(used := s.used - s.threads[t].bytes), t, Leaving(s.threads[t].refusal))
    case Leave(t) => Goto(s.(active := s.active - 1), t, Ended(s.threads[t].outcome))
    case Receive => s.(working := Some(s.queue[0]), queue := s.queue[1..])
    case Finish =>
      s.(working := None, used := s.used - s.working.value.bytes, consumed := s.consumed + [s.working.value])
    case WorkerDies => s.(closed := true)
    case Discard => DiscardStep(s)
  }

  // --- Ledger ---

  /** Bytes a thread's own permit reserves. */
  function Reserved(p: Phase): nat {
    match p
    case Holding(b) => b
    case Full(b) => b
    case Dropping(b, _) => b
    case _ => 0
  }

  /** Whether a thread holds a gate permit. */
  function Admitted(p: Phase): nat {
    if p.Selected? || p.GateLoaded? || p.Ended? then 0 else 1
  }

  ghost function ReservedBy(threads: map<int, Phase>): map<int, nat> {
    map t | t in threads :: Reserved(threads[t])
  }

  ghost function AdmittedBy(threads: map<int, Phase>): map<int, nat> {
    map t | t in threads :: Admitted(threads[t])
  }

  function QueuedBytes(queue: seq<Job>): nat {
    if queue == [] then 0 else queue[0].bytes + QueuedBytes(queue[1..])
  }

  function InWork(s: State): seq<Job> {
    if s.working.Some? then [s.working.value] else []
  }

  /** Jobs accepted and not yet dropped, oldest first. */
  function Pending(s: State): seq<Job> {
    InWork(s) + s.queue
  }

  predicate Accepted(p: Phase) {
    (p.Leaving? || p.Ended?) && p.outcome == Queued
  }

  /** Each counter equals the sum of its live permits and respects its limit (so it
      never underflows or wraps). */
  ghost predicate Balanced(c: Config, s: State) {
    GateBalanced(c, s) && BudgetBalanced(c, s)
  }

  ghost predicate GateBalanced(c: Config, s: State) {
    s.active == Total(AdmittedBy(s.threads)) && s.active <= c.readers
  }

  ghost predicate BudgetBalanced(c: Config, s: State) {
    s.used == Total(ReservedBy(s.threads)) + QueuedBytes(Pending(s)) && s.used <= c.budget
  }

  /** The queue respects its capacity, and everything sent is consumed, dropped with a
      dead worker, or pending, in the order it was sent. */
  ghost predicate Ordered(c: Config, s: State) {
    && |s.queue| <= c.capacity
    && s.sent == s.consumed + s.discarded + Pending(s)
    && (!s.closed ==> s.discarded == [])
  }

  /** Exactly the threads whose outcome is `Queued` have sent, and each once. */
  ghost predicate SentOnce(threads: map<int, Phase>, sent: seq<Job>) {
    && (forall i | 0 <= i < |sent| :: sent[i].thread in threads && Accepted(threads[sent[i].thread]))
    && (forall t | t in threads && Accepted(threads[t]) :: exists i :: 0 <= i < |sent| && sent[i].thread == t)
    && (forall i, j | 0 <= i < j < |sent| :: sent[i].thread != sent[j].thread)
  }

  ghost predicate Inv(c: Config, s: State) {
    Balanced(c, s) && Ordered(c, s) && SentOnce(s.threads, s.sent)
  }

  // --- One step ---

  lemma MoveReserved(threads: map<int, Phase>, t: int, p: Phase)
    ensures Total(ReservedBy(threads[t := p])) ==
      Total(ReservedBy(threads)) + Reserved(p) - if t in threads then Reserved(threads[t]) else 0
  {
    TotalUpdate(ReservedBy(threads), t, Reserved(p));
    assert ReservedBy(threads)[t := Reserved(p)] == ReservedBy(threads[t := p]);
  }

  lemma MoveAdmitted(threads: map<int, Phase>, t: int, p: Phase)
    ensures Total(AdmittedBy(threads[t := p])) ==
      Total(AdmittedBy(threads)) + Admitted(p) - if t in threads then Admitted(threads[t]) else 0
  {
    TotalUpdate(AdmittedBy(threads), t, Admitted(p));
    assert AdmittedBy(threads)[t := Admitted(p)] == AdmittedBy(threads[t := p]);
  }

  lemma {:induction false} QueuedBytesAppends(a: seq<Job>, b: seq<Job>)
    ensures QueuedBytes(a + b) == QueuedBytes(a) + QueuedBytes(b)
  {
    if a == [] {
      assert a + b == b;
    } else {
      QueuedBytesAppends(a[1..], b);
      assert (a + b)[0] == a[0] && (a + b)[1..] == a[1..] + b;
    }
  }

  predicate ByWorker(a: Action) {
    a.Receive? || a.Finish? || a.WorkerDies? || a.Discard?
  }

  predicate Sends(c: Config, s: State, a: Action)
    requires Enabled(s, a)
  {
    a.TrySend? && !s.closed && |s.queue| < c.capacity
  }

  // A thread's step changes its own phase; only a send changes what is pending.
  lemma ThreadStepFrame(c: Config, s: State, a: Action)
    requires Enabled(s, a) && !ByWorker(a)
    ensures var s' := Apply(c, s, a);
      && a.t in s'.threads && s'.threads == s.threads[a.t := s'.threads[a.t]]
      && s'.working == s.working && s'.closed == s.closed && s'.consumed == s.consumed && s'.discarded == s.discarded
      && (Sends(c, s, a) ==>
           var job := Job(a.t, s.threads[a.t].bytes);
           && s'.queue == s.queue + [job] && s'.sent == s.sent + [job]
           && !Accepted(s.threads[a.t]) && Accepted(s'.threads[a.t]))
      && (!Sends(c, s, a) ==>
           && s'.queue == s.queue && s'.sent == s.sent
           && (Accepted(s'.threads[a.t]) <==> a.t in s.threads && Accepted(s.threads[a.t])))
  {
  }

  lemma PendingGrows(s: State, s': State, job: Job)
    requires s'.working == s.working && s'.queue == s.queue + [job]
    ensures Pending(s') == Pending(s) + [job]
    ensures QueuedBytes(Pending(s')) == QueuedBytes(Pending(s)) + job.bytes
  {
    assert Pending(s') == Pending(s) + [job];
    QueuedBytesAppends(Pending(s), [job]);
    assert QueuedBytes([job]) == job.bytes;
  }

  lemma ThreadKeepsGate(c: Config, s: State, a: Action)
    requires GateBalanced(c, s) && Enabled(s, a) && !ByWorker(a)
    ensures GateBalanced(c, Apply(c, s, a))
  {
    ThreadStepFrame(c, s, a);
    MoveAdmitted(s.threads, a.t, Apply(c, s, a).threads[a.t]);
  }

  lemma ThreadKeepsBudget(c: Config, s: State, a: Action)
    requires BudgetBalanced(c, s) && Enabled(s, a) && !ByWorker(a)
    ensures BudgetBalanced(c, Apply(c, s, a))
  {
    ThreadStepFrame(c, s, a);
    if Sends(c, s, a) {
      SendKeepsBudget(c, s, a);
    } else {
      MoveReserved(s.threads, a.t, Apply(c, s, a).threads[a.t]);
      UsedFollowsPermit(c, s, a);
      assert Pending(Apply(c, s, a)) == Pending(s);
    }
  }

  // A send moves the reservation from the thread to the queue.
  lemma SendKeepsBudget(c: Config, s: State, a: Action)
    requires BudgetBalanced(c, s) && Enabled(s, a) && Sends(c, s, a)
    ensures BudgetBalanced(c, Apply(c, s, a))
  {
    MoveReserved(s.threads, a.t, Leaving(Queued));
    PendingGrows(s, Apply(c, s, a), Job(a.t, s.threads[a.t].bytes));
  }

  // Any other step of a thread counts just what its own permit gains or loses.
  lemma UsedFollowsPermit(c: Config, s: State, a: Action)
    requires Enabled(s, a) && !ByWorker(a) && !Sends(c, s, a)
    ensures var s' := Apply(c, s, a);
      && s'.used == s.used + Reserved(s'.threads[a.t]) - (if a.t in s.threads then Reserved(s.threads[a.t]) else 0)
      && (s'.used <= s.used || s'.used <= c.budget)
  {
  }

  lemma ThreadKeepsOrder(c: Config, s: State, a: Action)
    requires Ordered(c, s) && Enabled(s, a) && !ByWorker(a)
    ensures Ordered(c, Apply(c, s, a))
  {
    var s' := Apply(c, s, a);
    ThreadStepFrame(c, s, a);
    if Sends(c, s, a) {
      var job := Job(a.t, s.threads[a.t].bytes);
      PendingGrows(s, s', job);
      AppendAssociates(s.consumed + s.discarded, Pending(s), [job]);
    } else {
      assert Pending(s') == Pending(s);
    }
  }

  lemma SentOnceFrame(threads: map<int, Phase>, sent: seq<Job>, t: int, p: Phase)
    requires SentOnce(threads, sent) && (Accepted(p) <==> t in threads && Accepted(threads[t]))
    ensures SentOnce(threads[t := p], sent)
  {
  }

  lemma SentOnceGrows(threads: map<int, Phase>, sent: seq<Job>, job: Job, p: Phase)
    requires SentOnce(threads, sent) && job.thread in threads && !Accepted(threads[job.thread]) && Accepted(p)
    ensures SentOnce(threads[job.thread := p], sent + [job])
  {
    var threads', sent' := threads[job.thread := p], sent + [job];
    forall u | u in threads' && Accepted(threads'[u])
      ensures exists i :: 0 <= i < |sent'| && sent'[i].thread == u
    {
      if u == job.thread {
        assert sent'[|sent|].thread == u;
      } else {
        var i :| 0 <= i < |sent| && sent[i].thread == u;
        assert sent'[i].thread == u;
      }
    }
  }

  lemma ThreadKeepsSentOnce(c: Config, s: State, a: Action)
    requires SentOnce(s.threads, s.sent) && Enabled(s, a) && !ByWorker(a)
    ensures SentOnce(Apply(c, s, a).threads, Apply(c, s, a).sent)
  {
    var s' := Apply(c, s, a);
    ThreadStepFrame(c, s, a);
    if Sends(c, s, a) {
      SentOnceGrows(s.threads, s.sent, Job(a.t, s.threads[a.t].bytes), s'.threads[a.t]);
    } else {
      SentOnceFrame(s.threads, s.sent, a.t, s'.threads[a.t]);
    }
  }

  lemma WorkerKeepsBalance(c: Config, s: State, a: Action)
    requires Balanced(c, s) && Enabled(s, a) && ByWorker(a)
    ensures Balanced(c, Apply(c, s, a))
  {
    var s' := Apply(c, s, a);
    if a.Finish? || a.Discard? {
      PendingShrinks(s, s');
    } else {
      assert Pending(s') == Pending(s);
    }
  }

  lemma WorkerKeepsOrder(c: Config, s: State, a: Action)
    requires Ordered(c, s) && Enabled(s, a) && ByWorker(a)
    ensures Ordered(c, Apply(c, s, a))
  {
    var s' := Apply(c, s, a);
    if a.Finish? || a.Discard? {
      PendingShrinks(s, s');
      var job := Pending(s)[0];
      AppendAssociates(s.consumed + s.discarded, [job], Pending(s'));
      if a.Finish? {
        assert s.consumed + s.discarded + [job] == s'.consumed + s'.discarded;
      } else {
        AppendAssociates(s.consumed, s.discarded, [job]);
      }
    } else {
      assert Pending(s') == Pending(s);
    }
  }

  // Whatever the worker drops, it drops from the front.
  lemma PendingShrinks(s: State, s': State)
    requires if s.working.Some? then s'.working == None && s'.queue == s.queue
      else s.queue != [] && s'.working == None && s'.queue == s.queue[1..]
    ensures Pending(s) != [] && Pending(s) == [Pending(s)[0]] + Pending(s')
    ensures QueuedBytes(Pending(s)) == Pending(s)[0].bytes + QueuedBytes(Pending(s'))
  {
    var job := Pending(s)[0];
    assert Pending(s) == [job] + Pending(s');
    assert Pending(s)[1..] == Pending(s');
  }

  /** Every atomic step of every thread keeps the invariant. */
  lemma StepKeepsInv(c: Config, s: State, a: Action)
    requires Inv(c, s) && Enabled(s, a)
    ensures Inv(c, Apply(c, s, a))
  {
    if ByWorker(a) {
      WorkerKeepsBalance(c, s, a);
      WorkerKeepsOrder(c, s, a);
    } else {
      ThreadKeepsGate(c, s, a);
      ThreadKeepsBudget(c, s, a);
      ThreadKeepsOrder(c, s, a);
      ThreadKeepsSentOnce(c, s, a);
    }
  }

  // --- Runs ---

  /** Where a run ends, if each of its actions was enabled in turn. */
  function Run(c: Config, run: seq<Action>): Option<State> {
    if run == [] then Some(START) else
      match Run(c, run[..|run| - 1])
      case Some(s) => if Enabled(s, run[|run| - 1]) then Some(Apply(c, s, run[|run| - 1])) else None
      case None => None
  }

  /** Over every run, with every interleaving, stale load and spurious failure. */
  lemma {:induction false} RunKeepsInv(c: Config, run: seq<Action>)
    requires Run(c, run).Some?
    ensures Inv(c, Run(c, run).value)
  {
    if run == [] {
      assert AdmittedBy(START.threads) == map[] && ReservedBy(START.threads) == map[];
    } else {
      RunKeepsInv(c, run[..|run| - 1]);
      StepKeepsInv(c, Run(c, run[..|run| - 1]).value, run[|run| - 1]);
    }
  }

  /** The bounds, in every reachable state: counters within their limits and never
      negative, the bytes of all pending jobs within the budget next to what readers
      hold, and no more payloads alive than readers, queue slots and the worker. */
  lemma RunBounds(c: Config, run: seq<Action>)
    requires Run(c, run).Some?
    ensures var s := Run(c, run).value;
      && 0 <= s.active <= c.readers && 0 <= s.used <= c.budget
      && Total(ReservedBy(s.threads)) + QueuedBytes(Pending(s)) <= c.budget
      && |s.queue| <= c.capacity
      && Total(AdmittedBy(s.threads)) + |Pending(s)| <= c.readers + c.capacity + 1
  {
    RunKeepsInv(c, run);
  }

  /** Once everybody has ended and nothing is pending, every byte and every slot has
      come back: no outcome leaks a reservation. */
  lemma QuietMeansFree(c: Config, run: seq<Action>)
    requires Run(c, run).Some?
    requires var s := Run(c, run).value;
      Pending(s) == [] && forall t | t in s.threads :: s.threads[t].Ended?
    ensures Run(c, run).value.used == 0 && Run(c, run).value.active == 0
  {
    var s := Run(c, run).value;
    RunKeepsInv(c, run);
    var reserved, admitted := ReservedBy(s.threads), AdmittedBy(s.threads);
    assert forall t | t in reserved :: reserved[t] == 0;
    assert forall t | t in admitted :: admitted[t] == 0;
    TotalOfZeros(reserved);
    TotalOfZeros(admitted);
  }

  lemma StepKeepsHistory(c: Config, s: State, a: Action, t: int)
    requires Enabled(s, a)
    ensures var s' := Apply(c, s, a);
      && s.sent <= s'.sent && s.consumed <= s'.consumed && s.discarded <= s'.discarded
      && (t in s.threads && s.threads[t].Ended? ==> t in s'.threads && s'.threads[t] == s.threads[t])
  {
  }

  /** Along a run nothing sent is displaced or reordered, what was consumed stays
      consumed, and an outcome once reached is final: exactly one per selection. */
  lemma {:induction false} HistoryOnlyGrows(c: Config, run: seq<Action>, i: nat, t: int)
    requires i <= |run| && Run(c, run).Some?
    ensures Run(c, run[..i]).Some?
    ensures var s, s' := Run(c, run[..i]).value, Run(c, run).value;
      && s.sent <= s'.sent && s.consumed <= s'.consumed && s.discarded <= s'.discarded
      && (t in s.threads && s.threads[t].Ended? ==> t in s'.threads && s'.threads[t] == s.threads[t])
    decreases |run|
  {
    if i == |run| {
      assert run[..i] == run;
    } else {
      var before := run[..|run| - 1];
      HistoryOnlyGrows(c, before, i, t);
      assert before[..i] == run[..i];
      StepKeepsHistory(c, Run(c, before).value, run[|run| - 1], t);
    }
  }

  /** First in, first out: while the worker lives, what it has consumed is the front
      of what was sent. */
  lemma ConsumedInSendOrder(c: Config, run: seq<Action>)
    requires Run(c, run).Some?
    ensures var s := Run(c, run).value;
      s.consumed <= s.sent && (!s.closed ==> s.sent == s.consumed + Pending(s))
  {
    RunKeepsInv(c, run);
    var s := Run(c, run).value;
    assert !s.closed ==> s.consumed + s.discarded == s.consumed;
  }

  // --- Lock freedom ---

  /** The two counters that threads load and then swap. */
  datatype Counter = Gate | Budget

  function Value(s: State, counter: Counter): int {
    match counter
    case Gate => s.active
    case Budget => s.used
  }

  /** What a thread has loaded and not yet used. */
  function Loaded(p: Phase, counter: Counter): Option<int> {
    match counter
    case Gate => if p.GateLoaded? then Some(p.seen) else None
    case Budget => if p.BudgetLoaded? then Some(p.seen) else None
  }

  function Swap(t: int, counter: Counter): Action {
    match counter
    case Gate => GateCas(t, false)
    case Budget => BudgetCas(t, false)
  }

  predicate StepOf(a: Action, t: int) {
    !ByWorker(a) && a.t == t
  }

  /** Somebody was admitted or left; somebody's bytes were reserved or given back. */
  predicate Advances(c: Config, s: State, a: Action, counter: Counter) {
    && Enabled(s, a)
    && match counter
       case Gate => a.Leave? || (a.GateCas? && Apply(c, s, a).threads[a.t].Reading?)
       case Budget => a.DropPermit? || a.Finish? || a.Discard? || (a.BudgetCas? && Apply(c, s, a).threads[a.t].Holding?)
  }

  predicate AdvancedAt(c: Config, run: seq<Action>, j: nat, counter: Counter)
    requires j < |run|
  {
    Run(c, run[..j]).Some? && Advances(c, Run(c, run[..j]).value, run[j], counter)
  }

  // A step that is nobody's advance leaves the counter, and a thread's phase is its own.
  lemma OnlyAdvancesCount(c: Config, s: State, a: Action, counter: Counter, t: int)
    requires Enabled(s, a) && !Advances(c, s, a, counter) && t in s.threads && !StepOf(a, t)
    ensures var s' := Apply(c, s, a);
      Value(s', counter) == Value(s, counter) && t in s'.threads && s'.threads[t] == s.threads[t]
  {
  }

  // A thread that holds a loaded value after its own step has just loaded it.
  lemma LoadIsCurrent(c: Config, s: State, a: Action, counter: Counter, t: int)
    requires Enabled(s, a) && StepOf(a, t) && t in Apply(c, s, a).threads
    requires Loaded(Apply(c, s, a).threads[t], counter).Some?
    ensures Loaded(Apply(c, s, a).threads[t], counter) == Some(Value(Apply(c, s, a), counter))
  {
  }

  // A swap on a current value decides.
  lemma CurrentSwapDecides(c: Config, s: State, counter: Counter, t: int)
    requires Enabled(s, Swap(t, counter)) && Loaded(s.threads[t], counter) == Some(Value(s, counter))
    ensures Loaded(Apply(c, s, Swap(t, counter)).threads[t], counter).None?
  {
  }

  lemma {:induction false} RunOfPrefix(c: Config, run: seq<Action>, i: nat)
    requires i <= |run| && Run(c, run).Some?
    ensures Run(c, run[..i]).Some?
    ensures i < |run| ==>
      && Enabled(Run(c, run[..i]).value, run[i])
      && Run(c, run[..i + 1]) == Some(Apply(c, Run(c, run[..i]).value, run[i]))
    decreases |run|
  {
    if i == |run| {
      assert run[..i] == run;
    } else if i == |run| - 1 {
      assert run[..i + 1] == run;
    } else {
      var before := run[..|run| - 1];
      RunOfPrefix(c, before, i);
      assert before[..i] == run[..i] && before[..i + 1] == run[..i + 1];
    }
  }

  lemma {:induction false} NobodyAdvanced(c: Config, run: seq<Action>, i: nat, counter: Counter, t: int)
    requires i <= |run| && Run(c, run).Some? && Run(c, run[..i]).Some? && t in Run(c, run[..i]).value.threads
    requires forall j | i <= j < |run| :: !StepOf(run[j], t)
    requires forall j | i <= j < |run| :: !AdvancedAt(c, run, j, counter)
    ensures var s, s' := Run(c, run[..i]).value, Run(c, run).value;
      Value(s', counter) == Value(s, counter) && t in s'.threads && s'.threads[t] == s.threads[t]
    decreases |run|
  {
    if i == |run| {
      assert run[..i] == run;
    } else {
      var before := run[..|run| - 1];
      assert before[..i] == run[..i];
      forall j | i <= j < |before|
        ensures !AdvancedAt(c, before, j, counter)
      {
        assert before[..j] == run[..j] && !AdvancedAt(c, run, j, counter);
      }
      assert !AdvancedAt(c, run, |run| - 1, counter);
      NobodyAdvanced(c, before, i, counter, t);
      OnlyAdvancesCount(c, Run(c, before).value, run[|run| - 1], counter, t);
    }
  }

  /** Lock freedom of both counters: if a thread loads (step `i`), takes no other step,
      and its next swap (the last step) fails without being spurious, then in between
      somebody else got on: was admitted or left, reserved bytes or gave some back. */
  lemma FailedSwapMeansProgress(c: Config, run: seq<Action>, i: nat, counter: Counter, t: int)
    requires i + 1 < |run| && Run(c, run).Some? && Run(c, run[..i + 1]).Some?
    requires StepOf(run[i], t) && t in Run(c, run[..i + 1]).value.threads
    requires Loaded(Run(c, run[..i + 1]).value.threads[t], counter).Some?
    requires forall j | i < j < |run| - 1 :: !StepOf(run[j], t)
    requires run[|run| - 1] == Swap(t, counter) && Loaded(Run(c, run).value.threads[t], counter).Some?
    ensures exists j | i < j < |run| - 1 :: !StepOf(run[j], t) && AdvancedAt(c, run, j, counter)
  {
    RunOfPrefix(c, run, i);
    LoadIsCurrent(c, Run(c, run[..i]).value, run[i], counter, t);
    var before := run[..|run| - 1];
    assert before[..i + 1] == run[..i + 1];
    if forall j | i + 1 <= j < |before| :: !AdvancedAt(c, before, j, counter) {
      NobodyAdvanced(c, before, i + 1, counter, t);
      CurrentSwapDecides(c, Run(c, before).value, counter, t);
      assert false;
    }
    var j :| i + 1 <= j < |before| && AdvancedAt(c, before, j, counter);
    assert before[..j] == run[..j];
  }

  // --- Why a payload is not queued ---

  /** What a thread learnt at one of its own steps: the value of a counter it loaded, how
      much it drained, a full queue, a dead worker, or that its time was up. */
  datatype Sight = GateAt(value: int) | BudgetAt(value: int) | Bytes(n: nat) | QueueFull | WorkerDead | TimeUp

  ghost predicate SawAt(c: Config, run: seq<Action>, t: int, j: nat, what: Sight)
    requires j < |run|
  {
    && Run(c, run[..j]).Some?
    && var s, a := Run(c, run[..j]).value, run[j];
       match what
       case GateAt(v) => (a == LoadGate(t) || (a.GateCas? && a.t == t)) && s.active == v
       case BudgetAt(v) => (a == LoadBudget(t) || (a.BudgetCas? && a.t == t)) && s.used == v
       case Bytes(n) => a == Drained(t, n)
       case QueueFull => a == TrySend(t) && |s.queue| >= c.capacity
       case WorkerDead => a == TrySend(t) && s.closed
       case TimeUp => a == GiveUp(t)
  }

  ghost predicate Saw(c: Config, run: seq<Action>, t: int, what: Sight) {
    exists j | 0 <= j < |run| :: SawAt(c, run, t, j, what)
  }

  lemma SawBefore(c: Config, run: seq<Action>, t: int, what: Sight)
    requires run != [] && Saw(c, run[..|run| - 1], t, what)
    ensures Saw(c, run, t, what)
  {
    var before := run[..|run| - 1];
    var j :| 0 <= j < |before| && SawAt(c, before, t, j, what);
    assert before[..j] == run[..j] && SawAt(c, run, t, j, what);
  }

  lemma SawNow(c: Config, run: seq<Action>, t: int, what: Sight)
    requires run != [] && SawAt(c, run, t, |run| - 1, what)
    ensures Saw(c, run, t, what)
  {
  }

  /** The budget had no room for what it drained. */
  ghost predicate SawBudgetShort(c: Config, run: seq<Action>, t: int, bytes: nat) {
    exists v :: Saw(c, run, t, BudgetAt(v)) && (v + bytes > c.budget || v + bytes >= TWO64)
  }

  ghost predicate SawGateFull(c: Config, run: seq<Action>, t: int) {
    exists v :: Saw(c, run, t, GateAt(v)) && v >= c.readers
  }

  ghost predicate SawTooMuch(c: Config, run: seq<Action>, t: int) {
    exists n: nat :: Saw(c, run, t, Bytes(n)) && n > c.budget
  }

  ghost predicate GaveUpOnBudget(c: Config, run: seq<Action>, t: int) {
    exists n: nat :: Saw(c, run, t, Bytes(n)) && SawBudgetShort(c, run, t, n) && Saw(c, run, t, TimeUp)
  }

  ghost predicate GaveUpOnQueue(c: Config, run: seq<Action>, t: int) {
    Saw(c, run, t, QueueFull) && Saw(c, run, t, TimeUp)
  }

  /** What must have happened for a thread to stand where it stands. */
  ghost predicate Accountable(c: Config, run: seq<Action>, t: int, p: Phase) {
    match p
    case GateLoaded(seen) => Saw(c, run, t, GateAt(seen))
    case Offering(n) => Saw(c, run, t, Bytes(n))
    case BudgetLoaded(n, seen) => Saw(c, run, t, Bytes(n)) && Saw(c, run, t, BudgetAt(seen))
    case Starved(n) => Saw(c, run, t, Bytes(n)) && SawBudgetShort(c, run, t, n)
    case Holding(n) => Saw(c, run, t, Bytes(n))
    case Full(n) => Saw(c, run, t, Bytes(n)) && Saw(c, run, t, QueueFull)
    case Dropping(_, why) => if why == Closed then Saw(c, run, t, WorkerDead) else GaveUpOnQueue(c, run, t)
    case Leaving(why) => WhyEnded(c, run, t, why)
    case Ended(why) => WhyEnded(c, run, t, why) || (why == Shed && SawGateFull(c, run, t))
    case _ => true
  }

  ghost predicate WhyEnded(c: Config, run: seq<Action>, t: int, why: Outcome) {
    match why
    case Shed => SawTooMuch(c, run, t) || GaveUpOnBudget(c, run, t) || GaveUpOnQueue(c, run, t)
    case Closed => Saw(c, run, t, WorkerDead)
    case _ => true
  }

  // What was seen stays seen.
  lemma StaysAccountable(c: Config, run: seq<Action>, t: int, p: Phase)
    requires run != [] && Accountable(c, run[..|run| - 1], t, p)
    ensures Accountable(c, run, t, p)
  {
    forall what | Saw(c, run[..|run| - 1], t, what)
      ensures Saw(c, run, t, what)
    {
      SawBefore(c, run, t, what);
    }
  }

  // A step of the thread's own, from before it is queued, adds what it saw.
  lemma OwnStepIsAccountable(c: Config, run: seq<Action>, t: int)
    requires run != [] && Run(c, run).Some? && StepOf(run[|run| - 1], t)
    requires var s := Run(c, run[..|run| - 1]).value;
      t in s.threads ==> Accountable(c, run, t, s.threads[t])
    ensures t in Run(c, run).value.threads && Accountable(c, run, t, Run(c, run).value.threads[t])
  {
    var a, s := run[|run| - 1], Run(c, run[..|run| - 1]).value;
    match a
    case LoadGate(_) => SawNow(c, run, t, GateAt(s.active));
    case GateCas(_, _) => SawNow(c, run, t, GateAt(s.active));
    case Drained(_, n) => SawNow(c, run, t, Bytes(n));
    case LoadBudget(_) => SawNow(c, run, t, BudgetAt(s.used));
    case BudgetCas(_, _) => SawNow(c, run, t, BudgetAt(s.used));
    case TrySend(_) =>
      if s.closed {
        SawNow(c, run, t, WorkerDead);
      } else if |s.queue| >= c.capacity {
        SawNow(c, run, t, QueueFull);
      }
    case GiveUp(_) => SawNow(c, run, t, TimeUp);
    case _ =>
  }

  lemma OthersLeavePhase(c: Config, s: State, a: Action, t: int)
    requires Enabled(s, a) && !StepOf(a, t)
    ensures t in Apply(c, s, a).threads <==> t in s.threads
    ensures t in s.threads ==> Apply(c, s, a).threads[t] == s.threads[t]
  {
  }

  lemma {:induction false} EveryoneIsAccountable(c: Config, run: seq<Action>, t: int)
    requires Run(c, run).Some? && t in Run(c, run).value.threads
    ensures Accountable(c, run, t, Run(c, run).value.threads[t])
  {
    if run != [] {
      var before, a := run[..|run| - 1], run[|run| - 1];
      var s := Run(c, before).value;
      if t in s.threads {
        EveryoneIsAccountable(c, before, t);
        StaysAccountable(c, run, t, s.threads[t]);
      }
      if StepOf(a, t) {
        OwnStepIsAccountable(c, run, t);
      } else {
        OthersLeavePhase(c, s, a, t);
      }
    }
  }

  /** Nothing is shed without cause, over every run: a selection that ends in `Shed` loaded
      a full gate, drained more than the whole budget, or gave up after a budget it had
      loaded as too short or a queue it had found full; one that ends in `Closed` found
      the worker dead. */
  lemma ShedForCause(c: Config, run: seq<Action>, t: int)
    requires Run(c, run).Some? && t in Run(c, run).value.threads
    ensures var p := Run(c, run).value.threads[t];
      && (p == Ended(Shed) ==>
           || SawGateFull(c, run, t) || SawTooMuch(c, run, t)
           || GaveUpOnBudget(c, run, t) || GaveUpOnQueue(c, run, t))
      && (p == Ended(Closed) ==> Saw(c, run, t, WorkerDead))
  {
    EveryoneIsAccountable(c, run, t);
  }

  // --- And with room it is queued ---

  function RunFrom(c: Config, s: State, more: seq<Action>): Option<State>
    decreases |more|
  {
    if more == [] then Some(s)
    else if Enabled(s, more[0]) then RunFrom(c, Apply(c, s, more[0]), more[1..])
    else None
  }

  lemma RunFromFirst(c: Config, s: State, a: Action, more: seq<Action>)
    requires Enabled(s, a)
    ensures RunFrom(c, s, [a] + more) == RunFrom(c, Apply(c, s, a), more)
  {
    assert ([a] + more)[1..] == more;
  }

  /** What these steps achieve: the job is the last one sent, and queued last. */
  ghost predicate QueuesBy(c: Config, s: State, t: int, bytes: nat, more: seq<Action>) {
    && (forall i | 0 <= i < |more| :: StepOf(more[i], t))
    && RunFrom(c, s, more).Some?
    && var s' := RunFrom(c, s, more).value;
       && t in s'.threads && s'.threads[t] == Ended(Queued)
       && s'.sent == s.sent + [Job(t, bytes)] && s'.queue == s.queue + [Job(t, bytes)]
  }

  lemma QueuesAfter(c: Config, s: State, t: int, bytes: nat, a: Action, more: seq<Action>)
    requires Enabled(s, a) && StepOf(a, t) && QueuesBy(c, Apply(c, s, a), t, bytes, more)
    requires Apply(c, s, a).sent == s.sent && Apply(c, s, a).queue == s.queue
    ensures QueuesBy(c, s, t, bytes, [a] + more)
  {
    RunFromFirst(c, s, a, more);
  }

  predicate QueueHasRoom(c: Config, s: State) {
    !s.closed && |s.queue| < c.capacity
  }

  predicate BudgetHasRoom(c: Config, s: State, bytes: nat) {
    s.used + bytes <= c.budget && s.used + bytes < TWO64
  }

  /** From any state with room, a thread's own steps, undisturbed, lead to `Queued`: from a
      reservation it holds, */
  lemma HeldIsQueued(c: Config, s: State, t: int) returns (more: seq<Action>)
    requires t in s.threads && (s.threads[t].Holding? || s.threads[t].Full?) && QueueHasRoom(c, s)
    ensures QueuesBy(c, s, t, s.threads[t].bytes, more)
    decreases s.threads[t].Full?
  {
    var bytes := s.threads[t].bytes;
    if s.threads[t].Full? {
      more := HeldIsQueued(c, Apply(c, s, Retry(t)), t);
      QueuesAfter(c, s, t, bytes, Retry(t), more);
      more := [Retry(t)] + more;
    } else {
      var s1 := Apply(c, s, TrySend(t));
      assert s1.threads[t] == Leaving(Queued);
      more := [TrySend(t)] + [Leave(t)];
      RunFromFirst(c, s, TrySend(t), [Leave(t)]);
      RunFromFirst(c, s1, Leave(t), []);
      assert [Leave(t)] + [] == [Leave(t)];
    }
  }

  /** from an offer it is making or waiting to make again, */
  lemma OfferedIsQueued(c: Config, s: State, t: int) returns (more: seq<Action>)
    requires t in s.threads && (s.threads[t].Offering? || s.threads[t].Starved?)
    requires QueueHasRoom(c, s) && BudgetHasRoom(c, s, s.threads[t].bytes)
    ensures QueuesBy(c, s, t, s.threads[t].bytes, more)
    decreases s.threads[t].Starved?
  {
    var bytes := s.threads[t].bytes;
    if s.threads[t].Starved? {
      more := OfferedIsQueued(c, Apply(c, s, Retry(t)), t);
      QueuesAfter(c, s, t, bytes, Retry(t), more);
      more := [Retry(t)] + more;
    } else {
      var s1 := Apply(c, s, LoadBudget(t));
      var s2 := Apply(c, s1, BudgetCas(t, false));
      assert s2.threads[t] == Holding(bytes);
      more := HeldIsQueued(c, s2, t);
      QueuesAfter(c, s1, t, bytes, BudgetCas(t, false), more);
      more := [BudgetCas(t, false)] + more;
      QueuesAfter(c, s, t, bytes, LoadBudget(t), more);
      more := [LoadBudget(t)] + more;
    }
  }

  /** and, in every reachable state, from its selection, whatever it then drains. */
  lemma SelectedIsQueued(c: Config, run: seq<Action>, t: int, bytes: nat) returns (more: seq<Action>)
    requires Run(c, run).Some? && t !in Run(c, run).value.threads && Run(c, run).value.active < c.readers
    requires QueueHasRoom(c, Run(c, run).value) && BudgetHasRoom(c, Run(c, run).value, bytes)
    ensures QueuesBy(c, Run(c, run).value, t, bytes, more)
  {
    var s := Run(c, run).value;
    RunBounds(c, run);
    var s1 := Apply(c, s, Select(t));
    var s2 := Apply(c, s1, LoadGate(t));
    var s3 := Apply(c, s2, GateCas(t, false));
    assert s3.threads[t] == Reading;
    var s4 := Apply(c, s3, Drained(t, bytes));
    assert s4.threads[t] == Offering(bytes);
    more := OfferedIsQueued(c, s4, t);
    QueuesAfter(c, s3, t, bytes, Drained(t, bytes), more);
    more := [Drained(t, bytes)] + more;
    QueuesAfter(c, s2, t, bytes, GateCas(t, false), more);
    more := [GateCas(t, false)] + more;
    QueuesAfter(c, s1, t, bytes, LoadGate(t), more);
    more := [LoadGate(t)] + more;
    QueuesAfter(c, s, t, bytes, Select(t), more);
    more := [Select(t)] + more;
  }

  // --- And what is queued is consumed ---

  /** A live worker's own steps consume everything pending, in order, and give back just
      its bytes. */
  lemma {:induction false} PendingIsConsumed(c: Config, s: State) returns (more: seq<Action>)
    requires !s.closed
    ensures forall i | 0 <= i < |more| :: more[i] == Receive || more[i] == Finish
    ensures RunFrom(c, s, more).Some?
    ensures var s' := RunFrom(c, s, more).value;
      && Pending(s') == [] && s'.consumed == s.consumed + Pending(s) && s'.used == s.used - QueuedBytes(Pending(s))
      && s'.threads == s.threads
    decreases 2 * |s.queue| + |InWork(s)|
  {
    if s.working.Some? {
      var s1 := Apply(c, s, Finish);
      PendingShrinks(s, s1);
      var rest := PendingIsConsumed(c, s1);
      RunFromFirst(c, s, Finish, rest);
      AppendAssociates(s.consumed, [s.working.value], Pending(s1));
      more := [Finish] + rest;
    } else if s.queue != [] {
      var s1 := Apply(c, s, Receive);
      assert Pending(s1) == Pending(s);
      var rest := PendingIsConsumed(c, s1);
      RunFromFirst(c, s, Receive, rest);
      more := [Receive] + rest;
    } else {
      more := [];
      assert s.consumed + Pending(s) == s.consumed;
    }
  }

  /** And once it is dead, everything pending is dropped and its bytes come back. */
  lemma {:induction false} PendingIsDropped(c: Config, s: State) returns (more: seq<Action>)
    requires s.closed
    ensures forall i | 0 <= i < |more| :: more[i] == Discard
    ensures RunFrom(c, s, more).Some?
    ensures var s' := RunFrom(c, s, more).value;
      && Pending(s') == [] && s'.discarded == s.discarded + Pending(s) && s'.used == s.used - QueuedBytes(Pending(s))
    decreases |Pending(s)|
  {
    if Pending(s) != [] {
      var s1 := Apply(c, s, Discard);
      PendingShrinks(s, s1);
      var rest := PendingIsDropped(c, s1);
      RunFromFirst(c, s, Discard, rest);
      AppendAssociates(s.discarded, [Pending(s)[0]], Pending(s1));
      more := [Discard] + rest;
    } else {
      more := [];
      assert s.discarded + Pending(s) == s.discarded;
    }
  }
}
