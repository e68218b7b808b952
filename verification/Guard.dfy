/** Guarded conversion: many threads sharing one breaker and one throttle, each
    critical section one step, with a clock that never goes back. */
module Guard {
  import opened Core
  import opened Breaker

  /** Why a conversion failed. */
  datatype PipelineError = Spawn | Source | Sink | Child | ExitFailed | Timeout | Isolation

  predicate IsConverterFault(e: PipelineError) {
    e == ExitFailed || e == Timeout || e == Child
  }

  datatype Attempt = Returned(bytes: Bytes) | Errored(error: PipelineError) | Panicked

  datatype Payload = Payload(mime: string, bytes: Bytes)

  /** `usable` judges a converter's output against the MIME it was asked for. */
  datatype Config = Config(limits: Limits, slots: nat, usable: (string, Bytes) -> bool)

  ghost predicate ValidConfig(c: Config) {
    1 <= c.limits.threshold <= U32_MAX && 1 <= c.slots
  }

  /** One routed payload: `target` is the MIME the plan converts it to. */
  datatype Phase =
    | Planned(original: Payload, target: string)
    | Permitted(original: Payload, target: string, canary: bool)
    | Converting(original: Payload, target: string, canary: bool)
    | Reporting(original: Payload, target: string, canary: bool, outcome: Outcome, converted: Option<Bytes>,
                unwinding: bool)
    | Routed(original: Payload, planned: Option<string>, result: Payload)
    | Unwound(original: Payload)

  datatype State = State(inner: Inner, inUse: nat, now: Instant, threads: map<int, Phase>,
                         admitted: nat, resolved: nat, taken: nat, freed: nat)

  const START: State := State(Closed(0), 0, 0, map[], 0, 0, 0, 0)

  datatype Action =
    | Bypass(t: int, payload: Payload)
    | Plan(t: int, payload: Payload, target: string)
    | AskBreaker(t: int, at: Instant)
    | AskThrottle(t: int)
    | Finish(t: int, attempt: Attempt)
    | Report(t: int, at: Instant)
    | Tick(elapsed: nat)

  /** A clock reading may be older than the critical section it is used in. */
  predicate Enabled(s: State, a: Action) {
    match a
    case Bypass(t, _) => t !in s.threads
    case Plan(t, _, _) => t !in s.threads
    case AskBreaker(t, at) => t in s.threads && s.threads[t].Planned? && at <= s.now
    case AskThrottle(t) => t in s.threads && s.threads[t].Permitted?
    case Finish(t, _) => t in s.threads && s.threads[t].Converting?
    case Report(t, at) => t in s.threads && s.threads[t].Reporting? && at <= s.now
    case Tick(_) => true
  }

  /** The verdict on an attempt: what the permit reports and what is kept. */
  function Judge(c: Config, target: string, attempt: Attempt): (Outcome, Option<Bytes>) {
    match attempt
    case Returned(bytes) => if c.usable(target, bytes) then (Success, Some(bytes)) else (Failure, None)
    case Errored(e) => (if IsConverterFault(e) then Failure else Neutral, None)
    case Panicked => (Failure, None)
  }

  function Goto(s: State, t: int, p: Phase): State {
    s.(threads := s.threads[t := p])
  }

  function Apply(c: Config, s: State, a: Action): State
    requires Enabled(s, a)
  {
    match a
    case Bypass(t, payload) => Goto(s, t, Routed(payload, None, payload))
    case Plan(t, payload, target) => Goto(s, t, Planned(payload, target))
    case AskBreaker(t, at) =>
      var Planned(original, target) := s.threads[t];
      var (inner, permit) := Acquire(s.inner, at);
      if permit.None? then Goto(s.(inner := inner), t, Routed(original, Some(target), original))
      else Goto(s.(inner := inner, admitted := s.admitted + 1), t, Permitted(original, target, permit.value))
    case AskThrottle(t) =>
      var Permitted(original, target, canary) := s.threads[t];
      if s.inUse >= c.slots then Goto(s, t, Reporting(original, target, canary, Neutral, None, false))
      else Goto(s.(inUse := s.inUse + 1, taken := s.taken + 1), t, Converting(original, target, canary))
    case Finish(t, attempt) =>
      var Converting(original, target, canary) := s.threads[t];
      var (outcome, converted) := Judge(c, target, attempt);
      Goto(s.(inUse := if s.inUse == 0 then 0 else s.inUse - 1, freed := s.freed + 1), t,
           Reporting(original, target, canary, outcome, converted, attempt.Panicked?))
    case Report(t, at) =>
      var Reporting(original, target, canary, outcome, converted, unwinding) := s.threads[t];
      var (inner, _, _) := Resolve(c.limits, s.inner, canary, outcome, at);
      Goto(s.(inner := inner, resolved := s.resolved + 1), t,
           if unwinding then Unwound(original)
           else if converted.Some? then Routed(original, Some(target), Payload(target, converted.value))
           else Routed(original, Some(target), original))
    case Tick(elapsed) => s.(now := s.now + elapsed)
  }

  // --- Invariants ---

  function Slots(p: Phase): nat {
    if p.Converting? then 1 else 0
  }

  function Permits(p: Phase): nat {
    if p.Permitted? || p.Converting? || p.Reporting? then 1 else 0
  }

  function Canaries(p: Phase): nat {
    if (p.Permitted? || p.Converting? || p.Reporting?) && p.canary then 1 else 0
  }

  ghost function Each(threads: map<int, Phase>, count: Phase -> nat): map<int, nat> {
    map t | t in threads :: count(threads[t])
  }

  /** Slots in use are the converter calls in flight, within the limit; each admitted
      attempt has freed its slot and resolved its permit once, or still holds it. */
  ghost predicate SlotsBalanced(c: Config, s: State) {
    s.inUse == Total(Each(s.threads, Slots)) && s.inUse <= c.slots && s.taken == s.freed + s.inUse
  }

  ghost predicate PermitsBalanced(s: State) {
    s.admitted == s.resolved + Total(Each(s.threads, Permits))
  }

  /** A canary is outstanding exactly when the circuit is half open with its probe in
      flight, and then only one. */
  ghost predicate OneCanary(s: State) {
    Total(Each(s.threads, Canaries)) == if s.inner == HalfOpen(true) then 1 else 0
  }

  ghost predicate BreakerBounded(c: Config, s: State) {
    && (s.inner.Closed? ==> s.inner.failures < c.limits.threshold)
    && (s.inner.Open? ==> s.inner.until <= s.now + c.limits.cooldown)
  }

  /** What is stored is a usable conversion under its new MIME, or the original pair. */
  ghost predicate ResultSafe(c: Config, p: Phase) {
    && (p.Reporting? && p.converted.Some?
        ==> c.usable(p.target, p.converted.value) && p.outcome == Success && !p.unwinding)
    && (p.Routed? ==>
         || p.result == p.original
         || (p.planned.Some? && p.result.mime == p.planned.value && c.usable(p.planned.value, p.result.bytes)))
  }

  ghost predicate Inv(c: Config, s: State) {
    && SlotsBalanced(c, s)
    && PermitsBalanced(s)
    && OneCanary(s)
    && BreakerBounded(c, s)
    && forall t | t in s.threads :: ResultSafe(c, s.threads[t])
  }

  lemma MoveCount(threads: map<int, Phase>, t: int, p: Phase, count: Phase -> nat)
    ensures Total(Each(threads[t := p], count)) ==
      Total(Each(threads, count)) + count(p) - if t in threads then count(threads[t]) else 0
  {
    TotalUpdate(Each(threads, count), t, count(p));
    assert Each(threads, count)[t := count(p)] == Each(threads[t := p], count);
  }

  lemma HolderCounts(threads: map<int, Phase>, t: int, count: Phase -> nat)
    requires t in threads
    ensures Total(Each(threads, count)) >= count(threads[t])
  {
    TotalRemove(Each(threads, count), t);
  }

  lemma StepFrame(c: Config, s: State, a: Action)
    requires Enabled(s, a) && !a.Tick?
    ensures var s' := Apply(c, s, a);
      a.t in s'.threads && s'.threads == s.threads[a.t := s'.threads[a.t]] && s'.now == s.now
  {
  }

  lemma StepKeepsSlots(c: Config, s: State, a: Action)
    requires SlotsBalanced(c, s) && Enabled(s, a)
    ensures SlotsBalanced(c, Apply(c, s, a))
  {
    if !a.Tick? {
      StepFrame(c, s, a);
      MoveCount(s.threads, a.t, Apply(c, s, a).threads[a.t], Slots);
      if a.Finish? {
        HolderCounts(s.threads, a.t, Slots);
      }
    }
  }

  lemma StepKeepsPermits(c: Config, s: State, a: Action)
    requires PermitsBalanced(s) && Enabled(s, a)
    ensures PermitsBalanced(Apply(c, s, a))
  {
    if !a.Tick? {
      StepFrame(c, s, a);
      MoveCount(s.threads, a.t, Apply(c, s, a).threads[a.t], Permits);
    }
  }

  lemma StepKeepsCanary(c: Config, s: State, a: Action)
    requires OneCanary(s) && Enabled(s, a)
    ensures OneCanary(Apply(c, s, a))
  {
    if !a.Tick? {
      StepFrame(c, s, a);
      MoveCount(s.threads, a.t, Apply(c, s, a).threads[a.t], Canaries);
      if a.Report? {
        HolderCounts(s.threads, a.t, Canaries);
      }
    }
  }

  /** Every step of every thread keeps all of it. */
  lemma StepKeepsInv(c: Config, s: State, a: Action)
    requires ValidConfig(c) && Inv(c, s) && Enabled(s, a)
    ensures Inv(c, Apply(c, s, a))
  {
    StepKeepsSlots(c, s, a);
    StepKeepsPermits(c, s, a);
    StepKeepsCanary(c, s, a);
    StepKeepsResults(c, s, a);
    StepKeepsBounds(c, s, a);
  }

  lemma StepKeepsBounds(c: Config, s: State, a: Action)
    requires ValidConfig(c) && BreakerBounded(c, s) && Enabled(s, a)
    ensures BreakerBounded(c, Apply(c, s, a))
  {
  }

  lemma StepKeepsResults(c: Config, s: State, a: Action)
    requires Enabled(s, a) && forall t | t in s.threads :: ResultSafe(c, s.threads[t])
    ensures forall t | t in Apply(c, s, a).threads :: ResultSafe(c, Apply(c, s, a).threads[t])
  {
    if !a.Tick? {
      StepFrame(c, s, a);
      assert ResultSafe(c, Apply(c, s, a).threads[a.t]);
    }
  }

  // --- Runs ---

  function Run(c: Config, run: seq<Action>): Option<State> {
    if run == [] then Some(START) else
      match Run(c, run[..|run| - 1])
      case Some(s) => if Enabled(s, run[|run| - 1]) then Some(Apply(c, s, run[|run| - 1])) else None
      case None => None
  }

  lemma {:induction false} RunKeepsInv(c: Config, run: seq<Action>)
    requires ValidConfig(c) && Run(c, run).Some?
    ensures Inv(c, Run(c, run).value)
  {
    if run == [] {
      assert Each(START.threads, Slots) == map[] && Each(START.threads, Permits) == map[]
        && Each(START.threads, Canaries) == map[];
    } else {
      RunKeepsInv(c, run[..|run| - 1]);
      StepKeepsInv(c, Run(c, run[..|run| - 1]).value, run[|run| - 1]);
    }
  }

  /** During a cooldown nobody is admitted and nothing moves the circuit, whatever the
      attempts still out report. */
  lemma {:induction false} CooldownHolds(c: Config, run: seq<Action>, i: nat)
    requires i <= |run| && Run(c, run).Some?
    ensures Run(c, run[..i]).Some?
    ensures var s, s' := Run(c, run[..i]).value, Run(c, run).value;
      && s.now <= s'.now
      && (s.inner.Open? && s'.now < s.inner.until ==> s'.inner == s.inner && s'.admitted == s.admitted)
    decreases |run|
  {
    if i == |run| {
      assert run[..i] == run;
    } else {
      var before := run[..|run| - 1];
      CooldownHolds(c, before, i);
      assert before[..i] == run[..i];
      CooldownStep(c, Run(c, before).value, run[|run| - 1]);
    }
  }

  lemma CooldownStep(c: Config, s: State, a: Action)
    requires Enabled(s, a)
    ensures var s' := Apply(c, s, a);
      && s.now <= s'.now
      && (s.inner.Open? && s'.now < s.inner.until ==> s'.inner == s.inner && s'.admitted == s.admitted)
  {
  }

  /** The breaker cannot wedge: once every permit has been resolved or dropped, every
      request from one cooldown on is granted, and some request even before. */
  lemma NeverWedged(c: Config, run: seq<Action>)
    requires ValidConfig(c) && Run(c, run).Some?
    requires var s := Run(c, run).value;
      forall t | t in s.threads :: Permits(s.threads[t]) == 0
    ensures var s := Run(c, run).value;
      && (forall at | at >= s.now + c.limits.cooldown :: Acquire(s.inner, at).1.Some?)
      && (exists at | s.now <= at <= s.now + c.limits.cooldown :: Acquire(s.inner, at).1.Some?)
  {
    var s := Run(c, run).value;
    RunKeepsInv(c, run);
    var canaries := Each(s.threads, Canaries);
    assert forall t | t in canaries :: canaries[t] == 0;
    TotalOfZeros(canaries);
    var at := if s.inner.Open? then Max(s.now, s.inner.until) else s.now;
    assert Acquire(s.inner, at).1.Some?;
  }

  // --- The trip ---

  // What a report does to the number of failures in a row.
  function Counted(p: Phase, streak: nat): nat
    requires p.Reporting?
  {
    if p.outcome == Success then 0
    else if p.outcome == Failure && !p.canary then streak + 1
    else streak
  }

  /** How many regular failures have been reported since the last success, read off the
      reports of the run alone. */
  function Streak(c: Config, run: seq<Action>): nat {
    if run == [] then 0 else
      var before, a := run[..|run| - 1], run[|run| - 1];
      match Run(c, before)
      case Some(s) =>
        if Enabled(s, a) && a.Report? then Counted(s.threads[a.t], Streak(c, before)) else Streak(c, before)
      case None => 0
  }

  lemma CanaryMeansHalfOpen(s: State, t: int)
    requires OneCanary(s) && t in s.threads && Canaries(s.threads[t]) == 1
    ensures s.inner == HalfOpen(true)
  {
    HolderCounts(s.threads, t, Canaries);
  }

  /** In every concurrent run a closed circuit has counted exactly the regular failures
      since the last success, its own closing included. */
  lemma {:induction false} FailuresAreTheStreak(c: Config, run: seq<Action>)
    requires ValidConfig(c) && Run(c, run).Some?
    ensures var s := Run(c, run).value;
      s.inner.Closed? ==> s.inner.failures == Streak(c, run)
  {
    if run != [] {
      var before, a := run[..|run| - 1], run[|run| - 1];
      FailuresAreTheStreak(c, before);
      RunKeepsInv(c, before);
      var s := Run(c, before).value;
      if a.Report? && s.threads[a.t].canary {
        CanaryMeansHalfOpen(s, a.t);
      }
    }
  }

  /** And it opens at the threshold-th failure in a row, whoever reports it and whatever
      else is in flight: a step takes a closed circuit to an open one if and only if it
      brings the streak to the threshold. */
  lemma TripsAtThreshold(c: Config, run: seq<Action>)
    requires ValidConfig(c) && Run(c, run).Some? && run != []
    requires Run(c, run[..|run| - 1]).value.inner.Closed?
    ensures var inner := Run(c, run).value.inner;
      && !inner.HalfOpen?
      && (inner.Open? <==> Streak(c, run) == c.limits.threshold)
      && Streak(c, run) <= c.limits.threshold
  {
    var before, a := run[..|run| - 1], run[|run| - 1];
    FailuresAreTheStreak(c, before);
    RunKeepsInv(c, before);
    var s := Run(c, before).value;
    if a.Report? && s.threads[a.t].canary {
      CanaryMeansHalfOpen(s, a.t);
    }
  }

  /** Whose step moves an open or half-open circuit: over every run, only the admission of
      a canary and that canary's own report. Attempts admitted before the trip report in
      vain. */
  lemma OnlyCanariesMoveIt(c: Config, run: seq<Action>)
    requires ValidConfig(c) && Run(c, run).Some? && run != []
    requires !Run(c, run[..|run| - 1]).value.inner.Closed?
    ensures var s, s', a := Run(c, run[..|run| - 1]).value, Run(c, run).value, run[|run| - 1];
      s'.inner != s.inner ==>
        || (a.AskBreaker? && s'.inner == HalfOpen(true) && Canaries(s'.threads[a.t]) == 1)
        || (a.Report? && s.inner == HalfOpen(true) && Canaries(s.threads[a.t]) == 1
            && Total(Each(s'.threads, Canaries)) == 0)
  {
    var before, a := run[..|run| - 1], run[|run| - 1];
    RunKeepsInv(c, before);
    RunKeepsInv(c, run);
  }

  // --- How an attempt is judged ---

  /** The converter let us down: it exited with an error, overran its deadline, broke its
      pipes, panicked, or gave something unusable. */
  predicate Faulty(c: Config, target: string, attempt: Attempt) {
    || attempt == Errored(ExitFailed) || attempt == Errored(Timeout) || attempt == Errored(Child) || attempt == Panicked
    || (attempt.Returned? && !c.usable(target, attempt.bytes))
  }

  /** The host did: the converter could not be started or confined, or the payload not
      read or written. */
  predicate HostSide(attempt: Attempt) {
    || attempt == Errored(Spawn) || attempt == Errored(Source) || attempt == Errored(Sink)
    || attempt == Errored(Isolation)
  }

  predicate Good(c: Config, target: string, attempt: Attempt) {
    attempt.Returned? && c.usable(target, attempt.bytes)
  }

  lemma JudgedAs(c: Config, target: string, attempt: Attempt)
    ensures var (outcome, kept) := Judge(c, target, attempt);
      && (outcome == Failure <==> Faulty(c, target, attempt))
      && (outcome == Neutral <==> HostSide(attempt))
      && (outcome == Success <==> Good(c, target, attempt))
      && kept == if Good(c, target, attempt) then Some(attempt.bytes) else None
  {
  }

  /** The step that settles an attempt: refused by a full throttle, or over. */
  predicate Settles(c: Config, s: State, a: Action) {
    Enabled(s, a) && ((a.AskThrottle? && s.inUse >= c.slots) || a.Finish?)
  }

  predicate Excused(c: Config, s: State, a: Action)
    requires Settles(c, s, a)
  {
    a.AskThrottle? || HostSide(a.attempt)
  }

  predicate WentWell(c: Config, s: State, a: Action)
    requires Settles(c, s, a)
  {
    a.Finish? && Good(c, s.threads[a.t].target, a.attempt)
  }

  // What it will report is then fixed.
  lemma SettledReport(c: Config, s: State, a: Action)
    requires Settles(c, s, a)
    ensures a.t in s.threads && (s.threads[a.t].Permitted? || s.threads[a.t].Converting?)
    ensures a.t in Apply(c, s, a).threads && Apply(c, s, a).threads[a.t].Reporting?
    ensures var p := Apply(c, s, a).threads[a.t];
      && p.canary == s.threads[a.t].canary
      && p.outcome == if Excused(c, s, a) then Neutral else if WentWell(c, s, a) then Success else Failure
  {
    if a.Finish? {
      JudgedAs(c, s.threads[a.t].target, a.attempt);
    }
  }

  lemma ReportingStays(c: Config, s: State, a: Action, t: int)
    requires Enabled(s, a) && t in s.threads && s.threads[t].Reporting? && !(a.Report? && a.t == t)
    ensures t in Apply(c, s, a).threads && Apply(c, s, a).threads[t] == s.threads[t]
  {
  }

  /** Step `i` settles an attempt, and the last step is its report. */
  ghost predicate SettledAndReported(c: Config, run: seq<Action>, i: nat) {
    && i < |run| - 1 && Run(c, run).Some? && Run(c, run[..i]).Some?
    && Settles(c, Run(c, run[..i]).value, run[i])
    && run[|run| - 1].Report? && run[|run| - 1].t == run[i].t
    && forall j | i < j < |run| - 1 :: run[j].Report? ==> run[j].t != run[i].t
  }

  // Until then it waits, whatever the other threads do.
  lemma {:induction false} WaitsToReport(c: Config, run: seq<Action>, i: nat)
    requires i < |run| && Run(c, run).Some? && Run(c, run[..i]).Some? && Settles(c, Run(c, run[..i]).value, run[i])
    requires forall j | i < j < |run| :: run[j].Report? ==> run[j].t != run[i].t
    ensures var s, t := Run(c, run[..i]).value, run[i].t;
      && t in s.threads && t in Run(c, run).value.threads
      && Run(c, run).value.threads[t] == Apply(c, s, run[i]).threads[t]
    decreases |run|
  {
    var before, a := run[..|run| - 1], run[|run| - 1];
    SettledReport(c, Run(c, run[..i]).value, run[i]);
    if i < |run| - 1 {
      assert before[..i] == run[..i] && before[i] == run[i];
      WaitsToReport(c, before, i);
      ReportingStays(c, Run(c, before).value, a, run[i].t);
    }
  }

  lemma ReportIsSettled(c: Config, run: seq<Action>, i: nat)
    requires SettledAndReported(c, run, i)
    ensures var s, t := Run(c, run[..i]).value, run[i].t;
      var p := Run(c, run[..|run| - 1]).value.threads[t];
      && t in s.threads && (s.threads[t].Permitted? || s.threads[t].Converting?)
      && p.Reporting? && p.canary == s.threads[t].canary
      && p.outcome == if Excused(c, s, run[i]) then Neutral else if WentWell(c, s, run[i]) then Success else Failure
  {
    var before := run[..|run| - 1];
    assert before[..i] == run[..i] && before[i] == run[i];
    WaitsToReport(c, before, i);
    SettledReport(c, Run(c, run[..i]).value, run[i]);
  }

  /** A regular attempt, in every concurrent run: a fault of the converter adds one to a
      closed circuit's count and at the threshold opens it for one cooldown; a success
      sets the count back; a full throttle or a host-side error does neither. A circuit
      that is not closed does not hear of it. */
  lemma RegularIsCounted(c: Config, run: seq<Action>, i: nat)
    requires ValidConfig(c) && SettledAndReported(c, run, i)
    ensures var s, at := Run(c, run[..i]).value, run[|run| - 1].at;
      var before, after := Run(c, run[..|run| - 1]).value.inner, Run(c, run).value.inner;
      run[i].t in s.threads && (s.threads[run[i].t].Permitted? || s.threads[run[i].t].Converting?) &&
      (!s.threads[run[i].t].canary ==>
         after == if !before.Closed? || Excused(c, s, run[i]) then before
                  else if WentWell(c, s, run[i]) then Closed(0)
                  else if before.failures + 1 >= c.limits.threshold then Open(at + c.limits.cooldown)
                  else Closed(before.failures + 1))
  {
    ReportIsSettled(c, run, i);
    RunKeepsInv(c, run[..|run| - 1]);
  }

  /** A canary decides: its success closes the circuit with nothing counted, a fault opens
      it again for one cooldown, and if it was excused the probe is free at once. */
  lemma CanaryDecides(c: Config, run: seq<Action>, i: nat)
    requires ValidConfig(c) && SettledAndReported(c, run, i)
    ensures var s, at := Run(c, run[..i]).value, run[|run| - 1].at;
      var before, after := Run(c, run[..|run| - 1]).value.inner, Run(c, run).value.inner;
      run[i].t in s.threads && (s.threads[run[i].t].Permitted? || s.threads[run[i].t].Converting?) &&
      (s.threads[run[i].t].canary ==>
         && before == HalfOpen(true)
         && after == if Excused(c, s, run[i]) then HalfOpen(false)
                     else if WentWell(c, s, run[i]) then Closed(0)
                     else Open(at + c.limits.cooldown))
  {
    ReportIsSettled(c, run, i);
    var before := run[..|run| - 1];
    RunKeepsInv(c, before);
    if Run(c, before).value.threads[run[i].t].canary {
      CanaryMeansHalfOpen(Run(c, before).value, run[i].t);
    }
  }

  /** Nothing else opens a circuit, and never for longer or shorter than one cooldown from
      the report. */
  lemma OpensForOneCooldown(c: Config, run: seq<Action>)
    requires Run(c, run).Some? && run != []
    requires !Run(c, run[..|run| - 1]).value.inner.Open? && Run(c, run).value.inner.Open?
    ensures run[|run| - 1].Report? && Run(c, run).value.inner.until == run[|run| - 1].at + c.limits.cooldown
  {
  }

  /** So whatever opened it, a trip or a canary, from the report's own time on nobody is
      admitted for one cooldown, and nothing moves it. */
  lemma OpenedRefusesEverybody(c: Config, run: seq<Action>, i: nat)
    requires i < |run| && Run(c, run).Some? && Run(c, run[..i]).Some? && Run(c, run[..i + 1]).Some?
    requires !Run(c, run[..i]).value.inner.Open? && Run(c, run[..i + 1]).value.inner.Open?
    ensures run[i].Report?
    ensures var s, s' := Run(c, run[..i + 1]).value, Run(c, run).value;
      s'.now < run[i].at + c.limits.cooldown ==>
        s'.inner == Open(run[i].at + c.limits.cooldown) && s'.admitted == s.admitted
  {
    var first := run[..i + 1];
    assert first[..i] == run[..i] && first[i] == run[i];
    OpensForOneCooldown(c, first);
    CooldownHolds(c, run, i + 1);
  }

  /** Who asks is answered by the circuit: a closed one admits everybody as a regular
      attempt; an open one nobody whose clock says its cooldown is not over; otherwise,
      and when the probe is free, one canary; while that is out, nobody. Whoever is not
      admitted keeps the original. */
  lemma AskedAndAnswered(c: Config, run: seq<Action>)
    requires Run(c, run).Some? && run != [] && run[|run| - 1].AskBreaker?
    ensures var s, s', a := Run(c, run[..|run| - 1]).value, Run(c, run).value, run[|run| - 1];
      && a.t in s.threads && s.threads[a.t].Planned? && a.t in s'.threads
      && var Planned(original, target) := s.threads[a.t];
         var refused := s.inner == HalfOpen(true) || (s.inner.Open? && a.at < s.inner.until);
         && s'.threads[a.t] == (if refused then Routed(original, Some(target), original)
                                else Permitted(original, target, !s.inner.Closed?))
         && s'.inner == (if s.inner.Closed? then s.inner else if refused then s.inner else HalfOpen(true))
         && s'.admitted == s.admitted + if refused then 0 else 1
  {
  }

  // --- What is not held against the converter ---

  /** The throttle was full, or the conversion failed for a reason of the host's: when
      the attempt that met it reports, after whatever the other threads did meanwhile, a
      closed circuit's count stays and no circuit opens. */
  lemma NeutralReportsDoNotCount(c: Config, run: seq<Action>, i: nat)
    requires ValidConfig(c) && SettledAndReported(c, run, i) && Excused(c, Run(c, run[..i]).value, run[i])
    ensures var before, after := Run(c, run[..|run| - 1]).value.inner, Run(c, run).value.inner;
      && (before.Closed? ==> after == before)
      && (after.Open? ==> after == before)
  {
    RegularIsCounted(c, run, i);
    CanaryDecides(c, run, i);
  }

  // --- And it does convert ---

  function RunFrom(c: Config, s: State, more: seq<Action>): Option<State>
    decreases |more|
  {
    if more == [] then Some(s)
    else if Enabled(s, more[0]) then RunFrom(c, Apply(c, s, more[0]), more[1..])
    else None
  }

  lemma RunFromFirst(c: Config, s: State, a: Action, more: seq<Action>)
    requires Enabled(s, a)
    ensures RunFrom(c, s, [a] + more) == RunFrom(c, Apply(c, s, a), more)
  {
    assert ([a] + more)[1..] == more;
  }

  /** With a closed circuit and a free slot, a thread's own steps turn a usable answer of
      the converter into the stored payload, under its new MIME, and give the slot back. */
  lemma FreeSlotConverts(c: Config, s: State, t: int, bytes: Bytes)
    requires t in s.threads && s.threads[t].Planned? && s.inner.Closed? && s.inUse < c.slots
    requires c.usable(s.threads[t].target, bytes)
    ensures var Planned(original, target) := s.threads[t];
      var more := [AskBreaker(t, s.now), AskThrottle(t)] + [Finish(t, Returned(bytes)), Report(t, s.now)];
      && RunFrom(c, s, more).Some?
      && var s' := RunFrom(c, s, more).value;
         && t in s'.threads && s'.threads[t] == Routed(original, Some(target), Payload(target, bytes))
         && s'.inner == Closed(0) && s'.inUse == s.inUse
  {
    var Planned(original, target) := s.threads[t];
    var ending := [Finish(t, Returned(bytes)), Report(t, s.now)];
    var s1 := Apply(c, s, AskBreaker(t, s.now));
    assert s1.threads[t] == Permitted(original, target, false) && s1.inUse == s.inUse && s1.inner == s.inner;
    var s2 := Apply(c, s1, AskThrottle(t));
    assert s2.threads[t] == Converting(original, target, false);
    var s3 := Apply(c, s2, ending[0]);
    assert s3.threads[t] == Reporting(original, target, false, Success, Some(bytes), false);
    RunFromFirst(c, s, AskBreaker(t, s.now), [AskThrottle(t)] + ending);
    RunFromFirst(c, s1, AskThrottle(t), ending);
    RunFromFirst(c, s2, ending[0], [ending[1]]);
    RunFromFirst(c, s3, ending[1], []);
    assert [AskBreaker(t, s.now), AskThrottle(t)] + ending == [AskBreaker(t, s.now)] + ([AskThrottle(t)] + ending);
    assert ending == [ending[0]] + [ending[1]] && [ending[1]] == [ending[1]] + [];
  }

  // --- The same attempt as a call ---

  /** `attempt_guarded` on the shared objects, undisturbed: the breaker is asked before
      the throttle, the slot is given back before the permit reports, and on every
      path, unwinding included, both are returned. */
  method AttemptGuarded(c: Config, breaker: CircuitBreaker, throttle: ProcessThrottle, target: string,
                        attempt: Attempt, asked: Instant, reported: Instant)
      returns (converted: Option<Bytes>, called: bool)
    requires breaker.Valid() && throttle.Valid()
    modifies breaker`inner, throttle`inUse
    ensures breaker.Valid() && throttle.Valid()
    ensures throttle.inUse == old(throttle.inUse)
    ensures var (inner, permit) := Acquire(old(breaker.inner), asked);
      && (called <==> permit.Some? && old(throttle.inUse) < throttle.limit)
      && converted == (if called then Judge(c, target, attempt).1 else None)
      && breaker.inner ==
           if permit.None? then inner
           else Resolve(breaker.limits, inner, permit.value, if called then Judge(c, target, attempt).0 else Neutral,
                        reported).0
    ensures converted == if called && Good(c, target, attempt) then Some(attempt.bytes) else None
    ensures old(breaker.inner).Closed? ==>
      breaker.inner ==
        if !called || HostSide(attempt) then old(breaker.inner)
        else if Good(c, target, attempt) then Closed(0)
        else if old(breaker.inner).failures + 1 >= breaker.limits.threshold
          then Open(reported + breaker.limits.cooldown)
        else Closed(old(breaker.inner).failures + 1)
  {
    JudgedAs(c, target, attempt);
    converted, called := None, false;
    var permit := breaker.AcquireAt(asked);
    if permit.None? {
      return;
    }
    called := throttle.Acquire();
    if !called {
      var _, _ := permit.value.Finish(Neutral, reported);
      return;
    }
    throttle.Release();
    if attempt.Panicked? {
      permit.value.Drop(reported);
      return;
    }
    var (outcome, kept) := Judge(c, target, attempt);
    var _, _ := permit.value.Finish(outcome, reported);
    converted := kept;
  }

  /** `route_with`: whatever happens, a pair worth storing comes back. */
  method RouteWith(c: Config, breaker: CircuitBreaker, throttle: ProcessThrottle, payload: Payload,
                   target: Option<string>, attempt: Attempt, asked: Instant, reported: Instant)
      returns (result: Payload)
    requires breaker.Valid() && throttle.Valid()
    modifies breaker`inner, throttle`inUse
    ensures breaker.Valid() && throttle.Valid() && throttle.inUse == old(throttle.inUse)
    ensures target.None? ==> result == payload && breaker.inner == old(breaker.inner)
    ensures result == payload || (target.Some? && result.mime == target.value && c.usable(target.value, result.bytes)
                                  && attempt == Returned(result.bytes))
    ensures attempt.Returned? && target.Some? && c.usable(target.value, attempt.bytes)
      && old(breaker.inner).Closed? && old(throttle.inUse) < throttle.limit
      ==> result == Payload(target.value, attempt.bytes) && breaker.inner == Closed(0)
  {
    if target.None? {
      return payload;
    }
    var converted, _ := AttemptGuarded(c, breaker, throttle, target.value, attempt, asked, reported);
    return if converted.Some? then Payload(target.value, converted.value) else payload;
  }
}
