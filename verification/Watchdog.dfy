/** The deadline of one converter run: a watchdog thread that may kill the child's
    process group, a main thread that must not let it hit a recycled pid, and a child
    that may hang. */
module Watchdog {
  import opened Core

  datatype WatchState = Running | Finished | TimedOut
  datatype Lock = Free | HeldByMain | HeldByDog

  /** A reaped pid may name an unrelated process. */
  datatype Child = Alive | Zombie | Reaped

  /** Where `run_filter_inner` stands once the child is spawned. */
  datatype MainPc =
    | Starting
    | EarlyKill | EarlyReap | Abandoned
    | Draining
    | KillOnError
    | AwaitExit
    | EnterFinish
    | InFinish
    | Notify(timedOut: bool)
    | Reap(timedOut: bool)
    | Join(timedOut: bool)
    | Done(timedOut: bool)

  /** Where `supervise` stands; `Checking` and from `Deciding` to `Marking` it holds the
      lock. */
  datatype DogPc = Absent | Entering | Checking | Asleep | Deciding | Killing | Marking | Gone

  /** `outOpen`: somebody in the child's group still holds its standard output. `sideOpen`:
      somebody holds a pipe one of the two worker threads is at. `killed`: the group has
      been sent SIGKILL. */
  datatype State = State(
    watch: WatchState,
    lock: Lock,
    child: Child,
    outOpen: bool,
    sideOpen: bool,
    killed: bool,
    expired: bool,
    waitFailed: bool,
    main: MainPc,
    dog: DogPc)

  const START: State := State(Running, Free, Alive, true, true, false, false, false, Starting, Absent)

  datatype MainAction =
    | StartWithDeadline | StartWithout | StartFails | DoEarlyKill | DoEarlyReap
    | DrainOk | DrainFails | DoKill | ExitSeen | WaitFails
    | LockFinish | DoFinish | DoNotify | DoReap | DoJoin

  datatype DogAction = DogLocks | DogChecks | DogTimesOut | DogDecides | DogKills | DogMarks

  datatype WorldAction = SpuriousWake | ChildExits | OutCloses | SidesClose | DeadlinePasses

  datatype Action = Main(m: MainAction) | Dog(d: DogAction) | World(x: WorldAction)

  predicate Enabled(s: State, a: Action) {
    match a
    case Main(m) => MainEnabled(s, m)
    case Dog(d) => DogEnabled(s, d)
    case World(x) => WorldEnabled(s, x)
  }

  function Apply(s: State, a: Action): State
    requires Enabled(s, a)
  {
    match a
    case Main(m) => MainStep(s, m)
    case Dog(d) => DogStep(s, d)
    case World(x) => WorldStep(s, x)
  }

  predicate MainEnabled(s: State, m: MainAction) {
    match m
    case StartWithDeadline => s.main == Starting
    case StartWithout => s.main == Starting
    case StartFails => s.main == Starting
    case DoEarlyKill => s.main == EarlyKill
    case DoEarlyReap => s.main == EarlyReap && s.child != Alive
    // The drain ends at end of file, or early on an error.
    case DrainOk => s.main == Draining && !s.outOpen
    case DrainFails => s.main == Draining
    case DoKill => s.main == KillOnError
    // `waitid` returns once the child has exited, or early on an error.
    case ExitSeen => s.main == AwaitExit && s.child != Alive
    case WaitFails => s.main == AwaitExit
    case LockFinish => s.main == EnterFinish && s.lock == Free
    case DoFinish => s.main == InFinish
    case DoNotify => s.main.Notify?
    case DoReap => s.main.Reap? && s.child != Alive
    // All three workers are joined.
    case DoJoin => s.main.Join? && !s.sideOpen && (s.dog == Absent || s.dog == Gone)
  }

  function AfterDrain(s: State): MainPc {
    if s.dog == Absent then Reap(false) else AwaitExit
  }

  function MainStep(s: State, m: MainAction): State
    requires MainEnabled(s, m)
  {
    match m
    case StartWithDeadline => s.(main := Draining, dog := Entering)
    case StartWithout => s.(main := Draining)
    case StartFails => s.(main := EarlyKill)
    case DoEarlyKill => s.(main := EarlyReap, killed := true)
    case DoEarlyReap => s.(main := Abandoned, child := Reaped)
    case DrainOk => s.(main := AfterDrain(s))
    case DrainFails => s.(main := KillOnError)
    case DoKill => s.(main := AfterDrain(s), killed := true)
    case ExitSeen => s.(main := EnterFinish)
    case WaitFails => s.(main := EnterFinish, waitFailed := true)
    case LockFinish => s.(main := InFinish, lock := HeldByMain)
    case DoFinish =>
      var watch := if s.watch == Running then Finished else s.watch;
      s.(watch := watch, lock := Free, main := Notify(watch == TimedOut))
    // `notify_all` reaches whoever sleeps now; it is not remembered.
    case DoNotify => s.(main := Reap(s.main.timedOut), dog := if s.dog == Asleep then Entering else s.dog)
    case DoReap => s.(child := Reaped, main := Join(s.main.timedOut))
    case DoJoin => s.(main := Done(s.main.timedOut))
  }

  predicate DogEnabled(s: State, d: DogAction) {
    match d
    case DogLocks => s.dog == Entering && s.lock == Free
    case DogChecks => s.dog == Checking
    case DogTimesOut => s.dog == Asleep && s.expired
    case DogDecides => s.dog == Deciding
    case DogKills => s.dog == Killing
    case DogMarks => s.dog == Marking
  }

  function DogStep(s: State, d: DogAction): State
    requires DogEnabled(s, d)
  {
    match d
    case DogLocks => s.(dog := Checking, lock := HeldByDog)
    // `wait_timeout_while`: leave when told to stand down or out of time, else sleep.
    case DogChecks =>
      if s.watch != Running || s.expired then s.(dog := Deciding) else s.(dog := Asleep, lock := Free)
    case DogTimesOut => s.(dog := Entering)
    case DogDecides => if s.watch == Running then s.(dog := Killing) else s.(dog := Gone, lock := Free)
    case DogKills => s.(dog := Marking, killed := true)
    case DogMarks => s.(watch := TimedOut, dog := Gone, lock := Free)
  }

  predicate WorldEnabled(s: State, x: WorldAction) {
    match x
    case SpuriousWake => s.dog == Asleep
    case ChildExits => s.child == Alive
    case OutCloses => s.outOpen
    case SidesClose => s.sideOpen
    case DeadlinePasses => !s.expired
  }

  function WorldStep(s: State, x: WorldAction): State
    requires WorldEnabled(s, x)
  {
    match x
    case SpuriousWake => s.(dog := Entering)
    case ChildExits => s.(child := Zombie)
    case OutCloses => s.(outOpen := false)
    case SidesClose => s.(sideOpen := false)
    case DeadlinePasses => s.(expired := true)
  }

  // The main thread starts the watchdog and wakes it; the rest of it is its own.
  lemma MainLeavesDog(s: State, m: MainAction)
    requires MainEnabled(s, m)
    ensures var s' := MainStep(s, m);
      && s'.expired == s.expired && (s.killed ==> s'.killed) && (s'.sideOpen ==> s.sideOpen)
      && (s'.child == Alive ==> s.child == Alive)
      && (m != StartWithDeadline && m != DoNotify ==> s'.dog == s.dog)
      && (m == StartWithDeadline || (m == DoNotify && s.dog == Asleep) ==> s'.dog == Entering)
      && (m == DoNotify && s.dog != Asleep ==> s'.dog == s.dog)
      && s'.watch == if m == DoFinish && s.watch == Running then Finished else s.watch
  {
  }

  // The world at most wakes the watchdog.
  lemma WorldLeavesThreads(s: State, x: WorldAction)
    requires WorldEnabled(s, x)
    ensures var s' := WorldStep(s, x);
      && s'.main == s.main && s'.watch == s.watch && s'.lock == s.lock && s'.killed == s.killed
      && (s.expired ==> s'.expired) && (s'.sideOpen ==> s.sideOpen) && (s'.child == Alive ==> s.child == Alive)
      && s'.dog == if x == SpuriousWake then Entering else s.dog
  {
  }

  /** The actions that send SIGKILL to the child's process group. */
  predicate Kills(a: Action) {
    a == Main(DoKill) || a == Main(DoEarlyKill) || a == Dog(DogKills)
  }

  // --- Invariant ---

  predicate DogHoldsLock(d: DogPc) {
    d == Checking || d == Deciding || d == Killing || d == Marking
  }

  predicate PastNotify(m: MainPc) {
    m.Reap? || m.Join? || m.Done?
  }

  predicate PastFinish(m: MainPc) {
    m.Notify? || PastNotify(m)
  }

  predicate PastWait(m: MainPc) {
    m == EnterFinish || m == InFinish || PastFinish(m)
  }

  predicate EarlyEnd(m: MainPc) {
    m == Starting || m == EarlyKill || m == EarlyReap || m == Abandoned
  }

  /** Who holds the lock, who is still about, and when the child may be gone. No wake-up
      is lost: once notified, the watchdog is not asleep. */
  ghost predicate Placed(s: State) {
    && (s.lock == HeldByDog <==> DogHoldsLock(s.dog))
    && (s.lock == HeldByMain <==> s.main == InFinish)
    && (s.child == Reaped ==> s.main.Join? || s.main.Done? || s.main == Abandoned)
    && (EarlyEnd(s.main) ==> s.dog == Absent)
    && (s.main == AwaitExit || s.main == EnterFinish || s.main == InFinish || s.main.Notify? ==> s.dog != Absent)
    && (s.main.Done? ==> (s.dog == Absent || s.dog == Gone) && !s.sideOpen)
    && (s.main.Join? || s.main.Done? ==> s.child == Reaped)
    && (s.dog != Absent && PastWait(s.main) && s.child == Alive ==> s.waitFailed)
  }

  /** What the shared state says of the watchdog, and that a kill is on record. */
  ghost predicate Watched(s: State) {
    && (s.dog == Killing || s.dog == Marking || s.dog == Absent ==> s.watch == Running)
    && (s.dog == Gone ==> s.watch != Running)
    && (s.watch == TimedOut ==> s.dog == Gone)
    && (s.watch == TimedOut || s.dog == Marking || s.main == EarlyReap ==> s.killed)
  }

  /** What it says of the main thread. */
  ghost predicate Told(s: State) {
    && (PastFinish(s.main) && s.dog != Absent ==> s.watch != Running)
    && (PastFinish(s.main) ==> (s.main.timedOut <==> s.watch == TimedOut))
    && (s.watch == Finished ==> PastFinish(s.main))
    && (PastNotify(s.main) ==> s.dog != Asleep)
  }

  ghost predicate Inv(s: State) {
    Placed(s) && Watched(s) && Told(s)
  }

  lemma MainKeepsPlaced(s: State, m: MainAction)
    requires Placed(s) && MainEnabled(s, m)
    ensures Placed(MainStep(s, m))
  {
  }

  lemma DogKeepsPlaced(s: State, d: DogAction)
    requires Placed(s) && DogEnabled(s, d)
    ensures Placed(DogStep(s, d))
  {
  }

  lemma WorldKeepsInv(s: State, x: WorldAction)
    requires Inv(s) && WorldEnabled(s, x)
    ensures Inv(WorldStep(s, x))
  {
  }

  lemma MainKeepsWatched(s: State, m: MainAction)
    requires Placed(s) && Watched(s) && MainEnabled(s, m)
    ensures Watched(MainStep(s, m))
  {
  }

  lemma MainKeepsTold(s: State, m: MainAction)
    requires Inv(s) && MainEnabled(s, m)
    ensures Told(MainStep(s, m))
  {
  }

  lemma DogKeepsWatched(s: State, d: DogAction)
    requires Inv(s) && DogEnabled(s, d)
    ensures Watched(DogStep(s, d)) && Told(DogStep(s, d))
  {
  }

  lemma StepKeepsInv(s: State, a: Action)
    requires Inv(s) && Enabled(s, a)
    ensures Inv(Apply(s, a))
  {
    match a
    case Main(m) =>
      MainKeepsPlaced(s, m);
      MainKeepsWatched(s, m);
      MainKeepsTold(s, m);
    case Dog(d) =>
      DogKeepsPlaced(s, d);
      DogKeepsWatched(s, d);
    case World(x) => WorldKeepsInv(s, x);
  }

  function Run(run: seq<Action>): Option<State> {
    if run == [] then Some(START) else
      match Run(run[..|run| - 1])
      case Some(s) => if Enabled(s, run[|run| - 1]) then Some(Apply(s, run[|run| - 1])) else None
      case None => None
  }

  lemma {:induction false} RunKeepsInv(run: seq<Action>)
    requires Run(run).Some?
    ensures Inv(Run(run).value)
  {
    if run != [] {
      RunKeepsInv(run[..|run| - 1]);
      StepKeepsInv(Run(run[..|run| - 1]).value, run[|run| - 1]);
    }
  }

  /** In every interleaving each group SIGKILL is sent while the child is still
      unreaped, so the pid is the child's. */
  lemma {:induction false} KillsHitTheChild(run: seq<Action>, i: nat)
    requires Run(run).Some? && i < |run| && Kills(run[i])
    ensures Run(run[..i]).Some? && Run(run[..i]).value.child != Reaped
    decreases |run|
  {
    if i == |run| - 1 {
      RunKeepsInv(run[..i]);
    } else {
      var before := run[..|run| - 1];
      KillsHitTheChild(before, i);
      assert before[..i] == run[..i];
    }
  }

  /** A drain that failed is followed by a kill of the group before the main thread waits
      for anything. */
  lemma {:induction false} FailedDrainKills(run: seq<Action>, i: nat)
    requires Run(run).Some? && i < |run| && run[i] == Main(DrainFails)
    ensures Run(run).value.main == KillOnError || Run(run).value.killed
    decreases |run|
  {
    if i < |run| - 1 {
      var before := run[..|run| - 1];
      FailedDrainKills(before, i);
      KillsStayOnRecord(Run(before).value, run[|run| - 1]);
    }
  }

  lemma KillsStayOnRecord(s: State, a: Action)
    requires Enabled(s, a)
    ensures s.killed ==> Apply(s, a).killed
    ensures s.main == KillOnError ==> Apply(s, a).killed || Apply(s, a).main == KillOnError
  {
  }

  // --- Timeouts ---

  /** How many kills the watchdog has sent. */
  function Fired(run: seq<Action>): nat {
    if run == [] then 0 else Fired(run[..|run| - 1]) + if run[|run| - 1] == Dog(DogKills) then 1 else 0
  }

  /** The watchdog acts against the child only after the deadline. */
  predicate OnlyLate(s: State) {
    s.watch == TimedOut || s.dog in {Killing, Marking} || (s.dog == Deciding && s.watch == Running) ==> s.expired
  }

  function KillsDue(s: State): nat {
    if s.watch == TimedOut || s.dog == Marking then 1 else 0
  }

  lemma MainFiresNothing(s: State, m: MainAction)
    requires Inv(s) && MainEnabled(s, m) && OnlyLate(s)
    ensures KillsDue(MainStep(s, m)) == KillsDue(s) && OnlyLate(MainStep(s, m))
  {
    MainLeavesDog(s, m);
  }

  lemma DogFiresOnce(s: State, d: DogAction)
    requires Inv(s) && DogEnabled(s, d) && OnlyLate(s)
    ensures KillsDue(DogStep(s, d)) == KillsDue(s) + (if d == DogKills then 1 else 0)
    ensures OnlyLate(DogStep(s, d))
  {
  }

  lemma FiresOnce(s: State, a: Action)
    requires Inv(s) && Enabled(s, a) && OnlyLate(s)
    ensures KillsDue(Apply(s, a)) == KillsDue(s) + (if a == Dog(DogKills) then 1 else 0)
    ensures OnlyLate(Apply(s, a))
  {
    match a
    case Main(m) => MainFiresNothing(s, m);
    case Dog(d) => DogFiresOnce(s, d);
    case World(x) => WorldLeavesThreads(s, x);
  }

  lemma {:induction false} FiredIsDue(run: seq<Action>)
    requires Run(run).Some?
    ensures Fired(run) == KillsDue(Run(run).value) && OnlyLate(Run(run).value)
  {
    if run != [] {
      var before := run[..|run| - 1];
      FiredIsDue(before);
      RunKeepsInv(before);
      FiresOnce(Run(before).value, run[|run| - 1]);
    }
  }

  /** A run that ends reports a timeout exactly when the watchdog sent its kill, which it
      sends at most once and only after the deadline. */
  lemma TimeoutIffFired(run: seq<Action>)
    requires Run(run).Some? && Run(run).value.main.Done?
    ensures Fired(run) == if Run(run).value.main.timedOut then 1 else 0
    ensures Fired(run) > 0 ==> Run(run).value.expired
  {
    RunKeepsInv(run);
    FiredIsDue(run);
  }

  // --- Every run is short ---

  function MainRank(m: MainPc): nat {
    match m
    case Starting => 10
    case Draining => 9
    case KillOnError => 8
    case AwaitExit => 7
    case EnterFinish => 6
    case InFinish => 5
    case Notify(_) => 4
    case Reap(_) => 3
    case EarlyKill => 3
    case EarlyReap => 2
    case Join(_) => 2
    case _ => 0
  }

  /** How far the watchdog is from its end; before the deadline it may sleep once more. */
  function DogRank(d: DogPc, expired: bool): nat {
    match d
    case Entering => if expired then 5 else 8
    case Checking => if expired then 4 else 7
    case Asleep => 6
    case Deciding => 3
    case Killing => 2
    case Marking => 1
    case _ => 0
  }

  function WorldRank(s: State): nat {
    (if s.child == Alive then 1 else 0) + (if s.outOpen then 1 else 0) + (if s.sideOpen then 1 else 0)
    + (if s.expired then 0 else 1)
  }

  function Rank(s: State): nat {
    10 * MainRank(s.main) + DogRank(s.dog, s.expired) + WorldRank(s)
  }

  lemma MainLowersRank(s: State, m: MainAction)
    requires MainEnabled(s, m)
    ensures Rank(MainStep(s, m)) < Rank(s)
  {
  }

  lemma DogLowersRank(s: State, d: DogAction)
    requires DogEnabled(s, d)
    ensures Rank(DogStep(s, d)) < Rank(s)
  {
    var s' := DogStep(s, d);
    assert s'.main == s.main && WorldRank(s') == WorldRank(s);
    DogAdvances(s, d);
  }

  lemma DogAdvances(s: State, d: DogAction)
    requires DogEnabled(s, d)
    ensures DogRank(DogStep(s, d).dog, s.expired) < DogRank(s.dog, s.expired)
  {
  }

  lemma StepLowersRank(s: State, a: Action)
    requires Enabled(s, a)
    ensures if a == World(SpuriousWake) then Rank(Apply(s, a)) <= Rank(s) + 2 else Rank(Apply(s, a)) < Rank(s)
  {
    match a
    case Main(m) => MainLowersRank(s, m);
    case Dog(d) => DogLowersRank(s, d);
    case World(x) => WorldLowersRank(s, x);
  }

  lemma WorldLowersRank(s: State, x: WorldAction)
    requires WorldEnabled(s, x)
    ensures if x == SpuriousWake then Rank(WorldStep(s, x)) <= Rank(s) + 2 else Rank(WorldStep(s, x)) < Rank(s)
  {
  }

  function Spurious(run: seq<Action>): nat {
    if run == [] then 0 else Spurious(run[..|run| - 1]) + if run[|run| - 1] == World(SpuriousWake) then 1 else 0
  }

  /** Whatever is scheduled, a run goes on for a fixed number of steps only, three more
      for every spurious wake-up. */
  lemma {:induction false} EveryRunIsShort(run: seq<Action>)
    requires Run(run).Some?
    ensures |run| + Rank(Run(run).value) <= Rank(START) + 3 * Spurious(run)
  {
    if run != [] {
      var before := run[..|run| - 1];
      EveryRunIsShort(before);
      StepLowersRank(Run(before).value, run[|run| - 1]);
    }
  }

  // --- And where it stops ---

  /** What is certain to happen without any goodwill of the child's: the steps of the two
      threads, the deadline, and whatever a kill brings about. */
  predicate Granted(s: State, a: Action) {
    match a
    case Main(m) => m != StartFails && m != DrainFails && m != WaitFails
    case Dog(_) => true
    case World(x) => x == DeadlinePasses || (s.killed && x != SpuriousWake)
  }

  predicate Ended(m: MainPc) {
    m.Done? || m == Abandoned
  }

  /** The main thread waits for the child, or for a process it left behind, and nothing
      will come of it. */
  predicate Hangs(s: State) {
    && !s.killed
    && match s.main
       case Draining => s.outOpen && s.dog == Absent
       case Reap(_) => s.child == Alive
       case Join(_) => s.sideOpen
       case _ => false
  }

  /** The watchdog's next step, or the deadline it sleeps for. */
  function DogNext(s: State): Action {
    match s.dog
    case Entering => Dog(DogLocks)
    case Checking => Dog(DogChecks)
    case Asleep => if s.expired then Dog(DogTimesOut) else World(DeadlinePasses)
    case Deciding => Dog(DogDecides)
    case Killing => Dog(DogKills)
    case Marking => Dog(DogMarks)
    case _ => World(DeadlinePasses)
  }

  // Nobody but the main thread inside `finish` can keep the watchdog waiting.
  lemma DogNextIsOpen(s: State)
    requires Placed(s) && s.main != InFinish && s.dog != Absent && s.dog != Gone
    ensures Enabled(s, DogNext(s)) && Granted(s, DogNext(s))
  {
  }

  /** A step that is certain to come, unless the run has ended or hangs. */
  function NextStep(s: State): Action {
    match s.main
    case Starting => Main(StartWithout)
    case EarlyKill => Main(DoEarlyKill)
    case EarlyReap => if s.child == Alive then World(ChildExits) else Main(DoEarlyReap)
    case Draining => if !s.outOpen then Main(DrainOk) else if s.killed then World(OutCloses) else DogNext(s)
    case KillOnError => Main(DoKill)
    case AwaitExit => if s.child != Alive then Main(ExitSeen) else if s.killed then World(ChildExits) else DogNext(s)
    case EnterFinish => if s.lock == Free then Main(LockFinish) else DogNext(s)
    case InFinish => Main(DoFinish)
    case Notify(_) => Main(DoNotify)
    case Reap(_) => if s.child == Alive then World(ChildExits) else Main(DoReap)
    case _ =>
      if s.sideOpen then World(SidesClose) else if s.dog == Absent || s.dog == Gone then Main(DoJoin) else DogNext(s)
  }

  lemma SomethingComes(s: State)
    requires Inv(s) && !Ended(s.main) && !Hangs(s)
    ensures Granted(s, NextStep(s)) && Enabled(s, NextStep(s))
  {
    if s.main != InFinish && s.dog != Absent && s.dog != Gone {
      DogNextIsOpen(s);
    }
  }

  /** A run stops only at its end or where it hangs: in any other reachable state some
      step is certain to come. With the bound above, every schedule gets there. */
  lemma StopsAtTheEndOrHangs(run: seq<Action>)
    requires Run(run).Some?
    requires forall a | Granted(Run(run).value, a) :: !Enabled(Run(run).value, a)
    ensures Ended(Run(run).value.main) || Hangs(Run(run).value)
  {
    RunKeepsInv(run);
    if !Ended(Run(run).value.main) && !Hangs(Run(run).value) {
      SomethingComes(Run(run).value);
    }
  }

  // --- What the deadline is worth ---

  /** The watchdog has been stood down, or is about to be, while the child lives or a
      process it left behind holds a pipe, and neither was killed. */
  predicate Doomed(s: State) {
    && !s.killed && (s.child == Alive || s.sideOpen)
    && (s.watch == Finished || (s.main == InFinish && s.watch == Running))
  }

  /** Where a sequence of steps leads that need nobody's goodwill. */
  function Forced(s: State, more: seq<Action>): Option<State>
    decreases |more|
  {
    if more == [] then Some(s)
    else if Enabled(s, more[0]) && Granted(s, more[0]) then Forced(Apply(s, more[0]), more[1..])
    else None
  }

  lemma DoomedStays(s: State, a: Action)
    requires Inv(s) && Doomed(s) && s.dog != Absent && Enabled(s, a) && Granted(s, a)
    ensures Doomed(Apply(s, a)) && Apply(s, a).dog != Absent
  {
  }

  lemma {:induction false} DoomedNeverEnds(s: State, more: seq<Action>)
    requires Inv(s) && Doomed(s) && s.dog != Absent && Forced(s, more).Some?
    ensures !Ended(Forced(s, more).value.main)
    decreases |more|
  {
    if more != [] {
      DoomedStays(s, more[0]);
      StepKeepsInv(s, more[0]);
      DoomedNeverEnds(Apply(s, more[0]), more[1..]);
    }
  }

  /** While this holds, the deadline is still to strike. */
  predicate Striking(s: State) {
    !s.killed && s.watch == Running && s.main != InFinish
  }

  /** The way to the end: let the deadline strike first, then let the main thread see to
      what is dead. */
  function ForcedMove(s: State): Action {
    if Striking(s) then DogNext(s) else NextStep(s)
  }

  lemma StrikeIsOpen(s: State)
    requires Inv(s) && s.dog != Absent && Striking(s)
    ensures Enabled(s, DogNext(s)) && Granted(s, DogNext(s))
    ensures Apply(s, DogNext(s)).dog != Absent && !Doomed(Apply(s, DogNext(s)))
  {
    DogNextIsOpen(s);
  }

  // What is not yet dead has been killed, so the rest goes by itself.
  lemma SeeingToItIsOpen(s: State)
    requires Inv(s) && s.dog != Absent && !Ended(s.main) && !Doomed(s) && !Striking(s)
    ensures Enabled(s, NextStep(s)) && Granted(s, NextStep(s))
    ensures !s.killed ==> s.child != Alive && !s.sideOpen
  {
    SomethingComes(s);
  }

  lemma StaysSaved(s: State, a: Action)
    requires s.dog != Absent && (s.killed || (s.child != Alive && !s.sideOpen)) && Enabled(s, a)
    ensures Apply(s, a).dog != Absent && !Doomed(Apply(s, a))
  {
    match a
    case Main(m) => MainLeavesDog(s, m);
    case Dog(_) =>
    case World(x) => WorldLeavesThreads(s, x);
  }

  lemma {:induction false} EndByForce(s: State) returns (more: seq<Action>)
    requires Inv(s) && s.dog != Absent && !Doomed(s)
    ensures Forced(s, more).Some? && Ended(Forced(s, more).value.main) && |more| <= Rank(s)
    decreases Rank(s)
  {
    if Ended(s.main) {
      return [];
    }
    var a := ForcedMove(s);
    if Striking(s) {
      StrikeIsOpen(s);
    } else {
      SeeingToItIsOpen(s);
      StaysSaved(s, a);
    }
    StepKeepsInv(s, a);
    StepLowersRank(s, a);
    var rest := EndByForce(Apply(s, a));
    assert ([a] + rest)[1..] == rest;
    return [a] + rest;
  }

  lemma RunExtends(run: seq<Action>, a: Action)
    requires Run(run).Some? && Enabled(Run(run).value, a)
    ensures Run(run + [a]) == Some(Apply(Run(run).value, a))
  {
    assert (run + [a])[..|run|] == run;
  }

  /** With a watchdog, the end can be forced from a reachable state, the child dying and
      the pipes closing only by a kill, if and only if the watchdog was not stood down
      too early. */
  lemma EndsByForceIff(run: seq<Action>)
    requires Run(run).Some? && Run(run).value.dog != Absent
    ensures var s := Run(run).value;
      (exists more :: Forced(s, more).Some? && Ended(Forced(s, more).value.main)) <==> !Doomed(s)
  {
    var s := Run(run).value;
    RunKeepsInv(run);
    if Doomed(s) {
      forall more | Forced(s, more).Some?
        ensures !Ended(Forced(s, more).value.main)
      {
        DoomedNeverEnds(s, more);
      }
    } else {
      var more := EndByForce(s);
    }
  }

  /** And that takes a failing `waitid`, or a process that outlives the child holding a
      pipe other than its standard output. */
  lemma DoomedOnlyByHelper(run: seq<Action>)
    requires Run(run).Some? && Run(run).value.dog != Absent && Doomed(Run(run).value)
    ensures var s := Run(run).value;
      s.waitFailed || (s.child != Alive && s.sideOpen)
  {
    RunKeepsInv(run);
  }

  /** Once notified the watchdog never sleeps again: each of its steps takes it closer to
      its end and nobody else moves it, so joining it is prompt. */
  lemma StandsDownPromptly(run: seq<Action>, a: Action)
    requires Run(run).Some? && Enabled(Run(run).value, a) && PastNotify(Run(run).value.main)
    ensures var s := Run(run).value; var s' := Apply(s, a);
      && s.dog != Asleep
      && if a.Dog? then DogRank(s'.dog, true) < DogRank(s.dog, true) else s'.dog == s.dog
  {
    RunKeepsInv(run);
    StoodDownStep(Run(run).value, a);
  }

  lemma StoodDownStep(s: State, a: Action)
    requires Inv(s) && Enabled(s, a) && PastNotify(s.main)
    ensures if a.Dog? then DogRank(Apply(s, a).dog, true) < DogRank(s.dog, true) else Apply(s, a).dog == s.dog
  {
    match a
    case Main(m) => MainLeavesDog(s, m);
    case Dog(d) => StoodDownDog(s, d);
    case World(x) => WorldLeavesThreads(s, x);
  }

  lemma StoodDownDog(s: State, d: DogAction)
    requires Inv(s) && DogEnabled(s, d) && PastNotify(s.main)
    ensures DogRank(DogStep(s, d).dog, true) < DogRank(s.dog, true)
  {
  }
}
