/** One tick of the RPC collector: a main goroutine that spawns a worker per endpoint under a
    semaphore and a WaitGroup, and workers that probe, set a gauge, count and record the first error
    under a mutex. Every schedule of their steps is a run. */
module BridgeRpc {
  import opened Text

  datatype Kind = KindAPI | KindTimeout

  datatype Status = StatusOK | StatusFail | StatusTimeout | StatusAuthError

  /** An error as errors.Is sees it. */
  datatype Error = Error(deadlineExceeded: bool, canceled: bool, auth: bool, text: string) {
    function Kind(): Kind {
      if deadlineExceeded || canceled then KindTimeout else KindAPI
    }

    function Status(): Status {
      if deadlineExceeded || canceled then StatusTimeout else if auth then StatusAuthError else StatusFail
    }
  }

  type Gauges = map<string, int>

  type Counters = map<(string, Status), nat>

  /** A configured endpoint and what its probe is going to answer. */
  datatype Job = Job(name: string, url: string, failure: Option<Error>) {
    function Status(): Status {
      if failure.Some? then failure.value.Status() else StatusOK
    }

    function Up(): int {
      if failure.Some? then 0 else 1
    }
  }

  /** How far a job has come; main drives it up to Spawned, its worker from there. */
  datatype Phase =
    | Waiting | Skipped
    | Added | Holding | Spawned
    | Probing | Answered | UpSet | Counted | Locked | Recorded | Leaving | Released | Finished
  {
    function Rank(): nat {
      match this
      case Waiting => 0
      case Skipped => 12
      case Added => 1
      case Holding => 2
      case Spawned => 3
      case Probing => 4
      case Answered => 5
      case UpSet => 6
      case Counted => 7
      case Locked => 8
      case Recorded => 9
      case Leaving => 10
      case Released => 11
      case Finished => 12
    }

    /** Holds a semaphore token. */
    predicate Token() { 2 <= Rank() <= 10 }

    /** Is counted by the WaitGroup. */
    predicate Grouped() { 1 <= Rank() <= 11 }

    /** Has been reached and not skipped, and come at least as far as `p`. */
    predicate Past(p: Phase) { this != Skipped && Rank() >= p.Rank() }

    predicate Mutexed() { this == Locked || this == Recorded }
  }

  datatype First = First(error: Error, kind: Kind)

  datatype State = State(phases: seq<Phase>, next: nat, tokens: int, group: int, holder: Option<nat>,
                         first: Option<First>, up: Gauges, checks: Counters,
                         probed: multiset<nat>, returned: bool)

  datatype Action =
    | Skip | Add | Acquire | Spawn | Return
    | Probe(i: nat) | Answer(i: nat) | SetUp(i: nat) | Count(i: nat) | Lock(i: nat) | Record(i: nat)
    | Unlock(i: nat) | Release(i: nat) | Done(i: nat)

  function Checks(checks: Counters, name: string, status: Status): nat {
    if (name, status) in checks then checks[(name, status)] else 0
  }

  predicate At(s: State, i: nat, p: Phase) {
    i < |s.phases| && s.phases[i] == p
  }

  /** The job an action is about. */
  function Subject(s: State, a: Action): nat {
    match a
    case Probe(i) => i case Answer(i) => i case SetUp(i) => i case Count(i) => i case Lock(i) => i
    case Record(i) => i case Unlock(i) => i case Release(i) => i case Done(i) => i
    case _ => s.next
  }

  /** The phase an action leaves its job in. */
  function Target(a: Action): Phase
    requires a != Return
  {
    match a
    case Skip => Skipped
    case Add => Added
    case Acquire => Holding
    case Spawn => Spawned
    case Probe(_) => Probing
    case Answer(_) => Answered
    case SetUp(_) => UpSet
    case Count(_) => Counted
    case Lock(_) => Locked
    case Record(_) => Recorded
    case Unlock(_) => Leaving
    case Release(_) => Released
    case Done(_) => Finished
  }

  predicate Enabled(jobs: seq<Job>, capacity: nat, s: State, a: Action)
    requires |s.phases| == |jobs|
  {
    match a
    case Skip => At(s, s.next, Waiting) && jobs[s.next].url == ""
    case Add => At(s, s.next, Waiting) && jobs[s.next].url != ""
    case Acquire => At(s, s.next, Added) && s.tokens < capacity
    case Spawn => At(s, s.next, Holding)
    case Return => s.next == |jobs| && s.group == 0 && !s.returned
    case Probe(i) => At(s, i, Spawned)
    case Answer(i) => At(s, i, Probing)
    case SetUp(i) => At(s, i, Answered)
    case Count(i) => At(s, i, UpSet)
    case Lock(i) => At(s, i, Counted) && jobs[i].failure.Some? && s.holder.None?
    case Record(i) => At(s, i, Locked) && jobs[i].failure.Some?
    case Unlock(i) => At(s, i, Recorded)
    case Release(i) => At(s, i, Leaving) || (At(s, i, Counted) && jobs[i].failure.None?)
    case Done(i) => At(s, i, Released)
  }

  function Do(jobs: seq<Job>, capacity: nat, s: State, a: Action): (s': State)
    requires |s.phases| == |jobs| && Enabled(jobs, capacity, s, a)
    ensures |s'.phases| == |jobs|
  {
    if a == Return then s.(returned := true)
    else
      var i := Subject(s, a);
      var moved := s.(phases := s.phases[i := Target(a)]);
      match a
      case Skip => moved.(next := s.next + 1)
      case Add => moved.(group := s.group + 1)
      case Acquire => moved.(tokens := s.tokens + 1)
      case Spawn => moved.(next := s.next + 1)
      case Probe(_) => moved.(probed := s.probed + multiset{i})
      case SetUp(_) => moved.(up := s.up[jobs[i].name := jobs[i].Up()])
      case Count(_) =>
        var key := (jobs[i].name, jobs[i].Status());
        moved.(checks := s.checks[key := Checks(s.checks, key.0, key.1) + 1])
      case Lock(_) => moved.(holder := Some(i))
      case Record(_) =>
        var error := jobs[i].failure.value;
        moved.(first := if s.first.None? then Some(First(error, error.Kind())) else s.first)
      case Unlock(_) => moved.(holder := None)
      case Release(_) => moved.(tokens := s.tokens - 1)
      case Done(_) => moved.(group := s.group - 1)
      case _ => moved
  }

  predicate Legal(jobs: seq<Job>, capacity: nat, s: State, run: seq<Action>)
    requires |s.phases| == |jobs|
    decreases |run|
  {
    run != [] ==> Enabled(jobs, capacity, s, run[0]) && Legal(jobs, capacity, Do(jobs, capacity, s, run[0]), run[1..])
  }

  function After(jobs: seq<Job>, capacity: nat, s: State, run: seq<Action>): (s': State)
    requires |s.phases| == |jobs| && Legal(jobs, capacity, s, run)
    ensures |s'.phases| == |jobs|
    decreases |run|
  {
    if run == [] then s else After(jobs, capacity, Do(jobs, capacity, s, run[0]), run[1..])
  }

  /** The start of a tick, on whatever the gauges and counters were before. */
  function Start(jobs: seq<Job>, up: Gauges, checks: Counters): State {
    State(seq(|jobs|, _ => Waiting), 0, 0, 0, None, None, up, checks, multiset{}, false)
  }

  /** A schedule in which the tick returns. */
  ghost predicate Returns(jobs: seq<Job>, capacity: nat, up: Gauges, checks: Counters, run: seq<Action>) {
    Legal(jobs, capacity, Start(jobs, up, checks), run) && After(jobs, capacity, Start(jobs, up, checks), run).returned
  }

  // ---------------------------------------------------------------- counting jobs

  /** How many jobs satisfy `p`, given each job with its phase. */
  ghost function Tally(jobs: seq<Job>, phases: seq<Phase>, p: (Job, Phase) -> bool): nat
    requires |jobs| == |phases|
  {
    if jobs == [] then 0
    else (if p(jobs[|jobs| - 1], phases[|jobs| - 1]) then 1 else 0)
         + Tally(jobs[..|jobs| - 1], phases[..|jobs| - 1], p)
  }

  lemma {:induction false} TallyMove(jobs: seq<Job>, phases: seq<Phase>, i: nat, to: Phase, p: (Job, Phase) -> bool)
    requires |jobs| == |phases| && i < |jobs|
    ensures Tally(jobs, phases[i := to], p) + (if p(jobs[i], phases[i]) then 1 else 0)
         == Tally(jobs, phases, p) + (if p(jobs[i], to) then 1 else 0)
  {
    var n := |jobs| - 1;
    if i < n {
      TallyMove(jobs[..n], phases[..n], i, to, p);
      assert phases[i := to][..n] == phases[..n][i := to];
    } else {
      assert phases[i := to][..n] == phases[..n];
    }
  }

  lemma {:induction false} TallyNone(jobs: seq<Job>, phases: seq<Phase>, p: (Job, Phase) -> bool)
    requires |jobs| == |phases|
    ensures Tally(jobs, phases, p) == 0 <==> forall i :: 0 <= i < |jobs| ==> !p(jobs[i], phases[i])
  {
    if jobs != [] {
      TallyNone(jobs[..|jobs| - 1], phases[..|jobs| - 1], p);
    }
  }

  ghost function Tokens(): (Job, Phase) -> bool { (j: Job, p: Phase) => p.Token() }

  ghost function Groups(): (Job, Phase) -> bool { (j: Job, p: Phase) => p.Grouped() }

  ghost function CountedAs(name: string, status: Status): (Job, Phase) -> bool {
    (j: Job, p: Phase) => p.Past(Counted) && j.name == name && j.Status() == status
  }

  // ---------------------------------------------------------------- safety

  /** What main's position says about one job. */
  predicate InOrder(job: Job, phase: Phase, i: int, next: int) {
    && (i < next ==> phase == Skipped || phase.Past(Spawned))
    && (i == next ==> phase in {Waiting, Added, Holding})
    && (i > next ==> phase == Waiting)
    && (phase == Skipped ==> job.url == "")
    && (phase.Past(Added) ==> job.url != "")
  }

  /** Main has dealt with the jobs before `next`, is at `next`, and returns after all are done. */
  ghost predicate OrderInv(jobs: seq<Job>, s: State) {
    && |s.phases| == |jobs| && s.next <= |jobs|
    && (forall i :: 0 <= i < |jobs| ==> InOrder(jobs[i], s.phases[i], i, s.next))
    && (s.returned ==> s.next == |jobs| && s.group == 0)
  }

  /** The semaphore holds a token per job between acquire and release, never more than fit; the
      WaitGroup counts the jobs added and not done. */
  ghost predicate CountInv(jobs: seq<Job>, capacity: nat, s: State) {
    && |s.phases| == |jobs|
    && s.tokens == Tally(jobs, s.phases, Tokens()) && s.tokens <= capacity
    && s.group == Tally(jobs, s.phases, Groups())
  }

  /** The mutex is held by the one failed job that is recording, if any. */
  ghost predicate MutexInv(jobs: seq<Job>, s: State) {
    && |s.phases| == |jobs|
    && (forall i :: 0 <= i < |jobs| ==> (s.phases[i].Mutexed() <==> s.holder == Some(i)))
    && (s.holder.Some? ==> s.holder.value < |jobs| && jobs[s.holder.value].failure.Some?)
  }

  /** Each probe adds one to one counter, once it gets that far. */
  ghost predicate ChecksInv(jobs: seq<Job>, checks: Counters, s: State) {
    && |s.phases| == |jobs|
    && forall name, status :: Checks(s.checks, name, status)
                           == Checks(checks, name, status) + Tally(jobs, s.phases, CountedAs(name, status))
  }

  /** Each job is probed once its worker runs, and never twice. */
  ghost predicate ProbedInv(jobs: seq<Job>, s: State) {
    && |s.phases| == |jobs|
    && forall i: nat :: s.probed[i] == if i < |jobs| && s.phases[i].Past(Probing) then 1 else 0
  }

  /** A gauge shows the outcome of one of its own name's probes, or is still what it was. */
  ghost predicate GaugeInv(jobs: seq<Job>, up: Gauges, s: State) {
    && |s.phases| == |jobs|
    && (forall i :: 0 <= i < |jobs| ==> s.phases[i].Past(UpSet) ==> Shown(jobs, s, jobs[i].name))
    && (forall name :: Untouched(jobs, s, name) ==> SameAt(s.up, up, name))
  }

  ghost predicate Untouched(jobs: seq<Job>, s: State, name: string)
    requires |s.phases| == |jobs|
  {
    forall i :: 0 <= i < |jobs| ==> jobs[i].name == name ==> !s.phases[i].Past(UpSet)
  }

  ghost predicate SameAt(a: Gauges, b: Gauges, name: string) {
    (name in a <==> name in b) && (name in a ==> a[name] == b[name])
  }

  /** There is a first error as soon as a failed job has recorded, and it is a failed job's. */
  ghost predicate FirstInv(jobs: seq<Job>, s: State) {
    && |s.phases| == |jobs|
    && (forall i :: 0 <= i < |jobs| ==> s.phases[i].Past(Recorded) && jobs[i].failure.Some? ==> s.first.Some?)
    && (s.first.Some? ==> exists i :: 0 <= i < |jobs| && s.phases[i].Past(Recorded) && Blames(jobs[i], s.first.value))
  }

  ghost predicate Inv(jobs: seq<Job>, capacity: nat, up: Gauges, checks: Counters, s: State) {
    && OrderInv(jobs, s) && CountInv(jobs, capacity, s) && MutexInv(jobs, s)
    && ChecksInv(jobs, checks, s) && ProbedInv(jobs, s) && GaugeInv(jobs, up, s) && FirstInv(jobs, s)
  }

  /** The gauge of `name` shows the outcome of one of its own probes. */
  ghost predicate Shown(jobs: seq<Job>, s: State, name: string) {
    name in s.up &&
    exists i :: 0 <= i < |jobs| && jobs[i].name == name && jobs[i].url != "" && s.up[name] == jobs[i].Up()
  }

  /** An error and a kind that belong to the same failed probe. */
  ghost predicate Blames(job: Job, first: First) {
    job.url != "" && job.failure == Some(first.error) && first.kind == first.error.Kind()
  }

  /** A worker step belongs to a job main has spawned and that is not done. */
  lemma WorkerIsGrouped(jobs: seq<Job>, capacity: nat, s: State, a: Action)
    requires OrderInv(jobs, s) && CountInv(jobs, capacity, s) && Enabled(jobs, capacity, s, a)
    ensures a != Return ==> Subject(s, a) < |jobs| && !s.returned
  {
    hide Tally;
    TallyNone(jobs, s.phases, Groups());
  }

  lemma StepKeepsOrder(jobs: seq<Job>, capacity: nat, s: State, a: Action)
    requires OrderInv(jobs, s) && CountInv(jobs, capacity, s) && Enabled(jobs, capacity, s, a)
    ensures OrderInv(jobs, Do(jobs, capacity, s, a))
  {
    hide CountInv, Tally;
    WorkerIsGrouped(jobs, capacity, s, a);
    var s' := Do(jobs, capacity, s, a);
    if a != Return {
      var k := Subject(s, a);
      assert InOrder(jobs[k], s.phases[k], k, s.next);
      assert InOrder(jobs[k], s'.phases[k], k, s'.next);
      forall i | 0 <= i < |jobs| ensures InOrder(jobs[i], s'.phases[i], i, s'.next) {
        assert InOrder(jobs[i], s.phases[i], i, s.next);
      }
    }
  }

  lemma StepKeepsCount(jobs: seq<Job>, capacity: nat, s: State, a: Action)
    requires CountInv(jobs, capacity, s) && Enabled(jobs, capacity, s, a)
    ensures CountInv(jobs, capacity, Do(jobs, capacity, s, a))
  {
    hide Tally;
    if a != Return {
      TallyMove(jobs, s.phases, Subject(s, a), Target(a), Tokens());
      TallyMove(jobs, s.phases, Subject(s, a), Target(a), Groups());
    }
  }

  /** What a step changes, and which milestones its job passes with it. */
  lemma StepShape(jobs: seq<Job>, capacity: nat, s: State, a: Action)
    requires |s.phases| == |jobs| && Enabled(jobs, capacity, s, a) && a != Return
    ensures var s', k, to := Do(jobs, capacity, s, a), Subject(s, a), Target(a);
            && k < |jobs| && s'.phases == s.phases[k := to]
            && s'.holder == (if a.Lock? then Some(k) else if a.Unlock? then None else s.holder)
            && s'.probed == (if a.Probe? then s.probed + multiset{k} else s.probed)
            && s'.up == (if a.SetUp? then s.up[jobs[k].name := jobs[k].Up()] else s.up)
            && (!a.Count? ==> s'.checks == s.checks)
            && (a.Count? ==> var name, status := jobs[k].name, jobs[k].Status();
                             s'.checks == s.checks[(name, status) := Checks(s.checks, name, status) + 1])
            && (!a.Record? ==> s'.first == s.first)
            && (a.Record? ==> jobs[k].failure.Some? && s'.first.Some?
                              && (s.first.Some? ==> s'.first == s.first)
                              && (s.first.None? ==> jobs[k].failure == Some(s'.first.value.error)
                                                    && s'.first.value.kind == s'.first.value.error.Kind()))
  {
  }

  lemma StepMilestones(jobs: seq<Job>, capacity: nat, s: State, a: Action)
    requires |s.phases| == |jobs| && Enabled(jobs, capacity, s, a) && a != Return
    ensures var k, to := Subject(s, a), Target(a);
            && k < |jobs|
            && (s.phases[k].Mutexed() <==> a.Record? || a.Unlock?) && (to.Mutexed() <==> a.Lock? || a.Record?)
            && (a.Lock? ==> s.holder.None? && jobs[k].failure.Some?)
            && (to.Past(Probing) <==> s.phases[k].Past(Probing) || a.Probe?)
            && (a.Probe? ==> !s.phases[k].Past(Probing))
            && (to.Past(UpSet) <==> s.phases[k].Past(UpSet) || a.SetUp?)
            && (to.Past(Counted) <==> s.phases[k].Past(Counted) || a.Count?)
            && (a.Count? ==> !s.phases[k].Past(Counted))
            && (s.phases[k].Past(Recorded) || a.Record? ==> to.Past(Recorded))
            && (to.Past(Recorded) && jobs[k].failure.Some? ==> s.phases[k].Past(Recorded) || a.Record?)
            && (a.Record? || a.SetUp? ==> s.phases[k].Past(Added))
  {
  }

  lemma StepKeepsMutex(jobs: seq<Job>, capacity: nat, s: State, a: Action)
    requires MutexInv(jobs, s) && Enabled(jobs, capacity, s, a)
    ensures MutexInv(jobs, Do(jobs, capacity, s, a))
  {
    if a != Return {
      StepShape(jobs, capacity, s, a);
      StepMilestones(jobs, capacity, s, a);
      hide Do, Enabled, Target, Subject, Phase.Mutexed;
      assert Subject(s, a) < |jobs|;
    }
  }

  lemma StepKeepsChecks(jobs: seq<Job>, capacity: nat, checks: Counters, s: State, a: Action)
    requires ChecksInv(jobs, checks, s) && Enabled(jobs, capacity, s, a)
    ensures ChecksInv(jobs, checks, Do(jobs, capacity, s, a))
  {
    if a != Return {
      StepShape(jobs, capacity, s, a);
      StepMilestones(jobs, capacity, s, a);
      hide Do, Enabled, Target, Subject, Tally, Phase.Past;
      var s' := Do(jobs, capacity, s, a);
      forall name, status
        ensures Checks(s'.checks, name, status)
             == Checks(checks, name, status) + Tally(jobs, s'.phases, CountedAs(name, status))
      {
        TallyMove(jobs, s.phases, Subject(s, a), Target(a), CountedAs(name, status));
      }
    }
  }

  lemma StepKeepsProbed(jobs: seq<Job>, capacity: nat, s: State, a: Action)
    requires ProbedInv(jobs, s) && Enabled(jobs, capacity, s, a)
    ensures ProbedInv(jobs, Do(jobs, capacity, s, a))
  {
    if a != Return {
      StepShape(jobs, capacity, s, a);
      StepMilestones(jobs, capacity, s, a);
      hide Do, Enabled, Target, Subject, Phase.Past;
      assert Subject(s, a) < |jobs|;
    }
  }

  lemma StepKeepsGauge(jobs: seq<Job>, capacity: nat, up: Gauges, s: State, a: Action)
    requires OrderInv(jobs, s) && GaugeInv(jobs, up, s) && Enabled(jobs, capacity, s, a)
    ensures GaugeInv(jobs, up, Do(jobs, capacity, s, a))
  {
    if a != Return {
      StepShape(jobs, capacity, s, a);
      StepMilestones(jobs, capacity, s, a);
      var k := Subject(s, a);
      assert InOrder(jobs[k], s.phases[k], k, s.next);
      assert a.SetUp? ==> jobs[k].url != "";
      hide Do, Enabled, Target, Subject, Phase.Past, OrderInv;
      var s' := Do(jobs, capacity, s, a);
      forall i | 0 <= i < |jobs| && s'.phases[i].Past(UpSet) ensures Shown(jobs, s', jobs[i].name) {
        if !a.SetUp? || jobs[i].name != jobs[k].name {
          assert Shown(jobs, s, jobs[i].name);
        }
      }
      forall name | Untouched(jobs, s', name) ensures SameAt(s'.up, up, name) {
        assert Untouched(jobs, s, name);
      }
    }
  }

  lemma StepKeepsFirst(jobs: seq<Job>, capacity: nat, s: State, a: Action)
    requires OrderInv(jobs, s) && FirstInv(jobs, s) && Enabled(jobs, capacity, s, a)
    ensures FirstInv(jobs, Do(jobs, capacity, s, a))
  {
    if a != Return {
      StepShape(jobs, capacity, s, a);
      StepMilestones(jobs, capacity, s, a);
      var k := Subject(s, a);
      assert InOrder(jobs[k], s.phases[k], k, s.next);
      assert a.Record? ==> jobs[k].url != "";
      hide Do, Enabled, Target, Subject, Phase.Past, OrderInv;
      var s' := Do(jobs, capacity, s, a);
      if s.first.Some? {
        var i :| 0 <= i < |jobs| && s.phases[i].Past(Recorded) && Blames(jobs[i], s.first.value);
        assert s'.phases[i].Past(Recorded);
      } else if a.Record? {
        assert Blames(jobs[k], s'.first.value);
      }
    }
  }

  lemma {:induction false} RunKeepsInv(jobs: seq<Job>, capacity: nat, up: Gauges,
                                       checks: Counters, s: State, run: seq<Action>)
    requires Inv(jobs, capacity, up, checks, s) && Legal(jobs, capacity, s, run)
    ensures Inv(jobs, capacity, up, checks, After(jobs, capacity, s, run))
    decreases |run|
  {
    if run != [] {
      var a := run[0];
      StepKeepsOrder(jobs, capacity, s, a);
      StepKeepsCount(jobs, capacity, s, a);
      StepKeepsMutex(jobs, capacity, s, a);
      StepKeepsChecks(jobs, capacity, checks, s, a);
      StepKeepsProbed(jobs, capacity, s, a);
      StepKeepsGauge(jobs, capacity, up, s, a);
      StepKeepsFirst(jobs, capacity, s, a);
      hide Do, Enabled, OrderInv, CountInv, MutexInv, ChecksInv, ProbedInv, GaugeInv, FirstInv;
      RunKeepsInv(jobs, capacity, up, checks, Do(jobs, capacity, s, a), run[1..]);
    }
  }

  lemma StartInv(jobs: seq<Job>, capacity: nat, up: Gauges, checks: Counters)
    ensures Inv(jobs, capacity, up, checks, Start(jobs, up, checks))
  {
    hide Tally;
    var s := Start(jobs, up, checks);
    TallyNone(jobs, s.phases, Tokens());
    TallyNone(jobs, s.phases, Groups());
    forall name, status ensures Tally(jobs, s.phases, CountedAs(name, status)) == 0 {
      assert forall i :: 0 <= i < |jobs| ==> !s.phases[i].Past(Counted);
      assert forall i :: 0 <= i < |jobs| ==> !CountedAs(name, status)(jobs[i], s.phases[i]);
      TallyNone(jobs, s.phases, CountedAs(name, status));
    }
  }

  lemma RunInv(jobs: seq<Job>, capacity: nat, up: Gauges, checks: Counters, run: seq<Action>)
    requires Legal(jobs, capacity, Start(jobs, up, checks), run)
    ensures Inv(jobs, capacity, up, checks, After(jobs, capacity, Start(jobs, up, checks), run))
  {
    StartInv(jobs, capacity, up, checks);
    RunKeepsInv(jobs, capacity, up, checks, Start(jobs, up, checks), run);
  }

  /** Bounded parallelism in every schedule: the probes in flight never outnumber the capacity. */
  lemma BoundedParallelism(jobs: seq<Job>, capacity: nat, up: Gauges, checks: Counters,
                           run: seq<Action>)
    requires Legal(jobs, capacity, Start(jobs, up, checks), run)
    ensures var s := After(jobs, capacity, Start(jobs, up, checks), run);
            && Inv(jobs, capacity, up, checks, s)
            && Tally(jobs, s.phases, InFlight()) <= s.tokens <= capacity
  {
    hide Legal, After, ChecksInv, ProbedInv, GaugeInv, FirstInv, MutexInv, OrderInv;
    RunInv(jobs, capacity, up, checks, run);
    var s := After(jobs, capacity, Start(jobs, up, checks), run);
    TallyLess(jobs, s.phases, InFlight(), Tokens());
  }

  ghost function InFlight(): (Job, Phase) -> bool { (j: Job, p: Phase) => p == Probing }

  lemma {:induction false} TallyLess(jobs: seq<Job>, phases: seq<Phase>, p: (Job, Phase) -> bool,
                                     q: (Job, Phase) -> bool)
    requires |jobs| == |phases|
    requires forall i :: 0 <= i < |jobs| ==> p(jobs[i], phases[i]) ==> q(jobs[i], phases[i])
    ensures Tally(jobs, phases, p) <= Tally(jobs, phases, q)
  {
    if jobs != [] {
      TallyLess(jobs[..|jobs| - 1], phases[..|jobs| - 1], p, q);
    }
  }

  // ---------------------------------------------------------------- progress

  /** No reachable state is stuck: with room for one probe, some step is open until Tick returns. */
  lemma Progress(jobs: seq<Job>, capacity: nat, up: Gauges, checks: Counters, s: State)
    returns (a: Action)
    requires capacity >= 1 && Inv(jobs, capacity, up, checks, s) && !s.returned
    ensures Enabled(jobs, capacity, s, a)
  {
    hide Tally, ChecksInv, ProbedInv, GaugeInv, FirstInv;
    if i :| 0 <= i < |jobs| && s.phases[i].Past(Spawned) && s.phases[i] != Finished {
      a := WorkerStep(jobs, capacity, s, i);
    } else if s.next < |jobs| {
      a := MainStep(jobs, capacity, s, |jobs|);
    } else {
      forall i | 0 <= i < |jobs| ensures !s.phases[i].Grouped() {
        assert InOrder(jobs[i], s.phases[i], i, s.next);
      }
      TallyNone(jobs, s.phases, Groups());
      a := Return;
    }
  }

  lemma WorkerStep(jobs: seq<Job>, capacity: nat, s: State, i: nat) returns (a: Action)
    requires MutexInv(jobs, s) && i < |jobs| && s.phases[i].Past(Spawned) && s.phases[i] != Finished
    ensures Enabled(jobs, capacity, s, a) && (a.SetUp? ==> a.i == i) && a != Return
  {
    match s.phases[i]
    case Spawned => a := Probe(i);
    case Probing => a := Answer(i);
    case Answered => a := SetUp(i);
    case UpSet => a := Count(i);
    case Counted =>
      if jobs[i].failure.None? {
        a := Release(i);
      } else if s.holder.None? {
        a := Lock(i);
      } else {
        a := if s.phases[s.holder.value] == Locked then Record(s.holder.value) else Unlock(s.holder.value);
        assert s.phases[s.holder.value].Mutexed();
      }
    case Locked =>
      assert s.phases[i].Mutexed();
      a := Record(i);
    case Recorded => a := Unlock(i);
    case Leaving => a := Release(i);
    case Released => a := Done(i);
  }

  /** Main can go on when all spawned jobs are done, but for one (m) if there is room for two. */
  lemma MainStep(jobs: seq<Job>, capacity: nat, s: State, m: nat) returns (a: Action)
    requires capacity >= 1 && (m < |jobs| ==> capacity >= 2)
    requires OrderInv(jobs, s) && CountInv(jobs, capacity, s) && s.next < |jobs|
    requires forall i :: 0 <= i < |jobs| && i != m ==> s.phases[i].Past(Spawned) ==> s.phases[i] == Finished
    ensures Enabled(jobs, capacity, s, a) && (a.Skip? || a.Add? || a.Acquire? || a.Spawn?)
  {
    hide Tally;
    assert InOrder(jobs[s.next], s.phases[s.next], s.next, s.next);
    match s.phases[s.next]
    case Waiting => a := if jobs[s.next].url == "" then Skip else Add;
    case Added =>
      FreeToken(jobs, capacity, s, m);
      a := Acquire;
    case Holding => a := Spawn;
  }

  lemma FreeToken(jobs: seq<Job>, capacity: nat, s: State, m: nat)
    requires capacity >= 1 && (m < |jobs| ==> capacity >= 2)
    requires OrderInv(jobs, s) && CountInv(jobs, capacity, s) && At(s, s.next, Added)
    requires forall i :: 0 <= i < |jobs| && i != m ==> s.phases[i].Past(Spawned) ==> s.phases[i] == Finished
    ensures s.tokens < capacity
  {
    hide Tally;
    var phases := if m < |jobs| then s.phases[m := Finished] else s.phases;
    if m < |jobs| {
      TallyMove(jobs, s.phases, m, Finished, Tokens());
    }
    forall i | 0 <= i < |jobs| ensures !phases[i].Token() {
      assert InOrder(jobs[i], s.phases[i], i, s.next);
    }
    TallyNone(jobs, phases, Tokens());
  }

  function Work(phases: seq<Phase>): nat {
    if phases == [] then 0 else 12 - phases[|phases| - 1].Rank() + Work(phases[..|phases| - 1])
  }

  function Measure(s: State): nat {
    Work(s.phases) + if s.returned then 0 else 1
  }

  lemma {:induction false} WorkMove(phases: seq<Phase>, i: nat, to: Phase)
    requires i < |phases|
    ensures Work(phases[i := to]) + to.Rank() == Work(phases) + phases[i].Rank()
  {
    var n := |phases| - 1;
    if i < n {
      WorkMove(phases[..n], i, to);
      assert phases[i := to][..n] == phases[..n][i := to];
    } else {
      assert phases[i := to][..n] == phases[..n];
    }
  }

  lemma StepShrinks(jobs: seq<Job>, capacity: nat, s: State, a: Action)
    requires |s.phases| == |jobs| && Enabled(jobs, capacity, s, a)
    ensures Measure(Do(jobs, capacity, s, a)) < Measure(s)
  {
    hide Work;
    if a != Return {
      WorkMove(s.phases, Subject(s, a), Target(a));
    }
  }

  /** Every step uses up some of a bounded amount of work, so every schedule ends; by Progress it
      ends with Tick returning. */
  lemma {:induction false} Termination(jobs: seq<Job>, capacity: nat, s: State, run: seq<Action>)
    requires |s.phases| == |jobs| && Legal(jobs, capacity, s, run)
    ensures |run| + Measure(After(jobs, capacity, s, run)) <= Measure(s)
    decreases |run|
  {
    if run != [] {
      StepShrinks(jobs, capacity, s, run[0]);
      hide Do, Enabled, Measure;
      Termination(jobs, capacity, Do(jobs, capacity, s, run[0]), run[1..]);
    }
  }

  // ---------------------------------------------------------------- what a tick comes to

  /** How many configured occurrences of `name` are probed with this outcome. */
  function Outcomes(jobs: seq<Job>, name: string, status: Status): nat {
    if jobs == [] then 0
    else
      var job := jobs[|jobs| - 1];
      (if job.url != "" && job.name == name && job.Status() == status then 1 else 0)
      + Outcomes(jobs[..|jobs| - 1], name, status)
  }

  /** When Tick returns, every job with a URL is done, and no other was started. */
  lemma AllDone(jobs: seq<Job>, capacity: nat, s: State)
    requires OrderInv(jobs, s) && CountInv(jobs, capacity, s) && s.returned
    ensures forall i :: 0 <= i < |jobs| ==> s.phases[i] == if jobs[i].url != "" then Finished else Skipped
  {
    hide Tally;
    TallyNone(jobs, s.phases, Groups());
    forall i | 0 <= i < |jobs| ensures s.phases[i] == if jobs[i].url != "" then Finished else Skipped {
      assert InOrder(jobs[i], s.phases[i], i, s.next);
      assert !s.phases[i].Grouped();
    }
  }

  lemma {:induction false} DoneOutcomes(jobs: seq<Job>, phases: seq<Phase>, name: string, status: Status)
    requires |jobs| == |phases|
    requires forall i :: 0 <= i < |jobs| ==> phases[i] == if jobs[i].url != "" then Finished else Skipped
    ensures Tally(jobs, phases, CountedAs(name, status)) == Outcomes(jobs, name, status)
  {
    if jobs != [] {
      DoneOutcomes(jobs[..|jobs| - 1], phases[..|jobs| - 1], name, status);
    }
  }

  ghost predicate Agree(jobs: seq<Job>, name: string) {
    forall i, j | 0 <= i < |jobs| && 0 <= j < |jobs| ::
      (jobs[i].name == jobs[j].name == name && jobs[i].url != "" && jobs[j].url != "") ==> jobs[i].Up() == jobs[j].Up()
  }

  /** Everything a returned tick has done, in terms of the configuration and the probes' answers
      alone. */
  ghost predicate TickDone(jobs: seq<Job>, up: Gauges, checks: Counters, s: State) {
    && (forall i :: 0 <= i < |jobs| ==> s.probed[i] == if jobs[i].url != "" then 1 else 0)
    && (forall name, status ::
          Checks(s.checks, name, status) == Checks(checks, name, status) + Outcomes(jobs, name, status))
    && (forall i :: 0 <= i < |jobs| && jobs[i].url != "" ==> Shown(jobs, s, jobs[i].name))
    && (forall name :: (forall i :: 0 <= i < |jobs| ==> jobs[i].name == name ==> jobs[i].url == "") ==>
          SameAt(s.up, up, name))
    && (s.first.Some? <==> exists i :: 0 <= i < |jobs| && jobs[i].url != "" && jobs[i].failure.Some?)
    && (s.first.Some? ==> exists i :: 0 <= i < |jobs| && Blames(jobs[i], s.first.value))
  }

  /** In every schedule a tick that returns has probed each configured occurrence with a URL once,
      counted each answer once under its status, and returns an error exactly when some probe
      failed, with the kind of that same error. */
  lemma TickResult(jobs: seq<Job>, capacity: nat, up: Gauges, checks: Counters, run: seq<Action>)
    requires Returns(jobs, capacity, up, checks, run)
    ensures TickDone(jobs, up, checks, After(jobs, capacity, Start(jobs, up, checks), run))
  {
    RunInv(jobs, capacity, up, checks, run);
    ReturnedIsDone(jobs, capacity, up, checks, After(jobs, capacity, Start(jobs, up, checks), run));
  }

  lemma ReturnedIsDone(jobs: seq<Job>, capacity: nat, up: Gauges, checks: Counters, s: State)
    requires Inv(jobs, capacity, up, checks, s) && s.returned
    ensures TickDone(jobs, up, checks, s)
  {
    hide OrderInv, CountInv, MutexInv, ChecksInv, GaugeInv, FirstInv, Tally, Outcomes, Checks, Blames, Shown, SameAt;
    AllDone(jobs, capacity, s);
    ReturnedCounts(jobs, checks, s);
    ReturnedFirst(jobs, s);
    ReturnedGauges(jobs, up, s);
  }

  lemma ReturnedGauges(jobs: seq<Job>, up: Gauges, s: State)
    requires GaugeInv(jobs, up, s)
    requires forall i :: 0 <= i < |jobs| ==> s.phases[i] == if jobs[i].url != "" then Finished else Skipped
    ensures forall i :: 0 <= i < |jobs| && jobs[i].url != "" ==> Shown(jobs, s, jobs[i].name)
    ensures forall name :: (forall i :: 0 <= i < |jobs| ==> jobs[i].name == name ==> jobs[i].url == "") ==>
        SameAt(s.up, up, name)
  {
    hide Shown, SameAt;
    forall name | forall i :: 0 <= i < |jobs| ==> jobs[i].name == name ==> jobs[i].url == ""
      ensures SameAt(s.up, up, name)
    {
      assert Untouched(jobs, s, name);
    }
  }

  lemma ReturnedFirst(jobs: seq<Job>, s: State)
    requires FirstInv(jobs, s)
    requires forall i :: 0 <= i < |jobs| ==> s.phases[i] == if jobs[i].url != "" then Finished else Skipped
    ensures s.first.Some? <==> exists i :: 0 <= i < |jobs| && jobs[i].url != "" && jobs[i].failure.Some?
    ensures s.first.Some? ==> exists i :: 0 <= i < |jobs| && Blames(jobs[i], s.first.value)
  {
  }

  lemma ReturnedCounts(jobs: seq<Job>, checks: Counters, s: State)
    requires ChecksInv(jobs, checks, s)
    requires forall i :: 0 <= i < |jobs| ==> s.phases[i] == if jobs[i].url != "" then Finished else Skipped
    ensures forall name, status ::
              Checks(s.checks, name, status) == Checks(checks, name, status) + Outcomes(jobs, name, status)
  {
    hide Tally, Outcomes, Checks, CountedAs;
    forall name, status
      ensures Checks(s.checks, name, status) == Checks(checks, name, status) + Outcomes(jobs, name, status)
    {
      DoneOutcomes(jobs, s.phases, name, status);
    }
  }

  /** Schedule independence: two schedules of the same tick leave the same counters and agree on
      whether there was an error; and on the gauge of every name whose probes agree, so on all of
      them when names are not repeated. */
  lemma ScheduleIndependence(jobs: seq<Job>, capacity: nat, up: Gauges, checks: Counters,
                             run: seq<Action>, other: seq<Action>)
    requires Returns(jobs, capacity, up, checks, run) && Returns(jobs, capacity, up, checks, other)
    ensures var s := After(jobs, capacity, Start(jobs, up, checks), run);
            var s' := After(jobs, capacity, Start(jobs, up, checks), other);
            && (forall name, status :: Checks(s.checks, name, status) == Checks(s'.checks, name, status))
            && (s.first.Some? <==> s'.first.Some?)
            && (forall name :: Agree(jobs, name) ==> SameAt(s.up, s'.up, name))
  {
    TickResult(jobs, capacity, up, checks, run);
    TickResult(jobs, capacity, up, checks, other);
    hide Legal, After, Outcomes;
    var s := After(jobs, capacity, Start(jobs, up, checks), run);
    var s' := After(jobs, capacity, Start(jobs, up, checks), other);
    forall name | Agree(jobs, name) ensures SameAt(s.up, s'.up, name) {
      GaugeAgrees(jobs, up, checks, s, s', name);
    }
  }

  lemma GaugeAgrees(jobs: seq<Job>, up: Gauges, checks: Counters, s: State, s': State, name: string)
    requires TickDone(jobs, up, checks, s) && TickDone(jobs, up, checks, s') && Agree(jobs, name)
    ensures SameAt(s.up, s'.up, name)
  {
    hide Outcomes, Checks;
    if i :| 0 <= i < |jobs| && jobs[i].name == name && jobs[i].url != "" {
      assert Shown(jobs, s, name) && Shown(jobs, s', name);
    } else {
      assert SameAt(s.up, up, name) && SameAt(s'.up, up, name);
    }
  }

  // ---------------------------------------------------------------- in terms of the probes' answers alone

  function Succeeded(): Option<Error> -> bool { (f: Option<Error>) => f.None? }

  function TimedOut(): Option<Error> -> bool {
    (f: Option<Error>) => f.Some? && (f.value.deadlineExceeded || f.value.canceled)
  }

  function Unauthorized(): Option<Error> -> bool {
    (f: Option<Error>) => f.Some? && !f.value.deadlineExceeded && !f.value.canceled && f.value.auth
  }

  function Failed(): Option<Error> -> bool {
    (f: Option<Error>) => f.Some? && !f.value.deadlineExceeded && !f.value.canceled && !f.value.auth
  }

  /** The places of the probed occurrences of `name` whose answer is so. */
  function Answering(jobs: seq<Job>, name: string, answer: Option<Error> -> bool): set<nat> {
    set i: nat | i < |jobs| && jobs[i].url != "" && jobs[i].name == name && answer(jobs[i].failure)
  }

  /** The counter of `name` and `status` has grown by `n`; a counter that is missing is 0. */
  predicate Grew(before: Counters, after: Counters, name: string, status: Status, n: nat) {
    (if (name, status) in after then after[(name, status)] else 0)
    == (if (name, status) in before then before[(name, status)] else 0) + n
  }

  ghost predicate CountsOf(jobs: seq<Job>, before: Counters, after: Counters, name: string) {
    && Grew(before, after, name, StatusOK, |Answering(jobs, name, Succeeded())|)
    && Grew(before, after, name, StatusTimeout, |Answering(jobs, name, TimedOut())|)
    && Grew(before, after, name, StatusAuthError, |Answering(jobs, name, Unauthorized())|)
    && Grew(before, after, name, StatusFail, |Answering(jobs, name, Failed())|)
  }

  ghost predicate GaugeOf(jobs: seq<Job>, up: Gauges, name: string) {
    name in up && exists j :: 0 <= j < |jobs| && jobs[j].name == name && jobs[j].url != ""
                              && up[name] == if jobs[j].failure.None? then 1 else 0
  }

  ghost predicate ErrorOf(jobs: seq<Job>, first: Option<First>) {
    && (first.Some? <==> exists i :: 0 <= i < |jobs| && jobs[i].url != "" && jobs[i].failure.Some?)
    && (first.Some? ==>
          var First(error, kind) := first.value;
          && (exists i :: 0 <= i < |jobs| && jobs[i].url != "" && jobs[i].failure == Some(error))
          && kind == if error.deadlineExceeded || error.canceled then KindTimeout else KindAPI)
  }

  /** In every schedule a returned tick has counted each success as ok, each answer that ran out of time
      as a timeout, each other refusal as an authentication error, and the rest as failures; every gauge
      shows one of its own name's successes or failures; and the error it returns is one of the probes',
      of the kind that this error is. All this is told by the probes' own answers. */
  lemma TickAnswers(jobs: seq<Job>, capacity: nat, up: Gauges, checks: Counters, run: seq<Action>)
    requires Returns(jobs, capacity, up, checks, run)
    ensures var s := After(jobs, capacity, Start(jobs, up, checks), run);
            && (forall name :: CountsOf(jobs, checks, s.checks, name))
            && (forall i :: 0 <= i < |jobs| && jobs[i].url != "" ==> GaugeOf(jobs, s.up, jobs[i].name))
            && ErrorOf(jobs, s.first)
  {
    hide Legal, After, Outcomes, CountsOf;
    TickResult(jobs, capacity, up, checks, run);
    var s := After(jobs, capacity, Start(jobs, up, checks), run);
    forall name ensures CountsOf(jobs, checks, s.checks, name) {
      DoneCounts(jobs, up, checks, s, name);
    }
    forall i | 0 <= i < |jobs| && jobs[i].url != "" ensures GaugeOf(jobs, s.up, jobs[i].name) {
      assert Shown(jobs, s, jobs[i].name);
    }
  }

  lemma DoneCounts(jobs: seq<Job>, up: Gauges, checks: Counters, s: State, name: string)
    requires TickDone(jobs, up, checks, s)
    ensures CountsOf(jobs, checks, s.checks, name)
  {
    assert forall status ::
      Checks(s.checks, name, status) == Checks(checks, name, status) + Outcomes(jobs, name, status);
    hide TickDone, Outcomes, Answering;
    OutcomesAre(jobs, name, StatusOK, Succeeded());
    OutcomesAre(jobs, name, StatusTimeout, TimedOut());
    OutcomesAre(jobs, name, StatusAuthError, Unauthorized());
    OutcomesAre(jobs, name, StatusFail, Failed());
  }

  lemma {:induction false} OutcomesAre(jobs: seq<Job>, name: string, status: Status, answer: Option<Error> -> bool)
    requires forall job: Job :: job.Status() == status <==> answer(job.failure)
    ensures Outcomes(jobs, name, status) == |Answering(jobs, name, answer)|
  {
    if jobs == [] {
      assert Answering(jobs, name, answer) == {};
    } else {
      var n := |jobs| - 1;
      OutcomesAre(jobs[..n], name, status, answer);
      var before, all := Answering(jobs[..n], name, answer), Answering(jobs, name, answer);
      if n in all {
        assert all == before + {n};
      } else {
        assert all == before;
      }
    }
  }

  predicate DistinctNames(jobs: seq<Job>) {
    forall i, j :: 0 <= i < j < |jobs| ==> jobs[i].name != jobs[j].name
  }

  /** With distinct names a tick is a function of the probes' answers: in every schedule each gauge is 1
      exactly when its own probe succeeded, and every two schedules leave the same gauges. */
  lemma DistinctNamesDecide(jobs: seq<Job>, capacity: nat, up: Gauges, checks: Counters,
                            run: seq<Action>, other: seq<Action>)
    requires DistinctNames(jobs)
    requires Returns(jobs, capacity, up, checks, run) && Returns(jobs, capacity, up, checks, other)
    ensures var s := After(jobs, capacity, Start(jobs, up, checks), run);
            var s' := After(jobs, capacity, Start(jobs, up, checks), other);
            && (forall i :: 0 <= i < |jobs| && jobs[i].url != "" ==>
                  jobs[i].name in s.up && (s.up[jobs[i].name] == 1 <==> jobs[i].failure.None?))
            && (forall name :: SameAt(s.up, s'.up, name))
  {
    DistinctNamesAgree(jobs);
    ScheduleIndependence(jobs, capacity, up, checks, run, other);
    TickResult(jobs, capacity, up, checks, run);
    hide TickDone, Legal, After, Outcomes, Checks, Agree, DistinctNames;
    OwnGauges(jobs, up, checks, After(jobs, capacity, Start(jobs, up, checks), run));
  }

  lemma OwnGauges(jobs: seq<Job>, up: Gauges, checks: Counters, s: State)
    requires DistinctNames(jobs) && TickDone(jobs, up, checks, s)
    ensures forall i :: 0 <= i < |jobs| && jobs[i].url != "" ==>
              jobs[i].name in s.up && (s.up[jobs[i].name] == 1 <==> jobs[i].failure.None?)
  {
    hide Outcomes, Checks;
    forall i | 0 <= i < |jobs| && jobs[i].url != ""
      ensures jobs[i].name in s.up && (s.up[jobs[i].name] == 1 <==> jobs[i].failure.None?)
    {
      assert Shown(jobs, s, jobs[i].name);
    }
  }

  lemma DistinctNamesAgree(jobs: seq<Job>)
    requires DistinctNames(jobs)
    ensures forall name :: Agree(jobs, name)
  {
  }

  /** Each probe adds exactly one to the four counters of its name together. */
  lemma {:induction false} OneCountPerProbe(jobs: seq<Job>, name: string)
    ensures Outcomes(jobs, name, StatusOK) + Outcomes(jobs, name, StatusFail)
          + Outcomes(jobs, name, StatusTimeout) + Outcomes(jobs, name, StatusAuthError) == Occurrences(jobs, name)
  {
    if jobs != [] {
      OneCountPerProbe(jobs[..|jobs| - 1], name);
    }
  }

  /** How often `name` is configured with a URL. */
  function Occurrences(jobs: seq<Job>, name: string): nat {
    if jobs == [] then 0
    else
      var job := jobs[|jobs| - 1];
      (if job.url != "" && job.name == name then 1 else 0) + Occurrences(jobs[..|jobs| - 1], name)
  }

  // ---------------------------------------------------------------- completing a schedule

  lemma {:induction false} Extend(jobs: seq<Job>, capacity: nat, s: State, run: seq<Action>, a: Action)
    requires |s.phases| == |jobs| && Legal(jobs, capacity, s, run)
        && Enabled(jobs, capacity, After(jobs, capacity, s, run), a)
    ensures Legal(jobs, capacity, s, run + [a])
    ensures After(jobs, capacity, s, run + [a]) == Do(jobs, capacity, After(jobs, capacity, s, run), a)
    decreases |run|
  {
    hide Enabled, Do;
    if run == [] {
      assert [a][1..] == [] && run + [a] == [a];
    } else {
      assert (run + [a])[1..] == run[1..] + [a];
      Extend(jobs, capacity, Do(jobs, capacity, s, run[0]), run[1..], a);
    }
  }

  /** All the gauge writes for `name` are done (or skipped). */
  ghost predicate Settled(jobs: seq<Job>, s: State, name: string)
    requires |s.phases| == |jobs|
  {
    forall i :: 0 <= i < |jobs| ==> jobs[i].name == name ==> s.phases[i].Rank() >= UpSet.Rank()
  }

  lemma SettledStays(jobs: seq<Job>, capacity: nat, s: State, a: Action, name: string)
    requires |s.phases| == |jobs| && Enabled(jobs, capacity, s, a) && Settled(jobs, s, name)
    ensures Settled(jobs, Do(jobs, capacity, s, a), name) && SameAt(s.up, Do(jobs, capacity, s, a).up, name)
  {
    if a != Return {
      StepShape(jobs, capacity, s, a);
      StepMilestones(jobs, capacity, s, a);
      StepRank(jobs, capacity, s, a);
      hide Do, Enabled, Target, Subject, Phase.Past;
    }
  }

  /** Every schedule so far can be completed to one in which Tick returns, and gauges that are
      settled by then keep their value. */
  lemma {:induction false} Complete(jobs: seq<Job>, capacity: nat, up: Gauges, checks: Counters,
                                    run: seq<Action>)
    returns (full: seq<Action>)
    requires capacity >= 1 && Legal(jobs, capacity, Start(jobs, up, checks), run)
    ensures run <= full && Legal(jobs, capacity, Start(jobs, up, checks), full)
    ensures var s := After(jobs, capacity, Start(jobs, up, checks), run);
            var s' := After(jobs, capacity, Start(jobs, up, checks), full);
            s'.returned && forall name :: Settled(jobs, s, name) ==>
                Settled(jobs, s', name) && SameAt(s.up, s'.up, name)
    decreases Measure(After(jobs, capacity, Start(jobs, up, checks), run))
  {
    hide Legal, After, Enabled, Do, Inv, Measure, Settled;
    var s := After(jobs, capacity, Start(jobs, up, checks), run);
    if s.returned {
      full := run;
    } else {
      RunInv(jobs, capacity, up, checks, run);
      var a := Progress(jobs, capacity, up, checks, s);
      Extend(jobs, capacity, Start(jobs, up, checks), run, a);
      StepShrinks(jobs, capacity, s, a);
      full := Complete(jobs, capacity, up, checks, run + [a]);
      forall name | Settled(jobs, s, name)
        ensures Settled(jobs, Do(jobs, capacity, s, a), name) && SameAt(s.up, Do(jobs, capacity, s, a).up, name)
      {
        SettledStays(jobs, capacity, s, a, name);
      }
    }
  }

  /** Everything but job m's gauge write can go first: with room for two probes, while m waits with
      its answer some other step is open until all other jobs are done. */
  lemma OthersFirst(jobs: seq<Job>, capacity: nat, up: Gauges, checks: Counters, s: State, m: nat)
    returns (a: Action)
    requires capacity >= 2 && Inv(jobs, capacity, up, checks, s) && m < |jobs| && jobs[m].url != ""
    requires !s.phases[m].Past(UpSet)
    requires s.phases[m] != Answered || exists i :: 0 <= i < |jobs| && i != m && s.phases[i].Rank() < 12
    ensures Enabled(jobs, capacity, s, a) && a != SetUp(m) && a != Return
  {
    hide Tally, ChecksInv, ProbedInv, GaugeInv, FirstInv;
    if i :| 0 <= i < |jobs| && i != m && s.phases[i].Past(Spawned) && s.phases[i] != Finished {
      a := WorkerStep(jobs, capacity, s, i);
    } else if s.next < |jobs| {
      a := MainStep(jobs, capacity, s, m);
    } else {
      forall i | 0 <= i < |jobs| && i != m ensures s.phases[i].Rank() == 12 {
        assert InOrder(jobs[i], s.phases[i], i, s.next);
      }
      assert InOrder(jobs[m], s.phases[m], m, s.next);
      a := if s.phases[m] == Spawned then Probe(m) else Answer(m);
    }
  }

  /** Every schedule can go on until all jobs but m are done and m has its answer. */
  lemma {:induction false} HoldBack(jobs: seq<Job>, capacity: nat, up: Gauges, checks: Counters,
                                    run: seq<Action>, m: nat)
    returns (longer: seq<Action>)
    requires capacity >= 2 && m < |jobs| && jobs[m].url != "" && Legal(jobs, capacity, Start(jobs, up, checks), run)
    requires !After(jobs, capacity, Start(jobs, up, checks), run).phases[m].Past(UpSet)
    ensures Legal(jobs, capacity, Start(jobs, up, checks), longer)
    ensures var s := After(jobs, capacity, Start(jobs, up, checks), longer);
            s.phases[m] == Answered && forall i :: 0 <= i < |jobs| && i != m ==> s.phases[i].Rank() == 12
    decreases Measure(After(jobs, capacity, Start(jobs, up, checks), run))
  {
    hide Legal, After, Enabled, Do, Inv, Measure;
    var s := After(jobs, capacity, Start(jobs, up, checks), run);
    if s.phases[m] == Answered && forall i :: 0 <= i < |jobs| && i != m ==> s.phases[i].Rank() >= 12 {
      longer := run;
    } else {
      RunInv(jobs, capacity, up, checks, run);
      var a := OthersFirst(jobs, capacity, up, checks, s, m);
      Extend(jobs, capacity, Start(jobs, up, checks), run, a);
      StepShrinks(jobs, capacity, s, a);
      StepShape(jobs, capacity, s, a);
      StepMilestones(jobs, capacity, s, a);
      assert a.SetUp? ==> Subject(s, a) == a.i;
      longer := HoldBack(jobs, capacity, up, checks, run + [a], m);
    }
  }

  /** Any job with a URL can be the last to write its gauge. */
  lemma LastWriter(jobs: seq<Job>, capacity: nat, up: Gauges, checks: Counters, m: nat)
    returns (full: seq<Action>)
    requires capacity >= 2 && m < |jobs| && jobs[m].url != ""
    ensures Returns(jobs, capacity, up, checks, full)
    ensures var s := After(jobs, capacity, Start(jobs, up, checks), full);
            jobs[m].name in s.up && s.up[jobs[m].name] == jobs[m].Up()
  {
    hide Legal, After, Do;
    var start := Start(jobs, up, checks);
    Begin(jobs, capacity, start);
    var held := HoldBack(jobs, capacity, up, checks, [], m);
    var s := After(jobs, capacity, start, held);
    Extend(jobs, capacity, start, held, SetUp(m));
    StepShape(jobs, capacity, s, SetUp(m));
    assert Settled(jobs, Do(jobs, capacity, s, SetUp(m)), jobs[m].name);
    full := Complete(jobs, capacity, up, checks, held + [SetUp(m)]);
  }

  lemma Begin(jobs: seq<Job>, capacity: nat, s: State)
    requires |s.phases| == |jobs|
    ensures Legal(jobs, capacity, s, []) && After(jobs, capacity, s, []) == s
  {
  }

  // ---------------------------------------------------------------- one probe at a time

  /** A job gets its token only after the ones before it have given theirs back. */
  ghost predicate InTurn(jobs: seq<Job>, s: State) {
    && |s.phases| == |jobs|
    && forall i, j :: 0 <= i < j < |jobs| && s.phases[j].Past(Holding) ==> s.phases[i].Rank() >= Released.Rank()
  }

  /** The gauge shows the last occurrence that has written it. */
  ghost predicate LastInv(jobs: seq<Job>, s: State) {
    && |s.phases| == |jobs|
    && forall i :: 0 <= i < |jobs| && s.phases[i].Past(UpSet) && !Overwritten(jobs, s, i) ==>
         jobs[i].name in s.up && s.up[jobs[i].name] == jobs[i].Up()
  }

  ghost predicate Overwritten(jobs: seq<Job>, s: State, i: nat)
    requires |s.phases| == |jobs| && i < |jobs|
  {
    exists j :: i < j < |jobs| && jobs[j].name == jobs[i].name && s.phases[j].Past(UpSet)
  }

  lemma StepRank(jobs: seq<Job>, capacity: nat, s: State, a: Action)
    requires |s.phases| == |jobs| && Enabled(jobs, capacity, s, a) && a != Return
    ensures var k, to := Subject(s, a), Target(a);
            && k < |jobs| && to.Rank() > s.phases[k].Rank()
            && (!a.Acquire? ==> (to.Past(Holding) <==> s.phases[k].Past(Holding)))
            && (a.SetUp? ==> s.phases[k] == Answered)
  {
  }

  lemma StepKeepsTurn(jobs: seq<Job>, capacity: nat, s: State, a: Action)
    requires capacity <= 1 && OrderInv(jobs, s) && CountInv(jobs, capacity, s) && InTurn(jobs, s)
        && Enabled(jobs, capacity, s, a)
    ensures InTurn(jobs, Do(jobs, capacity, s, a))
  {
    if a != Return {
      StepShape(jobs, capacity, s, a);
      StepRank(jobs, capacity, s, a);
      var k := Subject(s, a);
      if a.Acquire? {
        TallyNone(jobs, s.phases, Tokens());
        forall i | 0 <= i < |jobs|
          ensures i < k ==> s.phases[i].Rank() >= Released.Rank()
          ensures i > k ==> s.phases[i] == Waiting
        {
          assert InOrder(jobs[i], s.phases[i], i, s.next);
          assert !Tokens()(jobs[i], s.phases[i]);
        }
      }
      hide Do, Enabled, Target, Subject, OrderInv, CountInv, Tally;
    }
  }

  lemma StepKeepsLast(jobs: seq<Job>, capacity: nat, s: State, a: Action)
    requires InTurn(jobs, s) && LastInv(jobs, s) && Enabled(jobs, capacity, s, a)
    ensures LastInv(jobs, Do(jobs, capacity, s, a))
  {
    if a != Return {
      StepShape(jobs, capacity, s, a);
      StepMilestones(jobs, capacity, s, a);
      StepRank(jobs, capacity, s, a);
      hide Do, Enabled, Target, Subject;
      var s', k := Do(jobs, capacity, s, a), Subject(s, a);
      assert a.SetUp? ==> s'.phases[k].Past(UpSet) && s.phases[k].Rank() < Released.Rank();
      forall i | 0 <= i < |jobs| && s'.phases[i].Past(UpSet) && !Overwritten(jobs, s', i)
        ensures jobs[i].name in s'.up && s'.up[jobs[i].name] == jobs[i].Up()
      {
        if i != k || !a.SetUp? {
          assert !Overwritten(jobs, s, i);
        }
      }
    }
  }

  lemma {:induction false} RunInTurn(jobs: seq<Job>, capacity: nat, up: Gauges,
                                     checks: Counters, s: State, run: seq<Action>)
    requires capacity <= 1 && Inv(jobs, capacity, up, checks, s) && InTurn(jobs, s) && LastInv(jobs, s)
    requires Legal(jobs, capacity, s, run)
    ensures LastInv(jobs, After(jobs, capacity, s, run))
    decreases |run|
  {
    if run != [] {
      var a := run[0];
      StepKeepsTurn(jobs, capacity, s, a);
      StepKeepsLast(jobs, capacity, s, a);
      RunKeepsInv(jobs, capacity, up, checks, s, [a]);
      hide Do, Enabled, Inv, InTurn, LastInv;
      RunInTurn(jobs, capacity, up, checks, Do(jobs, capacity, s, a), run[1..]);
    }
  }

  ghost function Probed(name: string): Job -> bool { (job: Job) => job.name == name && job.url != "" }

  /** With room for one probe the last occurrence of a name decides its gauge. */
  lemma LastOccurrenceWins(jobs: seq<Job>, capacity: nat, up: Gauges, checks: Counters,
                           run: seq<Action>, name: string)
    requires capacity <= 1 && Returns(jobs, capacity, up, checks, run)
    ensures var s, last := After(jobs, capacity, Start(jobs, up, checks), run), LastWhere(jobs, Probed(name));
            && (last.Some? ==> name in s.up && s.up[name] == jobs[last.value].Up())
            && (last.None? ==> SameAt(s.up, up, name))
  {
    hide Legal, After, Inv, LastInv, InTurn;
    var start := Start(jobs, up, checks);
    StartInv(jobs, capacity, up, checks);
    assert InTurn(jobs, start) && LastInv(jobs, start) by {
      NobodyYet(jobs, up, checks);
    }
    RunInTurn(jobs, capacity, up, checks, start, run);
    RunInv(jobs, capacity, up, checks, run);
    LastShown(jobs, capacity, up, checks, After(jobs, capacity, start, run), name);
  }

  lemma NobodyYet(jobs: seq<Job>, up: Gauges, checks: Counters)
    ensures InTurn(jobs, Start(jobs, up, checks)) && LastInv(jobs, Start(jobs, up, checks))
  {
  }

  lemma LastShown(jobs: seq<Job>, capacity: nat, up: Gauges, checks: Counters, s: State, name: string)
    requires Inv(jobs, capacity, up, checks, s) && LastInv(jobs, s) && s.returned
    ensures var last := LastWhere(jobs, Probed(name));
            && (last.Some? ==> name in s.up && s.up[name] == jobs[last.value].Up())
            && (last.None? ==> SameAt(s.up, up, name))
  {
    hide Inv, Outcomes, Checks;
    var last := LastWhere(jobs, Probed(name));
    ReturnedIsDone(jobs, capacity, up, checks, s);
    assert forall j :: (if last.Some? then last.value + 1 else 0) <= j < |jobs| ==> !Probed(name)(jobs[j]);
    if last.Some? {
      LastHasWritten(jobs, capacity, up, checks, s, last.value);
    }
  }

  lemma LastHasWritten(jobs: seq<Job>, capacity: nat, up: Gauges, checks: Counters, s: State, i: nat)
    requires Inv(jobs, capacity, up, checks, s) && s.returned && i < |jobs| && jobs[i].url != ""
    requires forall j :: i < j < |jobs| && jobs[j].name == jobs[i].name ==> jobs[j].url == ""
    ensures s.phases[i].Past(UpSet) && !Overwritten(jobs, s, i)
  {
    AllDone(jobs, capacity, s);
  }

  // ---------------------------------------------------------------- when the schedule shows

  /** The gauge of `name` ends at the same value in all schedules. */
  ghost predicate OneOutcome(jobs: seq<Job>, capacity: nat, up: Gauges, checks: Counters, name: string) {
    forall run, other :: Returns(jobs, capacity, up, checks, run) && Returns(jobs, capacity, up, checks, other) ==>
      SameAt(After(jobs, capacity, Start(jobs, up, checks), run).up,
          After(jobs, capacity, Start(jobs, up, checks), other).up, name)
  }

  /** Exactly when a gauge does not depend on the schedule: the probes of its name agree, or there is
      room for one probe only. With room for two, any occurrence can be the last to write. */
  lemma OneOutcomeIff(jobs: seq<Job>, capacity: nat, up: Gauges, checks: Counters, name: string)
    ensures OneOutcome(jobs, capacity, up, checks, name) <==> Agree(jobs, name) || capacity <= 1
  {
    hide Legal, After;
    if Agree(jobs, name) || capacity <= 1 {
      forall run, other | Returns(jobs, capacity, up, checks, run) && Returns(jobs, capacity, up, checks, other)
        ensures SameAt(After(jobs, capacity, Start(jobs, up, checks), run).up,
                       After(jobs, capacity, Start(jobs, up, checks), other).up, name)
      {
        if Agree(jobs, name) {
          ScheduleIndependence(jobs, capacity, up, checks, run, other);
        } else {
          LastOccurrenceWins(jobs, capacity, up, checks, run, name);
          LastOccurrenceWins(jobs, capacity, up, checks, other, name);
        }
      }
    } else {
      var i, j :| 0 <= i < |jobs| && 0 <= j < |jobs| && jobs[i].name == jobs[j].name == name
                  && jobs[i].url != "" && jobs[j].url != "" && jobs[i].Up() != jobs[j].Up();
      var run := LastWriter(jobs, capacity, up, checks, i);
      var other := LastWriter(jobs, capacity, up, checks, j);
    }
  }
}
