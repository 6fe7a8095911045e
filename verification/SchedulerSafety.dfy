// What holds in every reachable state of the runner, and over every run.
module SchedulerSafety {
  import opened Bounds
  import opened Steps
  import opened Sums
  import opened Scheduler
  import opened Footprint

  ghost function NeedAt(cfg: Config, t: Tag, r: string): int {
    if t in cfg.steps && r in cfg.steps[t].needs then cfg.steps[t].needs[r] else 0
  }

  // Units of r the given steps hold together.
  ghost function Held(cfg: Config, running: set<Tag>, r: string): int {
    SumOver(running, t => NeedAt(cfg, t, r))
  }

  ghost predicate Started(s: State, t: Tag) {
    t in s.running || t in s.done
  }

  ghost predicate RealFailure(s: State, t: Tag) {
    FailedStep(s, t) && t !in s.aborted
  }

  ghost predicate Fits(cfg: Config, step: Step) {
    forall r :: r in step.needs ==> r in cfg.caps && step.needs[r] <= cfg.caps[r]
  }

  // available + held = capacity, and never overdrawn.
  ghost predicate ResourcesBalance(cfg: Config, s: State) {
    && s.avail.Keys == cfg.caps.Keys
    && forall r :: r in cfg.caps ==>
        && s.avail[r] + Held(cfg, s.running, r) == cfg.caps[r]
        && (s.avail[r] >= 0 || s.avail[r] == cfg.caps[r])
  }

  ghost predicate StepsConsistent(cfg: Config, s: State) {
    && s.running <= cfg.steps.Keys
    && s.done.Keys <= cfg.steps.Keys
    && s.running !! s.done.Keys
    && s.registered <= s.running
    && s.aborted <= s.registered + s.done.Keys
    && (s.running == {} || |s.running| <= cfg.jobs)
    && (forall t :: Started(s, t) ==> t in cfg.steps && DepsOk(s, cfg.steps[t]) && Fits(cfg, cfg.steps[t])
                                       && cfg.jobs >= 1)
  }

  ghost predicate FailuresConsistent(s: State) {
    && s.stop == s.failed
    && (s.failed <==> exists t :: RealFailure(s, t))
    && (s.aborted != {} ==> s.failed)
    && (forall t :: t in s.aborted && t in s.done ==> !s.done[t])
  }

  ghost predicate Inv(cfg: Config, s: State) {
    ResourcesBalance(cfg, s) && StepsConsistent(cfg, s) && FailuresConsistent(s)
  }

  // --- One step at a time ---

  lemma InitInv(cfg: Config)
    ensures Inv(cfg, Init(cfg))
  {
    forall t ensures !RealFailure(Init(cfg), t) {
    }
  }

  lemma HeldAdd(cfg: Config, running: set<Tag>, t: Tag, r: string)
    requires t !in running
    ensures Held(cfg, running + {t}, r) == Held(cfg, running, r) + NeedAt(cfg, t, r)
  {
    SumAdd(running, x => NeedAt(cfg, x, r), t);
  }

  lemma HeldNonNegative(cfg: Config, running: set<Tag>, r: string)
    ensures Held(cfg, running, r) >= 0
  {
    SumNonNegative(running, t => NeedAt(cfg, t, r));
  }

  lemma LaunchResources(cfg: Config, s: State, t: Tag)
    requires ResourcesBalance(cfg, s) && t in cfg.steps && t !in s.running && ResFree(s, cfg.steps[t])
    ensures ResourcesBalance(cfg, Launch(cfg, s, t)) && Fits(cfg, cfg.steps[t])
  {
    var s' := Launch(cfg, s, t);
    forall r | r in cfg.caps
      ensures s'.avail[r] + Held(cfg, s'.running, r) == cfg.caps[r]
      ensures s'.avail[r] >= 0 || s'.avail[r] == cfg.caps[r]
    {
      HeldAdd(cfg, s.running, t, r);
    }
    forall r | r in cfg.steps[t].needs ensures r in cfg.caps && cfg.steps[t].needs[r] <= cfg.caps[r] {
      HeldNonNegative(cfg, s.running, r);
    }
  }

  lemma LaunchSteps(cfg: Config, s: State, t: Tag)
    requires StepsConsistent(cfg, s) && Startable(cfg, s, t) && |s.running| < cfg.jobs && Fits(cfg, cfg.steps[t])
    ensures StepsConsistent(cfg, Launch(cfg, s, t))
  {
  }

  lemma LaunchInv(cfg: Config, s: State, t: Tag)
    requires Inv(cfg, s) && Startable(cfg, s, t) && |s.running| < cfg.jobs && ResFree(s, cfg.steps[t])
    ensures Inv(cfg, Launch(cfg, s, t))
  {
    LaunchResources(cfg, s, t);
    LaunchSteps(cfg, s, t);
    forall x ensures RealFailure(Launch(cfg, s, t), x) <==> RealFailure(s, x) {
    }
  }

  lemma {:induction false} PassFromInv(cfg: Config, s: State, i: nat)
    requires ValidConfig(cfg) && Inv(cfg, s)
    ensures Inv(cfg, PassFrom(cfg, s, i))
    decreases |cfg.order| - i
  {
    if i < |cfg.order| {
      var t := cfg.order[i];
      ReadyIsStartable(cfg, s, t);
      if Ready(cfg, s, t) && |s.running| < cfg.jobs && ResFree(s, cfg.steps[t]) {
        LaunchInv(cfg, s, t);
        PassFromInv(cfg, Launch(cfg, s, t), i + 1);
      } else {
        PassFromInv(cfg, s, i + 1);
      }
    }
  }

  lemma RegisterInv(cfg: Config, s: State, t: Tag)
    requires Inv(cfg, s) && t in s.running
    ensures Inv(cfg, Register(s, t))
  {
    forall x ensures RealFailure(Register(s, t), x) <==> RealFailure(s, x) {
    }
  }

  lemma ReleaseBalances(cfg: Config, running: set<Tag>, t: Tag, r: string, avail: int)
    requires t in running && t in cfg.steps
    requires r in cfg.caps && avail + Held(cfg, running, r) == cfg.caps[r] && (avail >= 0 || avail == cfg.caps[r])
    ensures avail + NeedOf(cfg.steps[t], r) + Held(cfg, running - {t}, r) == cfg.caps[r]
    ensures var a := avail + NeedOf(cfg.steps[t], r); a >= 0 || a == cfg.caps[r]
  {
    HeldAdd(cfg, running - {t}, t, r);
    HeldNonNegative(cfg, running - {t}, r);
    assert running - {t} + {t} == running;
  }

  lemma CompleteResources(cfg: Config, s: State, t: Tag, ok: bool)
    requires ResourcesBalance(cfg, s) && t in s.running && t in cfg.steps
    ensures ResourcesBalance(cfg, Complete(cfg, s, t, ok))
  {
    var s' := Complete(cfg, s, t, ok);
    assert s'.running == s.running - {t} && s'.avail == Given(s.avail, cfg.steps[t]);
    forall r | r in cfg.caps
      ensures s'.avail[r] + Held(cfg, s'.running, r) == cfg.caps[r]
      ensures s'.avail[r] >= 0 || s'.avail[r] == cfg.caps[r]
    {
      ReleaseBalances(cfg, s.running, t, r, s.avail[r]);
    }
  }

  lemma CompleteFailures(cfg: Config, s: State, t: Tag, ok: bool)
    requires Inv(cfg, s) && t in s.registered
    ensures FailuresConsistent(Complete(cfg, s, t, ok))
  {
    var s' := Complete(cfg, s, t, ok);
    if t !in s.aborted && !ok {
      assert RealFailure(s', t);
    } else {
      forall x ensures RealFailure(s', x) <==> RealFailure(s, x) {
      }
    }
  }

  lemma OutcomesKept(s: State, s': State, step: Step)
    requires DepsOk(s, step) && forall t :: t in s.done ==> t in s'.done && s'.done[t] == s.done[t]
    ensures DepsOk(s', step)
  {
  }

  lemma CompleteStarted(cfg: Config, s: State, t: Tag, ok: bool, x: Tag)
    requires StepsConsistent(cfg, s) && t in s.registered && Started(Complete(cfg, s, t, ok), x)
    ensures x in cfg.steps && DepsOk(Complete(cfg, s, t, ok), cfg.steps[x]) && Fits(cfg, cfg.steps[x]) && cfg.jobs >= 1
  {
    assert Started(s, x);
    OutcomesKept(s, Complete(cfg, s, t, ok), cfg.steps[x]);
  }

  lemma CompleteSteps(cfg: Config, s: State, t: Tag, ok: bool)
    requires StepsConsistent(cfg, s) && t in s.registered
    ensures StepsConsistent(cfg, Complete(cfg, s, t, ok))
  {
    var s' := Complete(cfg, s, t, ok);
    assert |s.running| == |s'.running| + 1 by {
      assert s.running == s'.running + {t};
    }
    forall x | Started(s', x)
      ensures x in cfg.steps && DepsOk(s', cfg.steps[x]) && Fits(cfg, cfg.steps[x]) && cfg.jobs >= 1
    {
      CompleteStarted(cfg, s, t, ok, x);
    }
  }

  lemma NextInv(cfg: Config, s: State, e: Event, s': State)
    requires ValidConfig(cfg) && Inv(cfg, s) && Next(cfg, s, e, s')
    ensures Inv(cfg, s')
  {
    match e
    case SchedulePass => PassFromInv(cfg, s, 0);
    case Registered(t) => RegisterInv(cfg, s, t);
    case Completed(t, ok) =>
      CompleteResources(cfg, s, t, ok);
      CompleteFailures(cfg, s, t, ok);
      CompleteSteps(cfg, s, t, ok);
  }

  // Every reachable state satisfies the invariant.
  lemma {:induction false} RunInv(cfg: Config, r: Run, i: nat)
    requires ValidConfig(cfg) && IsRun(cfg, r) && i < |r.states|
    ensures Inv(cfg, r.states[i])
  {
    if i == 0 {
      InitInv(cfg);
    } else {
      RunInv(cfg, r, i - 1);
      NextInv(cfg, r.states[i - 1], r.events[i - 1], r.states[i]);
    }
  }

  // --- Over whole runs ---

  ghost predicate Grew(s: State, s': State) {
    && (forall t :: Started(s, t) ==> Started(s', t))
    && (forall t :: t in s.done ==> t in s'.done && s'.done[t] == s.done[t])
    && (s.failed ==> s'.failed)
  }

  lemma PassGrows(cfg: Config, s: State)
    requires ValidConfig(cfg)
    ensures Grew(s, Pass(cfg, s))
  {
    PassFromOutcome(cfg, s, 0);
  }

  lemma CompleteGrows(cfg: Config, s: State, t: Tag, ok: bool)
    requires t in cfg.steps && t !in s.done
    ensures Grew(s, Complete(cfg, s, t, ok))
  {
  }

  // Started steps and outcomes only accumulate, and failure is permanent.
  lemma NextGrows(cfg: Config, s: State, e: Event, s': State)
    requires ValidConfig(cfg) && StepsConsistent(cfg, s) && Next(cfg, s, e, s')
    ensures Grew(s, s')
  {
    match e
    case SchedulePass => PassGrows(cfg, s);
    case Registered(_) =>
    case Completed(t, ok) => CompleteGrows(cfg, s, t, ok);
  }

  lemma NextLaunches(cfg: Config, s: State, e: Event, s': State)
    requires ValidConfig(cfg) && Inv(cfg, s) && Next(cfg, s, e, s')
    ensures forall t :: Launched(s, s', t) ==> !s.failed && !Started(s, t) && Startable(cfg, s, t)
  {
    if e.SchedulePass? {
      PassFromOutcome(cfg, s, 0);
    }
  }

  lemma StepGrows(cfg: Config, r: Run, i: nat)
    requires ValidConfig(cfg) && IsRun(cfg, r) && i + 1 < |r.states|
    ensures Grew(r.states[i], r.states[i + 1])
  {
    RunInv(cfg, r, i);
    NextGrows(cfg, r.states[i], r.events[i], r.states[i + 1]);
  }

  lemma {:induction false} RunGrows(cfg: Config, r: Run, i: nat, j: nat)
    requires ValidConfig(cfg) && IsRun(cfg, r) && i <= j < |r.states|
    ensures Grew(r.states[i], r.states[j])
    decreases j
  {
    if i < j {
      RunGrows(cfg, r, i, j - 1);
      StepGrows(cfg, r, j - 1);
    }
  }

  ghost predicate LaunchedAt(r: Run, i: nat, t: Tag)
    requires i + 1 < |r.states|
  {
    Launched(r.states[i], r.states[i + 1], t)
  }

  // A step is launched only after all its dependencies finished ok, and never after a failure,
  // whether or not --keep-going was given.
  lemma LaunchDiscipline(cfg: Config, r: Run, i: nat, t: Tag)
    requires ValidConfig(cfg) && IsRun(cfg, r) && i + 1 < |r.states| && LaunchedAt(r, i, t)
    ensures t in cfg.steps && DepsOk(r.states[i], cfg.steps[t])
    ensures forall j :: 0 <= j <= i ==> !r.states[j].failed
  {
    RunInv(cfg, r, i);
    NextLaunches(cfg, r.states[i], r.events[i], r.states[i + 1]);
    forall j | 0 <= j <= i ensures !r.states[j].failed {
      RunGrows(cfg, r, j, i);
    }
  }

  // And a step is launched at most once.
  lemma NeverLaunchedAgain(cfg: Config, r: Run, i: nat, j: nat, t: Tag)
    requires ValidConfig(cfg) && IsRun(cfg, r) && i < j && j + 1 < |r.states|
    requires LaunchedAt(r, i, t)
    ensures !LaunchedAt(r, j, t)
  {
    assert Started(r.states[i + 1], t);
    RunGrows(cfg, r, i + 1, j);
    assert Started(r.states[j], t);
    RunInv(cfg, r, j);
    NextLaunches(cfg, r.states[j], r.events[j], r.states[j + 1]);
  }

  // --- Skipping, by dependency alone ---

  // p walks dependency edges from p[0] down to a (possibly unregistered) tag.
  ghost predicate AncestorPath(cfg: Config, p: seq<Tag>) {
    && |p| >= 2
    && forall i :: 0 <= i < |p| - 1 ==> p[i] in cfg.steps && p[i + 1] in cfg.steps[p[i]].deps
  }

  ghost predicate Ancestor(cfg: Config, t: Tag, a: Tag) {
    exists p :: AncestorPath(cfg, p) && p[0] == t && p[|p| - 1] == a
  }

  // Whatever a started step depends on, directly or not, has finished ok.
  lemma {:induction false} StartedAncestorsOk(cfg: Config, s: State, p: seq<Tag>)
    requires Inv(cfg, s) && AncestorPath(cfg, p) && Started(s, p[0])
    ensures p[|p| - 1] in s.done && s.done[p[|p| - 1]]
    decreases |p|
  {
    assert p[1] in cfg.steps[p[0]].deps;
    if |p| > 2 {
      StartedAncestorsOk(cfg, s, p[1..]);
    }
  }

  lemma {:induction false} FailedAncestorBlocks(cfg: Config, s: State, p: seq<Tag>)
    requires Inv(cfg, s) && AncestorPath(cfg, p) && FailedStep(s, p[|p| - 1]) && p[0] !in s.done
    ensures Blocked(cfg, s, p[0])
    decreases |p|
  {
    if p[0] in s.running {
      StartedAncestorsOk(cfg, s, p);
      assert false;
    }
    BlockedUnfolds(cfg, s, p[0]);
    assert p[1] in cfg.steps[p[0]].deps;
    if |p| > 2 {
      if p[1] !in s.done {
        FailedAncestorBlocks(cfg, s, p[1..]);
      } else if s.done[p[1]] {
        StartedAncestorsOk(cfg, s, p[1..]);
        assert false;
      }
    }
  }

  // In every reachable state the skipped steps are exactly the unfinished ones with a failed
  // transitive dependency, and no started step has one.
  lemma SkippedExactly(cfg: Config, s: State, t: Tag)
    requires Inv(cfg, s)
    ensures t in Skipped(cfg, s) <==> t !in s.done && exists a :: Ancestor(cfg, t, a) && FailedStep(s, a)
    ensures Started(s, t) ==> forall a :: Ancestor(cfg, t, a) ==> !FailedStep(s, a)
  {
    if t in Skipped(cfg, s) {
      var p :| BlockChain(cfg, s, p) && p[0] == t;
      assert AncestorPath(cfg, p);
      assert Ancestor(cfg, t, p[|p| - 1]);
      assert Pending(cfg, s, p[0]);
    } else if t !in s.done && exists a :: Ancestor(cfg, t, a) && FailedStep(s, a) {
      var a :| Ancestor(cfg, t, a) && FailedStep(s, a);
      var p :| AncestorPath(cfg, p) && p[0] == t && p[|p| - 1] == a;
      FailedAncestorBlocks(cfg, s, p);
    }
    forall a | Started(s, t) && Ancestor(cfg, t, a) ensures !FailedStep(s, a) {
      var p :| AncestorPath(cfg, p) && p[0] == t && p[|p| - 1] == a;
      StartedAncestorsOk(cfg, s, p);
    }
  }

  // --- The verdict ---

  ghost function Passed(s: State): set<Tag> {
    set t | t in s.done && s.done[t]
  }

  ghost function FailedTags(s: State): set<Tag> {
    set t | t in s.done && RealFailure(s, t)
  }

  lemma SubsetOfSameSize<T>(a: set<T>, b: set<T>)
    requires a <= b && |a| >= |b|
    ensures a == b
  {
    assert b == a + (b - a);
    assert |b| == |a| + |b - a|;
  }

  lemma NothingSkippedWithoutFailure(cfg: Config, s: State)
    requires forall t :: !FailedStep(s, t)
    ensures Skipped(cfg, s) == {}
  {
    assert forall p :: !BlockChain(cfg, s, p);
  }

  // `run` returns true exactly when every step finished and passed.
  lemma VerdictHonest(cfg: Config, r: Run)
    requires ValidConfig(cfg) && IsRun(cfg, r) && Exit(cfg, Last(r))
    ensures !Last(r).failed <==> Passed(Last(r)) == cfg.steps.Keys
  {
    var s := Last(r);
    RunInv(cfg, r, |r.states| - 1);
    if !s.failed {
      forall t ensures !FailedStep(s, t) {
        assert !RealFailure(s, t);
      }
      NothingSkippedWithoutFailure(cfg, s);
      SubsetOfSameSize(s.done.Keys, cfg.steps.Keys);
      forall t | t in s.done ensures t in Passed(s) {
        assert !FailedStep(s, t);
      }
      assert Passed(s) == s.done.Keys;
    } else {
      var t :| RealFailure(s, t);
      assert t in cfg.steps && t !in Passed(s);
    }
  }

  lemma ThreeParts<T>(d: set<T>, p: set<T>, f: set<T>, a: set<T>)
    requires d == p + f + a && p !! f && (p + f) !! a
    ensures |p| + |f| + |a| == |d|
  {
    assert |p + f| == |p| + |f|;
    assert |p + f + a| == |p + f| + |a|;
  }

  lemma FailuresShow(s: State)
    requires FailuresConsistent(s)
    ensures FailedTags(s) != {} <==> s.failed
  {
    if s.failed {
      var t :| RealFailure(s, t);
      assert t in FailedTags(s);
    }
  }

  lemma OutcomesPartition(s: State)
    requires s.aborted <= s.done.Keys && forall t :: t in s.aborted ==> !s.done[t]
    ensures |Passed(s)| + |FailedTags(s)| + |s.aborted| == |s.done|
  {
    ThreeParts(s.done.Keys, Passed(s), FailedTags(s), s.aborted);
  }

  lemma SkippedUnfinished(cfg: Config, s: State)
    ensures s.done.Keys !! Skipped(cfg, s)
  {
    forall t | t in Skipped(cfg, s) ensures t !in s.done {
      BlockedUnfolds(cfg, s, t);
    }
  }

  // The printed counts: at the end passed, failed and aborted steps partition the finished ones,
  // finished and skipped steps are disjoint, and without a failure together they are everything.
  lemma CountsAddUp(cfg: Config, r: Run)
    requires ValidConfig(cfg) && IsRun(cfg, r) && Exit(cfg, Last(r))
    ensures var s := Last(r);
            && |Passed(s)| + |FailedTags(s)| + |s.aborted| == |s.done|
            && (FailedTags(s) != {} <==> s.failed)
            && s.done.Keys !! Skipped(cfg, s)
            && (!s.stop ==> s.done.Keys + Skipped(cfg, s) == cfg.steps.Keys)
            && (cfg.keepGoing ==> s.aborted == {})
  {
    var s := Last(r);
    RunInv(cfg, r, |r.states| - 1);
    OutcomesPartition(s);
    FailuresShow(s);
    SkippedUnfinished(cfg, s);
    var sk := Skipped(cfg, s);
    if !s.stop {
      assert |s.done.Keys + sk| == |s.done.Keys| + |sk|;
      SubsetOfSameSize(s.done.Keys + sk, cfg.steps.Keys);
    }
    if cfg.keepGoing {
      KeepGoingAbortsNothing(cfg, r, |r.states| - 1);
    }
  }

  lemma {:induction false} KeepGoingAbortsNothing(cfg: Config, r: Run, i: nat)
    requires ValidConfig(cfg) && IsRun(cfg, r) && i < |r.states| && cfg.keepGoing
    ensures r.states[i].aborted == {}
  {
    if i > 0 {
      KeepGoingAbortsNothing(cfg, r, i - 1);
      assert Next(cfg, r.states[i - 1], r.events[i - 1], r.states[i]);
      PassFromOutcome(cfg, r.states[i - 1], 0);
    }
  }

  // --- Memory ---

  // Whatever runs together at -jN stays within the footprint computed for N.
  lemma RunWithinFootprint(cfg: Config, r: Run, i: nat, m: MemModel)
    requires ValidConfig(cfg) && IsRun(cfg, r) && i < |r.states| && ValidModel(m)
    ensures WorstUse(m, r.states[i].running) <= JobsFootprint(m, cfg.jobs)
  {
    RunInv(cfg, r, i);
    FootprintBounds(m, cfg.jobs, r.states[i].running);
  }

  // And with no outer cap in play: the inner caps of the running steps never add up to more than
  // the N largest ones.
  lemma RunCapsWithinLargest(cfg: Config, r: Run, i: nat, m: MemModel)
    requires ValidConfig(cfg) && IsRun(cfg, r) && i < |r.states| && ValidModel(m)
    ensures SumOver(r.states[i].running, t => Counted(StepCap(m, t))) <= SumFirst(SortedCaps(m), Max(0, cfg.jobs))
  {
    var running := r.states[i].running;
    RunInv(cfg, r, i);
    CountAtMostSize(m.entries, running);
    PrefixDominates(m, m.entries, running, Max(0, cfg.jobs));
    CapSumIsStepCaps(m, running);
  }
}
