// When a run comes to an end: exactly which configurations never leave the loop polling forever.
module SchedulerLiveness {
  import opened Steps
  import opened Sums
  import opened Scheduler
  import opened SchedulerSafety

  // Acyclic, dependency-closed, every need within capacity, and a slot to run in.
  ghost predicate LiveConfig(cfg: Config) {
    && (cfg.steps == map[] || cfg.jobs >= 1)
    && DepClosed(cfg.steps)
    && Acyclic(cfg.steps)
    && forall t :: t in cfg.steps ==> Fits(cfg, cfg.steps[t])
  }

  // Only idle polling is left.
  ghost predicate Stuck(cfg: Config, s: State) {
    forall e, s' :: Next(cfg, s, e, s') ==> s' == s
  }

  // --- Progress ---

  lemma {:induction false} LeastRanked(c: set<Tag>, rank: map<Tag, nat>) returns (t: Tag)
    requires c != {} && c <= rank.Keys
    ensures t in c && forall x :: x in c ==> rank[t] <= rank[x]
    decreases c
  {
    t :| t in c;
    if c != {t} {
      var u := LeastRanked(c - {t}, rank);
      if rank[u] < rank[t] {
        t := u;
      }
    }
  }

  lemma SomeStepUnsettled(cfg: Config, s: State)
    requires StepsConsistent(cfg, s) && s.running == {} && !Exit(cfg, s)
    ensures cfg.steps.Keys - s.done.Keys - Skipped(cfg, s) != {}
  {
    var sk := Skipped(cfg, s);
    SkippedUnfinished(cfg, s);
    assert |s.done.Keys + sk| == |s.done.Keys| + |sk|;
    if cfg.steps.Keys - s.done.Keys - sk == {} {
      SubsetOfSameSize(cfg.steps.Keys, s.done.Keys + sk);
    }
  }

  // With nothing running, the least-ranked unsettled step can start.
  lemma SomeStepStartable(cfg: Config, s: State) returns (t: Tag)
    requires LiveConfig(cfg) && StepsConsistent(cfg, s) && s.running == {} && !Exit(cfg, s)
    ensures Startable(cfg, s, t)
  {
    SomeStepUnsettled(cfg, s);
    var rank :| Ranks(cfg.steps, rank);
    t := LeastRanked(cfg.steps.Keys - s.done.Keys - Skipped(cfg, s), rank);
    BlockedUnfolds(cfg, s, t);
    forall d | d in cfg.steps[t].deps ensures d in s.done && s.done[d] {
      assert d in cfg.steps && rank[d] < rank[t];
      assert !FailedStep(s, d) && !Blocked(cfg, s, d);
    }
  }

  lemma IdleResourcesFree(cfg: Config, s: State, t: Tag)
    requires ResourcesBalance(cfg, s) && s.running == {} && t in cfg.steps && Fits(cfg, cfg.steps[t])
    ensures ResFree(s, cfg.steps[t])
  {
    forall r | r in cfg.steps[t].needs ensures r in s.avail && s.avail[r] >= cfg.steps[t].needs[r] {
      assert Held(cfg, s.running, r) == 0;
    }
  }

  // No deadlock: when nothing runs and the run is not over, a schedule pass launches a step.
  lemma PassLaunches(cfg: Config, s: State)
    requires ValidConfig(cfg) && LiveConfig(cfg) && Inv(cfg, s)
    requires s.running == {} && !Exit(cfg, s)
    ensures exists t :: Launched(s, Pass(cfg, s), t)
  {
    var t := SomeStepStartable(cfg, s);
    var s' := Pass(cfg, s);
    PassFromOutcome(cfg, s, 0);
    PassFromInv(cfg, s, 0);
    var j :| 0 <= j < |cfg.order| && cfg.order[j] == t;
    if s'.running == {} {
      IdleResourcesFree(cfg, s', t);
      assert PassedOver(cfg, s, s', cfg.order[j]);
      assert false;
    }
    var u :| u in s'.running;
    assert Launched(s, s', u);
  }

  // --- A measure: what each step still has ahead of it ---

  // Launch, registration and completion.
  ghost function Ahead(s: State, t: Tag): int {
    if t in s.done then 0 else if t in s.registered then 1 else if t in s.running then 2 else 3
  }

  ghost function Measure(cfg: Config, s: State): int {
    SumOver(cfg.steps.Keys, t => Ahead(s, t))
  }

  lemma MeasureNonNegative(cfg: Config, s: State)
    ensures Measure(cfg, s) >= 0
  {
    SumNonNegative(cfg.steps.Keys, t => Ahead(s, t));
  }

  lemma MeasureLess(cfg: Config, s: State, s': State, t: Tag)
    requires t in cfg.steps && Ahead(s', t) < Ahead(s, t)
    requires forall x :: x in cfg.steps ==> Ahead(s', x) <= Ahead(s, x)
    ensures Measure(cfg, s') < Measure(cfg, s)
  {
    SumLess(cfg.steps.Keys, x => Ahead(s', x), x => Ahead(s, x), t);
  }

  lemma AvailDetermined(cfg: Config, s: State, s': State)
    requires ResourcesBalance(cfg, s) && ResourcesBalance(cfg, s') && s.running == s'.running
    ensures s.avail == s'.avail
  {
    forall r | r in cfg.caps ensures s.avail[r] == s'.avail[r] {
      assert s.avail[r] + Held(cfg, s.running, r) == cfg.caps[r];
      assert s'.avail[r] + Held(cfg, s'.running, r) == cfg.caps[r];
    }
  }

  lemma PassShape(cfg: Config, s: State)
    requires ValidConfig(cfg) && Inv(cfg, s)
    ensures var s' := Pass(cfg, s);
            && s'.done == s.done && s'.registered == s.registered
            && s.running <= s'.running <= cfg.steps.Keys && s'.running !! s.done.Keys
            && (s'.running == s.running ==> s' == s)
  {
    var s' := Pass(cfg, s);
    PassFromInv(cfg, s, 0);
    PassFromOutcome(cfg, s, 0);
    if s'.running == s.running {
      AvailDetermined(cfg, s, s');
    }
  }

  lemma LaunchesDecrease(cfg: Config, s: State, s': State, t: Tag)
    requires s'.done == s.done && s'.registered == s.registered && s.running <= s'.running
    requires t in s'.running && t !in s.running && t !in s.done && t !in s.registered && t in cfg.steps
    ensures Measure(cfg, s') < Measure(cfg, s)
  {
    MeasureLess(cfg, s, s', t);
  }

  lemma PassMove(cfg: Config, s: State)
    requires ValidConfig(cfg) && Inv(cfg, s) && Pass(cfg, s) != s
    ensures Measure(cfg, Pass(cfg, s)) < Measure(cfg, s)
  {
    PassShape(cfg, s);
    var t :| t in Pass(cfg, s).running && t !in s.running;
    LaunchesDecrease(cfg, s, Pass(cfg, s), t);
  }

  lemma CompleteMove(cfg: Config, s: State, t: Tag, ok: bool)
    requires StepsConsistent(cfg, s) && t in s.registered
    ensures Measure(cfg, Complete(cfg, s, t, ok)) < Measure(cfg, s)
  {
    MeasureLess(cfg, s, Complete(cfg, s, t, ok), t);
  }

  // Every step that is not idle polling uses up some of the measure.
  lemma MoveDecreases(cfg: Config, s: State, e: Event, s': State)
    requires ValidConfig(cfg) && Inv(cfg, s) && Next(cfg, s, e, s') && s' != s
    ensures Measure(cfg, s') < Measure(cfg, s)
  {
    match e
    case SchedulePass => PassMove(cfg, s);
    case Registered(t) => MeasureLess(cfg, s, s', t);
    case Completed(t, ok) => CompleteMove(cfg, s, t, ok);
  }

  lemma InitMeasure(cfg: Config)
    ensures Measure(cfg, Init(cfg)) == 3 * |cfg.steps|
  {
    SumConstant(cfg.steps.Keys, t => Ahead(Init(cfg), t), 3);
  }

  ghost predicate Moved(r: Run, i: nat)
    requires i + 1 < |r.states|
  {
    r.states[i] != r.states[i + 1]
  }

  lemma StepCost(cfg: Config, r: Run, i: nat)
    requires ValidConfig(cfg) && IsRun(cfg, r) && i + 1 < |r.states|
    ensures Measure(cfg, r.states[i + 1]) + (if Moved(r, i) then 1 else 0) <= Measure(cfg, r.states[i])
  {
    RunInv(cfg, r, i);
    if Moved(r, i) {
      MoveDecreases(cfg, r.states[i], r.events[i], r.states[i + 1]);
    }
  }

  // How many of the first i steps of the run were not idle.
  ghost function Moves(r: Run, i: nat): nat
    requires i < |r.states|
  {
    if i == 0 then 0 else Moves(r, i - 1) + if Moved(r, i - 1) then 1 else 0
  }

  // No run makes more than three moves per step: launch, register, complete.
  lemma {:induction false} MovesBounded(cfg: Config, r: Run, i: nat)
    requires ValidConfig(cfg) && IsRun(cfg, r) && i < |r.states|
    ensures Moves(r, i) + Measure(cfg, r.states[i]) <= 3 * |cfg.steps|
  {
    if i == 0 {
      InitMeasure(cfg);
    } else {
      MovesBounded(cfg, r, i - 1);
      MovesStep(cfg, r, i);
    }
  }

  lemma MovesStep(cfg: Config, r: Run, i: nat)
    requires ValidConfig(cfg) && IsRun(cfg, r) && 0 < i < |r.states|
    ensures Moves(r, i) + Measure(cfg, r.states[i]) <= Moves(r, i - 1) + Measure(cfg, r.states[i - 1])
  {
    StepCost(cfg, r, i - 1);
  }

  // Until the exit test holds, something other than idle polling can happen.
  lemma CanMove(cfg: Config, s: State)
    requires ValidConfig(cfg) && LiveConfig(cfg) && Inv(cfg, s) && !Exit(cfg, s)
    ensures !Stuck(cfg, s)
  {
    if s.running == {} {
      PassLaunches(cfg, s);
      assert Next(cfg, s, SchedulePass, Pass(cfg, s));
    } else {
      var t :| t in s.running;
      if t in s.registered {
        var s' := Complete(cfg, s, t, true);
        assert Next(cfg, s, Completed(t, true), s');
        assert t in s'.done && t !in s.done;
      } else {
        assert Next(cfg, s, Registered(t), Register(s, t));
        assert t in Register(s, t).registered;
      }
    }
  }

  // --- The converse: a configuration that is not live has a run that polls forever ---

  ghost predicate AlwaysExits(cfg: Config) {
    forall r :: IsRun(cfg, r) && Stuck(cfg, Last(r)) ==> Exit(cfg, Last(r))
  }

  ghost predicate AllOk(r: Run) {
    forall i :: 0 <= i < |r.events| && r.events[i].Completed? ==> r.events[i].ok
  }

  ghost function Extend(r: Run, e: Event, s: State): Run {
    Run(r.states + [s], r.events + [e])
  }

  lemma ExtendIsRun(cfg: Config, r: Run, e: Event, s: State)
    requires IsRun(cfg, r) && Next(cfg, Last(r), e, s)
    ensures IsRun(cfg, Extend(r, e, s)) && Last(Extend(r, e, s)) == s
  {
    var r' := Extend(r, e, s);
    forall i | 0 <= i < |r'.events| ensures Next(cfg, r'.states[i], r'.events[i], r'.states[i + 1]) {
      if i < |r.events| {
        assert r'.states[i] == r.states[i] && r'.states[i + 1] == r.states[i + 1];
      }
    }
  }

  // A move that does not fail a step.
  lemma OkMove(cfg: Config, s: State) returns (e: Event, s': State)
    requires ValidConfig(cfg) && Inv(cfg, s) && !Stuck(cfg, s)
    ensures Next(cfg, s, e, s') && (e.Completed? ==> e.ok)
    ensures 0 <= Measure(cfg, s') < Measure(cfg, s)
  {
    e, s' :| Next(cfg, s, e, s') && s' != s;
    if e.Completed? {
      e := Completed(e.tag, true);
      s' := Complete(cfg, s, e.tag, true);
      assert e.tag in s'.done && e.tag !in s.done;
    }
    MoveDecreases(cfg, s, e, s');
    MeasureNonNegative(cfg, s');
  }

  lemma ExtendOk(cfg: Config, r: Run) returns (r': Run)
    requires ValidConfig(cfg) && IsRun(cfg, r) && AllOk(r) && !Stuck(cfg, Last(r))
    ensures IsRun(cfg, r') && AllOk(r')
    ensures 0 <= Measure(cfg, Last(r')) < Measure(cfg, Last(r))
  {
    RunInv(cfg, r, |r.states| - 1);
    var e, s := OkMove(cfg, Last(r));
    ExtendIsRun(cfg, r, e, s);
    r' := Extend(r, e, s);
  }

  // Any run in which everything passed can be driven to rest with everything passing.
  lemma {:induction false} DriveToRest(cfg: Config, r: Run) returns (r': Run)
    requires ValidConfig(cfg) && IsRun(cfg, r) && AllOk(r)
    ensures IsRun(cfg, r') && AllOk(r') && Stuck(cfg, Last(r'))
    decreases Measure(cfg, Last(r))
  {
    r' := r;
    if !Stuck(cfg, Last(r)) {
      r' := ExtendOk(cfg, r);
      r' := DriveToRest(cfg, r');
    }
  }

  lemma {:induction false} AllOkNeverFails(cfg: Config, r: Run, i: nat)
    requires ValidConfig(cfg) && IsRun(cfg, r) && AllOk(r) && i < |r.states|
    ensures !r.states[i].failed
  {
    if i > 0 {
      AllOkNeverFails(cfg, r, i - 1);
      assert Next(cfg, r.states[i - 1], r.events[i - 1], r.states[i]);
      PassFromOutcome(cfg, r.states[i - 1], 0);
    }
  }

  // Started steps ranked so that every dependency comes first.
  ghost predicate LaunchRanked(cfg: Config, s: State, rank: map<Tag, nat>, bound: nat) {
    && (forall t :: t in rank <==> Started(s, t))
    && (forall t :: t in rank ==> rank[t] < bound)
    && (forall t, d :: t in rank && t in cfg.steps && d in cfg.steps[t].deps ==> d in rank && rank[d] < rank[t])
  }

  lemma DepsStartedBefore(cfg: Config, s: State, e: Event, s': State, t: Tag)
    requires ValidConfig(cfg) && Inv(cfg, s) && Next(cfg, s, e, s') && Started(s', t) && t in cfg.steps
    ensures DepsOk(s, cfg.steps[t])
  {
    if !Started(s, t) {
      PassFromOutcome(cfg, s, 0);
      assert Launched(s, s', t);
      assert Startable(cfg, s, t);
    }
  }

  lemma RankNext(cfg: Config, s: State, s': State, was: map<Tag, nat>, n: nat) returns (rank: map<Tag, nat>)
    requires LaunchRanked(cfg, s, was, n)
    requires forall t :: Started(s, t) ==> Started(s', t)
    requires forall t :: Started(s', t) && t in cfg.steps ==> DepsOk(s, cfg.steps[t])
    ensures LaunchRanked(cfg, s', rank, n + 1)
  {
    rank := map t | t in s'.running + s'.done.Keys :: if t in was then was[t] else n;
    forall t, d | t in rank && t in cfg.steps && d in cfg.steps[t].deps ensures d in rank && rank[d] < rank[t] {
      assert Started(s', t);
      assert Started(s, d);
    }
  }

  lemma StepFacts(cfg: Config, r: Run, i: nat)
    requires ValidConfig(cfg) && IsRun(cfg, r) && i + 1 < |r.states|
    ensures forall t :: Started(r.states[i], t) ==> Started(r.states[i + 1], t)
    ensures forall t :: Started(r.states[i + 1], t) && t in cfg.steps ==> DepsOk(r.states[i], cfg.steps[t])
  {
    RunInv(cfg, r, i);
    NextGrows(cfg, r.states[i], r.events[i], r.states[i + 1]);
    forall t | Started(r.states[i + 1], t) && t in cfg.steps ensures DepsOk(r.states[i], cfg.steps[t]) {
      DepsStartedBefore(cfg, r.states[i], r.events[i], r.states[i + 1], t);
    }
  }

  // The order of launches ranks the started steps.
  lemma {:induction false} LaunchRank(cfg: Config, r: Run, i: nat) returns (rank: map<Tag, nat>)
    requires ValidConfig(cfg) && IsRun(cfg, r) && i < |r.states|
    ensures LaunchRanked(cfg, r.states[i], rank, i)
  {
    if i == 0 {
      rank := map[];
    } else {
      var was := LaunchRank(cfg, r, i - 1);
      StepFacts(cfg, r, i - 1);
      rank := RankNext(cfg, r.states[i - 1], r.states[i], was, i - 1);
    }
  }

  // A run that exits without a failure has shown its configuration live.
  lemma CleanExitIsLive(cfg: Config, r: Run)
    requires ValidConfig(cfg) && IsRun(cfg, r) && Exit(cfg, Last(r)) && !Last(r).failed
    ensures LiveConfig(cfg)
  {
    var n, s := |r.states| - 1, Last(r);
    RunInv(cfg, r, n);
    VerdictHonest(cfg, r);
    var rank := LaunchRank(cfg, r, n);
    forall t | t in cfg.steps ensures Started(s, t) {
      assert t in Passed(s);
    }
    forall t, d | t in cfg.steps && d in cfg.steps[t].deps ensures d in cfg.steps && rank[d] < rank[t] {
      assert Started(s, t);
    }
    assert Ranks(cfg.steps, rank);
  }

  // Every run that comes to rest has exited exactly when the steps are acyclic and closed under
  // dependencies, fit the capacities, and have a slot.
  lemma AlwaysExitsIffLive(cfg: Config)
    requires ValidConfig(cfg)
    ensures AlwaysExits(cfg) <==> LiveConfig(cfg)
  {
    if LiveConfig(cfg) {
      forall r | IsRun(cfg, r) && Stuck(cfg, Last(r)) ensures Exit(cfg, Last(r)) {
        RunInv(cfg, r, |r.states| - 1);
        if !Exit(cfg, Last(r)) {
          CanMove(cfg, Last(r));
        }
      }
    }
    if AlwaysExits(cfg) {
      var r0 := Run([Init(cfg)], []);
      assert IsRun(cfg, r0) && AllOk(r0);
      var r := DriveToRest(cfg, r0);
      AllOkNeverFails(cfg, r, |r.states| - 1);
      CleanExitIsLive(cfg, r);
    }
  }
}
