// What --keep-going keeps going: which steps a failure leaves unrun when nothing is killed.
module KeepGoing {
  import opened Steps
  import opened Scheduler
  import opened SchedulerLiveness
  import opened SchedulerSafety

  ghost predicate StartedOnlyBefore(s: State, s': State) {
    forall t :: Started(s', t) ==> Started(s, t)
  }

  lemma FailedStartsNothing(cfg: Config, s: State, e: Event, s': State)
    requires ValidConfig(cfg) && Inv(cfg, s) && Next(cfg, s, e, s') && s.failed
    ensures StartedOnlyBefore(s, s')
  {
    NextLaunches(cfg, s, e, s');
    forall t | Started(s', t) ensures Started(s, t) {
      if t in s'.running && t !in s.running {
        assert Launched(s, s', t);
      } else if t in s'.done && e.SchedulePass? {
        PassFromOutcome(cfg, s, 0);
      }
    }
  }

  lemma StepStartsNothing(cfg: Config, r: Run, i: nat, j: nat)
    requires ValidConfig(cfg) && IsRun(cfg, r) && i <= j && j + 1 < |r.states| && r.states[i].failed
    ensures StartedOnlyBefore(r.states[j], r.states[j + 1])
  {
    RunGrows(cfg, r, i, j);
    RunInv(cfg, r, j);
    FailedStartsNothing(cfg, r.states[j], r.events[j], r.states[j + 1]);
  }

  // After a failure no further step starts, in either mode.
  lemma {:induction false} NothingStartsAfterFailure(cfg: Config, r: Run, i: nat, j: nat)
    requires ValidConfig(cfg) && IsRun(cfg, r) && i <= j < |r.states| && r.states[i].failed
    ensures StartedOnlyBefore(r.states[i], r.states[j])
    decreases j
  {
    if i < j {
      NothingStartsAfterFailure(cfg, r, i, j - 1);
      StepStartsNothing(cfg, r, i, j - 1);
    }
  }

  // "The rest ran": every step finished, or could not because something it needs failed.
  ghost predicate RestRan(cfg: Config, s: State) {
    s.done.Keys + Skipped(cfg, s) == cfg.steps.Keys
  }

  // A finished run that failed has run the rest exactly when every step not started at the failure
  // has, directly or not, a dependency that has failed by the end.
  lemma RestRanExactly(cfg: Config, r: Run, i: nat)
    requires ValidConfig(cfg) && IsRun(cfg, r) && i < |r.states| && r.states[i].failed && Exit(cfg, Last(r))
    ensures RestRan(cfg, Last(r)) <==>
      forall t :: t in cfg.steps && !Started(r.states[i], t) ==> exists a :: Ancestor(cfg, t, a) && FailedStep(Last(r), a)
  {
    var n := |r.states| - 1;
    var s := Last(r);
    RunInv(cfg, r, n);
    RunGrows(cfg, r, i, n);
    NothingStartsAfterFailure(cfg, r, i, n);
    forall t | t in cfg.steps
      ensures t in s.done <==> Started(r.states[i], t)
      ensures t in s.done || t in Skipped(cfg, s) <==>
        Started(r.states[i], t) || exists a :: Ancestor(cfg, t, a) && FailedStep(s, a)
    {
      assert Started(s, t) <==> t in s.done;
      SkippedExactly(cfg, s, t);
    }
    EveryStep(cfg, s);
  }

  lemma EveryStep(cfg: Config, s: State)
    requires s.done.Keys <= cfg.steps.Keys
    ensures RestRan(cfg, s) <==> forall t :: t in cfg.steps ==> t in s.done || t in Skipped(cfg, s)
  {
    if forall t :: t in cfg.steps ==> t in s.done || t in Skipped(cfg, s) {
      assert s.done.Keys + Skipped(cfg, s) == cfg.steps.Keys;
    } else {
      var t :| t in cfg.steps && t !in s.done && t !in Skipped(cfg, s);
      assert t !in s.done.Keys + Skipped(cfg, s);
    }
  }

  // --- What can be told at the failure ---

  // Every step not yet started has a dependency, directly or not, that has failed already.
  ghost predicate RestIsBlocked(cfg: Config, s: State) {
    forall t :: t in cfg.steps && !Started(s, t) ==> exists a :: Ancestor(cfg, t, a) && FailedStep(s, a)
  }

  ghost predicate Continues(r: Run, r': Run) {
    r.states <= r'.states && r.events <= r'.events
  }

  // However the run goes on, it will have run the rest when it exits.
  ghost predicate WillRunRest(cfg: Config, r: Run) {
    forall r' :: IsRun(cfg, r') && Continues(r, r') && Exit(cfg, Last(r')) ==> RestRan(cfg, Last(r'))
  }

  ghost predicate NoNewFailure(s: State, s': State) {
    forall a :: FailedStep(s', a) ==> FailedStep(s, a)
  }

  // One step in flight registers or, once registered, ends well.
  lemma FinishOne(cfg: Config, s: State, t: Tag) returns (e: Event, s': State)
    requires ValidConfig(cfg) && Inv(cfg, s) && s.aborted == {} && s.failed && t in s.running
    ensures Next(cfg, s, e, s') && s'.failed && NoNewFailure(s, s')
    ensures 0 <= Measure(cfg, s') < Measure(cfg, s)
  {
    if t in s.registered {
      e, s' := Completed(t, true), Complete(cfg, s, t, true);
      assert t in s'.done && t !in s.done;
    } else {
      e, s' := Registered(t), Register(s, t);
      assert t in s'.registered;
    }
    MoveDecreases(cfg, s, e, s');
    MeasureNonNegative(cfg, s');
  }

  lemma ExtendByOne(cfg: Config, r: Run) returns (r': Run)
    requires ValidConfig(cfg) && cfg.keepGoing && IsRun(cfg, r) && Last(r).failed && Last(r).running != {}
    ensures IsRun(cfg, r') && Continues(r, r') && Last(r').failed && NoNewFailure(Last(r), Last(r'))
    ensures 0 <= Measure(cfg, Last(r')) < Measure(cfg, Last(r))
  {
    RunInv(cfg, r, |r.states| - 1);
    KeepGoingAbortsNothing(cfg, r, |r.states| - 1);
    var t :| t in Last(r).running;
    var e, s := FinishOne(cfg, Last(r), t);
    ExtendIsRun(cfg, r, e, s);
    r' := Extend(r, e, s);
  }

  // A failed run can go on to its end without another failure.
  lemma {:induction false} FinishInFlight(cfg: Config, r: Run) returns (r': Run)
    requires ValidConfig(cfg) && cfg.keepGoing && IsRun(cfg, r) && Last(r).failed
    ensures IsRun(cfg, r') && Continues(r, r') && Exit(cfg, Last(r')) && NoNewFailure(Last(r), Last(r'))
    decreases Measure(cfg, Last(r))
  {
    if Last(r).running == {} {
      RunInv(cfg, r, |r.states| - 1);
      r' := r;
    } else {
      r' := ExtendByOne(cfg, r);
      r' := FinishInFlight(cfg, r');
    }
  }

  lemma BlockedWillRun(cfg: Config, r: Run, r': Run)
    requires ValidConfig(cfg) && IsRun(cfg, r) && IsRun(cfg, r') && Continues(r, r') && Exit(cfg, Last(r'))
    requires Last(r).failed && RestIsBlocked(cfg, Last(r))
    ensures RestRan(cfg, Last(r'))
  {
    var i := |r.states| - 1;
    assert r'.states[i] == Last(r);
    RunGrows(cfg, r', i, |r'.states| - 1);
    forall t | t in cfg.steps && !Started(r'.states[i], t)
      ensures exists a :: Ancestor(cfg, t, a) && FailedStep(Last(r'), a)
    {
      var a :| Ancestor(cfg, t, a) && FailedStep(Last(r), a);
      assert FailedStep(Last(r'), a);
    }
    RestRanExactly(cfg, r', i);
  }

  lemma RanWasBlocked(cfg: Config, r: Run, r': Run)
    requires ValidConfig(cfg) && IsRun(cfg, r) && IsRun(cfg, r') && Continues(r, r') && Exit(cfg, Last(r'))
    requires Last(r).failed && NoNewFailure(Last(r), Last(r')) && RestRan(cfg, Last(r'))
    ensures RestIsBlocked(cfg, Last(r))
  {
    var i := |r.states| - 1;
    assert r'.states[i] == Last(r);
    RestRanExactly(cfg, r', i);
    forall t | t in cfg.steps && !Started(Last(r), t)
      ensures exists a :: Ancestor(cfg, t, a) && FailedStep(Last(r), a)
    {
      var a :| Ancestor(cfg, t, a) && FailedStep(Last(r'), a);
      assert FailedStep(Last(r), a);
    }
  }

  // With --keep-going, once a step has failed: the rest will be run, however the run goes on,
  // exactly when every step not started by then has a failed dependency already.
  lemma WillRunRestExactly(cfg: Config, r: Run)
    requires ValidConfig(cfg) && cfg.keepGoing && IsRun(cfg, r) && Last(r).failed
    ensures WillRunRest(cfg, r) <==> RestIsBlocked(cfg, Last(r))
  {
    if RestIsBlocked(cfg, Last(r)) {
      forall r' | IsRun(cfg, r') && Continues(r, r') && Exit(cfg, Last(r')) ensures RestRan(cfg, Last(r')) {
        BlockedWillRun(cfg, r, r');
      }
    }
    if WillRunRest(cfg, r) {
      var r' := FinishInFlight(cfg, r);
      RanWasBlocked(cfg, r, r');
    }
  }

  // Two independent steps, one job, --keep-going: the first fails, the second is ready and never
  // starts.
  lemma KeepGoingLeavesStep(a: Tag, b: Tag) returns (cfg: Config, r: Run)
    requires a != b
    ensures ValidConfig(cfg) && cfg.keepGoing && IsRun(cfg, r)
    ensures Last(r).failed && Exit(cfg, Last(r)) && Startable(cfg, Last(r), b)
    ensures !RestRan(cfg, Last(r))
  {
    var free := Step([], map[]);
    cfg := Config(map[a := free, b := free], [a, b], 1, map[], true);
    var s0 := Init(cfg);
    var s1 := Launch(cfg, s0, a);
    FirstOnly(cfg, s0, s1, a, b);
    var s2, s3 := Register(s1, a), Complete(cfg, Register(s1, a), a, false);
    NotDoneYet(cfg, s0, a, b);
    r := Run([s0, s1, s2, s3], [SchedulePass, Registered(a), Completed(a, false)]);
    NeverSkipped(cfg, s3, b);
  }

  lemma NotDoneYet(cfg: Config, s: State, a: Tag, b: Tag)
    requires a != b && cfg.steps.Keys == {a, b} && s.done == map[] && !s.stop
    ensures !Exit(cfg, s)
  {
    NothingSkippedWithoutFailure(cfg, s);
    assert |cfg.steps.Keys| == 2;
  }

  lemma NeverSkipped(cfg: Config, s: State, t: Tag)
    requires t in cfg.steps && t !in s.done && cfg.steps[t].deps == []
    ensures !RestRan(cfg, s)
  {
    BlockedUnfolds(cfg, s, t);
    assert t !in s.done.Keys + Skipped(cfg, s);
  }

  lemma FirstOnly(cfg: Config, s: State, s1: State, a: Tag, b: Tag)
    requires cfg.order == [a, b] && cfg.jobs == 1 && a in cfg.steps && b in cfg.steps && a != b
    requires Startable(cfg, s, a) && Startable(cfg, s, b) && s.running == {} && !s.stop && ResFree(s, cfg.steps[a])
    requires s1 == Launch(cfg, s, a)
    ensures Pass(cfg, s) == s1
  {
    ReadyIsStartable(cfg, s, a);
    ReadyIsStartable(cfg, s1, b);
    assert PassFrom(cfg, s1, 1) == s1;
  }
}
