// The configurations in which --keep-going keeps its promise: the steps come in layers, each
// needing all of the layer before it and able to run at once.
module Layers {
  import opened Steps
  import opened Sums
  import opened Scheduler
  import opened SchedulerSafety
  import opened SchedulerLiveness
  import opened KeepGoing

  // Every finished run with a failure has run the rest.
  ghost predicate AlwaysRunsRest(cfg: Config) {
    forall r :: IsRun(cfg, r) && Last(r).failed && Exit(cfg, Last(r)) ==> RestRan(cfg, Last(r))
  }

  ghost function Layer(level: map<Tag, nat>, n: nat): set<Tag> {
    set t | t in level && level[t] == n
  }

  // The steps can run together.
  ghost predicate FitTogether(cfg: Config, ts: set<Tag>) {
    && (ts == {} || |ts| <= cfg.jobs)
    && forall r :: r in cfg.caps ==> Held(cfg, ts, r) == 0 || Held(cfg, ts, r) <= cfg.caps[r]
  }

  // A step lies in a lower layer exactly when the other one needs it, directly or not.
  ghost predicate NeedsAllBelow(cfg: Config, level: map<Tag, nat>) {
    forall s, t :: s in level && t in level ==> (level[s] < level[t] <==> Ancestor(cfg, t, s))
  }

  ghost predicate Layered(cfg: Config, level: map<Tag, nat>) {
    && level.Keys == cfg.steps.Keys
    && NeedsAllBelow(cfg, level)
    && forall n: nat :: FitTogether(cfg, Layer(level, n))
  }

  lemma StartableAncestorsOk(cfg: Config, s: State, t: Tag, a: Tag)
    requires Inv(cfg, s) && Startable(cfg, s, t) && Ancestor(cfg, t, a)
    ensures a in s.done && s.done[a]
  {
    var p :| AncestorPath(cfg, p) && p[0] == t && p[|p| - 1] == a;
    assert p[1] in cfg.steps[p[0]].deps;
    if |p| > 2 {
      StartedAncestorsOk(cfg, s, p[1..]);
    }
  }

  lemma DepIsAncestor(cfg: Config, t: Tag, d: Tag)
    requires t in cfg.steps && d in cfg.steps[t].deps
    ensures Ancestor(cfg, t, d)
  {
    assert AncestorPath(cfg, [t, d]);
  }

  lemma HeldWithin(cfg: Config, some: set<Tag>, all: set<Tag>, r: string)
    requires some <= all
    ensures 0 <= Held(cfg, some, r) <= Held(cfg, all, r)
  {
    SumUnion(some, all - some, t => NeedAt(cfg, t, r));
    HeldNonNegative(cfg, some, r);
    HeldNonNegative(cfg, all - some, r);
    assert some + (all - some) == all;
  }

  // --- In a layered configuration whole layers start at once ---

  // Whatever has started, everything in its layer and below has.
  ghost predicate WholeLayers(cfg: Config, level: map<Tag, nat>, s: State) {
    forall t, u :: t in level && u in level && level[u] <= level[t] && Started(s, t) ==> Started(s, u)
  }

  // When t is launched, only its layer runs.
  lemma OnlyThisLayerRuns(cfg: Config, level: map<Tag, nat>, s: State, t: Tag, x: Tag)
    requires ValidConfig(cfg) && Layered(cfg, level) && Inv(cfg, s) && WholeLayers(cfg, level, s)
    requires Launched(s, Pass(cfg, s), t) && x in Pass(cfg, s).running
    ensures t in level && x in level && level[x] == level[t]
  {
    PassFromOutcome(cfg, s, 0);
    assert Startable(cfg, s, t);
    if x in s.running {
      if level[x] < level[t] {
        StartableAncestorsOk(cfg, s, t, x);
      }
    } else {
      assert Launched(s, Pass(cfg, s), x);
      assert Startable(cfg, s, x);
      if level[x] < level[t] {
        StartableAncestorsOk(cfg, s, t, x);
      } else if level[t] < level[x] {
        StartableAncestorsOk(cfg, s, x, t);
      }
    }
  }

  lemma SameLayerStartable(cfg: Config, level: map<Tag, nat>, s: State, t: Tag, u: Tag)
    requires DepClosed(cfg.steps) && Layered(cfg, level) && Inv(cfg, s) && Startable(cfg, s, t)
    requires u in level && level[u] == level[t] && !Started(s, u)
    ensures Startable(cfg, s, u)
  {
    forall d | d in cfg.steps[u].deps ensures d in s.done && s.done[d] {
      DepIsAncestor(cfg, u, d);
      assert level[d] < level[t];
      StartableAncestorsOk(cfg, s, t, d);
    }
  }

  lemma RoomForOneMore(cfg: Config, s: State, layer: set<Tag>, u: Tag)
    requires ResourcesBalance(cfg, s) && FitTogether(cfg, layer) && s.running + {u} <= layer && u !in s.running
    requires u in cfg.steps && Fits(cfg, cfg.steps[u])
    ensures |s.running| < cfg.jobs && ResFree(s, cfg.steps[u])
  {
    SubsetSize(s.running + {u}, layer);
    forall r | r in cfg.steps[u].needs ensures r in s.avail && s.avail[r] >= cfg.steps[u].needs[r] {
      HeldAdd(cfg, s.running, u, r);
      HeldWithin(cfg, s.running, s.running + {u}, r);
      HeldWithin(cfg, s.running + {u}, layer, r);
    }
  }

  lemma RunsWithinLayer(cfg: Config, level: map<Tag, nat>, s: State, t: Tag)
    requires ValidConfig(cfg) && Layered(cfg, level) && Inv(cfg, s) && WholeLayers(cfg, level, s)
    requires Launched(s, Pass(cfg, s), t)
    ensures t in level && Pass(cfg, s).running <= Layer(level, level[t])
  {
    OnlyThisLayerRuns(cfg, level, s, t, t);
    forall x | x in Pass(cfg, s).running ensures x in Layer(level, level[t]) {
      OnlyThisLayerRuns(cfg, level, s, t, x);
    }
  }

  lemma PassBalances(cfg: Config, s: State)
    requires ValidConfig(cfg) && Inv(cfg, s)
    ensures ResourcesBalance(cfg, Pass(cfg, s))
  {
    PassFromInv(cfg, s, 0);
  }

  // A step of t's layer that t's pass leaves out would have had room.
  lemma RoomAfterPass(cfg: Config, level: map<Tag, nat>, s: State, t: Tag, u: Tag)
    requires ValidConfig(cfg) && LiveConfig(cfg) && Layered(cfg, level) && Inv(cfg, s) && WholeLayers(cfg, level, s)
    requires Launched(s, Pass(cfg, s), t) && t in level && u in level && level[u] == level[t]
    requires u !in Pass(cfg, s).running
    ensures |Pass(cfg, s).running| < cfg.jobs && ResFree(Pass(cfg, s), cfg.steps[u])
  {
    PassBalances(cfg, s);
    RunsWithinLayer(cfg, level, s, t);
    RoomForOneMore(cfg, Pass(cfg, s), Layer(level, level[t]), u);
  }

  lemma RoomIsUsed(cfg: Config, s: State, u: Tag)
    requires ValidConfig(cfg) && Startable(cfg, s, u)
    requires |Pass(cfg, s).running| < cfg.jobs && ResFree(Pass(cfg, s), cfg.steps[u]) && !s.stop
    ensures u in Pass(cfg, s).running
  {
    PassFromOutcome(cfg, s, 0);
    var j :| 0 <= j < |cfg.order| && cfg.order[j] == u;
    assert PassedOver(cfg, s, Pass(cfg, s), u) <==> PassedOver(cfg, s, Pass(cfg, s), cfg.order[j]);
  }

  lemma LaunchesLayer(cfg: Config, level: map<Tag, nat>, s: State, t: Tag, u: Tag)
    requires ValidConfig(cfg) && LiveConfig(cfg) && Layered(cfg, level) && Inv(cfg, s) && WholeLayers(cfg, level, s)
    requires Launched(s, Pass(cfg, s), t) && Startable(cfg, s, t) && u in level && level[u] == level[t]
    ensures Started(s, u) || u in Pass(cfg, s).running
  {
    if !Started(s, u) && u !in Pass(cfg, s).running {
      SameLayerStartable(cfg, level, s, t, u);
      RoomAfterPass(cfg, level, s, t, u);
      RoomIsUsed(cfg, s, u);
    }
  }

  lemma PassWholeLayers(cfg: Config, level: map<Tag, nat>, s: State)
    requires ValidConfig(cfg) && LiveConfig(cfg) && Layered(cfg, level) && Inv(cfg, s) && WholeLayers(cfg, level, s)
    ensures WholeLayers(cfg, level, Pass(cfg, s))
  {
    var s' := Pass(cfg, s);
    PassFromOutcome(cfg, s, 0);
    forall t, u | t in level && u in level && level[u] <= level[t] && Started(s', t) ensures Started(s', u) {
      if !Started(s, t) {
        assert Launched(s, s', t);
        assert Startable(cfg, s, t);
        if level[u] == level[t] {
          LaunchesLayer(cfg, level, s, t, u);
        } else {
          StartableAncestorsOk(cfg, s, t, u);
        }
      }
    }
  }

  lemma {:induction false} RunWholeLayers(cfg: Config, level: map<Tag, nat>, r: Run, i: nat)
    requires ValidConfig(cfg) && LiveConfig(cfg) && Layered(cfg, level) && IsRun(cfg, r) && i < |r.states|
    ensures WholeLayers(cfg, level, r.states[i])
  {
    if i > 0 {
      RunWholeLayers(cfg, level, r, i - 1);
      RunInv(cfg, r, i - 1);
      NextWholeLayers(cfg, level, r.states[i - 1], r.events[i - 1], r.states[i]);
    }
  }

  lemma NextWholeLayers(cfg: Config, level: map<Tag, nat>, s: State, e: Event, s': State)
    requires ValidConfig(cfg) && LiveConfig(cfg) && Layered(cfg, level) && Inv(cfg, s) && WholeLayers(cfg, level, s)
    requires Next(cfg, s, e, s')
    ensures WholeLayers(cfg, level, s')
  {
    if e.SchedulePass? {
      PassWholeLayers(cfg, level, s);
    } else {
      SameStarted(cfg, s, e, s');
    }
  }

  lemma SameStarted(cfg: Config, s: State, e: Event, s': State)
    requires Inv(cfg, s) && Next(cfg, s, e, s') && !e.SchedulePass?
    ensures forall t :: Started(s', t) <==> Started(s, t)
  {
  }

  lemma FailureBlocksRest(cfg: Config, level: map<Tag, nat>, s: State)
    requires Inv(cfg, s) && s.failed && Layered(cfg, level) && WholeLayers(cfg, level, s)
    ensures RestIsBlocked(cfg, s)
  {
    var x :| RealFailure(s, x);
    forall t | t in cfg.steps && !Started(s, t) ensures exists a :: Ancestor(cfg, t, a) && FailedStep(s, a) {
      assert level[x] < level[t];
      assert Ancestor(cfg, t, x) && FailedStep(s, x);
    }
  }

  lemma LayeredRunsRest(cfg: Config, level: map<Tag, nat>, r: Run)
    requires ValidConfig(cfg) && LiveConfig(cfg) && Layered(cfg, level)
    requires IsRun(cfg, r) && Last(r).failed && Exit(cfg, Last(r))
    ensures RestRan(cfg, Last(r))
  {
    RunInv(cfg, r, |r.states| - 1);
    RunWholeLayers(cfg, level, r, |r.states| - 1);
    FailureBlocksRest(cfg, level, Last(r));
    BlockedWillRun(cfg, r, r);
  }

  // --- A passing run shows the layers ---

  ghost predicate LaunchLevels(r: Run, i: nat, level: map<Tag, nat>)
    requires i < |r.states|
  {
    && (forall t :: t in level <==> Started(r.states[i], t))
    && (forall t :: t in level ==> level[t] < i && LaunchedAt(r, level[t], t))
  }

  lemma NewlyStarted(cfg: Config, s: State, e: Event, s': State, t: Tag)
    requires ValidConfig(cfg) && Inv(cfg, s) && Next(cfg, s, e, s') && Started(s', t) && !Started(s, t)
    ensures Launched(s, s', t)
  {
    PassFromOutcome(cfg, s, 0);
  }

  lemma LevelsNext(r: Run, i: nat, was: map<Tag, nat>) returns (level: map<Tag, nat>)
    requires 0 < i < |r.states| && LaunchLevels(r, i - 1, was)
    requires forall t :: Started(r.states[i - 1], t) ==> Started(r.states[i], t)
    requires forall t :: Started(r.states[i], t) && !Started(r.states[i - 1], t) ==> LaunchedAt(r, i - 1, t)
    ensures LaunchLevels(r, i, level)
  {
    var s := r.states[i];
    level := map t | t in s.running + s.done.Keys :: if t in was then was[t] else i - 1;
  }

  lemma NewlyStartedAt(cfg: Config, r: Run, i: nat, t: Tag)
    requires ValidConfig(cfg) && IsRun(cfg, r) && 0 < i < |r.states|
    requires Started(r.states[i], t) && !Started(r.states[i - 1], t)
    ensures LaunchedAt(r, i - 1, t)
  {
    RunInv(cfg, r, i - 1);
    NewlyStarted(cfg, r.states[i - 1], r.events[i - 1], r.states[i], t);
  }

  lemma StartedNext(cfg: Config, r: Run, i: nat)
    requires ValidConfig(cfg) && IsRun(cfg, r) && 0 < i < |r.states|
    ensures forall t :: Started(r.states[i - 1], t) ==> Started(r.states[i], t)
    ensures forall t :: Started(r.states[i], t) && !Started(r.states[i - 1], t) ==> LaunchedAt(r, i - 1, t)
  {
    RunGrows(cfg, r, i - 1, i);
    forall t | Started(r.states[i], t) && !Started(r.states[i - 1], t) ensures LaunchedAt(r, i - 1, t) {
      NewlyStartedAt(cfg, r, i, t);
    }
  }

  // The pass that launched each step.
  lemma {:induction false} Levels(cfg: Config, r: Run, i: nat) returns (level: map<Tag, nat>)
    requires ValidConfig(cfg) && IsRun(cfg, r) && i < |r.states|
    ensures LaunchLevels(r, i, level)
  {
    if i == 0 {
      level := map[];
    } else {
      var was := Levels(cfg, r, i - 1);
      StartedNext(cfg, r, i);
      level := LevelsNext(r, i, was);
    }
  }

  lemma LaunchFacts(cfg: Config, r: Run, i: nat, t: Tag)
    requires ValidConfig(cfg) && IsRun(cfg, r) && i + 1 < |r.states| && LaunchedAt(r, i, t)
    ensures Inv(cfg, r.states[i]) && Startable(cfg, r.states[i], t) && r.events[i].SchedulePass?
    ensures forall j :: 0 <= j <= i ==> !Started(r.states[j], t)
  {
    RunInv(cfg, r, i);
    NextLaunches(cfg, r.states[i], r.events[i], r.states[i + 1]);
    assert Next(cfg, r.states[i], r.events[i], r.states[i + 1]);
    forall j | 0 <= j <= i ensures !Started(r.states[j], t) {
      RunGrows(cfg, r, j, i);
    }
  }

  lemma AncestorLower(cfg: Config, r: Run, level: map<Tag, nat>, s: Tag, t: Tag)
    requires ValidConfig(cfg) && IsRun(cfg, r) && LaunchLevels(r, |r.states| - 1, level)
    requires s in level && t in level && Ancestor(cfg, t, s)
    ensures level[s] < level[t]
  {
    LaunchFacts(cfg, r, level[t], t);
    LaunchFacts(cfg, r, level[s], s);
    StartableAncestorsOk(cfg, r.states[level[t]], t, s);
    assert Started(r.states[level[t]], s);
  }

  ghost function Prefix(r: Run, i: nat): Run
    requires i < |r.states| && |r.states| == |r.events| + 1
  {
    Run(r.states[..i + 1], r.events[..i])
  }

  lemma PrefixIsRun(cfg: Config, r: Run, i: nat)
    requires IsRun(cfg, r) && i < |r.states|
    ensures IsRun(cfg, Prefix(r, i)) && Last(Prefix(r, i)) == r.states[i]
  {
  }

  // s, just launched, registers and fails.
  lemma FailIt(cfg: Config, r: Run, s: Tag) returns (r': Run)
    requires IsRun(cfg, r) && s in cfg.steps
    requires s in Last(r).running && s !in Last(r).registered && s !in Last(r).aborted
    ensures IsRun(cfg, r') && Last(r') == Complete(cfg, Register(Last(r), s), s, false)
  {
    var s1 := Register(Last(r), s);
    ExtendIsRun(cfg, r, Registered(s), s1);
    r' := Extend(r, Registered(s), s1);
    var s2 := Complete(cfg, s1, s, false);
    ExtendIsRun(cfg, r', Completed(s, false), s2);
    r' := Extend(r', Completed(s, false), s2);
  }

  lemma JustLaunched(cfg: Config, r: Run, i: nat, s: Tag)
    requires ValidConfig(cfg) && IsRun(cfg, r) && i + 1 < |r.states| && LaunchedAt(r, i, s)
    ensures s in r.states[i + 1].running && s !in r.states[i + 1].registered && s in cfg.steps
  {
    LaunchFacts(cfg, r, i, s);
    PassFromOutcome(cfg, r.states[i], 0);
    assert Next(cfg, r.states[i], r.events[i], r.states[i + 1]);
  }

  ghost predicate NoFailedStep(s: State) {
    forall a :: a in s.done ==> s.done[a]
  }

  lemma OnlyFailure(cfg: Config, s: State, t: Tag)
    requires t in cfg.steps && t in s.running && t !in s.aborted && NoFailedStep(s)
    ensures var s' := Complete(cfg, Register(s, t), t, false);
      s'.failed && (forall a :: FailedStep(s', a) ==> a == t) && forall x :: Started(s', x) ==> Started(s, x)
  {
    var s' := Complete(cfg, Register(s, t), t, false);
    assert s'.done == s.done[t := false];
    forall a | FailedStep(s', a) ensures a == t {
      assert a in s'.done && !s'.done[a];
    }
  }

  // The run up to the launch of s, which then fails.
  lemma FailAfterLaunch(cfg: Config, r: Run, i: nat, s: Tag) returns (r': Run)
    requires ValidConfig(cfg) && IsRun(cfg, r) && i + 1 < |r.states| && LaunchedAt(r, i, s)
    requires r.states[i + 1].aborted == {} && NoFailedStep(r.states[i + 1])
    ensures IsRun(cfg, r') && Last(r').failed && forall a :: FailedStep(Last(r'), a) ==> a == s
    ensures forall x :: Started(Last(r'), x) ==> Started(r.states[i + 1], x)
  {
    JustLaunched(cfg, r, i, s);
    PrefixIsRun(cfg, r, i + 1);
    r' := FailIt(cfg, Prefix(r, i + 1), s);
    OnlyFailure(cfg, r.states[i + 1], s);
  }

  lemma FailedStays(cfg: Config, r: Run, r': Run)
    requires ValidConfig(cfg) && IsRun(cfg, r) && IsRun(cfg, r') && Continues(r, r') && Last(r).failed
    ensures Last(r').failed
  {
    assert r'.states[|r.states| - 1] == Last(r);
    RunGrows(cfg, r', |r.states| - 1, |r'.states| - 1);
  }

  lemma WillRun(cfg: Config, r: Run)
    requires ValidConfig(cfg) && AlwaysRunsRest(cfg) && IsRun(cfg, r) && Last(r).failed
    ensures WillRunRest(cfg, r)
  {
    forall r' | IsRun(cfg, r') && Continues(r, r') && Exit(cfg, Last(r')) ensures RestRan(cfg, Last(r')) {
      FailedStays(cfg, r, r');
    }
  }

  lemma NothingFailed(s: State)
    requires FailuresConsistent(s) && !s.failed && s.aborted == {}
    ensures NoFailedStep(s)
  {
    forall a | a in s.done ensures s.done[a] {
      assert !RealFailure(s, a);
    }
  }

  lemma NothingFailedYet(cfg: Config, r: Run, i: nat)
    requires ValidConfig(cfg) && cfg.keepGoing && IsRun(cfg, r) && AllOk(r) && i < |r.states|
    ensures r.states[i].aborted == {} && NoFailedStep(r.states[i])
  {
    KeepGoingAbortsNothing(cfg, r, i);
    AllOkNeverFails(cfg, r, i);
    RunInv(cfg, r, i);
    NothingFailed(r.states[i]);
  }

  lemma OnlyBlocker(cfg: Config, s: State, x: Tag, t: Tag)
    requires RestIsBlocked(cfg, s) && t in cfg.steps && !Started(s, t) && forall a :: FailedStep(s, a) ==> a == x
    ensures Ancestor(cfg, t, x)
  {
    var a :| Ancestor(cfg, t, a) && FailedStep(s, a);
  }

  // Failing a step just launched leaves every step launched later, unless that needs it.
  lemma LaterNeedsIt(cfg: Config, r: Run, i: nat, s: Tag, t: Tag)
    requires ValidConfig(cfg) && cfg.keepGoing && AlwaysRunsRest(cfg) && IsRun(cfg, r) && AllOk(r)
    requires i + 1 < |r.states| && LaunchedAt(r, i, s) && t in cfg.steps && !Started(r.states[i + 1], t)
    ensures Ancestor(cfg, t, s)
  {
    NothingFailedYet(cfg, r, i + 1);
    var r' := FailAfterLaunch(cfg, r, i, s);
    WillRun(cfg, r');
    WillRunRestExactly(cfg, r');
    OnlyBlocker(cfg, Last(r'), s, t);
  }

  lemma LowerIsAncestor(cfg: Config, r: Run, level: map<Tag, nat>, s: Tag, t: Tag)
    requires ValidConfig(cfg) && cfg.keepGoing && AlwaysRunsRest(cfg) && IsRun(cfg, r) && AllOk(r)
    requires LaunchLevels(r, |r.states| - 1, level) && s in level && t in level && level[s] < level[t]
    ensures Ancestor(cfg, t, s)
  {
    LaunchFacts(cfg, r, level[t], t);
    LaterNeedsIt(cfg, r, level[s], s, t);
  }

  lemma LayerFits(cfg: Config, r: Run, level: map<Tag, nat>, n: nat)
    requires ValidConfig(cfg) && IsRun(cfg, r) && LaunchLevels(r, |r.states| - 1, level)
    ensures FitTogether(cfg, Layer(level, n))
  {
    var layer := Layer(level, n);
    if layer == {} {
    } else {
      var t :| t in layer;
      var running := r.states[n + 1].running;
      RunInv(cfg, r, n + 1);
      forall x | x in layer ensures x in running {
        assert LaunchedAt(r, n, x);
      }
      SubsetSize(layer, running);
      forall q | q in cfg.caps ensures Held(cfg, layer, q) == 0 || Held(cfg, layer, q) <= cfg.caps[q] {
        HeldWithin(cfg, layer, running, q);
      }
    }
  }

  lemma PassingRun(cfg: Config) returns (r: Run)
    requires ValidConfig(cfg) && LiveConfig(cfg)
    ensures IsRun(cfg, r) && AllOk(r) && forall t :: t in cfg.steps <==> Started(Last(r), t)
  {
    r := Run([Init(cfg)], []);
    assert IsRun(cfg, r) && AllOk(r);
    r := DriveToRest(cfg, r);
    AlwaysExitsIffLive(cfg);
    AllOkNeverFails(cfg, r, |r.states| - 1);
    VerdictHonest(cfg, r);
    RunInv(cfg, r, |r.states| - 1);
    forall t | t in cfg.steps ensures Started(Last(r), t) {
      assert t in Passed(Last(r));
    }
  }

  lemma LevelsNeedBelow(cfg: Config, r: Run, level: map<Tag, nat>)
    requires ValidConfig(cfg) && cfg.keepGoing && AlwaysRunsRest(cfg) && IsRun(cfg, r) && AllOk(r)
    requires LaunchLevels(r, |r.states| - 1, level)
    ensures NeedsAllBelow(cfg, level)
  {
    forall s, t | s in level && t in level ensures level[s] < level[t] <==> Ancestor(cfg, t, s) {
      if level[s] < level[t] {
        LowerIsAncestor(cfg, r, level, s, t);
      } else if Ancestor(cfg, t, s) {
        AncestorLower(cfg, r, level, s, t);
      }
    }
  }

  lemma PassingRunLayers(cfg: Config) returns (level: map<Tag, nat>)
    requires ValidConfig(cfg) && LiveConfig(cfg) && cfg.keepGoing && AlwaysRunsRest(cfg)
    ensures Layered(cfg, level)
  {
    var r := PassingRun(cfg);
    level := Levels(cfg, r, |r.states| - 1);
    LevelsNeedBelow(cfg, r, level);
    forall n: nat ensures FitTogether(cfg, Layer(level, n)) {
      LayerFits(cfg, r, level, n);
    }
  }

  // With --keep-going a live configuration runs the rest after every failure exactly when its
  // steps come in layers: each needs, directly or not, just the steps of the layers below, and
  // each layer fits the job slots and the resources at once.
  lemma AlwaysRunsRestExactly(cfg: Config)
    requires ValidConfig(cfg) && LiveConfig(cfg) && cfg.keepGoing
    ensures AlwaysRunsRest(cfg) <==> exists level :: Layered(cfg, level)
  {
    if level :| Layered(cfg, level) {
      forall r | IsRun(cfg, r) && Last(r).failed && Exit(cfg, Last(r)) ensures RestRan(cfg, Last(r)) {
        LayeredRunsRest(cfg, level, r);
      }
    }
    if AlwaysRunsRest(cfg) {
      var level := PassingRunLayers(cfg);
    }
  }
}
