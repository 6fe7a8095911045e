// The runner of the validation run as a step machine. Everything a thread does to the shared
// fields happens under one lock, so a run is an interleaving of three kinds of atomic step:
// a schedule pass, a step registering its process group, and a step completing.
module Scheduler {
  import opened Sorting
  import opened Steps

  datatype Config = Config(steps: Registry, order: seq<Tag>, jobs: int, caps: map<string, int>,
                           keepGoing: bool)

  ghost predicate ValidConfig(cfg: Config) {
    && NoDup(cfg.order)
    && forall t :: t in cfg.order <==> t in cfg.steps
  }

  // `done` maps a finished step to its outcome; `registered` are the running steps whose
  // process group is known, hence the ones an eager exit can kill.
  datatype State = State(done: map<Tag, bool>, running: set<Tag>, registered: set<Tag>,
                         aborted: set<Tag>, avail: map<string, int>, failed: bool, stop: bool)

  function Init(cfg: Config): State {
    State(map[], {}, {}, {}, cfg.caps, false, false)
  }

  // --- Guards ---

  predicate DepsKnown(s: State, step: Step) {
    forall d :: d in step.deps ==> d in s.done
  }

  predicate DepsOk(s: State, step: Step) {
    forall d :: d in step.deps ==> d in s.done && s.done[d]
  }

  predicate ResFree(s: State, step: Step) {
    forall r :: r in step.needs ==> (if r in s.avail then s.avail[r] else 0) >= step.needs[r]
  }

  function NeedOf(step: Step, r: string): nat {
    if r in step.needs then step.needs[r] else 0
  }

  function Taken(avail: map<string, int>, step: Step): map<string, int> {
    map r | r in avail :: avail[r] - NeedOf(step, r)
  }

  function Given(avail: map<string, int>, step: Step): map<string, int> {
    map r | r in avail :: avail[r] + NeedOf(step, r)
  }

  // --- Skipping: a step is blocked when a chain of waiting steps leads to a failed one ---

  ghost predicate Pending(cfg: Config, s: State, t: Tag) {
    t in cfg.steps && t !in s.done && t !in s.running
  }

  ghost predicate FailedStep(s: State, d: Tag) {
    d in s.done && !s.done[d]
  }

  ghost predicate BlockChain(cfg: Config, s: State, p: seq<Tag>) {
    && |p| >= 2
    && (forall i :: 0 <= i < |p| - 1 ==> Pending(cfg, s, p[i]) && p[i + 1] in cfg.steps[p[i]].deps)
    && FailedStep(s, p[|p| - 1])
  }

  ghost predicate Blocked(cfg: Config, s: State, t: Tag) {
    exists p :: BlockChain(cfg, s, p) && p[0] == t
  }

  ghost function Skipped(cfg: Config, s: State): set<Tag> {
    set t | t in cfg.steps && Blocked(cfg, s, t)
  }

  lemma BlockedUnfolds(cfg: Config, s: State, t: Tag)
    ensures Blocked(cfg, s, t) <==>
      Pending(cfg, s, t) && exists d :: d in cfg.steps[t].deps && (FailedStep(s, d) || Blocked(cfg, s, d))
  {
    if Blocked(cfg, s, t) {
      var p :| BlockChain(cfg, s, p) && p[0] == t;
      assert p[1] in cfg.steps[t].deps;
      if |p| > 2 {
        assert BlockChain(cfg, s, p[1..]);
      }
    } else if Pending(cfg, s, t) {
      forall d | d in cfg.steps[t].deps ensures !FailedStep(s, d) && !Blocked(cfg, s, d) {
        if FailedStep(s, d) {
          assert BlockChain(cfg, s, [t, d]);
        } else if Blocked(cfg, s, d) {
          var p :| BlockChain(cfg, s, p) && p[0] == d;
          assert BlockChain(cfg, s, [t] + p);
        }
      }
    }
  }

  // Any set closed under the two skip rules holds every blocked step.
  lemma {:induction false} BlockedInside(cfg: Config, s: State, sk: set<Tag>, p: seq<Tag>)
    requires BlockChain(cfg, s, p)
    requires forall t, d :: Pending(cfg, s, t) && d in cfg.steps[t].deps && (FailedStep(s, d) || d in sk) ==> t in sk
    ensures p[0] in sk
    decreases |p|
  {
    assert p[1] in cfg.steps[p[0]].deps;
    if |p| > 2 {
      BlockedInside(cfg, s, sk, p[1..]);
    }
  }

  // --- The schedule pass ---

  ghost predicate Ready(cfg: Config, s: State, t: Tag) {
    && t in cfg.steps
    && t !in s.done && t !in s.running && t !in Skipped(cfg, s)
    && DepsKnown(s, cfg.steps[t])
    && DepsOk(s, cfg.steps[t])
  }

  function Launch(cfg: Config, s: State, t: Tag): State
    requires t in cfg.steps
  {
    s.(running := s.running + {t}, avail := Taken(s.avail, cfg.steps[t]))
  }

  // The pass over order[i..]: a full house ends it, a short resource only passes a step over.
  ghost function PassFrom(cfg: Config, s: State, i: nat): State
    decreases |cfg.order| - i
  {
    if i >= |cfg.order| then s
    else
      var t := cfg.order[i];
      if !Ready(cfg, s, t) then PassFrom(cfg, s, i + 1)
      else if |s.running| >= cfg.jobs then s
      else if !ResFree(s, cfg.steps[t]) then PassFrom(cfg, s, i + 1)
      else PassFrom(cfg, Launch(cfg, s, t), i + 1)
  }

  ghost predicate Exit(cfg: Config, s: State) {
    s.running == {} && (s.stop || |s.done| + |Skipped(cfg, s)| >= |cfg.steps|)
  }

  ghost function Pass(cfg: Config, s: State): State {
    if s.stop then s else PassFrom(cfg, s, 0)
  }

  // --- Registration and completion ---

  function Register(s: State, t: Tag): State {
    s.(registered := s.registered + {t})
  }

  function Complete(cfg: Config, s: State, t: Tag, ok: bool): State
    requires t in cfg.steps
  {
    var wasAborted := t in s.aborted;
    var s1 := s.(running := s.running - {t},
                 registered := s.registered - {t},
                 avail := Given(s.avail, cfg.steps[t]),
                 done := s.done[t := ok && !wasAborted]);
    if !wasAborted && !ok then
      s1.(failed := true, stop := true,
          aborted := if cfg.keepGoing then s1.aborted else s1.aborted + s1.registered)
    else s1
  }

  // --- Runs ---

  datatype Event = SchedulePass | Registered(tag: Tag) | Completed(tag: Tag, ok: bool)

  ghost predicate Next(cfg: Config, s: State, e: Event, s': State) {
    match e
    case SchedulePass => !Exit(cfg, s) && s' == Pass(cfg, s)
    case Registered(t) => t in s.running && t !in s.registered && s' == Register(s, t)
    case Completed(t, ok) => t in s.registered && t in cfg.steps && s' == Complete(cfg, s, t, ok)
  }

  // states[i] --events[i]--> states[i + 1]
  datatype Run = Run(states: seq<State>, events: seq<Event>)

  ghost predicate IsRun(cfg: Config, r: Run) {
    && |r.states| == |r.events| + 1
    && r.states[0] == Init(cfg)
    && forall i :: 0 <= i < |r.events| ==> Next(cfg, r.states[i], r.events[i], r.states[i + 1])
  }

  ghost function Last(r: Run): State
    requires r.states != []
  {
    r.states[|r.states| - 1]
  }

  // --- What one pass does, stated without its loop ---

  // A step that could start now: waiting, with every dependency finished ok.
  ghost predicate Startable(cfg: Config, s: State, t: Tag) {
    Pending(cfg, s, t) && DepsOk(s, cfg.steps[t])
  }

  lemma ReadyIsStartable(cfg: Config, s: State, t: Tag)
    ensures Ready(cfg, s, t) <==> Startable(cfg, s, t)
  {
    if Startable(cfg, s, t) {
      BlockedUnfolds(cfg, s, t);
      forall d | d in cfg.steps[t].deps ensures !FailedStep(s, d) && !Blocked(cfg, s, d) {
        BlockedUnfolds(cfg, s, d);
      }
    }
  }

  ghost predicate Launched(s: State, s': State, t: Tag) {
    t in s'.running && t !in s.running
  }

  ghost predicate PassedOver(cfg: Config, s: State, s': State, t: Tag) {
    Startable(cfg, s, t) && t !in s'.running
  }

  ghost predicate PassOutcome(cfg: Config, s: State, s': State, i: nat) {
    // nothing but `running` and `avail` changes, and running steps stay
    && s' == s.(running := s'.running, avail := s'.avail)
    && s.running <= s'.running
    && s'.avail.Keys == s.avail.Keys
    && (forall r :: r in s.avail ==> s'.avail[r] <= s.avail[r])
    // only startable steps start, and never more than `jobs`
    && (forall t :: Launched(s, s', t) ==> Startable(cfg, s, t))
    && (|s'.running| <= |s.running| || |s'.running| <= cfg.jobs)
    // a startable step is left waiting only by a full house or a short resource
    && (forall j :: i <= j < |cfg.order| && PassedOver(cfg, s, s', cfg.order[j])
          ==> |s'.running| >= cfg.jobs || !ResFree(s', cfg.steps[cfg.order[j]]))
    // and is overtaken by a later one only by a short resource
    && (forall j, k :: i <= j < k < |cfg.order|
          && PassedOver(cfg, s, s', cfg.order[j]) && Launched(s, s', cfg.order[k])
          ==> !ResFree(s', cfg.steps[cfg.order[j]]))
  }

  lemma OutcomeAfterSkip(cfg: Config, s: State, s': State, i: nat)
    requires ValidConfig(cfg) && i < |cfg.order|
    requires PassOutcome(cfg, s, s', i + 1)
    requires !Startable(cfg, s, cfg.order[i]) || !ResFree(s, cfg.steps[cfg.order[i]])
    ensures PassOutcome(cfg, s, s', i)
  {
    var t := cfg.order[i];
    if Startable(cfg, s, t) {
      ShortStaysShort(s, s', cfg.steps[t]);
    }
  }

  lemma ShortStaysShort(s: State, s': State, step: Step)
    requires s'.avail.Keys == s.avail.Keys && forall r :: r in s.avail ==> s'.avail[r] <= s.avail[r]
    requires !ResFree(s, step)
    ensures !ResFree(s', step)
  {
    var r :| r in step.needs && (if r in s.avail then s.avail[r] else 0) < step.needs[r];
  }

  lemma OutcomeAfterLaunch(cfg: Config, s: State, s': State, i: nat)
    requires ValidConfig(cfg) && i < |cfg.order|
    requires Startable(cfg, s, cfg.order[i]) && |s.running| < cfg.jobs
    requires PassOutcome(cfg, Launch(cfg, s, cfg.order[i]), s', i + 1)
    ensures PassOutcome(cfg, s, s', i)
  {
    var t := cfg.order[i];
    var m := Launch(cfg, s, t);
    assert t in s'.running;
    forall x ensures Startable(cfg, m, x) <==> Startable(cfg, s, x) && x != t {
    }
    forall x ensures PassedOver(cfg, s, s', x) <==> PassedOver(cfg, m, s', x) {
    }
    forall x ensures Launched(s, s', x) <==> Launched(m, s', x) || x == t {
    }
    forall j, k | i <= j < k < |cfg.order| && PassedOver(cfg, s, s', cfg.order[j]) && Launched(s, s', cfg.order[k])
      ensures !ResFree(s', cfg.steps[cfg.order[j]])
    {
      assert cfg.order[k] != t;
    }
  }

  lemma {:induction false} PassFromOutcome(cfg: Config, s: State, i: nat)
    requires ValidConfig(cfg) && i <= |cfg.order|
    ensures PassOutcome(cfg, s, PassFrom(cfg, s, i), i)
    decreases |cfg.order| - i
  {
    if i < |cfg.order| {
      var t := cfg.order[i];
      ReadyIsStartable(cfg, s, t);
      if !Startable(cfg, s, t) || (|s.running| < cfg.jobs && !ResFree(s, cfg.steps[t])) {
        PassFromOutcome(cfg, s, i + 1);
        OutcomeAfterSkip(cfg, s, PassFrom(cfg, s, i + 1), i);
      } else if |s.running| < cfg.jobs {
        PassFromOutcome(cfg, Launch(cfg, s, t), i + 1);
        OutcomeAfterLaunch(cfg, s, PassFrom(cfg, Launch(cfg, s, t), i + 1), i);
      }
    }
  }
}
