// What each step's recorded outcome is, told from the events of the run alone.
module Outcomes {
  import opened Steps
  import opened Scheduler
  import opened SchedulerSafety

  ghost predicate CompletedAt(r: Run, i: nat, t: Tag) {
    i < |r.events| && r.events[i].Completed? && r.events[i].tag == t
  }

  // Event i is a failure of u that nobody caused by tearing u down.
  ghost predicate FailsAt(r: Run, i: nat, u: Tag)
    requires |r.states| == |r.events| + 1
  {
    i < |r.events| && r.events[i] == Completed(u, false) && u !in r.states[i].aborted
  }

  ghost predicate PassesAt(r: Run, i: nat, u: Tag)
    requires |r.states| == |r.events| + 1
  {
    i < |r.events| && r.events[i] == Completed(u, true) && u !in r.states[i].aborted
  }

  // Event i is such a failure of another step, and tears t down.
  ghost predicate AbortsAt(cfg: Config, r: Run, i: nat, t: Tag)
    requires |r.states| == |r.events| + 1
  {
    !cfg.keepGoing && exists u :: FailsAt(r, i, u) && t in r.states[i].registered - {u}
  }

  // --- One event ---

  lemma CompletedChanges(cfg: Config, s: State, t: Tag, ok: bool)
    requires t in cfg.steps
    ensures var s' := Complete(cfg, s, t, ok);
      && s'.done == s.done[t := ok && t !in s.aborted]
      && s'.running == s.running - {t} && s'.registered == s.registered - {t}
      && s'.aborted == s.aborted + (if !ok && t !in s.aborted && !cfg.keepGoing then s.registered - {t} else {})
      && (s'.failed <==> s.failed || (!ok && t !in s.aborted))
  {
  }

  function Known(registered: set<Tag>, e: Event): set<Tag> {
    match e
    case SchedulePass => registered
    case Registered(t) => registered + {t}
    case Completed(t, _) => registered - {t}
  }

  function TornDown(cfg: Config, s: State, e: Event): set<Tag> {
    if e.Completed? && !e.ok && e.tag !in s.aborted && !cfg.keepGoing then s.registered - {e.tag} else {}
  }

  lemma OtherKeeps(cfg: Config, s: State, e: Event, s': State)
    requires ValidConfig(cfg) && Next(cfg, s, e, s') && !e.Completed?
    ensures s'.done == s.done && s'.aborted == s.aborted && s'.failed == s.failed
    ensures s'.registered == Known(s.registered, e)
  {
    if e.SchedulePass? {
      PassFromOutcome(cfg, s, 0);
    }
  }

  lemma EventEffect(cfg: Config, r: Run, i: nat)
    requires ValidConfig(cfg) && IsRun(cfg, r) && i < |r.events|
    ensures var s, s', e := r.states[i], r.states[i + 1], r.events[i];
      && s'.done == (if e.Completed? then s.done[e.tag := e.ok && e.tag !in s.aborted] else s.done)
      && s'.aborted == s.aborted + TornDown(cfg, s, e)
      && (s'.failed <==> s.failed || (e.Completed? && !e.ok && e.tag !in s.aborted))
    ensures r.states[i + 1].registered == Known(r.states[i].registered, r.events[i])
    ensures r.events[i].Completed? ==> r.events[i].tag !in r.states[i].done && r.events[i].tag in r.states[i].registered
  {
    var s, s', e := r.states[i], r.states[i + 1], r.events[i];
    assert Next(cfg, s, e, s');
    RunInv(cfg, r, i);
    if e.Completed? {
      CompletedChanges(cfg, s, e.tag, e.ok);
    } else {
      OtherKeeps(cfg, s, e, s');
    }
  }

  // --- The whole run ---

  // A step is done exactly when one event so far completed it.
  lemma {:induction false} DoneExactly(cfg: Config, r: Run, j: nat, t: Tag)
    requires ValidConfig(cfg) && IsRun(cfg, r) && j < |r.states|
    ensures t in r.states[j].done <==> exists i: nat :: i < j && CompletedAt(r, i, t)
  {
    if j > 0 {
      DoneExactly(cfg, r, j - 1, t);
      EventEffect(cfg, r, j - 1);
      if CompletedAt(r, j - 1, t) {
        assert j - 1 < j;
      }
    }
  }

  lemma CompletedOnce(cfg: Config, r: Run, i: nat, j: nat, t: Tag)
    requires ValidConfig(cfg) && IsRun(cfg, r) && CompletedAt(r, i, t) && CompletedAt(r, j, t)
    ensures i == j
  {
    if i < j {
      DoneExactly(cfg, r, j, t);
      EventEffect(cfg, r, j);
    } else if j < i {
      DoneExactly(cfg, r, i, t);
      EventEffect(cfg, r, i);
    }
  }

  // What is recorded when a step completes is there ever after: success exactly when it ended ok
  // and had not been torn down, whatever else failed before.
  lemma OutcomeRecorded(cfg: Config, r: Run, i: nat, t: Tag, ok: bool, j: nat)
    requires ValidConfig(cfg) && IsRun(cfg, r)
    requires i < |r.events| && r.events[i] == Completed(t, ok) && i < j < |r.states|
    ensures t in r.states[j].done && (r.states[j].done[t] <==> ok && t !in r.states[i].aborted)
    ensures forall k: nat :: CompletedAt(r, k, t) ==> k == i
  {
    EventEffect(cfg, r, i);
    RunGrows(cfg, r, i + 1, j);
    forall k: nat | CompletedAt(r, k, t) ensures k == i {
      CompletedOnce(cfg, r, i, k, t);
    }
  }

  // A step is torn down exactly when, without --keep-going, some step failed by itself while this
  // one was in flight with its process group known.
  lemma {:induction false} AbortedExactly(cfg: Config, r: Run, j: nat, t: Tag)
    requires ValidConfig(cfg) && IsRun(cfg, r) && j < |r.states|
    ensures t in r.states[j].aborted <==> exists i: nat :: i < j && AbortsAt(cfg, r, i, t)
  {
    if j > 0 {
      AbortedExactly(cfg, r, j - 1, t);
      AbortedNext(cfg, r, j - 1, t);
    }
  }

  lemma AbortedNext(cfg: Config, r: Run, i: nat, t: Tag)
    requires ValidConfig(cfg) && IsRun(cfg, r) && i < |r.events|
    ensures t in r.states[i + 1].aborted <==> t in r.states[i].aborted || AbortsAt(cfg, r, i, t)
  {
    EventEffect(cfg, r, i);
    var e := r.events[i];
    if e.Completed? && FailsAt(r, i, e.tag) && !cfg.keepGoing {
      assert t in r.states[i].registered - {e.tag} ==> AbortsAt(cfg, r, i, t);
    }
  }

  lemma KnownNotDone(cfg: Config, r: Run, j: nat, t: Tag)
    requires ValidConfig(cfg) && IsRun(cfg, r) && j < |r.states| && t in r.states[j].registered
    ensures t !in r.states[j].done
  {
    RunInv(cfg, r, j);
  }

  lemma RegisteredNext(cfg: Config, r: Run, i: nat, t: Tag)
    requires ValidConfig(cfg) && IsRun(cfg, r) && i < |r.events|
    ensures t in r.states[i + 1].registered <==>
      t !in r.states[i + 1].done && (t in r.states[i].registered || r.events[i] == Registered(t))
  {
    EventEffect(cfg, r, i);
    if t in r.states[i + 1].registered {
      KnownNotDone(cfg, r, i + 1, t);
    } else if t in r.states[i].registered {
      KnownNotDone(cfg, r, i, t);
    }
  }

  lemma DoneStays(cfg: Config, r: Run, i: nat, t: Tag)
    requires ValidConfig(cfg) && IsRun(cfg, r) && i < |r.events| && t in r.states[i].done
    ensures t in r.states[i + 1].done
  {
    RunGrows(cfg, r, i, i + 1);
  }

  // Its process group is known exactly from its registration to its completion.
  lemma {:induction false} RegisteredExactly(cfg: Config, r: Run, j: nat, t: Tag)
    requires ValidConfig(cfg) && IsRun(cfg, r) && j < |r.states|
    ensures t in r.states[j].registered <==>
      t !in r.states[j].done && exists i: nat :: i < j && i < |r.events| && r.events[i] == Registered(t)
  {
    if j > 0 {
      RegisteredExactly(cfg, r, j - 1, t);
      RegisteredNext(cfg, r, j - 1, t);
      if t in r.states[j - 1].done {
        DoneStays(cfg, r, j - 1, t);
      }
      if r.events[j - 1] == Registered(t) {
        assert j - 1 < j;
      }
    }
  }

  lemma FailedNext(cfg: Config, r: Run, i: nat)
    requires ValidConfig(cfg) && IsRun(cfg, r) && i < |r.events|
    ensures r.states[i + 1].failed <==> r.states[i].failed || exists u :: FailsAt(r, i, u)
  {
    EventEffect(cfg, r, i);
    var e := r.events[i];
    if e.Completed? && !e.ok && e.tag !in r.states[i].aborted {
      assert FailsAt(r, i, e.tag);
    }
  }

  // The run has failed exactly when some step failed by itself.
  lemma {:induction false} FailedExactly(cfg: Config, r: Run, j: nat)
    requires ValidConfig(cfg) && IsRun(cfg, r) && j < |r.states|
    ensures r.states[j].failed <==> exists i: nat, u :: i < j && FailsAt(r, i, u)
  {
    if j > 0 {
      FailedExactly(cfg, r, j - 1);
      FailedNext(cfg, r, j - 1);
      var e := r.events[j - 1];
      if e.Completed? && FailsAt(r, j - 1, e.tag) {
        assert j - 1 < j;
      }
    }
  }

  // The steps the summary counts as passed and as failed are those that ended so by themselves.
  lemma CountedExactly(cfg: Config, r: Run, j: nat, t: Tag)
    requires ValidConfig(cfg) && IsRun(cfg, r) && j < |r.states|
    ensures t in Passed(r.states[j]) <==> exists i: nat :: i < j && PassesAt(r, i, t)
    ensures t in FailedTags(r.states[j]) <==> exists i: nat :: i < j && FailsAt(r, i, t)
  {
    DoneExactly(cfg, r, j, t);
    forall i: nat | i < j && CompletedAt(r, i, t)
      ensures t in Passed(r.states[j]) <==> PassesAt(r, i, t)
      ensures t in FailedTags(r.states[j]) <==> FailsAt(r, i, t)
    {
      OutcomeCounted(cfg, r, i, t, j);
    }
  }

  lemma OutcomeCounted(cfg: Config, r: Run, i: nat, t: Tag, j: nat)
    requires ValidConfig(cfg) && IsRun(cfg, r) && i < j < |r.states| && CompletedAt(r, i, t)
    ensures t in Passed(r.states[j]) <==> PassesAt(r, i, t)
    ensures t in FailedTags(r.states[j]) <==> FailsAt(r, i, t)
  {
    OutcomeRecorded(cfg, r, i, t, r.events[i].ok, j);
    AbortedSettled(cfg, r, i, t, j);
  }

  lemma SettledNext(cfg: Config, r: Run, i: nat, t: Tag)
    requires ValidConfig(cfg) && IsRun(cfg, r) && i < |r.events| && (CompletedAt(r, i, t) || t in r.states[i].done)
    ensures t in r.states[i + 1].aborted <==> t in r.states[i].aborted
  {
    EventEffect(cfg, r, i);
    if t in r.states[i].registered && t in r.states[i].done {
      KnownNotDone(cfg, r, i, t);
    }
  }

  // Nobody tears down a step that is done.
  lemma {:induction false} AbortedSettled(cfg: Config, r: Run, i: nat, t: Tag, j: nat)
    requires ValidConfig(cfg) && IsRun(cfg, r) && i < j < |r.states| && CompletedAt(r, i, t)
    ensures t in r.states[j].aborted <==> t in r.states[i].aborted
    decreases j
  {
    DoneExactly(cfg, r, j - 1, t);
    SettledNext(cfg, r, j - 1, t);
    if i < j - 1 {
      AbortedSettled(cfg, r, i, t, j - 1);
    }
  }
}
