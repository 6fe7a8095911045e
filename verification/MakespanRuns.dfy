// Every live configuration has timed runs, whatever the durations: the bounds on wall time are
// about runs that exist.
module MakespanRuns {
  import opened Steps
  import opened Scheduler
  import opened SchedulerSafety
  import opened SchedulerLiveness
  import opened Makespan

  ghost predicate Quiet(cfg: Config, s: State) {
    Inv(cfg, s) && !s.failed && forall t :: t in s.done ==> s.done[t]
  }

  ghost predicate QuietEvent(e: Event) {
    !e.SchedulePass? && (e.Completed? ==> e.ok)
  }

  lemma QuietCons(cfg: Config, s: State, e: Event, path: seq<State>, events: seq<Event>)
    requires QuietPath(cfg, path, events) && Next(cfg, s, e, path[0]) && QuietEvent(e)
    ensures QuietPath(cfg, [s] + path, [e] + events)
  {
    var p, es := [s] + path, [e] + events;
    forall i | 0 <= i < |es|
      ensures Next(cfg, p[i], es[i], p[i + 1]) && !es[i].SchedulePass? && (es[i].Completed? ==> es[i].ok)
    {
      if i > 0 {
        assert p[i] == path[i - 1] && es[i] == events[i - 1] && p[i + 1] == path[i];
      }
    }
  }

  lemma RegisterFirst(cfg: Config, s: State, t: Tag) returns (s': State)
    requires ValidConfig(cfg) && Quiet(cfg, s) && t in s.running && t !in s.registered
    ensures Next(cfg, s, Registered(t), s') && Quiet(cfg, s')
    ensures t in s'.registered && s'.running == s.running && s'.done == s.done
  {
    s' := Register(s, t);
    QuietStep(cfg, s, Registered(t), s');
  }

  lemma CompleteOne(cfg: Config, s: State, t: Tag) returns (s': State)
    requires ValidConfig(cfg) && Quiet(cfg, s) && t in s.running && t in s.registered
    ensures Next(cfg, s, Completed(t, true), s') && Quiet(cfg, s')
    ensures s'.running == s.running - {t} && s'.done.Keys == s.done.Keys + {t}
  {
    s' := Complete(cfg, s, t, true);
    QuietStep(cfg, s, Completed(t, true), s');
    CompleteKeys(cfg, s, t);
  }

  lemma CompleteKeys(cfg: Config, s: State, t: Tag)
    requires t in cfg.steps
    ensures var s' := Complete(cfg, s, t, true);
      s'.running == s.running - {t} && s'.done.Keys == s.done.Keys + {t}
  {
  }

  // Any running steps can register and complete.
  lemma {:induction false} Settle(cfg: Config, s: State, fin: set<Tag>) returns (path: seq<State>, events: seq<Event>)
    requires ValidConfig(cfg) && Quiet(cfg, s) && fin <= s.running
    ensures QuietPath(cfg, path, events) && path[0] == s
    ensures path[|path| - 1].done.Keys == s.done.Keys + fin
    decreases fin
  {
    if fin == {} {
      path, events := [s], [];
    } else {
      var t :| t in fin;
      if t in s.registered {
        path, events := SettleOne(cfg, s, fin, t);
      } else {
        var s1 := RegisterFirst(cfg, s, t);
        var path1, events1 := SettleOne(cfg, s1, fin, t);
        QuietCons(cfg, s, Registered(t), path1, events1);
        path, events := [s] + path1, [Registered(t)] + events1;
      }
    }
  }

  lemma {:induction false} SettleOne(cfg: Config, s: State, fin: set<Tag>, t: Tag)
      returns (path: seq<State>, events: seq<Event>)
    requires ValidConfig(cfg) && Quiet(cfg, s) && fin <= s.running && t in fin && t in s.registered
    ensures QuietPath(cfg, path, events) && path[0] == s
    ensures path[|path| - 1].done.Keys == s.done.Keys + fin
    decreases fin, 0
  {
    var s1 := CompleteOne(cfg, s, t);
    var path1, events1 := Settle(cfg, s1, fin - {t});
    QuietCons(cfg, s, Completed(t, true), path1, events1);
    path, events := [s] + path1, [Completed(t, true)] + events1;
    assert {t} + (fin - {t}) == fin;
  }

  lemma TickExists(cfg: Config, c: Clocked) returns (c': Clocked)
    requires ValidConfig(cfg) && ClockInv(cfg, c) && !Exit(cfg, c.s)
    ensures Tick(cfg, c, c')
  {
    var p := Pass(cfg, c.s);
    PassKeepsClock(cfg, c);
    var path, events := Settle(cfg, p, Finishing(c.left, p.running));
    c' := Clocked(path[|path| - 1], Worked(c.left, p.running));
  }

  ghost predicate Ticks(cfg: Config, cs: seq<Clocked>) {
    cs != [] && (forall i :: 0 <= i < |cs| - 1 ==> Tick(cfg, cs[i], cs[i + 1])) && Exit(cfg, cs[|cs| - 1].s)
  }

  lemma TicksCons(cfg: Config, c: Clocked, cs: seq<Clocked>)
    requires Ticks(cfg, cs) && Tick(cfg, c, cs[0])
    ensures Ticks(cfg, [c] + cs)
  {
    var all := [c] + cs;
    forall i | 0 <= i < |all| - 1 ensures Tick(cfg, all[i], all[i + 1]) {
      if i > 0 {
        assert all[i] == cs[i - 1] && all[i + 1] == cs[i];
      }
    }
  }

  lemma {:induction false} TicksToExit(cfg: Config, c: Clocked) returns (cs: seq<Clocked>)
    requires ValidConfig(cfg) && LiveConfig(cfg) && ClockInv(cfg, c)
    ensures Ticks(cfg, cs) && cs[0] == c
    decreases SerialSum(c.left)
  {
    if Exit(cfg, c.s) {
      cs := [c];
    } else {
      var c' := OneTick(cfg, c);
      var rest := TicksToExit(cfg, c');
      TicksCons(cfg, c, rest);
      cs := [c] + rest;
    }
  }

  lemma OneTick(cfg: Config, c: Clocked) returns (c': Clocked)
    requires ValidConfig(cfg) && LiveConfig(cfg) && ClockInv(cfg, c) && !Exit(cfg, c.s)
    ensures Tick(cfg, c, c') && ClockInv(cfg, c') && 0 <= SerialSum(c'.left) < SerialSum(c.left)
  {
    c' := TickExists(cfg, c);
    TickInv(cfg, c, c');
    TickWork(cfg, c, c');
    TickRuns(cfg, c);
    SerialSumNonNegative(c'.left);
  }

  // A live configuration has a failure-free timed run for any positive durations.
  lemma TimedRunExists(cfg: Config, dur: Times) returns (cs: seq<Clocked>)
    requires ValidConfig(cfg) && LiveConfig(cfg) && Durations(cfg, dur)
    ensures TimedRun(cfg, dur, cs)
  {
    var c := Clocked(Init(cfg), dur);
    InitInv(cfg);
    cs := TicksToExit(cfg, c);
  }
}
