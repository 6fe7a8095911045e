// What tearing a step down guarantees, at every point of every run.
module Teardown {
  import opened Cgroups
  import opened Containment

  datatype Run = Run(worlds: seq<World>, events: seq<Event>)

  ghost predicate IsRun(site: Site, r: Run) {
    && |r.worlds| == |r.events| + 1
    && forall i :: 0 <= i < |r.events| ==> Next(site, r.worlds[i], r.events[i], r.worlds[i + 1])
  }

  // A run from a state the invariant holds in.
  ghost predicate Sound(site: Site, r: Run) {
    NoClash(site) && IsRun(site, r) && Inv(site, r.worlds[0])
  }

  // A whole run: from the start, with step groups or without.
  ghost predicate WholeRun(site: Site, r: Run) {
    NoClash(site) && IsRun(site, r) && Start(site, r.worlds[0])
  }

  lemma StartInv(site: Site, w: World)
    requires Start(site, w)
    ensures Inv(site, w)
  {
  }

  // There is a start for any set of steps.
  lemma StartExists(tags: set<string>, enabled: bool) returns (site: Site, w: World)
    ensures site.tags == tags && Start(site, w) && w.cg.enabled == enabled
  {
    site := Site(1, tags);
    var runner := Proc(0, 0, Supervisor, true);
    w := World(View(enabled, {}, {}, [runner, runner]), [0, 0], map[], {}, {}, {});
  }

  lemma NextEnabled(site: Site, w: World, e: Event, w': World)
    requires Next(site, w, e, w')
    ensures w'.cg.enabled == w.cg.enabled
  {
  }

  lemma StepInv(site: Site, r: Run, i: nat)
    requires NoClash(site) && IsRun(site, r) && i < |r.events| && Inv(site, r.worlds[i])
    ensures Inv(site, r.worlds[i + 1]) && r.worlds[i + 1].cg.enabled == r.worlds[i].cg.enabled
  {
    var w, e, w' := r.worlds[i], r.events[i], r.worlds[i + 1];
    NextInv(site, w, e, w');
    NextEnabled(site, w, e, w');
  }

  lemma {:induction false} RunInv(site: Site, r: Run, i: nat)
    requires Sound(site, r) && i < |r.worlds|
    ensures Inv(site, r.worlds[i]) && r.worlds[i].cg.enabled == r.worlds[0].cg.enabled
  {
    if i > 0 {
      RunInv(site, r, i - 1);
      StepInv(site, r, i - 1);
    }
  }

  // --- A dead tree stays dead ---

  ghost predicate NobodyRises(w: World, w': World) {
    && w'.parents == w.parents && w'.leaders == w.leaders && |w'.cg.procs| == |w.cg.procs|
    && forall q :: 0 <= q < |w.cg.procs| && w'.cg.procs[q].alive ==> w.cg.procs[q].alive
  }

  lemma OthersRaiseNobody(site: Site, w: World, e: Event, w': World)
    requires Next(site, w, e, w') && !e.Spawn? && !e.Fork?
    ensures NobodyRises(w, w')
  {
  }

  lemma DeadTreeStays(site: Site, w: World, e: Event, w': World, t: string)
    requires Table(site, w) && Leads(site, w) && Next(site, w, e, w') && t in w.leaders && NoneAlive(w, w.leaders[t])
    ensures t in w'.leaders && w'.leaders[t] == w.leaders[t] && NoneAlive(w', w'.leaders[t])
  {
    if e.Spawn? {
      SpawnSwept(site, w, e.tag, w', t);
    } else if e.Fork? {
      ForkSwept(w, e.p, w', w.leaders[t]);
    } else {
      OthersRaiseNobody(site, w, e, w');
    }
  }

  ghost predicate DeadStep(r: Run, i: nat, t: string) {
    i < |r.worlds| && t in r.worlds[i].leaders && NoneAlive(r.worlds[i], r.worlds[i].leaders[t])
  }

  lemma DeadNext(site: Site, r: Run, i: nat, t: string)
    requires Sound(site, r) && i < |r.events| && DeadStep(r, i, t)
    ensures DeadStep(r, i + 1, t) && r.worlds[i + 1].leaders[t] == r.worlds[i].leaders[t]
  {
    RunInv(site, r, i);
    DeadTreeStays(site, r.worlds[i], r.events[i], r.worlds[i + 1], t);
  }

  lemma {:induction false} DeadForGood(site: Site, r: Run, i: nat, j: nat, t: string)
    requires Sound(site, r) && i <= j < |r.worlds| && DeadStep(r, i, t)
    ensures DeadStep(r, j, t) && r.worlds[j].leaders[t] == r.worlds[i].leaders[t]
    decreases j
  {
    if i < j {
      DeadForGood(site, r, i, j - 1, t);
      DeadNext(site, r, j - 1, t);
    }
  }

  // --- No escapee ---

  // In every whole run with step groups, a step whose closing cgroup.kill is done has no live
  // process, then and ever after, however its processes forked and changed session, and whatever
  // was killed before.
  lemma NoEscapee(site: Site, r: Run, i: nat, j: nat, t: string)
    requires WholeRun(site, r) && r.worlds[0].cg.enabled && i <= j < |r.worlds| && t in r.worlds[i].swept
    ensures t in r.worlds[i].leaders && t in r.worlds[j].leaders
    ensures r.worlds[j].leaders[t] == r.worlds[i].leaders[t] && NoneAlive(r.worlds[j], r.worlds[j].leaders[t])
  {
    StartInv(site, r.worlds[0]);
    RunInv(site, r, i);
    DeadForGood(site, r, i, j, t);
  }

  // At the normal exit no step group holds a live process, so the backstop has none to kill.
  lemma NothingLeftAtExit(site: Site, r: Run, i: nat)
    requires WholeRun(site, r) && r.worlds[0].cg.enabled && i < |r.events| && r.events[i] == KillAll
    ensures var procs := r.worlds[i].cg.procs;
      forall q :: 0 <= q < |procs| && procs[q].cgroup.Step? ==> !procs[q].alive
    ensures r.worlds[i + 1].cg.procs == r.worlds[i].cg.procs
  {
    StartInv(site, r.worlds[0]);
    RunInv(site, r, i);
    AllFinishedAllDead(site, r.worlds[i], r.worlds[i + 1]);
  }

  lemma AllFinishedAllDead(site: Site, w: World, w': World)
    requires Inv(site, w) && w.cg.enabled && Next(site, w, KillAll, w')
    ensures forall q :: 0 <= q < |w.cg.procs| && w.cg.procs[q].cgroup.Step? ==> !w.cg.procs[q].alive
    ensures w'.cg.procs == w.cg.procs
  {
    forall q: nat | q < |w.cg.procs| && w.cg.procs[q].cgroup.Step? ensures !w.cg.procs[q].alive {
      var t :| t in w.leaders && w.cg.procs[q].cgroup.dir == Sanitize(t) && Under(w.parents, q, w.leaders[t]);
      assert NoneAlive(w, w.leaders[t]);
    }
  }

  ghost predicate LeaderDead(w: World, t: string)
    requires t in w.leaders
  {
    w.leaders[t] < |w.cg.procs| && !w.cg.procs[w.leaders[t]].alive
  }

  // A reap that starts once the leader has moved or died: from its cgroup.kill on, nothing of the
  // tree is alive.
  lemma ReapClean(site: Site, r: Run, i: nat, j: nat, t: string)
    requires Sound(site, r) && r.worlds[0].cg.enabled && i < j < |r.worlds| && r.events[i] == CgroupKill(t)
    requires t in r.worlds[i].leaders && t !in r.worlds[i].finished
    requires Moved(r.worlds[i], t) || LeaderDead(r.worlds[i], t)
    ensures t in r.worlds[j].leaders && NoneAlive(r.worlds[j], r.worlds[j].leaders[t])
  {
    RunInv(site, r, i);
    KillEmpties(site, r.worlds[i], t);
    assert Next(site, r.worlds[i], r.events[i], r.worlds[i + 1]);
    DeadForGood(site, r, i + 1, j, t);
  }

  // cgroup.kill and killpg with nothing in between leave nothing alive, at any moment.
  lemma UninterruptedReapClean(site: Site, w: World, w1: World, w2: World, t: string)
    requires NoClash(site) && Inv(site, w) && w.cg.enabled && t in w.leaders && t !in w.finished
    requires Next(site, w, CgroupKill(t), w1) && Next(site, w1, Killpg(t), w2)
    ensures NoneAlive(w2, w.leaders[t])
  {
    if Moved(w, t) || LeaderDead(w, t) {
      KillEmpties(site, w, t);
      NextInv(site, w, CgroupKill(t), w1);
      DeadTreeStays(site, w1, Killpg(t), w2, t);
    } else {
      NextInv(site, w, CgroupKill(t), w1);
      LeaderKilled(site, w1, w2, t);
      forall q: nat | q < |w2.cg.procs| && Under(w2.parents, q, w.leaders[t]) ensures !w2.cg.procs[q].alive {
        assert Boxed(w, t, q);
      }
    }
  }

  // The guard of killpg never spares a step's own leader.
  lemma LeaderKilled(site: Site, w: World, w': World, t: string)
    requires Inv(site, w) && Next(site, w, Killpg(t), w')
    ensures w.leaders[t] < |w'.cg.procs| && !w'.cg.procs[w.leaders[t]].alive
  {
    GroupIsNotRunners(site, w, t);
  }

  lemma GroupIsNotRunners(site: Site, w: World, t: string)
    requires Inv(site, w) && t in w.leaders
    ensures w.leaders[t] > 1 && w.leaders[t] != w.cg.procs[site.runner].group
  {
    var pgid := w.leaders[t];
    if pgid == w.cg.procs[site.runner].group {
      assert Under(w.parents, site.runner, pgid);
      UnderLe(w.parents, site.runner, pgid);
    }
  }

  // --- When a reap can be raced ---

  ghost predicate ReapRun(site: Site, r: Run, w: World, t: string) {
    && IsRun(site, r) && r.worlds[0] == w && |r.events| >= 2
    && r.events[0] == CgroupKill(t) && r.events[|r.events| - 1] == Killpg(t)
  }

  // However other events fall between the cgroup.kill made now and the killpg, none is left.
  ghost predicate AlwaysClean(site: Site, w: World, t: string)
    requires t in w.leaders
  {
    forall r :: ReapRun(site, r, w, t) ==> NoneAlive(r.worlds[|r.events|], w.leaders[t])
  }

  // A leader is in no step group but its own.
  lemma LeaderElsewhere(site: Site, w: World, t: string)
    requires Leads(site, w) && Owned(w) && t in w.leaders && !Moved(w, t)
    ensures !w.cg.procs[w.leaders[t]].cgroup.Step?
  {
    var n := w.leaders[t];
    if w.cg.procs[n].cgroup.Step? {
      var s :| s in w.leaders && w.cg.procs[n].cgroup.dir == Sanitize(s) && Under(w.parents, n, w.leaders[s]);
      if s != t {
        LeadersApart(site, w, t, s);
      }
    }
  }

  // A race's last steps: a process p of the step that may act forks, and the child leaves its
  // session.
  lemma Escape(site: Site, w: World, t: string, p: nat) returns (w1: World, w2: World, w3: World)
    requires Table(site, w) && Leads(site, w) && t in w.leaders && Acts(w, p) && Under(w.parents, p, w.leaders[t])
    ensures Next(site, w, Fork(p), w1)
    ensures Next(site, w1, Setsid(|w.cg.procs|), w2)
    ensures Next(site, w2, Killpg(t), w3)
    ensures !NoneAlive(w3, w.leaders[t])
  {
    var leader, n := w.leaders[t], |w.cg.procs|;
    w1 := With(w, w.cg.procs + [w.cg.procs[p]]).(parents := w.parents + [p]);
    w2 := With(w1, w1.cg.procs[n := w1.cg.procs[n].(session := n, group := n)]);
    w3 := KilledGroup(site, w2, t);
    UnderNew(w.parents, p, leader);
    assert !HeldBack(w1, n);
    assert w3.cg.procs[n].alive && Under(w3.parents, n, leader);
  }

  // A leader the cgroup.kill came too early for moves into the group just killed.
  lemma MoveLate(site: Site, w: World, t: string) returns (w1: World, w2: World)
    requires Inv(site, w) && w.cg.enabled && t in w.leaders && t !in w.finished
    requires !Moved(w, t) && !LeaderDead(w, t)
    ensures Next(site, w, CgroupKill(t), w1) && Next(site, w1, SelfMove(t), w2)
    ensures w2.leaders == w.leaders && Table(site, w2) && Leads(site, w2) && Acts(w2, w.leaders[t])
  {
    var leader := w.leaders[t];
    LeaderElsewhere(site, w, t);
    w1 := w.(cg := Killed(w.cg, t));
    assert w1.cg.procs[leader] == w.cg.procs[leader];
    w2 := With(w1, w1.cg.procs[leader := w1.cg.procs[leader].(cgroup := Step(Sanitize(t)))]);
    KilledIsKilling(site, w, t);
    KillingTable(site, w, w1);
    MoveTable(site, w1, leader, w2, Step(Sanitize(t)));
  }

  lemma RacedReap(site: Site, w: World, t: string) returns (r: Run)
    requires Inv(site, w) && w.cg.enabled && t in w.leaders && t !in w.finished
    requires !Moved(w, t) && !LeaderDead(w, t)
    ensures ReapRun(site, r, w, t) && !NoneAlive(r.worlds[|r.events|], w.leaders[t])
  {
    var w1, w2 := MoveLate(site, w, t);
    var w3, w4, w5 := Escape(site, w2, t, w.leaders[t]);
    r := Raced(site, t, w, w1, w2, w3, w4, w5, |w2.cg.procs|);
  }

  lemma Raced(site: Site, t: string, w: World, w1: World, w2: World, w3: World, w4: World, w5: World, n: nat)
      returns (r: Run)
    requires t in w.leaders
    requires Next(site, w, CgroupKill(t), w1) && Next(site, w1, SelfMove(t), w2)
    requires Next(site, w2, Fork(w.leaders[t]), w3) && Next(site, w3, Setsid(n), w4) && Next(site, w4, Killpg(t), w5)
    ensures ReapRun(site, r, w, t) && r.worlds[|r.events|] == w5
  {
    r := Run([w, w1, w2, w3, w4, w5], [CgroupKill(t), SelfMove(t), Fork(w.leaders[t]), Setsid(n), Killpg(t)]);
  }

  // A reap of an unfinished step is clean in every interleaving exactly when the leader had
  // already moved, or was dead, when it began.
  lemma ReapCleanExactly(site: Site, w: World, t: string)
    requires NoClash(site) && Inv(site, w) && w.cg.enabled && t in w.leaders && t !in w.finished
    ensures AlwaysClean(site, w, t) <==> Moved(w, t) || LeaderDead(w, t)
  {
    if Moved(w, t) || LeaderDead(w, t) {
      forall r | ReapRun(site, r, w, t) ensures NoneAlive(r.worlds[|r.events|], w.leaders[t]) {
        ReapClean(site, r, 0, |r.events|, t);
        assert r.worlds[1].leaders == w.leaders by {
          assert Next(site, r.worlds[0], r.events[0], r.worlds[1]);
        }
        LeaderKept(site, r, 0, |r.events|, t);
      }
    } else {
      var r := RacedReap(site, w, t);
    }
  }

  lemma JustSpawned(site: Site, w: World, t: string) returns (w': World)
    requires Start(site, w) && w.cg.enabled && t in site.tags
    ensures Next(site, w, Spawn(t), w') && Inv(site, w') && w'.cg.enabled
    ensures t in w'.leaders && t !in w'.finished && !Moved(w', t) && !LeaderDead(w', t)
  {
    var n := |w.cg.procs|;
    var leader := Proc(n, n, w.cg.procs[site.runner].cgroup, true);
    w' := w.(cg := Prepared(w.cg, t, true).(procs := w.cg.procs + [leader]),
             parents := w.parents + [site.runner], leaders := w.leaders[t := n]);
    StartInv(site, w);
    SpawnInv(site, w, t, w');
  }

  // The race is no matter of odd states: from any start with step groups, any step can be raced
  // by its first reap.
  lemma RaceFromStart(site: Site, w: World, t: string) returns (r: Run)
    requires Start(site, w) && w.cg.enabled && t in site.tags
    ensures IsRun(site, r) && r.worlds[0] == w && |r.events| >= 3
    ensures r.events[0] == Spawn(t) && r.events[1] == CgroupKill(t) && r.events[|r.events| - 1] == Killpg(t)
    ensures var last := r.worlds[|r.events|]; t in last.leaders && !NoneAlive(last, last.leaders[t])
  {
    var w1 := JustSpawned(site, w, t);
    var race := RacedReap(site, w1, t);
    LeaderKept(site, race, 0, |race.events|, t);
    r := After(site, w, Spawn(t), race);
  }

  // Such a start exists: a step of any name is raced in some whole run.
  lemma RaceExists(t: string) returns (site: Site, r: Run)
    ensures WholeRun(site, r) && r.worlds[0].cg.enabled
    ensures var last := r.worlds[|r.events|]; t in last.leaders && !NoneAlive(last, last.leaders[t])
  {
    var w;
    site, w := StartExists({t}, true);
    r := RaceFromStart(site, w, t);
  }

  lemma After(site: Site, w: World, e: Event, rest: Run) returns (r: Run)
    requires IsRun(site, rest) && Next(site, w, e, rest.worlds[0])
    ensures r == Run([w] + rest.worlds, [e] + rest.events) && IsRun(site, r)
  {
    r := Run([w] + rest.worlds, [e] + rest.events);
    forall i | 0 <= i < |r.events| ensures Next(site, r.worlds[i], r.events[i], r.worlds[i + 1]) {
      if i > 0 {
        assert r.worlds[i] == rest.worlds[i - 1] && r.events[i] == rest.events[i - 1];
        assert r.worlds[i + 1] == rest.worlds[i];
      }
    }
  }

  lemma NextLeader(site: Site, w: World, e: Event, w': World, t: string)
    requires Next(site, w, e, w') && t in w.leaders
    ensures t in w'.leaders && w'.leaders[t] == w.leaders[t]
  {
  }

  lemma {:induction false} LeaderKept(site: Site, r: Run, i: nat, j: nat, t: string)
    requires IsRun(site, r) && i <= j < |r.worlds| && t in r.worlds[i].leaders
    ensures t in r.worlds[j].leaders && r.worlds[j].leaders[t] == r.worlds[i].leaders[t]
    decreases j
  {
    if i < j {
      LeaderKept(site, r, i, j - 1, t);
      NextLeader(site, r.worlds[j - 1], r.events[j - 1], r.worlds[j], t);
    }
  }

  // --- Without step groups ---

  // One killpg, uninterrupted, leaves exactly the live processes outside the leader's group.
  lemma KillpgLeavesExactly(site: Site, w: World, w': World, t: string, q: nat)
    requires Inv(site, w) && Next(site, w, Killpg(t), w') && q < |w.cg.procs|
    ensures |w'.cg.procs| == |w.cg.procs|
    ensures w'.cg.procs[q].alive <==> w.cg.procs[q].alive && w.cg.procs[q].group != w.leaders[t]
  {
    GroupIsNotRunners(site, w, t);
  }

  lemma UngroupedRace(site: Site, w: World, t: string, q: nat) returns (r: Run)
    requires Inv(site, w) && !w.cg.enabled && t in w.leaders
    requires q < |w.cg.procs| && w.cg.procs[q].alive && Under(w.parents, q, w.leaders[t])
    ensures ReapRun(site, r, w, t) && !NoneAlive(r.worlds[|r.events|], w.leaders[t])
  {
    var w1, w2, w3 := Escape(site, w, t, q);
    r := Run([w, w, w1, w2, w3], [CgroupKill(t), Fork(q), Setsid(|w.cg.procs|), Killpg(t)]);
  }

  // Without step groups a reap is clean in every interleaving exactly when nothing of the step was
  // alive when it began: a live process, the leader or not, forks a child that changes its session.
  lemma UngroupedReapExactly(site: Site, w: World, t: string)
    requires NoClash(site) && Inv(site, w) && !w.cg.enabled && t in w.leaders
    ensures AlwaysClean(site, w, t) <==> NoneAlive(w, w.leaders[t])
  {
    if NoneAlive(w, w.leaders[t]) {
      forall r | ReapRun(site, r, w, t) ensures NoneAlive(r.worlds[|r.events|], w.leaders[t]) {
        DeadForGood(site, r, 0, |r.events|, t);
      }
    } else {
      var q: nat :| q < |w.cg.procs| && Under(w.parents, q, w.leaders[t]) && w.cg.procs[q].alive;
      var r := UngroupedRace(site, w, t, q);
    }
  }

  // --- Nobody else is hit ---

  ghost predicate HitsOnly(w: World, w': World, leader: nat) {
    forall q: nat :: q < |w.cg.procs| && q < |w'.cg.procs| && w.cg.procs[q].alive && !w'.cg.procs[q].alive ==>
      Under(w.parents, q, leader)
  }

  lemma CgroupKillHitsOwnTree(site: Site, w: World, t: string)
    requires NoClash(site) && Leads(site, w) && (w.cg.enabled ==> Owned(w)) && t in w.leaders
    ensures HitsOnly(w, w.(cg := Killed(w.cg, t)), w.leaders[t])
  {
    var w' := w.(cg := Killed(w.cg, t));
    forall q: nat | q < |w.cg.procs| && w.cg.procs[q].alive && !w'.cg.procs[q].alive
      ensures Under(w.parents, q, w.leaders[t])
    {
      assert w.cg.procs[q].cgroup == Step(Sanitize(t));
      var s :| s in w.leaders && w.cg.procs[q].cgroup.dir == Sanitize(s) && Under(w.parents, q, w.leaders[s]);
    }
  }

  lemma KillpgHitsOwnTree(site: Site, w: World, t: string)
    requires Sessions(w) && Groups(w) && t in w.leaders
    ensures HitsOnly(w, KilledGroup(site, w, t), w.leaders[t])
  {
  }

  // A reap of one step, in either half, kills no process of another step and never the runner.
  lemma ReapSparesOthers(site: Site, w: World, e: Event, w': World, q: nat)
    requires NoClash(site) && Inv(site, w) && Next(site, w, e, w') && (e.CgroupKill? || e.Killpg?)
    requires q < |w.cg.procs| && w.cg.procs[q].alive
    requires q == site.runner || exists s :: s in w.leaders && s != e.tag && Under(w.parents, q, w.leaders[s])
    ensures q < |w'.cg.procs| && w'.cg.procs[q].alive
  {
    CgroupKillHitsOwnTree(site, w, e.tag);
    KillpgHitsOwnTree(site, w, e.tag);
    if q == site.runner {
      if Under(w.parents, q, w.leaders[e.tag]) {
        UnderLe(w.parents, q, w.leaders[e.tag]);
      }
    } else {
      var s :| s in w.leaders && s != e.tag && Under(w.parents, q, w.leaders[s]);
      TreesApart(site, w, s, e.tag, q);
    }
  }

  // The reap of one step leaves the live processes of every other step alive.
  ghost predicate Spares(r: Run, i: nat)
    requires i < |r.events| && i + 1 < |r.worlds|
  {
    var w, e, w' := r.worlds[i], r.events[i], r.worlds[i + 1];
    e.CgroupKill? || e.Killpg? ==>
      forall t, q: nat ::
        (t in w.leaders && t != e.tag && q < |w.cg.procs| && Under(w.parents, q, w.leaders[t]) && w.cg.procs[q].alive)
          ==> (q < |w'.cg.procs| && w'.cg.procs[q].alive)
  }

  ghost predicate AlwaysSpares(site: Site, w: World) {
    forall r, i: nat :: IsRun(site, r) && r.worlds[0] == w && i < |r.events| ==> Spares(r, i)
  }

  // In the runs from a start with step groups, reaps spare the other steps exactly when no two
  // steps share a directory.
  lemma SparesExactly(site: Site, w: World)
    requires Start(site, w) && w.cg.enabled
    ensures AlwaysSpares(site, w) <==> NoClash(site)
  {
    if NoClash(site) {
      StartInv(site, w);
      forall r, i: nat | IsRun(site, r) && r.worlds[0] == w && i < |r.events| ensures Spares(r, i) {
        RunInv(site, r, i);
        RunSpares(site, r, i);
      }
    } else {
      var s, t :| s in site.tags && t in site.tags && Sanitize(s) == Sanitize(t) && s != t;
      var r, i := ClashRun(site, w, s, t);
    }
  }

  lemma RunSpares(site: Site, r: Run, i: nat)
    requires NoClash(site) && IsRun(site, r) && i < |r.events| && Inv(site, r.worlds[i])
    ensures Spares(r, i)
  {
    var w, e, w' := r.worlds[i], r.events[i], r.worlds[i + 1];
    assert Next(site, w, e, w');
    if e.CgroupKill? || e.Killpg? {
      forall t, q: nat | t in w.leaders && t != e.tag && q < |w.cg.procs| && Under(w.parents, q, w.leaders[t])
          && w.cg.procs[q].alive
        ensures q < |w'.cg.procs| && w'.cg.procs[q].alive
      {
        ReapSparesOthers(site, w, e, w', q);
      }
    }
  }

  // Two steps with one directory: reaping the first kills the second's leader.
  lemma ClashRun(site: Site, w: World, s: string, t: string) returns (r: Run, i: nat)
    requires Start(site, w) && w.cg.enabled
    requires s in site.tags && t in site.tags && s != t && Sanitize(s) == Sanitize(t)
    ensures IsRun(site, r) && r.worlds[0] == w && i < |r.events| && !Spares(r, i)
  {
    var n, runner := |w.cg.procs|, w.cg.procs[site.runner].cgroup;
    var w1 := w.(cg := Prepared(w.cg, s, true).(procs := w.cg.procs + [Proc(n, n, runner, true)]),
                 parents := w.parents + [site.runner], leaders := w.leaders[s := n]);
    var w2 := w1.(cg := Prepared(w1.cg, t, true).(procs := w1.cg.procs + [Proc(n + 1, n + 1, runner, true)]),
                  parents := w1.parents + [site.runner], leaders := w1.leaders[t := n + 1]);
    var w3 := With(w2, w2.cg.procs[n + 1 := w2.cg.procs[n + 1].(cgroup := Step(Sanitize(t)))]);
    var w4 := w3.(cg := Killed(w3.cg, s));
    assert Next(site, w, Spawn(s), w1) && Next(site, w1, Spawn(t), w2) && Next(site, w2, SelfMove(t), w3);
    r, i := Run([w, w1, w2, w3, w4], [Spawn(s), Spawn(t), SelfMove(t), CgroupKill(s)]), 3;
    assert w3.leaders[t] == n + 1 && !w4.cg.procs[n + 1].alive;
    NotSpared(r, i, t, n + 1);
  }

  lemma NotSpared(r: Run, i: nat, t: string, q: nat)
    requires i < |r.events| && i + 1 < |r.worlds| && r.events[i].CgroupKill? && t != r.events[i].tag
    requires t in r.worlds[i].leaders && q < |r.worlds[i].cg.procs| && q < |r.worlds[i + 1].cg.procs|
    requires Under(r.worlds[i].parents, q, r.worlds[i].leaders[t])
    requires r.worlds[i].cg.procs[q].alive && !r.worlds[i + 1].cg.procs[q].alive
    ensures !Spares(r, i)
  {
  }

  // A leader about to move finds its directory.
  lemma MoveNeverMisses(site: Site, r: Run, i: nat, t: string)
    requires WholeRun(site, r) && r.worlds[0].cg.enabled && i < |r.worlds|
    requires t in r.worlds[i].leaders && !LeaderDead(r.worlds[i], t)
    ensures Sanitize(t) in r.worlds[i].cg.dirs && Killable(r.worlds[i].cg, t)
  {
    StartInv(site, r.worlds[0]);
    RunInv(site, r, i);
  }
}
