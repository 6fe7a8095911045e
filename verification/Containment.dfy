// Tearing down a step's process tree while its processes fork, change session and change group
// in any interleaving with the runner's cgroup.kill and killpg.
module Containment {
  import opened Cgroups

  // The runner's pid and the tags of the registered steps.
  datatype Site = Site(runner: nat, tags: set<string>)

  // parents[p] created p; leaders are the step leaders started; waited are the steps whose leader
  // was collected, swept those whose closing cgroup.kill is done, finished those whose killpg and
  // directory cleanup are done as well. Pids only grow.
  datatype World = World(cg: View, parents: seq<nat>, leaders: map<string, nat>,
                         waited: set<string>, swept: set<string>, finished: set<string>)

  datatype Event =
    | Spawn(tag: string)
    | SelfMove(tag: string)
    | Fork(p: nat)
    | Setsid(p: nat)
    | Setpgid(p: nat, group: nat)
    | Exit(p: nat)
    | CgroupKill(tag: string)
    | Killpg(tag: string)
    | Collect(tag: string)
    | Sweep(tag: string)
    | Finish(tag: string)
    | KillAll

  // q is p or was created, directly or not, by p.
  predicate Under(parents: seq<nat>, q: nat, p: nat)
    decreases q
  {
    q == p || (q < |parents| && parents[q] < q && Under(parents, parents[q], p))
  }

  predicate Moved(w: World, tag: string)
    requires tag in w.leaders
  {
    w.leaders[tag] < |w.cg.procs| && w.cg.procs[w.leaders[tag]].cgroup == Step(Sanitize(tag))
  }

  // A leader does nothing before its first command, the move, unless it was not wrapped.
  ghost predicate HeldBack(w: World, p: nat) {
    w.cg.enabled && exists t :: t in w.leaders && w.leaders[t] == p && !Moved(w, t)
  }

  ghost predicate Acts(w: World, p: nat) {
    p < |w.cg.procs| && w.cg.procs[p].alive && !HeldBack(w, p)
  }

  function With(w: World, procs: seq<Proc>): World {
    w.(cg := w.cg.(procs := procs))
  }

  // killpg behind its guard: never a group id up to 1, never the runner's own group.
  function KilledGroup(site: Site, w: World, tag: string): World
    requires tag in w.leaders
  {
    var pgid := w.leaders[tag];
    if pgid <= 1 || (site.runner < |w.cg.procs| && pgid == w.cg.procs[site.runner].group) then w
    else With(w, KillGroup(w.cg.procs, pgid))
  }

  ghost predicate Next(site: Site, w: World, e: Event, w': World) {
    var procs := w.cg.procs;
    match e
    case Spawn(tag) =>
      tag in site.tags && tag !in w.leaders && site.runner < |procs| &&
      var n := |procs|;
      w' == w.(cg := Prepared(w.cg, tag, true).(procs := procs + [Proc(n, n, procs[site.runner].cgroup, true)]),
               parents := w.parents + [site.runner], leaders := w.leaders[tag := n])
    case SelfMove(tag) =>
      w.cg.enabled && tag in w.leaders && !Moved(w, tag) && Sanitize(tag) in w.cg.dirs &&
      var n := w.leaders[tag];
      n < |procs| && procs[n].alive && w' == With(w, procs[n := procs[n].(cgroup := Step(Sanitize(tag)))])
    case Fork(p) =>
      Acts(w, p) && w' == With(w, procs + [procs[p]]).(parents := w.parents + [p])
    case Setsid(p) =>
      Acts(w, p) && p != site.runner &&
      (forall q :: 0 <= q < |procs| && procs[q].alive ==> procs[q].group != p) &&
      w' == With(w, procs[p := procs[p].(session := p, group := p)])
    case Setpgid(p, group) =>
      Acts(w, p) && p != site.runner && procs[p].session != p &&
      (group == p || exists q :: 0 <= q < |procs| && procs[q].alive && procs[q].group == group
                                 && procs[q].session == procs[p].session) &&
      w' == With(w, procs[p := procs[p].(group := group)])
    case Exit(p) =>
      p < |procs| && procs[p].alive && p != site.runner && w' == With(w, procs[p := procs[p].(alive := false)])
    case CgroupKill(tag) =>
      tag in w.leaders && w' == w.(cg := Killed(w.cg, tag))
    case Killpg(tag) =>
      tag in w.leaders && w' == KilledGroup(site, w, tag)
    case Collect(tag) =>
      tag in w.leaders && w.leaders[tag] < |procs| && !procs[w.leaders[tag]].alive &&
      w' == w.(waited := w.waited + {tag})
    case Sweep(tag) =>
      tag in w.waited && tag !in w.finished && w' == w.(cg := Killed(w.cg, tag), swept := w.swept + {tag})
    case Finish(tag) =>
      tag in w.swept && tag !in w.finished && tag in w.leaders &&
      var after := KilledGroup(site, w, tag);
      w' == after.(cg := Cleaned(after.cg, tag), finished := w.finished + {tag})
    case KillAll =>
      w.finished == w.leaders.Keys && w' == w.(cg := KilledAll(w.cg))
  }

  // --- The start: the runner in the drained scope, no step started ---

  ghost predicate Start(site: Site, w: World) {
    && w.leaders == map[] && w.waited == {} && w.swept == {} && w.finished == {}
    && w.cg.made == {} && w.cg.dirs == {}
    && Table(site, w)
    && forall q :: 0 <= q < |w.cg.procs| ==> !w.cg.procs[q].cgroup.Step?
  }

  // No two steps share a directory.
  ghost predicate NoClash(site: Site) {
    forall s, t :: s in site.tags && t in site.tags && Sanitize(s) == Sanitize(t) ==> s == t
  }

  // --- Invariant ---

  ghost predicate Table(site: Site, w: World) {
    var procs := w.cg.procs;
    && |w.parents| == |procs|
    && 1 <= site.runner < |procs| && procs[site.runner].alive && !procs[site.runner].cgroup.Step?
    && (forall q :: 0 <= q < |procs| ==> w.parents[q] <= q)
    && (forall q :: 0 <= q < |procs| ==> procs[q].session < |procs| && procs[q].group < |procs|)
  }

  ghost predicate Leads(site: Site, w: World) {
    && (forall t :: t in w.leaders ==>
         && t in site.tags && site.runner < w.leaders[t] < |w.cg.procs|
         && w.leaders[t] < |w.parents| && w.parents[w.leaders[t]] == site.runner
         && w.cg.procs[w.leaders[t]].session == w.cg.procs[w.leaders[t]].group == w.leaders[t])
    && (forall s, t :: s in w.leaders && t in w.leaders && w.leaders[s] == w.leaders[t] ==> s == t)
  }

  // Only a leader's tree is in its session, and only its session in its process group.
  ghost predicate Sessions(w: World) {
    forall t, q: nat :: t in w.leaders && q < |w.cg.procs| && w.cg.procs[q].session == w.leaders[t] ==>
      Under(w.parents, q, w.leaders[t])
  }

  ghost predicate Groups(w: World) {
    forall t, q: nat ::
      t in w.leaders && q < |w.cg.procs| && w.cg.procs[q].alive && w.cg.procs[q].group == w.leaders[t] ==>
        w.cg.procs[q].session == w.leaders[t]
  }

  // A leader that has not moved is alone; once it has, its whole tree is in the step's group.
  ghost predicate Boxes(w: World) {
    forall t, q: nat :: t in w.leaders && q < |w.cg.procs| && Under(w.parents, q, w.leaders[t]) ==> Boxed(w, t, q)
  }

  ghost predicate Boxed(w: World, t: string, q: nat)
    requires t in w.leaders && q < |w.cg.procs|
  {
    if Moved(w, t) then w.cg.procs[q].cgroup == Step(Sanitize(t)) else q == w.leaders[t]
  }

  // A step's group holds only that step's tree.
  ghost predicate Owned(w: World) {
    forall q: nat :: q < |w.cg.procs| && w.cg.procs[q].cgroup.Step? ==>
      exists t :: t in w.leaders && w.cg.procs[q].cgroup.dir == Sanitize(t) && Under(w.parents, q, w.leaders[t])
  }

  // A started step's directory stays until the step is finished.
  ghost predicate Housed(w: World) {
    forall t :: t in w.leaders && t !in w.finished ==> t in w.cg.made && Sanitize(t) in w.cg.dirs
  }

  ghost predicate NoneAlive(w: World, p: nat) {
    forall q: nat :: q < |w.cg.procs| && Under(w.parents, q, p) ==> !w.cg.procs[q].alive
  }

  ghost predicate Closing(w: World) {
    && w.finished <= w.swept <= w.waited <= w.leaders.Keys
    && (forall t :: t in w.waited ==> w.leaders[t] < |w.cg.procs| && !w.cg.procs[w.leaders[t]].alive)
  }

  ghost predicate Swept(w: World) {
    forall t :: t in w.swept && t in w.leaders ==> NoneAlive(w, w.leaders[t])
  }

  ghost predicate Inv(site: Site, w: World) {
    && Table(site, w) && Leads(site, w) && Sessions(w) && Groups(w) && Closing(w)
    && (w.cg.enabled ==> Boxes(w) && Owned(w) && Housed(w) && Swept(w))
  }

  // --- The tree of creations ---

  lemma {:induction false} UnderLe(parents: seq<nat>, q: nat, p: nat)
    requires Under(parents, q, p)
    ensures p <= q
  {
    if q != p {
      UnderLe(parents, parents[q], p);
    }
  }

  lemma {:induction false} UnderAppend(parents: seq<nat>, x: nat, q: nat, p: nat)
    requires q < |parents|
    ensures Under(parents + [x], q, p) == Under(parents, q, p)
    decreases q
  {
    assert (parents + [x])[q] == parents[q];
    if q != p && parents[q] < q {
      UnderAppend(parents, x, parents[q], p);
    }
  }

  lemma UnderNew(parents: seq<nat>, x: nat, p: nat)
    requires x < |parents|
    ensures Under(parents + [x], |parents|, p) <==> p == |parents| || Under(parents, x, p)
  {
    assert (parents + [x])[|parents|] == x;
    UnderAppend(parents, x, x, p);
  }

  lemma {:induction false} UnderBoth(parents: seq<nat>, q: nat, a: nat, b: nat)
    requires Under(parents, q, a) && Under(parents, q, b) && a <= b
    ensures Under(parents, b, a)
    decreases q
  {
    if q == b {
    } else if q == a {
      UnderLe(parents, q, b);
    } else {
      UnderBoth(parents, parents[q], a, b);
    }
  }

  // --- Steps that only kill ---

  ghost predicate OnlyKills(procs: seq<Proc>, procs': seq<Proc>) {
    |procs'| == |procs| &&
    forall i :: 0 <= i < |procs| ==> procs'[i] == procs[i] || procs'[i] == procs[i].(alive := false)
  }

  ghost predicate Killing(site: Site, w: World, w': World) {
    && w'.parents == w.parents && w'.leaders == w.leaders && w'.cg.enabled == w.cg.enabled
    && OnlyKills(w.cg.procs, w'.cg.procs)
    && site.runner < |w.cg.procs| && w'.cg.procs[site.runner] == w.cg.procs[site.runner]
  }

  lemma KillingTable(site: Site, w: World, w': World)
    requires Table(site, w) && Leads(site, w) && Sessions(w) && Groups(w) && Killing(site, w, w')
    ensures Table(site, w') && Leads(site, w') && Sessions(w') && Groups(w')
  {
  }

  lemma KillingBoxes(site: Site, w: World, w': World)
    requires Boxes(w) && Killing(site, w, w')
    ensures Boxes(w')
  {
    forall t, q: nat | t in w'.leaders && q < |w'.cg.procs| && Under(w'.parents, q, w'.leaders[t])
      ensures Boxed(w', t, q)
    {
      assert Moved(w', t) == Moved(w, t);
    }
  }

  lemma KillingOwned(site: Site, w: World, w': World)
    requires Owned(w) && Killing(site, w, w')
    ensures Owned(w')
  {
    forall q: nat | q < |w'.cg.procs| && w'.cg.procs[q].cgroup.Step?
      ensures exists t :: t in w'.leaders && w'.cg.procs[q].cgroup.dir == Sanitize(t)
                          && Under(w'.parents, q, w'.leaders[t])
    {
      assert w.cg.procs[q].cgroup.Step?;
    }
  }

  lemma KillingSwept(site: Site, w: World, w': World, p: nat)
    requires NoneAlive(w, p) && Killing(site, w, w')
    ensures NoneAlive(w', p)
  {
  }

  lemma KillingContents(site: Site, w: World, w': World)
    requires Boxes(w) && Owned(w) && Killing(site, w, w')
    requires forall t :: t in w'.swept && t in w.leaders ==> NoneAlive(w, w.leaders[t])
    ensures Boxes(w') && Owned(w') && Swept(w')
  {
    KillingBoxes(site, w, w');
    KillingOwned(site, w, w');
    forall t | t in w'.swept && t in w'.leaders ensures NoneAlive(w', w'.leaders[t]) {
      KillingSwept(site, w, w', w.leaders[t]);
    }
  }

  // --- Steps that add a process ---

  ghost predicate Adding(w: World, w': World, p: nat, child: Proc) {
    && p < |w.cg.procs| && |w.parents| == |w.cg.procs|
    && w'.parents == w.parents + [p] && w'.cg.procs == w.cg.procs + [child]
    && w'.cg.enabled == w.cg.enabled
  }

  ghost predicate Forking(w: World, w': World, p: nat) {
    p < |w.cg.procs| && w.cg.procs[p].alive && Adding(w, w', p, w.cg.procs[p]) && w'.leaders == w.leaders
  }

  lemma ForkTable(site: Site, w: World, p: nat, w': World)
    requires Table(site, w) && Leads(site, w) && Forking(w, w', p)
    ensures Table(site, w') && Leads(site, w')
  {
  }

  lemma ForkSessions(w: World, p: nat, w': World)
    requires Sessions(w) && Groups(w) && Forking(w, w', p)
    ensures Sessions(w') && Groups(w')
  {
    forall t, q: nat | t in w'.leaders && q < |w'.cg.procs| && w'.cg.procs[q].session == w'.leaders[t]
      ensures Under(w'.parents, q, w'.leaders[t])
    {
      if q < |w.parents| {
        UnderAppend(w.parents, p, q, w.leaders[t]);
      } else {
        UnderNew(w.parents, p, w.leaders[t]);
      }
    }
  }

  lemma ForkBoxes(site: Site, w: World, p: nat, w': World)
    requires Leads(site, w) && Boxes(w) && Forking(w, w', p) && !HeldBack(w, p) && w.cg.enabled
    ensures Boxes(w')
  {
    forall t, q: nat | t in w'.leaders && q < |w'.cg.procs| && Under(w'.parents, q, w'.leaders[t])
      ensures Boxed(w', t, q)
    {
      assert Moved(w', t) == Moved(w, t);
      if q < |w.parents| {
        UnderAppend(w.parents, p, q, w.leaders[t]);
      } else {
        UnderNew(w.parents, p, w.leaders[t]);
      }
    }
  }

  lemma ForkOwned(w: World, p: nat, w': World)
    requires Owned(w) && Forking(w, w', p)
    ensures Owned(w')
  {
    forall q: nat | q < |w'.cg.procs| && w'.cg.procs[q].cgroup.Step?
      ensures exists t :: t in w'.leaders && w'.cg.procs[q].cgroup.dir == Sanitize(t)
                          && Under(w'.parents, q, w'.leaders[t])
    {
      var at := if q < |w.parents| then q else p;
      var t :| t in w.leaders && w.cg.procs[at].cgroup.dir == Sanitize(t) && Under(w.parents, at, w.leaders[t]);
      if q < |w.parents| {
        UnderAppend(w.parents, p, q, w.leaders[t]);
      } else {
        UnderNew(w.parents, p, w.leaders[t]);
      }
    }
  }

  // No dead tree grows.
  lemma ForkSwept(w: World, p: nat, w': World, leader: nat)
    requires NoneAlive(w, leader) && Forking(w, w', p) && leader < |w.parents|
    ensures NoneAlive(w', leader)
  {
    forall q: nat | q < |w'.cg.procs| && Under(w'.parents, q, leader)
      ensures !w'.cg.procs[q].alive
    {
      if q < |w.parents| {
        UnderAppend(w.parents, p, q, leader);
      } else {
        UnderNew(w.parents, p, leader);
      }
    }
  }

  ghost predicate Spawning(site: Site, w: World, w': World, tag: string) {
    && tag in site.tags && tag !in w.leaders && site.runner < |w.cg.procs|
    && Adding(w, w', site.runner, Proc(|w.cg.procs|, |w.cg.procs|, w.cg.procs[site.runner].cgroup, true))
    && w'.leaders == w.leaders[tag := |w.cg.procs|]
  }

  lemma SpawnTable(site: Site, w: World, tag: string, w': World)
    requires Table(site, w) && Leads(site, w) && Spawning(site, w, w', tag)
    ensures Table(site, w') && Leads(site, w')
  {
  }

  lemma SpawnSessions(site: Site, w: World, tag: string, w': World)
    requires Table(site, w) && Sessions(w) && Spawning(site, w, w', tag)
    ensures Sessions(w')
  {
    forall t, q: nat | t in w'.leaders && q < |w'.cg.procs| && w'.cg.procs[q].session == w'.leaders[t]
      ensures Under(w'.parents, q, w'.leaders[t])
    {
      if q < |w.parents| && t != tag {
        UnderAppend(w.parents, site.runner, q, w.leaders[t]);
      }
    }
  }

  lemma SpawnGroups(site: Site, w: World, tag: string, w': World)
    requires Table(site, w) && Leads(site, w) && Groups(w) && Spawning(site, w, w', tag)
    ensures Groups(w')
  {
  }

  lemma SpawnUnder(site: Site, w: World, tag: string, w': World, t: string, q: nat)
    requires Table(site, w) && Leads(site, w) && Spawning(site, w, w', tag)
    requires t in w'.leaders && q < |w'.parents|
    ensures Under(w'.parents, q, w'.leaders[t]) <==>
      if t == tag then q == |w.parents| else q < |w.parents| && Under(w.parents, q, w.leaders[t])
  {
    var leader := w'.leaders[t];
    if q < |w.parents| {
      UnderAppend(w.parents, site.runner, q, leader);
      if Under(w.parents, q, leader) {
        UnderLe(w.parents, q, leader);
      }
    } else {
      UnderNew(w.parents, site.runner, leader);
      if Under(w.parents, site.runner, leader) {
        UnderLe(w.parents, site.runner, leader);
      }
    }
  }

  lemma SpawnBoxes(site: Site, w: World, tag: string, w': World)
    requires Table(site, w) && Leads(site, w) && Boxes(w) && Spawning(site, w, w', tag)
    ensures Boxes(w')
  {
    forall t, q: nat | t in w'.leaders && q < |w'.cg.procs| && Under(w'.parents, q, w'.leaders[t])
      ensures Boxed(w', t, q)
    {
      SpawnUnder(site, w, tag, w', t, q);
    }
  }

  lemma SpawnOwned(site: Site, w: World, tag: string, w': World)
    requires Table(site, w) && Leads(site, w) && Owned(w) && Spawning(site, w, w', tag)
    ensures Owned(w')
  {
    forall q: nat | q < |w'.cg.procs| && w'.cg.procs[q].cgroup.Step?
      ensures exists t :: t in w'.leaders && w'.cg.procs[q].cgroup.dir == Sanitize(t)
                          && Under(w'.parents, q, w'.leaders[t])
    {
      assert q < |w.parents| && w.cg.procs[q].cgroup.Step?;
      var t :| t in w.leaders && w.cg.procs[q].cgroup.dir == Sanitize(t) && Under(w.parents, q, w.leaders[t]);
      SpawnUnder(site, w, tag, w', t, q);
    }
  }

  lemma SpawnSwept(site: Site, w: World, tag: string, w': World, t: string)
    requires Table(site, w) && Leads(site, w) && Spawning(site, w, w', tag)
    requires t in w.leaders && NoneAlive(w, w.leaders[t])
    ensures NoneAlive(w', w'.leaders[t])
  {
    forall q: nat | q < |w'.cg.procs| && Under(w'.parents, q, w'.leaders[t])
      ensures !w'.cg.procs[q].alive
    {
      SpawnUnder(site, w, tag, w', t, q);
    }
  }

  // --- Steps that change one live process's session, group or control group ---

  ghost predicate Changing(w: World, w': World, p: nat, to: Proc) {
    && p < |w.cg.procs| && w.cg.procs[p].alive && to.alive
    && w' == With(w, w.cg.procs[p := to])
  }

  ghost predicate MaySetsid(site: Site, w: World, p: nat) {
    && p != site.runner
    && forall q :: 0 <= q < |w.cg.procs| && w.cg.procs[q].alive ==> w.cg.procs[q].group != p
  }

  lemma SetsidTable(site: Site, w: World, p: nat, w': World)
    requires Table(site, w) && Leads(site, w) && MaySetsid(site, w, p)
    requires p < |w.cg.procs| && Changing(w, w', p, w.cg.procs[p].(session := p, group := p))
    ensures Table(site, w') && Leads(site, w')
  {
  }

  lemma SetsidSessions(site: Site, w: World, p: nat, w': World)
    requires Leads(site, w) && Sessions(w) && Groups(w) && MaySetsid(site, w, p)
    requires p < |w.cg.procs| && Changing(w, w', p, w.cg.procs[p].(session := p, group := p))
    ensures Sessions(w') && Groups(w')
  {
  }

  ghost predicate MaySetpgid(site: Site, w: World, p: nat, group: nat) {
    && p != site.runner && p < |w.cg.procs| && w.cg.procs[p].session != p
    && (group == p || exists q :: 0 <= q < |w.cg.procs| && w.cg.procs[q].alive && w.cg.procs[q].group == group
                                  && w.cg.procs[q].session == w.cg.procs[p].session)
  }

  lemma SetpgidTable(site: Site, w: World, p: nat, group: nat, w': World)
    requires Table(site, w) && Leads(site, w) && MaySetpgid(site, w, p, group)
    requires Changing(w, w', p, w.cg.procs[p].(group := group))
    ensures Table(site, w') && Leads(site, w')
  {
  }

  lemma SetpgidSessions(site: Site, w: World, p: nat, group: nat, w': World)
    requires Leads(site, w) && Sessions(w) && Groups(w) && MaySetpgid(site, w, p, group)
    requires Changing(w, w', p, w.cg.procs[p].(group := group))
    ensures Sessions(w') && Groups(w')
  {
  }

  lemma SameCgroup(w: World, w': World, p: nat, to: Proc)
    requires Boxes(w) && Owned(w) && Swept(w) && Changing(w, w', p, to) && to.cgroup == w.cg.procs[p].cgroup
    ensures Boxes(w') && Owned(w') && Swept(w')
  {
    forall t, q: nat | t in w'.leaders && q < |w'.cg.procs| && Under(w'.parents, q, w'.leaders[t])
      ensures Boxed(w', t, q)
    {
      assert Moved(w', t) == Moved(w, t);
    }
    forall q: nat | q < |w'.cg.procs| && w'.cg.procs[q].cgroup.Step?
      ensures exists t :: t in w'.leaders && w'.cg.procs[q].cgroup.dir == Sanitize(t)
                          && Under(w'.parents, q, w'.leaders[t])
    {
      assert w.cg.procs[q].cgroup.Step?;
    }
    forall t | t in w'.swept && t in w'.leaders ensures NoneAlive(w', w'.leaders[t]) {
      assert NoneAlive(w, w.leaders[t]);
    }
  }

  lemma MoveTable(site: Site, w: World, p: nat, w': World, c: Cgroup)
    requires Table(site, w) && Leads(site, w) && p != site.runner
    requires p < |w.cg.procs| && Changing(w, w', p, w.cg.procs[p].(cgroup := c))
    ensures Table(site, w') && Leads(site, w')
  {
  }

  lemma MoveSessions(w: World, p: nat, w': World, c: Cgroup)
    requires Sessions(w) && Groups(w)
    requires p < |w.cg.procs| && Changing(w, w', p, w.cg.procs[p].(cgroup := c))
    ensures Sessions(w') && Groups(w')
  {
  }

  // The move: the leader is alone, so its whole tree moves with it.
  lemma MoveBoxes(site: Site, w: World, tag: string, w': World)
    requires Leads(site, w) && Boxes(w) && tag in w.leaders && !Moved(w, tag)
    requires w.leaders[tag] < |w.cg.procs|
    requires Changing(w, w', w.leaders[tag], w.cg.procs[w.leaders[tag]].(cgroup := Step(Sanitize(tag))))
    requires forall t :: t in w.leaders && t != tag ==> !Under(w.parents, w.leaders[tag], w.leaders[t])
    ensures Boxes(w')
  {
    forall t, q: nat | t in w'.leaders && q < |w'.cg.procs| && Under(w'.parents, q, w'.leaders[t])
      ensures Boxed(w', t, q)
    {
      if t != tag {
        assert Moved(w', t) == Moved(w, t);
      }
    }
  }

  lemma MoveOwned(w: World, tag: string, w': World)
    requires Owned(w) && tag in w.leaders && w.leaders[tag] < |w.cg.procs|
    requires Changing(w, w', w.leaders[tag], w.cg.procs[w.leaders[tag]].(cgroup := Step(Sanitize(tag))))
    ensures Owned(w')
  {
    forall q: nat | q < |w'.cg.procs| && w'.cg.procs[q].cgroup.Step?
      ensures exists t :: t in w'.leaders && w'.cg.procs[q].cgroup.dir == Sanitize(t)
                          && Under(w'.parents, q, w'.leaders[t])
    {
      if q == w.leaders[tag] {
        assert Under(w'.parents, q, w'.leaders[tag]);
      } else {
        assert w.cg.procs[q].cgroup.Step?;
      }
    }
  }

  lemma MoveSwept(w: World, p: nat, to: Proc, w': World)
    requires Swept(w) && Changing(w, w', p, to)
    ensures Swept(w')
  {
    forall t | t in w'.swept && t in w'.leaders ensures NoneAlive(w', w'.leaders[t]) {
      assert NoneAlive(w, w.leaders[t]);
    }
  }

  lemma LeadersApart(site: Site, w: World, s: string, t: string)
    requires Leads(site, w) && s in w.leaders && t in w.leaders && s != t
    ensures !Under(w.parents, w.leaders[s], w.leaders[t])
  {
    if Under(w.parents, w.leaders[s], w.leaders[t]) {
      UnderLe(w.parents, site.runner, w.leaders[t]);
    }
  }

  // Trees of different steps have no process in common.
  lemma TreesApart(site: Site, w: World, s: string, t: string, q: nat)
    requires Leads(site, w) && s in w.leaders && t in w.leaders && s != t && Under(w.parents, q, w.leaders[s])
    ensures !Under(w.parents, q, w.leaders[t])
  {
    LeadersApart(site, w, s, t);
    LeadersApart(site, w, t, s);
    if Under(w.parents, q, w.leaders[t]) {
      if w.leaders[s] <= w.leaders[t] {
        UnderBoth(w.parents, q, w.leaders[s], w.leaders[t]);
      } else {
        UnderBoth(w.parents, q, w.leaders[t], w.leaders[s]);
      }
    }
  }

  // --- Every event keeps the invariant ---

  lemma KillingInv(site: Site, w: World, w': World)
    requires Inv(site, w) && Killing(site, w, w')
    requires w'.waited == w.waited && w'.swept == w.swept && w'.finished == w.finished
    requires w.cg.enabled ==> Housed(w')
    ensures Inv(site, w')
  {
    KillingTable(site, w, w');
    if w.cg.enabled {
      KillingContents(site, w, w');
    }
  }

  lemma ForkInv(site: Site, w: World, p: nat, w': World)
    requires Inv(site, w) && Next(site, w, Fork(p), w')
    ensures Inv(site, w')
  {
    ForkTable(site, w, p, w');
    ForkSessions(w, p, w');
    if w.cg.enabled {
      ForkBoxes(site, w, p, w');
      ForkOwned(w, p, w');
      forall t | t in w'.swept && t in w'.leaders ensures NoneAlive(w', w'.leaders[t]) {
        ForkSwept(w, p, w', w.leaders[t]);
      }
    }
  }

  lemma SpawnInv(site: Site, w: World, tag: string, w': World)
    requires Inv(site, w) && Next(site, w, Spawn(tag), w')
    ensures Inv(site, w')
  {
    SpawnTable(site, w, tag, w');
    SpawnSessions(site, w, tag, w');
    SpawnGroups(site, w, tag, w');
    if w.cg.enabled {
      SpawnBoxes(site, w, tag, w');
      SpawnOwned(site, w, tag, w');
      forall t | t in w'.swept && t in w'.leaders ensures NoneAlive(w', w'.leaders[t]) {
        SpawnSwept(site, w, tag, w', t);
      }
    }
  }

  lemma SetsidInv(site: Site, w: World, p: nat, w': World)
    requires Inv(site, w) && MaySetsid(site, w, p)
    requires p < |w.cg.procs| && Changing(w, w', p, w.cg.procs[p].(session := p, group := p))
    ensures Inv(site, w')
  {
    SetsidTable(site, w, p, w');
    SetsidSessions(site, w, p, w');
    if w.cg.enabled {
      SameCgroup(w, w', p, w'.cg.procs[p]);
    }
  }

  lemma SetpgidInv(site: Site, w: World, p: nat, group: nat, w': World)
    requires Inv(site, w) && MaySetpgid(site, w, p, group)
    requires p < |w.cg.procs| && Changing(w, w', p, w.cg.procs[p].(group := group))
    ensures Inv(site, w')
  {
    SetpgidTable(site, w, p, group, w');
    SetpgidSessions(site, w, p, group, w');
    if w.cg.enabled {
      SameCgroup(w, w', p, w'.cg.procs[p]);
    }
  }

  lemma MoveInv(site: Site, w: World, tag: string, w': World)
    requires Inv(site, w) && Next(site, w, SelfMove(tag), w')
    ensures Inv(site, w')
  {
    var n := w.leaders[tag];
    MoveTable(site, w, n, w', Step(Sanitize(tag)));
    MoveSessions(w, n, w', Step(Sanitize(tag)));
    forall t | t in w.leaders && t != tag ensures !Under(w.parents, n, w.leaders[t]) {
      LeadersApart(site, w, tag, t);
    }
    MoveBoxes(site, w, tag, w');
    MoveOwned(w, tag, w');
    MoveSwept(w, n, w'.cg.procs[n], w');
  }

  lemma KilledIsKilling(site: Site, w: World, tag: string)
    requires Table(site, w)
    ensures Killing(site, w, w.(cg := Killed(w.cg, tag)))
  {
  }

  lemma KilledGroupIsKilling(site: Site, w: World, tag: string)
    requires Table(site, w) && tag in w.leaders
    ensures Killing(site, w, KilledGroup(site, w, tag))
  {
  }

  // Once the leader is dead or has moved, cgroup.kill leaves nothing of the tree alive.
  lemma KillEmpties(site: Site, w: World, tag: string)
    requires Inv(site, w) && w.cg.enabled && tag in w.leaders && tag !in w.finished
    requires Moved(w, tag) || !w.cg.procs[w.leaders[tag]].alive
    ensures NoneAlive(w.(cg := Killed(w.cg, tag)), w.leaders[tag])
  {
    var w' := w.(cg := Killed(w.cg, tag));
    forall q: nat | q < |w'.cg.procs| && Under(w'.parents, q, w.leaders[tag])
      ensures !w'.cg.procs[q].alive
    {
      assert Boxed(w, tag, q);
    }
  }

  lemma SweepInv(site: Site, w: World, tag: string, w': World)
    requires Inv(site, w) && Next(site, w, Sweep(tag), w')
    ensures Inv(site, w')
  {
    var killed := w.(cg := Killed(w.cg, tag));
    KilledIsKilling(site, w, tag);
    KillingInv(site, w, killed);
    if w.cg.enabled {
      KillEmpties(site, w, tag);
    }
    MarkSwept(site, killed, tag);
  }

  lemma MarkSwept(site: Site, w: World, tag: string)
    requires Inv(site, w) && tag in w.waited && tag in w.leaders
    requires w.cg.enabled ==> NoneAlive(w, w.leaders[tag])
    ensures Inv(site, w.(swept := w.swept + {tag}))
  {
    var w' := w.(swept := w.swept + {tag});
    KillingTable(site, w, w');
    if w.cg.enabled {
      KillingContents(site, w, w');
    }
  }

  lemma MarkFinished(site: Site, w: World, tag: string)
    requires NoClash(site) && Inv(site, w) && tag in w.swept && tag in w.leaders
    ensures Inv(site, w.(cg := Cleaned(w.cg, tag), finished := w.finished + {tag}))
  {
    var w' := w.(cg := Cleaned(w.cg, tag), finished := w.finished + {tag});
    KillingTable(site, w, w');
    if w.cg.enabled {
      KillingContents(site, w, w');
      CleanedHoused(site, w, tag);
    }
  }

  lemma CleanedHoused(site: Site, w: World, tag: string)
    requires NoClash(site) && Leads(site, w) && Housed(w) && tag in w.leaders
    ensures Housed(w.(cg := Cleaned(w.cg, tag), finished := w.finished + {tag}))
  {
  }

  lemma FinishInv(site: Site, w: World, tag: string, w': World)
    requires NoClash(site) && Inv(site, w) && Next(site, w, Finish(tag), w')
    ensures Inv(site, w')
  {
    KilledGroupIsKilling(site, w, tag);
    KillingInv(site, w, KilledGroup(site, w, tag));
    MarkFinished(site, KilledGroup(site, w, tag), tag);
  }

  lemma CollectInv(site: Site, w: World, tag: string, w': World)
    requires Inv(site, w) && Next(site, w, Collect(tag), w')
    ensures Inv(site, w')
  {
    KillingTable(site, w, w');
    if w.cg.enabled {
      KillingContents(site, w, w');
    }
  }

  lemma ReapInv(site: Site, w: World, e: Event, w': World)
    requires Inv(site, w) && Next(site, w, e, w') && (e.CgroupKill? || e.Killpg?)
    ensures Inv(site, w')
  {
    if e.CgroupKill? {
      KilledIsKilling(site, w, e.tag);
    } else {
      KilledGroupIsKilling(site, w, e.tag);
    }
    KillingInv(site, w, w');
  }

  lemma ProcessInv(site: Site, w: World, e: Event, w': World)
    requires Inv(site, w) && Next(site, w, e, w')
    requires e.SelfMove? || e.Fork? || e.Setsid? || e.Setpgid? || e.Exit?
    ensures Inv(site, w')
  {
    match e
    case SelfMove(tag) => MoveInv(site, w, tag, w');
    case Fork(p) => ForkInv(site, w, p, w');
    case Setsid(p) => SetsidInv(site, w, p, w');
    case Setpgid(p, group) => SetpgidInv(site, w, p, group, w');
    case Exit(_) => KillingInv(site, w, w');
  }

  lemma KillAllInv(site: Site, w: World, w': World)
    requires Inv(site, w) && Next(site, w, KillAll, w')
    ensures Inv(site, w')
  {
    KillingInv(site, w, w');
  }

  lemma ClosingInv(site: Site, w: World, e: Event, w': World)
    requires NoClash(site) && Inv(site, w) && Next(site, w, e, w')
    requires e.Collect? || e.Sweep? || e.Finish? || e.KillAll?
    ensures Inv(site, w')
  {
    match e
    case Collect(tag) => CollectInv(site, w, tag, w');
    case Sweep(tag) => SweepInv(site, w, tag, w');
    case Finish(tag) => FinishInv(site, w, tag, w');
    case KillAll => KillAllInv(site, w, w');
  }

  lemma NextInv(site: Site, w: World, e: Event, w': World)
    requires NoClash(site) && Inv(site, w) && Next(site, w, e, w')
    ensures Inv(site, w')
  {
    if e.Spawn? {
      SpawnInv(site, w, e.tag, w');
    } else if e.CgroupKill? || e.Killpg? {
      ReapInv(site, w, e, w');
    } else if e.SelfMove? || e.Fork? || e.Setsid? || e.Setpgid? || e.Exit? {
      ProcessInv(site, w, e, w');
    } else {
      ClosingInv(site, w, e, w');
    }
  }
}
