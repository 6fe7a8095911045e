// The per-step control groups of a validate run: the child directory of a step, cgroup.kill,
// rmdir, and the object that manages them. A kill is one atomic step on the process table.
module Cgroups {
  // A process's place below the delegated scope.
  datatype Cgroup = Root | Supervisor | Step(dir: string)

  datatype Proc = Proc(session: nat, group: nat, cgroup: Cgroup, alive: bool)

  // Whether per-step groups are usable, the tags prepared, the step directories that exist, and
  // the process table (a pid is its index).
  datatype View = View(enabled: bool, made: set<string>, dirs: set<string>, procs: seq<Proc>)

  predicate Allowed(c: char) {
    'A' <= c <= 'Z' || 'a' <= c <= 'z' || '0' <= c <= '9' || c == '.' || c == '_' || c == '-'
  }

  function Safe(c: char): char {
    if Allowed(c) then c else '_'
  }

  function Sanitize(tag: string): string {
    "step-" + seq(|tag|, i requires 0 <= i < |tag| => Safe(tag[i]))
  }

  // A character that becomes, or is, an underscore.
  predicate Blurred(c: char) {
    c == '_' || !Allowed(c)
  }

  // A directory's name is marked as a step's, and spells the tag as far as it may.
  lemma SanitizeFormat(tag: string)
    ensures var d := Sanitize(tag);
      && |d| == 5 + |tag| && d[..5] == "step-"
      && forall i :: 0 <= i < |tag| ==> if Blurred(tag[i]) then d[5 + i] == '_' else d[5 + i] == tag[i]
  {
  }

  // Two tags share a directory exactly when they differ only between characters both replaced
  // by, or equal to, an underscore.
  lemma SanitizeClash(a: string, b: string)
    ensures Sanitize(a) == Sanitize(b) <==>
      |a| == |b| && forall i :: 0 <= i < |a| ==> a[i] == b[i] || (Blurred(a[i]) && Blurred(b[i]))
  {
    var x, y := Sanitize(a), Sanitize(b);
    SanitizeFormat(a);
    SanitizeFormat(b);
    if x == y {
      forall i | 0 <= i < |a| ensures a[i] == b[i] || (Blurred(a[i]) && Blurred(b[i])) {
        assert x[5 + i] == y[5 + i];
      }
    } else if |a| == |b| {
      var k :| 0 <= k < |x| && x[k] != y[k];
      assert k >= 5 && (x[5 + (k - 5)] != y[5 + (k - 5)]);
    }
  }

  // No two tags spelled with the allowed characters share one.
  lemma SanitizeInjective(a: string, b: string)
    requires forall c :: c in a || c in b ==> Allowed(c)
    ensures Sanitize(a) == Sanitize(b) <==> a == b
  {
    SanitizeClash(a, b);
    if Sanitize(a) == Sanitize(b) {
      forall i | 0 <= i < |a| ensures a[i] == b[i] {
        assert a[i] in a && b[i] in b;
      }
    }
  }

  // cgroup.kill written in each of the directories.
  function KillDirs(procs: seq<Proc>, dirs: set<string>): (r: seq<Proc>)
    ensures |r| == |procs|
    ensures forall i :: 0 <= i < |r| ==>
      r[i] == if procs[i].cgroup.Step? && procs[i].cgroup.dir in dirs then procs[i].(alive := false) else procs[i]
  {
    seq(|procs|, i requires 0 <= i < |procs| =>
      if procs[i].cgroup.Step? && procs[i].cgroup.dir in dirs then procs[i].(alive := false) else procs[i])
  }

  // killpg with SIGKILL.
  function KillGroup(procs: seq<Proc>, group: nat): (r: seq<Proc>)
    ensures |r| == |procs|
    ensures forall i :: 0 <= i < |r| ==>
      r[i] == if procs[i].group == group then procs[i].(alive := false) else procs[i]
  {
    seq(|procs|, i requires 0 <= i < |procs| =>
      if procs[i].group == group then procs[i].(alive := false) else procs[i])
  }

  // --- Draining the scope root ---

  // What can happen between reading the root's processes and moving them.
  datatype Meanwhile = Forked(p: nat) | Exited(p: nat)

  function Play(procs: seq<Proc>, ms: seq<Meanwhile>): (r: seq<Proc>)
    ensures |procs| <= |r|
    ensures forall i :: 0 <= i < |procs| ==> r[i] == procs[i] || r[i] == procs[i].(alive := false)
    decreases |ms|
  {
    if ms == [] then procs
    else
      var m := ms[0];
      if m.p >= |procs| || !procs[m.p].alive then Play(procs, ms[1..])
      else Play(if m.Forked? then procs + [procs[m.p]] else procs[m.p := procs[m.p].(alive := false)], ms[1..])
  }

  predicate InRoot(procs: seq<Proc>, i: nat) {
    i < |procs| && procs[i].alive && procs[i].cgroup.Root?
  }

  // cgroup.procs of the root
  function RootPids(procs: seq<Proc>): set<nat> {
    set i: nat | i < |procs| && InRoot(procs, i)
  }

  // The pids written to the supervisor's group; the write fails for one that has exited.
  function MovedPids(procs: seq<Proc>, pids: set<nat>): (r: seq<Proc>)
    ensures |r| == |procs|
    ensures forall i :: 0 <= i < |r| ==>
      r[i] == if i in pids && procs[i].alive then procs[i].(cgroup := Supervisor) else procs[i]
  {
    seq(|procs|, i requires 0 <= i < |procs| =>
      if i in pids && procs[i].alive then procs[i].(cgroup := Supervisor) else procs[i])
  }

  function Round(procs: seq<Proc>, ms: seq<Meanwhile>): seq<Proc> {
    MovedPids(Play(procs, ms), RootPids(procs))
  }

  // One round for each entry of `mss`, unless one finds no process.
  function Drained(procs: seq<Proc>, mss: seq<seq<Meanwhile>>): seq<Proc>
    decreases |mss|
  {
    if mss == [] || RootPids(procs) == {} then procs else Drained(Round(procs, mss[0]), mss[1..])
  }

  // The table as round k reads it.
  function BeforeRound(procs: seq<Proc>, mss: seq<seq<Meanwhile>>, k: nat): seq<Proc>
    requires k <= |mss|
    decreases k
  {
    if k == 0 then procs else BeforeRound(Round(procs, mss[0]), mss[1..], k - 1)
  }

  // Some process born in the root while the round was moving the others is still there.
  predicate LateFork(procs: seq<Proc>, ms: seq<Meanwhile>) {
    exists i :: |procs| <= i < |Play(procs, ms)| && InRoot(Play(procs, ms), i)
  }

  lemma RoundLeaves(procs: seq<Proc>, ms: seq<Meanwhile>)
    ensures RootPids(Round(procs, ms)) == {} <==> !LateFork(procs, ms)
  {
    var mid, after := Play(procs, ms), Round(procs, ms);
    forall i: nat | i < |after| ensures InRoot(after, i) <==> i >= |procs| && InRoot(mid, i) {
      assert i < |procs| && InRoot(mid, i) ==> i in RootPids(procs);
    }
    if LateFork(procs, ms) {
      var i: nat :| |procs| <= i < |mid| && InRoot(mid, i);
      assert i in RootPids(after);
    }
  }

  // The drain leaves the root empty exactly when it was empty, or in one of the rounds no process
  // of the root left a child behind.
  lemma {:induction false} DrainedExactly(procs: seq<Proc>, mss: seq<seq<Meanwhile>>)
    ensures RootPids(Drained(procs, mss)) == {} <==>
      RootPids(procs) == {} || exists k :: 0 <= k < |mss| && !LateFork(BeforeRound(procs, mss, k), mss[k])
    decreases |mss|
  {
    if mss != [] && RootPids(procs) != {} {
      var next, rest := Round(procs, mss[0]), mss[1..];
      DrainedExactly(next, rest);
      RoundLeaves(procs, mss[0]);
      if k :| 0 <= k < |mss| && !LateFork(BeforeRound(procs, mss, k), mss[k]) {
        if k > 0 {
          assert BeforeRound(next, rest, k - 1) == BeforeRound(procs, mss, k) && rest[k - 1] == mss[k];
        }
      }
      if k :| 0 <= k < |rest| && !LateFork(BeforeRound(next, rest, k), rest[k]) {
        assert BeforeRound(procs, mss, k + 1) == BeforeRound(next, rest, k) && mss[k + 1] == rest[k];
      }
      assert BeforeRound(procs, mss, 0) == procs;
    }
  }

  // --- How many forks the drain withstands ---

  function Forks(ms: seq<Meanwhile>): nat {
    if ms == [] then 0 else (if ms[0].Forked? then 1 else 0) + Forks(ms[1..])
  }

  function ForksIn(mss: seq<seq<Meanwhile>>): nat {
    if mss == [] then 0 else Forks(mss[0]) + ForksIn(mss[1..])
  }

  lemma {:induction false} NoForkNoChild(procs: seq<Proc>, ms: seq<Meanwhile>)
    requires Forks(ms) == 0
    ensures |Play(procs, ms)| == |procs|
    decreases |ms|
  {
    if ms != [] {
      var m := ms[0];
      if m.p >= |procs| || !procs[m.p].alive {
        NoForkNoChild(procs, ms[1..]);
      } else {
        NoForkNoChild(procs[m.p := procs[m.p].(alive := false)], ms[1..]);
      }
    }
  }

  lemma {:induction false} FewForksDrain(procs: seq<Proc>, mss: seq<seq<Meanwhile>>)
    requires ForksIn(mss) < |mss|
    ensures RootPids(Drained(procs, mss)) == {}
    decreases |mss|
  {
    if RootPids(procs) != {} {
      if Forks(mss[0]) == 0 {
        NoForkNoChild(procs, mss[0]);
        RoundLeaves(procs, mss[0]);
      } else {
        FewForksDrain(Round(procs, mss[0]), mss[1..]);
      }
    }
  }

  lemma ForkIsLate(procs: seq<Proc>, p: nat)
    requires InRoot(procs, p)
    ensures Forks([Forked(p)]) == 1 && RootPids(Round(procs, [Forked(p)])) != {}
  {
    var ms := [Forked(p)];
    assert ms[1..] == [];
    assert Play(procs, ms) == procs + [procs[p]];
    assert InRoot(Play(procs, ms), |procs|);
    RoundLeaves(procs, ms);
  }

  // One fork a round, always after the read, keeps the root busy.
  lemma {:induction false} AlwaysForking(procs: seq<Proc>, n: nat) returns (mss: seq<seq<Meanwhile>>)
    requires RootPids(procs) != {}
    ensures |mss| == n && ForksIn(mss) == n && RootPids(Drained(procs, mss)) != {}
    decreases n
  {
    mss := [];
    if n > 0 {
      var p :| p in RootPids(procs);
      ForkIsLate(procs, p);
      var rest := AlwaysForking(Round(procs, [Forked(p)]), n - 1);
      mss := [[Forked(p)]] + rest;
      assert mss[1..] == rest;
    }
  }

  ghost predicate AlwaysDrains(procs: seq<Proc>, rounds: nat, forks: nat) {
    forall mss :: |mss| == rounds && ForksIn(mss) <= forks ==> RootPids(Drained(procs, mss)) == {}
  }

  // Whatever happens meanwhile, the drain empties the root exactly when it is empty to begin with
  // or fewer forks can happen than there are rounds.
  lemma AlwaysDrainsExactly(procs: seq<Proc>, rounds: nat, forks: nat)
    ensures AlwaysDrains(procs, rounds, forks) <==> RootPids(procs) == {} || forks < rounds
  {
    if RootPids(procs) != {} && forks >= rounds {
      var mss := AlwaysForking(procs, rounds);
    } else if RootPids(procs) != {} {
      forall mss | |mss| == rounds && ForksIn(mss) <= forks ensures RootPids(Drained(procs, mss)) == {} {
        FewForksDrain(procs, mss);
      }
    }
  }

  // Draining only ever moves a process from the root to the supervisor's group.
  lemma {:induction false} DrainedOnlyMoves(procs: seq<Proc>, mss: seq<seq<Meanwhile>>, i: nat)
    requires i < |procs|
    ensures var r := Drained(procs, mss);
      i < |r| && r[i].session == procs[i].session && r[i].group == procs[i].group && (r[i].alive ==> procs[i].alive) &&
      (r[i].cgroup == procs[i].cgroup || (procs[i].cgroup.Root? && r[i].cgroup.Supervisor?))
    decreases |mss|
  {
    if mss != [] && RootPids(procs) != {} {
      DrainedOnlyMoves(Round(procs, mss[0]), mss[1..], i);
      assert i in RootPids(procs) ==> InRoot(procs, i);
    }
  }

  predicate Busy(procs: seq<Proc>, dir: string) {
    exists i :: 0 <= i < |procs| && procs[i].alive && procs[i].cgroup == Step(dir)
  }

  // `ok` is whether the directory could be made.
  function Prepared(v: View, tag: string, ok: bool): View {
    if v.enabled && ok then v.(made := v.made + {tag}, dirs := v.dirs + {Sanitize(tag)}) else v
  }

  predicate Killable(v: View, tag: string) {
    v.enabled && tag in v.made && Sanitize(tag) in v.dirs
  }

  function Killed(v: View, tag: string): View {
    if Killable(v, tag) then v.(procs := KillDirs(v.procs, {Sanitize(tag)})) else v
  }

  function Cleaned(v: View, tag: string): View {
    if !v.enabled || tag !in v.made then v
    else v.(made := v.made - {tag},
            dirs := if Busy(v.procs, Sanitize(tag)) then v.dirs else v.dirs - {Sanitize(tag)})
  }

  function KilledAll(v: View): View {
    if v.enabled then v.(procs := KillDirs(v.procs, v.dirs), dirs := {}) else v
  }

  lemma KillDirsMore(procs: seq<Proc>, done: set<string>, dir: string)
    ensures KillDirs(KillDirs(procs, done), {dir}) == KillDirs(procs, done + {dir})
  {
  }

  lemma KillDirsNone(procs: seq<Proc>)
    ensures KillDirs(procs, {}) == procs
  {
  }

  // --- A step's directory over its life ---

  // Preparing makes just this step killable, and every other that shares its directory.
  lemma PreparedExactly(v: View, tag: string, ok: bool, t: string)
    ensures var w := Prepared(v, tag, ok);
      && w.procs == v.procs && w.enabled == v.enabled
      && (Killable(w, t) <==>
            Killable(v, t) || (v.enabled && ok && (t == tag || (t in v.made && Sanitize(t) == Sanitize(tag)))))
  {
  }

  // A kill reaches exactly the live processes in the step's group, if the step is killable.
  lemma KilledExactly(v: View, tag: string, q: nat)
    requires q < |v.procs|
    ensures var w := Killed(v, tag);
      && w.made == v.made && w.dirs == v.dirs && |w.procs| == |v.procs|
      && (w.procs[q].alive <==> v.procs[q].alive && !(Killable(v, tag) && v.procs[q].cgroup == Step(Sanitize(tag))))
      && w.procs[q].cgroup == v.procs[q].cgroup
  {
  }

  // A clean-up forgets the tag, and takes the directory away exactly when no live process is in it.
  lemma CleanedExactly(v: View, tag: string, d: string)
    requires v.enabled && tag in v.made
    ensures var w := Cleaned(v, tag);
      && w.made == v.made - {tag} && w.procs == v.procs
      && (d in w.dirs <==> d in v.dirs && (d == Sanitize(tag) ==>
            exists i :: 0 <= i < |v.procs| && v.procs[i].alive && v.procs[i].cgroup == Step(d)))
  {
  }

  datatype Call =
    | Prepare(tag: string, ok: bool)
    | KillStep(tag: string)
    | CleanUp(tag: string)
    | Kernel(procs: seq<Proc>)

  // One call, or whatever the processes do in between.
  function After(v: View, c: Call): View {
    match c
    case Prepare(tag, ok) => Prepared(v, tag, ok)
    case KillStep(tag) => Killed(v, tag)
    case CleanUp(tag) => Cleaned(v, tag)
    case Kernel(procs) => v.(procs := procs)
  }

  ghost predicate Calls(vs: seq<View>, cs: seq<Call>) {
    && |vs| == |cs| + 1 && vs[0].made == {} && vs[0].dirs == {}
    && forall i :: 0 <= i < |cs| ==> vs[i + 1] == After(vs[i], cs[i])
  }

  // No clean-up finds its group busy.
  ghost predicate CleanedIdle(vs: seq<View>, cs: seq<Call>)
    requires |vs| == |cs| + 1
  {
    forall i :: 0 <= i < |cs| && cs[i].CleanUp? ==> !Busy(vs[i].procs, Sanitize(cs[i].tag))
  }

  ghost predicate OnlyPrepared(v: View) {
    forall d :: d in v.dirs ==> exists t :: t in v.made && Sanitize(t) == d
  }

  lemma AfterOnlyPrepared(v: View, c: Call)
    requires OnlyPrepared(v) && (c.CleanUp? ==> !Busy(v.procs, Sanitize(c.tag)))
    ensures OnlyPrepared(After(v, c))
  {
    var w := After(v, c);
    forall d | d in w.dirs ensures exists t :: t in w.made && Sanitize(t) == d {
      if d in v.dirs {
        var t :| t in v.made && Sanitize(t) == d;
        assert t in w.made;
      } else {
        assert Sanitize(c.tag) == d;
      }
    }
  }

  lemma {:induction false} CallsOnlyPrepared(vs: seq<View>, cs: seq<Call>, i: nat)
    requires Calls(vs, cs) && CleanedIdle(vs, cs) && i < |vs|
    ensures OnlyPrepared(vs[i])
  {
    if i > 0 {
      CallsOnlyPrepared(vs, cs, i - 1);
      AfterOnlyPrepared(vs[i - 1], cs[i - 1]);
    }
  }

  // When every prepared step has been cleaned up idle, nothing remains to be killed at the end.
  lemma NothingRemains(vs: seq<View>, cs: seq<Call>, i: nat)
    requires Calls(vs, cs) && CleanedIdle(vs, cs) && i < |vs| && vs[i].made == {}
    ensures vs[i].dirs == {} && KilledAll(vs[i]) == vs[i]
  {
    CallsOnlyPrepared(vs, cs, i);
    KillDirsNone(vs[i].procs);
  }

  // Killing what remains empties every step group and touches nothing else.
  lemma KilledAllEmpties(v: View, q: nat)
    requires v.enabled && q < |v.procs|
    ensures var w := KilledAll(v);
      && (forall d :: d in v.dirs ==> !Busy(w.procs, d))
      && (!(v.procs[q].cgroup.Step? && v.procs[q].cgroup.dir in v.dirs) ==> w.procs[q] == v.procs[q])
  {
  }

  class StepCgroups {
    var enabled: bool
    var made: set<string>
    var dirs: set<string>
    var procs: seq<Proc>

    function State(): View
      reads this
    {
      View(enabled, made, dirs, procs)
    }

    // Inside a scope that is found and gets its supervisor group, the root is drained and step
    // groups are used; otherwise nothing changes. `mss` is what happens during each round.
    constructor (inScope: bool, found: bool, mkdirOk: bool, table: seq<Proc>, mss: seq<seq<Meanwhile>>)
      requires |mss| == 5
      ensures State() == if inScope && found && mkdirOk then View(true, {}, {}, Drained(table, mss))
                         else View(false, {}, {}, table)
    {
      enabled, made, dirs, procs := false, {}, {}, table;
      new;
      if inScope && found && mkdirOk {
        DrainRoot(mss);
        enabled := true;
      }
    }

    // Reads the root's processes and moves each, up to five times, until none is left. What other
    // processes do meanwhile happens after the read.
    method DrainRoot(mss: seq<seq<Meanwhile>>)
      requires |mss| == 5
      modifies this`procs
      ensures procs == Drained(old(procs), mss)
    {
      var round := 0;
      while round < 5
        invariant 0 <= round <= 5
        invariant Drained(procs, mss[round..]) == Drained(old(procs), mss)
      {
        var pids := RootPids(procs);
        if pids == {} {
          break;
        }
        ghost var was := procs;
        procs := Play(procs, mss[round]);
        MovePids(pids);
        assert procs == Round(was, mss[round]) && mss[round..][1..] == mss[round + 1..];
        round := round + 1;
      }
    }

    method MovePids(pids: set<nat>)
      requires forall i :: i in pids ==> i < |procs|
      modifies this`procs
      ensures procs == MovedPids(old(procs), pids)
    {
      var todo := pids;
      while todo != {}
        invariant todo <= pids && |procs| == |old(procs)|
        invariant procs == MovedPids(old(procs), pids - todo)
        decreases todo
      {
        var pid :| pid in todo;
        if procs[pid].alive {
          procs := procs[pid := procs[pid].(cgroup := Supervisor)];
        }
        todo := todo - {pid};
      }
      assert pids - todo == pids;
    }

    // Whether the step's command was wrapped to join its group before anything else; it is not
    // when its directory cannot be made.
    method PrepareCommand(tag: string, mkdirOk: bool) returns (wrapped: bool)
      modifies this`made, this`dirs
      ensures wrapped == (enabled && mkdirOk)
      ensures State() == Prepared(old(State()), tag, mkdirOk)
    {
      if !enabled || !mkdirOk {
        return false;
      }
      dirs := dirs + {Sanitize(tag)};
      made := made + {tag};
      return true;
    }

    method Kill(tag: string) returns (written: bool)
      modifies this`procs
      ensures written == Killable(old(State()), tag)
      ensures State() == Killed(old(State()), tag)
    {
      if !enabled || tag !in made {
        return false;
      }
      if Sanitize(tag) !in dirs {
        return false;
      }
      procs := KillDirs(procs, {Sanitize(tag)});
      return true;
    }

    method Cleanup(tag: string)
      modifies this`made, this`dirs
      ensures State() == Cleaned(old(State()), tag)
    {
      if !enabled || tag !in made {
        return;
      }
      if !Busy(procs, Sanitize(tag)) {
        dirs := dirs - {Sanitize(tag)};
      }
      made := made - {tag};
    }

    // Kills and removes every step directory that still exists; counts them.
    method KillAllRemaining() returns (n: nat)
      modifies this`procs, this`dirs
      ensures State() == KilledAll(old(State()))
      ensures n == if enabled then |old(dirs)| else 0
    {
      n := 0;
      if !enabled {
        return;
      }
      var children := dirs;
      ghost var killed := {};
      KillDirsNone(procs);
      while children != {}
        invariant dirs == children && killed == old(dirs) - children && children <= old(dirs)
        invariant procs == KillDirs(old(procs), killed)
        invariant n == |killed|
        decreases children
      {
        var child :| child in children;
        n := n + 1;
        KillDirsMore(old(procs), killed, child);
        RemoveChild(child);
        children := children - {child};
        killed := killed + {child};
      }
      assert killed == old(dirs);
    }

    method RemoveChild(child: string)
      modifies this`procs, this`dirs
      ensures procs == KillDirs(old(procs), {child}) && dirs == old(dirs) - {child}
    {
      procs := KillDirs(procs, {child});
      if !Busy(procs, child) {
        dirs := dirs - {child};
      }
    }
  }
}
