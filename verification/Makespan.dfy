// How long a run takes. Time advances in unit ticks: a schedule pass, then one unit of work for
// every running step, then the completion of those with nothing left to do.
module Makespan {
  import opened Steps
  import opened Sums
  import opened Scheduler
  import opened SchedulerSafety
  import opened SchedulerLiveness

  type Times = map<Tag, nat>

  // The runner's state and the time each step still needs.
  datatype Clocked = Clocked(s: State, left: Times)

  ghost predicate Durations(cfg: Config, dur: Times) {
    dur.Keys == cfg.steps.Keys && forall t :: t in dur ==> dur[t] > 0
  }

  ghost function Worked(left: Times, running: set<Tag>): Times {
    map t | t in left :: if t in running && left[t] > 0 then left[t] - 1 else left[t]
  }

  ghost function Finishing(left: Times, running: set<Tag>): set<Tag> {
    set t | t in running && t in left && left[t] == 1
  }

  // path[i] --events[i]--> path[i + 1] by registrations and successful completions only.
  ghost predicate QuietPath(cfg: Config, path: seq<State>, events: seq<Event>) {
    && |path| == |events| + 1
    && forall i :: 0 <= i < |events| ==>
        && Next(cfg, path[i], events[i], path[i + 1])
        && !events[i].SchedulePass?
        && (events[i].Completed? ==> events[i].ok)
  }

  // Registrations and successful completions lead from p to s', completing exactly `fin`.
  ghost predicate Settles(cfg: Config, p: State, s': State, fin: set<Tag>) {
    exists path: seq<State>, events: seq<Event> ::
      QuietPath(cfg, path, events) && path[0] == p && path[|path| - 1] == s'
      && s'.done.Keys == p.done.Keys + fin
  }

  ghost predicate Tick(cfg: Config, c: Clocked, c': Clocked) {
    var p := Pass(cfg, c.s);
    && !Exit(cfg, c.s)
    && c'.left == Worked(c.left, p.running)
    && Settles(cfg, p, c'.s, Finishing(c.left, p.running))
  }

  // A run without failures, tick by tick until it exits; its wall time is |cs| - 1.
  ghost predicate TimedRun(cfg: Config, dur: Times, cs: seq<Clocked>) {
    && cs != []
    && cs[0] == Clocked(Init(cfg), dur)
    && (forall i :: 0 <= i < |cs| - 1 ==> Tick(cfg, cs[i], cs[i + 1]))
    && Exit(cfg, cs[|cs| - 1].s)
  }

  ghost function SerialSum(left: Times): int {
    SumOver(left.Keys, t => if t in left then left[t] else 0)
  }

  ghost function ChainTime(dur: Times, p: seq<Tag>): nat {
    if p == [] then 0 else (if p[0] in dur then dur[p[0]] else 0) + ChainTime(dur, p[1..])
  }

  // --- The state between ticks ---

  ghost predicate ClockInv(cfg: Config, c: Clocked) {
    && Inv(cfg, c.s) && !c.s.failed
    && c.left.Keys == cfg.steps.Keys
    && (forall t :: t in cfg.steps ==> (c.left[t] == 0 <==> t in c.s.done))
    && (forall t :: t in c.s.done ==> c.s.done[t])
  }

  lemma QuietShape(cfg: Config, s: State, e: Event, s': State)
    requires s.registered <= s.running && !s.failed
    requires Next(cfg, s, e, s') && !e.SchedulePass? && (e.Completed? ==> e.ok)
    requires s.aborted == {} && forall t :: t in s.done ==> s.done[t]
    ensures !s'.failed && s'.running + s'.done.Keys == s.running + s.done.Keys
    ensures forall t :: t in s'.done ==> s'.done[t]
  {
  }

  lemma QuietStep(cfg: Config, s: State, e: Event, s': State)
    requires Inv(cfg, s) && ValidConfig(cfg) && !s.failed && forall t :: t in s.done ==> s.done[t]
    requires Next(cfg, s, e, s') && !e.SchedulePass? && (e.Completed? ==> e.ok)
    ensures Inv(cfg, s') && !s'.failed && forall t :: t in s'.done ==> s'.done[t]
    ensures s'.running + s'.done.Keys == s.running + s.done.Keys
  {
    NextInv(cfg, s, e, s');
    QuietShape(cfg, s, e, s');
  }

  lemma {:induction false} QuietFacts(cfg: Config, path: seq<State>, events: seq<Event>)
    requires ValidConfig(cfg) && QuietPath(cfg, path, events)
    requires Inv(cfg, path[0]) && !path[0].failed && forall t :: t in path[0].done ==> path[0].done[t]
    ensures var s' := path[|path| - 1];
            && Inv(cfg, s') && !s'.failed
            && s'.running + s'.done.Keys == path[0].running + path[0].done.Keys
            && forall t :: t in s'.done ==> s'.done[t]
    decreases |events|
  {
    if events != [] {
      var n := |events| - 1;
      assert QuietPath(cfg, path[..n + 1], events[..n]);
      QuietFacts(cfg, path[..n + 1], events[..n]);
      QuietStep(cfg, path[n], events[n], path[n + 1]);
    }
  }

  lemma PassKeepsClock(cfg: Config, c: Clocked)
    requires ValidConfig(cfg) && ClockInv(cfg, c)
    ensures var p := Pass(cfg, c.s);
            Inv(cfg, p) && !p.failed && p.done == c.s.done && p.running <= cfg.steps.Keys && p.running !! p.done.Keys
  {
    PassShape(cfg, c.s);
    PassFromInv(cfg, c.s, 0);
    PassFromOutcome(cfg, c.s, 0);
  }

  lemma TickSettles(cfg: Config, c: Clocked, c': Clocked)
    requires ValidConfig(cfg) && ClockInv(cfg, c) && Tick(cfg, c, c')
    ensures Inv(cfg, c'.s) && !c'.s.failed && forall t :: t in c'.s.done ==> c'.s.done[t]
    ensures c'.s.done.Keys == c.s.done.Keys + Finishing(c.left, Pass(cfg, c.s).running)
  {
    var p := Pass(cfg, c.s);
    PassKeepsClock(cfg, c);
    var path, events :| QuietPath(cfg, path, events) && path[0] == p && path[|path| - 1] == c'.s
      && c'.s.done.Keys == p.done.Keys + Finishing(c.left, p.running);
    QuietFacts(cfg, path, events);
  }

  lemma TickInv(cfg: Config, c: Clocked, c': Clocked)
    requires ValidConfig(cfg) && ClockInv(cfg, c) && Tick(cfg, c, c')
    ensures ClockInv(cfg, c')
  {
    TickSettles(cfg, c, c');
    PassShape(cfg, c.s);
    assert c'.left == Worked(c.left, Pass(cfg, c.s).running);
  }

  lemma TickRuns(cfg: Config, c: Clocked)
    requires ValidConfig(cfg) && LiveConfig(cfg) && ClockInv(cfg, c) && !Exit(cfg, c.s)
    ensures Pass(cfg, c.s).running != {}
  {
    PassShape(cfg, c.s);
    if c.s.running == {} {
      PassLaunches(cfg, c.s);
    }
  }

  // One tick does one unit of work for every running step.
  lemma TickWork(cfg: Config, c: Clocked, c': Clocked)
    requires ValidConfig(cfg) && ClockInv(cfg, c) && Tick(cfg, c, c')
    ensures SerialSum(c'.left) == SerialSum(c.left) - |Pass(cfg, c.s).running|
  {
    PassShape(cfg, c.s);
    WorkDone(c.left, Pass(cfg, c.s).running);
  }

  lemma WorkDone(left: Times, running: set<Tag>)
    requires running <= left.Keys && forall t :: t in running ==> left[t] > 0
    ensures SerialSum(Worked(left, running)) == SerialSum(left) - |running|
  {
    var left' := Worked(left, running);
    var f, g := (t: Tag) => if t in left then left[t] else 0, (t: Tag) => if t in left' then left'[t] else 0;
    var rest := left.Keys - running;
    assert left.Keys == running + rest && left'.Keys == left.Keys;
    SumUnion(running, rest, f);
    SumUnion(running, rest, g);
    SumShift(running, f, g);
    SumSame(rest, f, g);
    SumSame(left.Keys, f, t => if t in left then left[t] else 0);
    SumSame(left.Keys, g, t => if t in left' then left'[t] else 0);
  }

  // --- Remaining depth: the time of the longest dependency chain still to be done ---

  ghost predicate DepthDefined(cfg: Config, rank: map<Tag, nat>, left: Times) {
    DepClosed(cfg.steps) && Ranks(cfg.steps, rank) && left.Keys == cfg.steps.Keys
  }

  ghost function Depth(cfg: Config, rank: map<Tag, nat>, left: Times, t: Tag): nat
    requires DepthDefined(cfg, rank, left) && t in cfg.steps
    decreases rank[t], |cfg.steps[t].deps| + 1
  {
    left[t] + Deepest(cfg, rank, left, rank[t], cfg.steps[t].deps)
  }

  ghost function Deepest(cfg: Config, rank: map<Tag, nat>, left: Times, n: nat, ds: seq<Tag>): nat
    requires DepthDefined(cfg, rank, left)
    requires forall d :: d in ds ==> d in cfg.steps && rank[d] < n
    decreases n, |ds|
  {
    if ds == [] then 0
    else
      var a, b := Depth(cfg, rank, left, ds[0]), Deepest(cfg, rank, left, n, ds[1..]);
      if a >= b then a else b
  }

  lemma {:induction false} DeepestBounds(cfg: Config, rank: map<Tag, nat>, left: Times, n: nat, ds: seq<Tag>)
    requires DepthDefined(cfg, rank, left)
    requires forall d :: d in ds ==> d in cfg.steps && rank[d] < n
    ensures forall d :: d in ds ==> Depth(cfg, rank, left, d) <= Deepest(cfg, rank, left, n, ds)
    ensures Deepest(cfg, rank, left, n, ds) > 0 ==>
      exists d :: d in ds && Depth(cfg, rank, left, d) == Deepest(cfg, rank, left, n, ds)
  {
    if ds != [] {
      DeepestBounds(cfg, rank, left, n, ds[1..]);
      assert ds[0] in ds;
    }
  }

  // If every step whose dependencies are finished gets a unit of work, every chain shortens.
  lemma {:induction false} DepthShrinks(cfg: Config, rank: map<Tag, nat>, left: Times, left': Times, t: Tag)
    requires DepthDefined(cfg, rank, left) && DepthDefined(cfg, rank, left') && t in cfg.steps
    requires forall x :: x in left ==> left'[x] <= left[x]
    requires forall x :: x in cfg.steps && left[x] > 0 && (forall d :: d in cfg.steps[x].deps ==> left[d] == 0)
               ==> left'[x] < left[x]
    ensures Depth(cfg, rank, left', t) <= Depth(cfg, rank, left, t)
    ensures Depth(cfg, rank, left, t) > 0 ==> Depth(cfg, rank, left', t) < Depth(cfg, rank, left, t)
    decreases rank[t]
  {
    var ds := cfg.steps[t].deps;
    DeepestBounds(cfg, rank, left, rank[t], ds);
    DeepestBounds(cfg, rank, left', rank[t], ds);
    forall d | d in ds
      ensures Depth(cfg, rank, left', d) <= Depth(cfg, rank, left, d)
      ensures Depth(cfg, rank, left, d) > 0 ==> Depth(cfg, rank, left', d) < Depth(cfg, rank, left, d)
      ensures left[d] <= Depth(cfg, rank, left, d)
    {
      DepthShrinks(cfg, rank, left, left', d);
    }
    if Deepest(cfg, rank, left, rank[t], ds) == 0 {
      assert forall d :: d in ds ==> left[d] == 0;
    }
  }

  lemma {:induction false} DepthMonotone(cfg: Config, rank: map<Tag, nat>, left: Times, left': Times, t: Tag)
    requires DepthDefined(cfg, rank, left) && DepthDefined(cfg, rank, left') && t in cfg.steps
    requires forall x :: x in left ==> left'[x] <= left[x]
    ensures Depth(cfg, rank, left', t) <= Depth(cfg, rank, left, t)
    decreases rank[t]
  {
    var ds := cfg.steps[t].deps;
    DeepestBounds(cfg, rank, left, rank[t], ds);
    DeepestBounds(cfg, rank, left', rank[t], ds);
    forall d | d in ds ensures Depth(cfg, rank, left', d) <= Depth(cfg, rank, left, d) {
      DepthMonotone(cfg, rank, left, left', d);
    }
  }

  // A depth is the time of some dependency chain.
  lemma {:induction false} DepthIsChain(cfg: Config, rank: map<Tag, nat>, dur: Times, t: Tag) returns (p: seq<Tag>)
    requires DepthDefined(cfg, rank, dur) && t in cfg.steps
    ensures DepPath(cfg.steps, p) && p[0] == t
    ensures ChainTime(dur, p) == Depth(cfg, rank, dur, t)
    decreases rank[t]
  {
    var ds := cfg.steps[t].deps;
    var n := Deepest(cfg, rank, dur, rank[t], ds);
    DeepestBounds(cfg, rank, dur, rank[t], ds);
    if n == 0 {
      p := [t];
      assert p[1..] == [];
    } else {
      var d :| d in ds && Depth(cfg, rank, dur, d) == n;
      var q := DepthIsChain(cfg, rank, dur, d);
      p := [t] + q;
      assert p[1..] == q;
    }
  }

  // --- The bounds ---

  lemma AllDoneExits(cfg: Config, c: Clocked)
    requires ClockInv(cfg, c) && c.s.done.Keys == cfg.steps.Keys
    ensures Exit(cfg, c.s)
  {
    assert c.s.running <= c.s.done.Keys;
    assert |c.s.done| == |c.s.done.Keys| && |cfg.steps| == |cfg.steps.Keys|;
  }

  lemma UnfinishedStep(cfg: Config, c: Clocked) returns (t: Tag)
    requires ClockInv(cfg, c) && !Exit(cfg, c.s)
    ensures t in cfg.steps && c.left[t] > 0
  {
    if c.s.done.Keys == cfg.steps.Keys {
      AllDoneExits(cfg, c);
    }
    t :| t in cfg.steps && t !in c.s.done;
  }

  // When a slot stays free, everything startable is running.
  lemma FreeSlotServesAll(cfg: Config, c: Clocked, x: Tag)
    requires ValidConfig(cfg) && ClockInv(cfg, c)
    requires |Pass(cfg, c.s).running| < cfg.jobs
    requires x in cfg.steps && cfg.steps[x].needs == map[] && c.left[x] > 0
    requires forall d :: d in cfg.steps[x].deps ==> d in cfg.steps && c.left[d] == 0
    ensures x in Pass(cfg, c.s).running
  {
    var s, s' := c.s, Pass(cfg, c.s);
    PassShape(cfg, s);
    PassFromOutcome(cfg, s, 0);
    if x !in s.running {
      assert Startable(cfg, s, x);
      var j :| 0 <= j < |cfg.order| && cfg.order[j] == x;
      assert ResFree(s', cfg.steps[x]);
      assert !PassedOver(cfg, s, s', cfg.order[j]);
    }
  }

  ghost predicate ResourceFree(cfg: Config) {
    forall t :: t in cfg.steps ==> cfg.steps[t].needs == map[]
  }

  ghost predicate DepthWithin(cfg: Config, rank: map<Tag, nat>, left: Times, bound: int)
    requires DepthDefined(cfg, rank, left)
  {
    forall t {:trigger Depth(cfg, rank, left, t)} :: t in cfg.steps ==> Depth(cfg, rank, left, t) <= bound
  }

  // A tick with a free slot shortens every remaining chain.
  lemma FreeSlotShortens(cfg: Config, rank: map<Tag, nat>, c: Clocked, c': Clocked, bound: int)
    requires ValidConfig(cfg) && ResourceFree(cfg) && ClockInv(cfg, c) && Tick(cfg, c, c')
    requires DepthDefined(cfg, rank, c.left) && DepthDefined(cfg, rank, c'.left)
    requires |Pass(cfg, c.s).running| < cfg.jobs && DepthWithin(cfg, rank, c.left, bound)
    ensures bound >= 1 && DepthWithin(cfg, rank, c'.left, bound - 1)
  {
    var u := UnfinishedStep(cfg, c);
    assert Depth(cfg, rank, c.left, u) <= bound;
    forall x | x in cfg.steps && c.left[x] > 0 && (forall d :: d in cfg.steps[x].deps ==> c.left[d] == 0)
      ensures c'.left[x] < c.left[x]
    {
      FreeSlotServesAll(cfg, c, x);
    }
    forall t | t in cfg.steps ensures Depth(cfg, rank, c'.left, t) <= bound - 1 {
      DepthShrinks(cfg, rank, c.left, c'.left, t);
    }
  }

  lemma {:induction false} ClockInvHolds(cfg: Config, dur: Times, cs: seq<Clocked>, i: nat)
    requires ValidConfig(cfg) && Durations(cfg, dur) && TimedRun(cfg, dur, cs) && i < |cs|
    ensures ClockInv(cfg, cs[i])
  {
    if i == 0 {
      InitInv(cfg);
    } else {
      ClockInvHolds(cfg, dur, cs, i - 1);
      TickInv(cfg, cs[i - 1], cs[i]);
    }
  }

  lemma SerialSumNonNegative(left: Times)
    ensures SerialSum(left) >= 0
  {
    SumNonNegative(left.Keys, t => if t in left then left[t] else 0);
  }

  // From tick i on, whatever the resources, some step is always running.
  lemma {:induction false} RemainingWithinWork(cfg: Config, dur: Times, cs: seq<Clocked>, i: nat)
    requires ValidConfig(cfg) && LiveConfig(cfg) && Durations(cfg, dur) && TimedRun(cfg, dur, cs) && i < |cs|
    ensures |cs| - 1 - i <= SerialSum(cs[i].left)
    decreases |cs| - i
  {
    if i == |cs| - 1 {
      SerialSumNonNegative(cs[i].left);
    } else {
      ClockInvHolds(cfg, dur, cs, i);
      RemainingWithinWork(cfg, dur, cs, i + 1);
      assert Tick(cfg, cs[i], cs[i + 1]);
      TickRuns(cfg, cs[i]);
      TickWork(cfg, cs[i], cs[i + 1]);
    }
  }

  // With any resources the wall time is at most the serial time.
  lemma WallWithinSerial(cfg: Config, dur: Times, cs: seq<Clocked>)
    requires ValidConfig(cfg) && LiveConfig(cfg) && Durations(cfg, dur) && TimedRun(cfg, dur, cs)
    ensures |cs| - 1 <= SerialSum(dur)
  {
    RemainingWithinWork(cfg, dur, cs, 0);
  }

  // A full house pays for its tick with work, a free slot with depth.
  ghost predicate Share(jobs: int, work: int, work': int, bound: int, bound': int) {
    (bound' == bound && work' <= work - jobs) || (bound' == bound - 1 && work' <= work - 1)
  }

  // n times k, as a sum.
  ghost function Repeated(n: nat, k: int): int {
    if n == 0 then 0 else Repeated(n - 1, k) + k
  }

  lemma {:induction false} TimesIsProduct(n: nat, k: int)
    ensures Repeated(n, k) == n * k
  {
    if n > 0 {
      TimesIsProduct(n - 1, k);
      assert n * k == (n - 1) * k + k;
    }
  }

  ghost predicate Within(w: nat, jobs: int, work: int, bound: nat) {
    Repeated(w, jobs) <= work + Repeated(bound, jobs - 1)
  }

  lemma WithinAtEnd(jobs: int, work: int, bound: nat)
    requires jobs >= 1 && work >= 0
    ensures Within(0, jobs, work, bound)
  {
    TimesIsProduct(bound, jobs - 1);
    assert bound * (jobs - 1) >= 0;
  }

  lemma ShareExtends(w: nat, w': nat, jobs: int, work: int, work': int, bound: nat, bound': nat)
    requires w == w' + 1
    ensures Share(jobs, work, work', bound, bound') && Within(w', jobs, work', bound') ==> Within(w, jobs, work, bound)
  {
  }

  lemma TickShare(cfg: Config, rank: map<Tag, nat>, c: Clocked, c': Clocked, bound: int) returns (bound': int)
    requires ValidConfig(cfg) && LiveConfig(cfg) && ResourceFree(cfg)
    requires ClockInv(cfg, c) && Tick(cfg, c, c')
    requires DepthDefined(cfg, rank, c.left) && bound >= 0 && DepthWithin(cfg, rank, c.left, bound)
    ensures DepthDefined(cfg, rank, c'.left) && bound' >= 0 && DepthWithin(cfg, rank, c'.left, bound')
    ensures Share(cfg.jobs, SerialSum(c.left), SerialSum(c'.left), bound, bound')
  {
    TickWork(cfg, c, c');
    if |Pass(cfg, c.s).running| < cfg.jobs {
      TickRuns(cfg, c);
      FreeSlotShortens(cfg, rank, c, c', bound);
      bound' := bound - 1;
    } else {
      FullSlotKeeps(cfg, rank, c, c', bound);
      bound' := bound;
    }
  }

  lemma TickShareAt(cfg: Config, dur: Times, cs: seq<Clocked>, i: nat, rank: map<Tag, nat>, bound: int) returns (bound': int)
    requires ValidConfig(cfg) && LiveConfig(cfg) && ResourceFree(cfg)
    requires Durations(cfg, dur) && TimedRun(cfg, dur, cs) && i + 1 < |cs|
    requires DepthDefined(cfg, rank, cs[i].left) && bound >= 0 && DepthWithin(cfg, rank, cs[i].left, bound)
    ensures DepthDefined(cfg, rank, cs[i + 1].left) && bound' >= 0 && DepthWithin(cfg, rank, cs[i + 1].left, bound')
    ensures Share(cfg.jobs, SerialSum(cs[i].left), SerialSum(cs[i + 1].left), bound, bound')
  {
    ClockInvHolds(cfg, dur, cs, i);
    assert Tick(cfg, cs[i], cs[i + 1]);
    bound' := TickShare(cfg, rank, cs[i], cs[i + 1], bound);
  }

  lemma FullSlotKeeps(cfg: Config, rank: map<Tag, nat>, c: Clocked, c': Clocked, bound: int)
    requires Tick(cfg, c, c')
    requires DepthDefined(cfg, rank, c.left) && DepthWithin(cfg, rank, c.left, bound)
    ensures DepthDefined(cfg, rank, c'.left) && DepthWithin(cfg, rank, c'.left, bound)
  {
    forall t | t in cfg.steps ensures Depth(cfg, rank, c'.left, t) <= bound {
      DepthMonotone(cfg, rank, c.left, c'.left, t);
    }
  }

  // In numbers: a run whose every tick is paid for, in work or in depth, ends within both.
  lemma {:induction false} PaidTicks(jobs: int, works: seq<int>, deep: seq<iset<nat>>, i: nat, bound: nat)
    requires jobs >= 1 && i < |works| == |deep| && works[|works| - 1] >= 0 && bound in deep[i]
    requires forall k, b {:trigger Payable(jobs, works, deep, k, b)} ::
      0 <= k < |works| - 1 && b in deep[k] ==> Payable(jobs, works, deep, k, b)
    ensures Within(|works| - 1 - i, jobs, works[i], bound)
    decreases |works| - i
  {
    if i == |works| - 1 {
      WithinAtEnd(jobs, works[i], bound);
    } else {
      assert Payable(jobs, works, deep, i, bound);
      var bound' :| bound' in deep[i + 1] && Share(jobs, works[i], works[i + 1], bound, bound');
      PaidTicks(jobs, works, deep, i + 1, bound');
      ShareExtends(|works| - 1 - i, |works| - 1 - (i + 1), jobs, works[i], works[i + 1], bound, bound');
    }
  }

  ghost predicate Payable(jobs: int, works: seq<int>, deep: seq<iset<nat>>, k: int, b: nat)
    requires 0 <= k < |works| - 1 && |deep| == |works|
  {
    Paid(jobs, works[k], works[k + 1], b, deep[k + 1])
  }

  ghost predicate Paid(jobs: int, work: int, work': int, b: int, after: iset<nat>) {
    exists b': nat :: b' in after && Share(jobs, work, work', b, b')
  }

  ghost function Works(cs: seq<Clocked>): seq<int> {
    seq(|cs|, i requires 0 <= i < |cs| => SerialSum(cs[i].left))
  }

  // The bounds on every remaining chain after each tick.
  ghost function Depths(cfg: Config, rank: map<Tag, nat>, cs: seq<Clocked>): seq<iset<nat>> {
    seq(|cs|, i requires 0 <= i < |cs| =>
      iset b: nat | DepthDefined(cfg, rank, cs[i].left) && DepthWithin(cfg, rank, cs[i].left, b))
  }

  lemma TickPayable(cfg: Config, dur: Times, cs: seq<Clocked>, k: nat, rank: map<Tag, nat>, b: nat)
    requires ValidConfig(cfg) && LiveConfig(cfg) && ResourceFree(cfg)
    requires Durations(cfg, dur) && TimedRun(cfg, dur, cs) && k + 1 < |cs| && b in Depths(cfg, rank, cs)[k]
    ensures Payable(cfg.jobs, Works(cs), Depths(cfg, rank, cs), k, b)
  {
    var b' := TickShareAt(cfg, dur, cs, k, rank, b);
    assert b' in Depths(cfg, rank, cs)[k + 1];
    assert Share(cfg.jobs, Works(cs)[k], Works(cs)[k + 1], b, b');
  }

  lemma WithinIsBound(w: nat, jobs: int, work: int, bound: nat)
    ensures Within(w, jobs, work, bound) <==> w * jobs <= work + (jobs - 1) * bound
  {
    TimesIsProduct(w, jobs);
    TimesIsProduct(bound, jobs - 1);
  }

  lemma DepthsFromChains(cfg: Config, dur: Times, longest: nat, rank: map<Tag, nat>)
    requires ValidConfig(cfg) && LiveConfig(cfg) && Durations(cfg, dur) && Ranks(cfg.steps, rank)
    requires forall p :: DepPath(cfg.steps, p) ==> ChainTime(dur, p) <= longest
    ensures DepthDefined(cfg, rank, dur) && DepthWithin(cfg, rank, dur, longest)
  {
    forall t | t in cfg.steps ensures Depth(cfg, rank, dur, t) <= longest {
      var p := DepthIsChain(cfg, rank, dur, t);
    }
  }

  // The list-scheduling bound: wall * jobs <= serial + (jobs - 1) * longest dependency chain.
  lemma ListSchedulingBound(cfg: Config, dur: Times, cs: seq<Clocked>, longest: nat)
    requires ValidConfig(cfg) && LiveConfig(cfg) && ResourceFree(cfg) && cfg.jobs >= 1
    requires Durations(cfg, dur) && TimedRun(cfg, dur, cs)
    requires forall p :: DepPath(cfg.steps, p) ==> ChainTime(dur, p) <= longest
    ensures (|cs| - 1) * cfg.jobs <= SerialSum(dur) + (cfg.jobs - 1) * longest
  {
    RunWithin(cfg, dur, cs, longest);
    WithinIsBound(|cs| - 1, cfg.jobs, SerialSum(dur), longest);
  }

  lemma RunWithin(cfg: Config, dur: Times, cs: seq<Clocked>, longest: nat)
    requires ValidConfig(cfg) && LiveConfig(cfg) && ResourceFree(cfg) && cfg.jobs >= 1
    requires Durations(cfg, dur) && TimedRun(cfg, dur, cs)
    requires forall p :: DepPath(cfg.steps, p) ==> ChainTime(dur, p) <= longest
    ensures Within(|cs| - 1, cfg.jobs, SerialSum(dur), longest)
  {
    var rank :| Ranks(cfg.steps, rank);
    DepthsFromChains(cfg, dur, longest, rank);
    RunPaid(cfg, dur, cs, longest, rank);
  }

  lemma RunPaid(cfg: Config, dur: Times, cs: seq<Clocked>, longest: nat, rank: map<Tag, nat>)
    requires ValidConfig(cfg) && LiveConfig(cfg) && ResourceFree(cfg) && cfg.jobs >= 1
    requires Durations(cfg, dur) && TimedRun(cfg, dur, cs)
    requires DepthDefined(cfg, rank, dur) && DepthWithin(cfg, rank, dur, longest)
    ensures Within(|cs| - 1, cfg.jobs, SerialSum(dur), longest)
  {
    var works, deep := Works(cs), Depths(cfg, rank, cs);
    forall k, b | 0 <= k < |works| - 1 && b in deep[k] ensures Payable(cfg.jobs, works, deep, k, b) {
      TickPayable(cfg, dur, cs, k, rank, b);
    }
    SerialSumNonNegative(cs[|cs| - 1].left);
    PaidTicks(cfg.jobs, works, deep, 0, longest);
  }
}
