// The runner object itself: its fields and the methods that change them under the lock,
// each proved to take exactly the step the machine in Scheduler describes.
module RunnerObject {
  import opened Sorting
  import opened Steps
  import opened Scheduler

  function Hint(hints: map<Tag, nat>, t: Tag): nat {
    if t in hints then hints[t] else 0
  }

  // Dispatch order: longest duration hint first, registration order among equals.
  function LongestFirst(registered: seq<Tag>, hints: map<Tag, nat>): seq<Tag> {
    Sort(registered, (a: Tag, b: Tag) => Hint(hints, a) >= Hint(hints, b))
  }

  // The hint of a is the longer one, a missing one being zero.
  ghost predicate Longer(hints: map<Tag, nat>, a: Tag, b: Tag) {
    a in hints && hints[a] > 0 && (b !in hints || hints[a] > hints[b])
  }

  // The order holds just the registered steps, a before b exactly when its hint is longer, or
  // neither is and it was registered first.
  lemma LongestFirstOrder(registered: seq<Tag>, hints: map<Tag, nat>)
    requires NoDup(registered)
    ensures var order := LongestFirst(registered, hints);
      NoDup(order) && forall t :: t in order <==> t in registered
    ensures forall a, b :: a in registered && b in registered && a != b ==>
      (Before(LongestFirst(registered, hints), a, b) <==>
        Longer(hints, a, b) || (!Longer(hints, b, a) && Before(registered, a, b)))
  {
    var le := (a: Tag, b: Tag) => Hint(hints, a) >= Hint(hints, b);
    assert TotalPreorder(le);
    SortNoDup(registered, le);
    SameMembers(registered, le);
    forall a, b | a in registered && b in registered && a != b
      ensures Before(Sort(registered, le), a, b) <==>
        Longer(hints, a, b) || (!Longer(hints, b, a) && Before(registered, a, b))
    {
      SortBefore(registered, le, a, b);
    }
  }

  // The members of `tags`, in dispatch order.
  ghost function InOrder(order: seq<Tag>, tags: set<Tag>): seq<Tag> {
    if order == [] then []
    else
      var n := |order| - 1;
      InOrder(order[..n], tags) + if order[n] in tags then [order[n]] else []
  }

  lemma {:induction false} InOrderSame(order: seq<Tag>, tags: set<Tag>, more: set<Tag>)
    requires forall t :: t in order ==> (t in tags <==> t in more)
    ensures InOrder(order, tags) == InOrder(order, more)
  {
    if order != [] {
      InOrderSame(order[..|order| - 1], tags, more);
    }
  }

  lemma InOrderNext(order: seq<Tag>, i: nat, tags: set<Tag>)
    requires i < |order|
    ensures InOrder(order[..i + 1], tags) == InOrder(order[..i], tags) + if order[i] in tags then [order[i]] else []
  {
    assert order[..i + 1][..i] == order[..i];
  }

  // Nothing launched lies further on.
  lemma {:induction false} InOrderEnds(order: seq<Tag>, i: nat, tags: set<Tag>)
    requires NoDup(order) && i <= |order| && forall t :: t in tags ==> t in order[..i]
    ensures InOrder(order, tags) == InOrder(order[..i], tags)
    decreases |order| - i
  {
    if i < |order| {
      Later(order, i);
      InOrderNext(order, i, tags);
      InOrderEnds(order, i + 1, tags);
    } else {
      assert order[..i] == order;
    }
  }

  lemma Later(order: seq<Tag>, i: nat)
    requires NoDup(order) && i < |order|
    ensures order[i] !in order[..i]
    ensures forall t :: t in order[..i] ==> t in order[..i + 1]
  {
    forall t | t in order[..i] ensures t in order[..i + 1] {
      var j :| 0 <= j < i && order[j] == t;
      assert order[..i + 1][j] == t;
    }
  }

  ghost predicate LaunchedSoFar(order: seq<Tag>, i: nat, new': set<Tag>, launchable: seq<Tag>) {
    i <= |order| && (forall t :: t in new' ==> t in order[..i]) && launchable == InOrder(order[..i], new')
  }

  lemma PassOver(order: seq<Tag>, i: nat, new': set<Tag>, launchable: seq<Tag>)
    requires NoDup(order) && i < |order| && LaunchedSoFar(order, i, new', launchable)
    ensures LaunchedSoFar(order, i + 1, new', launchable)
  {
    Later(order, i);
    InOrderNext(order, i, new');
  }

  lemma LaunchNext(order: seq<Tag>, i: nat, new': set<Tag>, launchable: seq<Tag>)
    requires NoDup(order) && i < |order| && LaunchedSoFar(order, i, new', launchable)
    ensures LaunchedSoFar(order, i + 1, new' + {order[i]}, launchable + [order[i]])
  {
    Later(order, i);
    InOrderSame(order[..i], new', new' + {order[i]});
    InOrderNext(order, i, new' + {order[i]});
    assert order[..i + 1][i] == order[i];
  }

  class Runner {
    const steps: Registry
    const order: seq<Tag>
    const jobs: int
    const caps: map<string, int>
    const keepGoing: bool
    var resourceAvail: map<string, int>
    var done: map<Tag, bool>
    var running: set<Tag>
    var runningPgids: map<Tag, nat>
    var aborted: set<Tag>
    var failed: bool
    var stop: bool

    ghost function Cfg(): Config {
      Config(steps, order, jobs, caps, keepGoing)
    }

    function View(): State
      reads this
    {
      State(done, running, runningPgids.Keys, aborted, resourceAvail, failed, stop)
    }

    constructor (steps: Registry, registered: seq<Tag>, hints: map<Tag, nat>, jobs: int,
                 caps: map<string, int>, keepGoing: bool)
      requires NoDup(registered) && forall t :: t in registered <==> t in steps
      ensures Cfg() == Config(steps, LongestFirst(registered, hints), jobs, caps, keepGoing)
      ensures ValidConfig(Cfg())
      ensures View() == Init(Cfg())
    {
      LongestFirstOrder(registered, hints);
      this.steps := steps;
      this.order := LongestFirst(registered, hints);
      this.jobs := jobs;
      this.caps := caps;
      this.keepGoing := keepGoing;
      this.resourceAvail := caps;
      this.done := map[];
      this.running := {};
      this.runningPgids := map[];
      this.aborted := {};
      this.failed := false;
      this.stop := false;
    }

    method Acquire(step: Step)
      requires step.needs.Keys <= resourceAvail.Keys
      modifies this`resourceAvail
      ensures resourceAvail == Taken(old(resourceAvail), step)
      ensures forall r :: r in step.needs ==> resourceAvail[r] == old(resourceAvail)[r] - step.needs[r]
    {
      var rest := step.needs.Keys;
      while rest != {}
        invariant rest <= step.needs.Keys && resourceAvail.Keys == old(resourceAvail).Keys
        invariant forall r :: r in resourceAvail ==>
          resourceAvail[r] == old(resourceAvail)[r] - if r in rest then 0 else NeedOf(step, r)
        decreases rest
      {
        var r :| r in rest;
        resourceAvail := resourceAvail[r := resourceAvail[r] - step.needs[r]];
        rest := rest - {r};
      }
    }

    method Release(step: Step)
      requires step.needs.Keys <= resourceAvail.Keys
      modifies this`resourceAvail
      ensures resourceAvail == Given(old(resourceAvail), step)
      ensures forall r :: r in step.needs ==> resourceAvail[r] == old(resourceAvail)[r] + step.needs[r]
    {
      var rest := step.needs.Keys;
      while rest != {}
        invariant rest <= step.needs.Keys && resourceAvail.Keys == old(resourceAvail).Keys
        invariant forall r :: r in resourceAvail ==>
          resourceAvail[r] == old(resourceAvail)[r] + if r in rest then 0 else NeedOf(step, r)
        decreases rest
      {
        var r :| r in rest;
        resourceAvail := resourceAvail[r := resourceAvail[r] + step.needs[r]];
        rest := rest - {r};
      }
    }

    // One skip rule for one step: does a dependency already settle it as skipped?
    method HasDeadDep(tag: Tag, sk: set<Tag>) returns (dead: bool)
      requires tag in steps
      ensures dead <==> exists d :: d in steps[tag].deps && (FailedStep(View(), d) || d in sk)
    {
      var deps := steps[tag].deps;
      for i := 0 to |deps|
        invariant forall j :: 0 <= j < i ==> !FailedStep(View(), deps[j]) && deps[j] !in sk
      {
        var d := deps[i];
        if (d in done && !done[d]) || d in sk {
          assert d in steps[tag].deps;
          return true;
        }
      }
      dead := false;
    }

    // The skip fixpoint: rounds over all steps until one changes nothing.
    method SkippedTags() returns (sk: set<Tag>)
      ensures sk == Skipped(Cfg(), View())
    {
      sk := {};
      var changed := true;
      while changed
        invariant sk <= Skipped(Cfg(), View())
        invariant !changed ==> forall t :: Pending(Cfg(), View(), t) && t !in sk ==>
          forall d :: d in steps[t].deps ==> !FailedStep(View(), d) && d !in sk
        decreases steps.Keys - sk, changed
      {
        changed := false;
        var todo := steps.Keys;
        ghost var before := sk;
        while todo != {}
          invariant todo <= steps.Keys
          invariant before <= sk <= Skipped(Cfg(), View())
          invariant changed <==> sk != before
          invariant !changed ==> forall t :: Pending(Cfg(), View(), t) && t !in sk && t !in todo ==>
            forall d :: d in steps[t].deps ==> !FailedStep(View(), d) && d !in sk
          decreases todo
        {
          var tag :| tag in todo;
          todo := todo - {tag};
          if tag !in sk && tag !in done && tag !in running {
            var dead := HasDeadDep(tag, sk);
            if dead {
              BlockedUnfolds(Cfg(), View(), tag);
              sk := sk + {tag};
              changed := true;
            }
          }
        }
      }
      forall t | t in Skipped(Cfg(), View()) ensures t in sk {
        var p :| BlockChain(Cfg(), View(), p) && p[0] == t;
        BlockedInside(Cfg(), View(), sk, p);
      }
    }

    // The loop's exit test.
    method Finished() returns (yes: bool)
      ensures yes <==> Exit(Cfg(), View())
    {
      var sk := SkippedTags();
      yes := running == {} && (stop || |done| + |sk| >= |steps|);
    }

    // The tests a waiting step goes through before its turn.
    method IsReady(tag: Tag) returns (ready: bool)
      requires tag in steps
      ensures ready <==> Ready(Cfg(), View(), tag)
    {
      if tag in done || tag in running {
        return false;
      }
      var sk := SkippedTags();
      if tag in sk {
        return false;
      }
      return DepsKnown(View(), steps[tag]) && DepsOk(View(), steps[tag]);
    }

    // One step's turn in a pass: a full house ends the pass, and the step is taken if it is ready
    // and its resources are free.
    method Turn(i: nat) returns (full: bool, taken: bool)
      requires ValidConfig(Cfg()) && i < |order|
      modifies this`running, this`resourceAvail
      ensures View() == if taken then Launch(Cfg(), old(View()), order[i]) else old(View())
      ensures taken ==> !full && order[i] !in old(running)
      ensures PassFrom(Cfg(), old(View()), i) == if full then View() else PassFrom(Cfg(), View(), i + 1)
    {
      var tag := order[i];
      full, taken := false, false;
      var ready := IsReady(tag);
      if !ready {
        return;
      }
      if |running| >= jobs {
        return true, false;
      }
      if !ResFree(View(), steps[tag]) {
        return;
      }
      taken := true;
      running := running + {tag};
      Acquire(steps[tag]);
    }

    // One schedule pass; `launchable` are the steps whose threads are started after it, in
    // dispatch order.
    method SchedulePass() returns (launchable: seq<Tag>)
      requires ValidConfig(Cfg())
      modifies this`running, this`resourceAvail
      ensures View() == Pass(Cfg(), old(View()))
      ensures launchable == InOrder(order, running - old(running))
    {
      launchable := [];
      if stop {
        InOrderEnds(order, 0, running - old(running));
        return;
      }
      var i := 0;
      while i < |order|
        invariant 0 <= i <= |order|
        invariant PassFrom(Cfg(), View(), i) == PassFrom(Cfg(), old(View()), 0)
        invariant old(running) <= running
        invariant LaunchedSoFar(order, i, running - old(running), launchable)
      {
        ghost var was := running - old(running);
        var full, taken := Turn(i);
        if full {
          break;
        }
        if taken {
          LaunchNext(order, i, was, launchable);
          launchable := launchable + [order[i]];
          assert running - old(running) == was + {order[i]};
        } else {
          PassOver(order, i, was, launchable);
        }
        i := i + 1;
      }
      InOrderEnds(order, i, running - old(running));
    }

    // A started step's thread publishes its process group.
    method RegisterGroup(tag: Tag, pgid: nat)
      modifies this`runningPgids
      ensures View() == Register(old(View()), tag)
      ensures runningPgids == old(runningPgids)[tag := pgid]
    {
      runningPgids := runningPgids[tag := pgid];
    }

    // A step ends. `reaped` are the steps an eager exit tears down.
    method CompleteStep(tag: Tag, ok: bool) returns (reaped: set<Tag>)
      requires tag in steps && steps[tag].needs.Keys <= resourceAvail.Keys
      modifies this
      ensures View() == Complete(Cfg(), old(View()), tag, ok)
      ensures running == old(running) - {tag} && done == old(done)[tag := ok && tag !in old(aborted)]
      ensures aborted == old(aborted) + reaped
      ensures failed == (old(failed) || (!ok && tag !in old(aborted)))
      ensures stop == (old(stop) || (!ok && tag !in old(aborted)))
      ensures runningPgids == old(runningPgids) - {tag}
      ensures reaped == if !ok && tag !in old(aborted) && !keepGoing then old(runningPgids.Keys) - {tag} else {}
    {
      reaped := {};
      running := running - {tag};
      runningPgids := runningPgids - {tag};
      assert runningPgids.Keys == old(runningPgids).Keys - {tag};
      Release(steps[tag]);
      var wasAborted := tag in aborted;
      done := done[tag := if wasAborted then false else ok];
      if !wasAborted && !ok {
        failed := true;
        stop := true;
        if !keepGoing {
          var others := runningPgids.Keys;
          ghost var was := aborted;
          while others != {}
            invariant others <= runningPgids.Keys
            invariant reaped == runningPgids.Keys - others
            invariant aborted == was + reaped
            modifies this`aborted
            decreases others
          {
            var other :| other in others;
            aborted := aborted + {other};
            reaped := reaped + {other};
            others := others - {other};
          }
          assert aborted == was + runningPgids.Keys;
        }
      }
    }
  }
}
