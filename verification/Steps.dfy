// The step registry of the validation run, and how a run's steps are chosen from it.
module Steps {
  import opened Sequences

  type Tag = string
  type Need = n: int | n > 0 witness 1

  // `needs` is the step's resource use, such as one unit of "browser".
  datatype Step = Step(deps: seq<Tag>, needs: map<string, Need>)

  type Registry = map<Tag, Step>

  ghost predicate DepClosed(reg: Registry) {
    forall t, d :: t in reg && d in reg[t].deps ==> d in reg
  }

  // A rank that grows along every dependency edge inside the registry.
  ghost predicate Ranks(reg: Registry, rank: map<Tag, nat>) {
    && reg.Keys <= rank.Keys
    && forall t, d :: t in reg && d in reg[t].deps && d in reg ==> rank[d] < rank[t]
  }

  ghost predicate Acyclic(reg: Registry) {
    exists rank :: Ranks(reg, rank)
  }

  // --- Carrying dependencies along with a selection ---

  // p walks dependency edges from p[0], inside the registry.
  ghost predicate DepPath(reg: Registry, p: seq<Tag>) {
    && |p| > 0
    && (forall i :: 0 <= i < |p| ==> p[i] in reg)
    && forall i :: 0 <= i < |p| - 1 ==> p[i + 1] in reg[p[i]].deps
  }

  ghost predicate Reaches(reg: Registry, sel: seq<Tag>, t: Tag) {
    exists p :: DepPath(reg, p) && p[0] in sel && p[|p| - 1] == t
  }

  ghost predicate ClosedWithin(reg: Registry, s: set<Tag>) {
    forall t, d :: t in s && t in reg && d in reg[t].deps && d in reg ==> d in s
  }

  lemma ReachesSelf(reg: Registry, sel: seq<Tag>, t: Tag)
    requires t in sel && t in reg
    ensures Reaches(reg, sel, t)
  {
    assert DepPath(reg, [t]);
  }

  lemma ReachesStep(reg: Registry, sel: seq<Tag>, t: Tag, d: Tag)
    requires Reaches(reg, sel, t) && t in reg && d in reg[t].deps && d in reg
    ensures Reaches(reg, sel, d)
  {
    var p :| DepPath(reg, p) && p[0] in sel && p[|p| - 1] == t;
    assert DepPath(reg, p + [d]);
  }

  lemma {:induction false} ReachStaysInside(reg: Registry, s: set<Tag>, p: seq<Tag>)
    requires ClosedWithin(reg, s) && DepPath(reg, p) && p[0] in s
    ensures p[|p| - 1] in s
    decreases |p|
  {
    if |p| > 1 {
      var q := p[..|p| - 1];
      assert DepPath(reg, q);
      ReachStaysInside(reg, s, q);
    }
  }

  lemma ClosedHoldsReach(reg: Registry, sel: seq<Tag>, s: set<Tag>)
    requires ClosedWithin(reg, s)
    requires forall t :: t in sel && t in reg ==> t in s
    ensures forall t :: Reaches(reg, sel, t) ==> t in s
  {
    forall t | Reaches(reg, sel, t) ensures t in s {
      var p :| DepPath(reg, p) && p[0] in sel && p[|p| - 1] == t;
      ReachStaysInside(reg, s, p);
    }
  }

  // Every selected or required tag is already taken or still on the stack.
  ghost predicate Accounted(reg: Registry, sel: seq<Tag>, out: set<Tag>, stack: seq<Tag>) {
    && out <= reg.Keys
    && (forall t :: t in sel && t in reg ==> t in out || t in stack)
    && (forall t, d :: t in out && d in reg[t].deps && d in reg ==> d in out || d in stack)
  }

  // Everything taken or stacked is really needed.
  ghost predicate Needed(reg: Registry, sel: seq<Tag>, out: set<Tag>, stack: seq<Tag>) {
    && (forall t :: t in out ==> Reaches(reg, sel, t))
    && (forall t :: t in stack && t in reg ==> Reaches(reg, sel, t))
  }

  lemma TakeStep(reg: Registry, sel: seq<Tag>, out: set<Tag>, stack: seq<Tag>, t: Tag)
    requires Accounted(reg, sel, out, stack + [t]) && Needed(reg, sel, out, stack + [t])
    ensures t in out || t !in reg ==> Accounted(reg, sel, out, stack) && Needed(reg, sel, out, stack)
    ensures t !in out && t in reg ==>
      var stack' := stack + reg[t].deps;
      Accounted(reg, sel, out + {t}, stack') && Needed(reg, sel, out + {t}, stack')
  {
    assert t in stack + [t];
    forall x ensures x in stack + [t] <==> x in stack || x == t {
    }
    if t !in out && t in reg {
      forall d | d in reg[t].deps && d in reg ensures Reaches(reg, sel, d) {
        ReachesStep(reg, sel, t, d);
      }
    }
  }

  lemma StartAccounted(reg: Registry, sel: seq<Tag>)
    ensures Accounted(reg, sel, {}, sel) && Needed(reg, sel, {}, sel)
  {
    forall t | t in sel && t in reg ensures Reaches(reg, sel, t) {
      ReachesSelf(reg, sel, t);
    }
  }

  lemma WorklistDone(reg: Registry, sel: seq<Tag>, out: set<Tag>)
    requires Accounted(reg, sel, out, []) && Needed(reg, sel, out, [])
    ensures forall t :: t in out <==> Reaches(reg, sel, t)
  {
    ClosedHoldsReach(reg, sel, out);
  }

  // The worklist terminates on any dependency graph, cycles included, and returns
  // exactly what the selection reaches.
  method WithDeps(reg: Registry, sel: seq<Tag>) returns (out: set<Tag>)
    ensures forall t :: t in out <==> Reaches(reg, sel, t)
  {
    out := {};
    var stack := sel;
    StartAccounted(reg, sel);
    while stack != []
      invariant Accounted(reg, sel, out, stack) && Needed(reg, sel, out, stack)
      decreases |reg.Keys - out|, |stack|
    {
      var t := stack[|stack| - 1];
      SplitLast(stack);
      stack := stack[..|stack| - 1];
      TakeStep(reg, sel, out, stack, t);
      if t in reg && t !in out {
        OneFewer(reg.Keys, out, t);
        out := out + {t};
        stack := stack + reg[t].deps;
      }
    }
    WorklistDone(reg, sel, out);
  }

  lemma SplitLast<T>(s: seq<T>)
    requires s != []
    ensures s == s[..|s| - 1] + [s[|s| - 1]]
  {
  }

  lemma OneFewer<T>(all: set<T>, out: set<T>, t: T)
    requires t in all && t !in out
    ensures |all - (out + {t})| < |all - out|
  {
    assert all - out == (all - (out + {t})) + {t};
  }

  lemma ReachedIsClosed(reg: Registry, sel: seq<Tag>, out: set<Tag>)
    requires forall t :: t in out <==> Reaches(reg, sel, t)
    ensures ClosedWithin(reg, out)
  {
    forall t, d | t in out && t in reg && d in reg[t].deps && d in reg ensures d in out {
      ReachesStep(reg, sel, t, d);
    }
  }

  // What a selection reaches is its least closed superset within the registry.
  lemma LeastClosed(reg: Registry, sel: seq<Tag>, out: set<Tag>)
    requires forall t :: t in out <==> Reaches(reg, sel, t)
    ensures out <= reg.Keys
    ensures forall t :: t in sel && t in reg ==> t in out
    ensures ClosedWithin(reg, out)
    ensures forall s: set<Tag> :: ClosedWithin(reg, s) && (forall t :: t in sel && t in reg ==> t in s) ==> out <= s
  {
    forall t | t in sel && t in reg ensures t in out {
      ReachesSelf(reg, sel, t);
    }
    ReachedIsClosed(reg, sel, out);
    forall s: set<Tag> | ClosedWithin(reg, s) && (forall t :: t in sel && t in reg ==> t in s)
      ensures out <= s
    {
      ClosedHoldsReach(reg, sel, s);
    }
  }

  // --- The filters applied before a run ---

  function Keep(reg: Registry, keep: set<Tag>): Registry {
    map t | t in reg && t in keep :: reg[t]
  }

  function Without(ds: seq<Tag>, drop: set<Tag>): (r: seq<Tag>)
    ensures forall d :: d in r <==> d in ds && d !in drop
  {
    if ds == [] then []
    else (if ds[0] in drop then [] else [ds[0]]) + Without(ds[1..], drop)
  }

  // Drop the prebuilt producers and strip them from every remaining step's deps.
  function StripPrebuilt(reg: Registry, prebuilt: set<Tag>): Registry {
    map t | t in reg && t !in prebuilt :: reg[t].(deps := Without(reg[t].deps, prebuilt))
  }

  lemma {:induction false} WithoutInOrder(ds: seq<Tag>, drop: set<Tag>)
    ensures Subsequence(Without(ds, drop), ds)
  {
    if ds != [] {
      WithoutInOrder(ds[1..], drop);
      var rest := Without(ds[1..], drop);
      if ds[0] in drop {
        SubsequenceCons(rest, ds[1..], ds[0]);
        assert Without(ds, drop) == rest;
      } else {
        SubsequenceSame(rest, ds[1..], ds[0]);
      }
      assert ds == [ds[0]] + ds[1..];
    }
  }

  lemma {:induction false} WithoutAsOften(ds: seq<Tag>, drop: set<Tag>, d: Tag)
    ensures multiset(Without(ds, drop))[d] == if d in drop then 0 else multiset(ds)[d]
  {
    if ds != [] {
      WithoutAsOften(ds[1..], drop, d);
      assert ds == [ds[0]] + ds[1..];
    }
  }

  // Stripping keeps every other step with its needs, and of its dependencies all but the prebuilt
  // ones, in order and as often as before.
  lemma StrippedExactly(reg: Registry, prebuilt: set<Tag>)
    ensures StripPrebuilt(reg, prebuilt).Keys == reg.Keys - prebuilt
    ensures forall t :: t in reg && t !in prebuilt ==>
      var step := StripPrebuilt(reg, prebuilt)[t];
      && step.needs == reg[t].needs && Subsequence(step.deps, reg[t].deps)
      && forall d :: multiset(step.deps)[d] == if d in prebuilt then 0 else multiset(reg[t].deps)[d]
  {
    forall t | t in reg && t !in prebuilt ensures Subsequence(Without(reg[t].deps, prebuilt), reg[t].deps) {
      WithoutInOrder(reg[t].deps, prebuilt);
    }
    forall t, d | t in reg && t !in prebuilt
      ensures multiset(Without(reg[t].deps, prebuilt))[d] == if d in prebuilt then 0 else multiset(reg[t].deps)[d]
    {
      WithoutAsOften(reg[t].deps, prebuilt, d);
    }
  }

  // A selection or an opt-out leaves the kept steps as they are.
  lemma KeptUnchanged(reg: Registry, keep: set<Tag>)
    ensures Keep(reg, keep).Keys == reg.Keys * keep
    ensures forall t :: t in reg && t in keep ==> Keep(reg, keep)[t] == reg[t]
  {
  }

  lemma SelectionKeepsProgress(reg: Registry, sel: seq<Tag>, out: set<Tag>)
    requires DepClosed(reg) && Acyclic(reg)
    requires forall t :: t in out <==> Reaches(reg, sel, t)
    ensures DepClosed(Keep(reg, out)) && Acyclic(Keep(reg, out))
  {
    ReachedIsClosed(reg, sel, out);
    var rank :| Ranks(reg, rank);
    assert Ranks(Keep(reg, out), rank);
  }

  lemma StrippingKeepsProgress(reg: Registry, prebuilt: set<Tag>)
    requires DepClosed(reg) && Acyclic(reg)
    ensures DepClosed(StripPrebuilt(reg, prebuilt)) && Acyclic(StripPrebuilt(reg, prebuilt))
  {
    var rank :| Ranks(reg, rank);
    assert Ranks(StripPrebuilt(reg, prebuilt), rank);
  }

  // Opt-out flags drop steps without touching deps: the rest stays closed exactly when
  // no kept step depends on a dropped one.
  lemma DisablingKeepsProgress(reg: Registry, disabled: set<Tag>)
    requires DepClosed(reg) && Acyclic(reg)
    ensures Acyclic(Keep(reg, reg.Keys - disabled))
    ensures DepClosed(Keep(reg, reg.Keys - disabled))
       <==> forall t, d :: t in reg && t !in disabled && d in reg[t].deps ==> d !in disabled
  {
    var rank :| Ranks(reg, rank);
    var kept := Keep(reg, reg.Keys - disabled);
    assert Ranks(kept, rank);
    if DepClosed(kept) {
      forall t, d | t in reg && t !in disabled && d in reg[t].deps ensures d !in disabled {
        assert t in kept && d in kept[t].deps;
        assert d in kept;
      }
    }
  }
}
