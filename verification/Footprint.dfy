// The worst-case memory model of a run: per-step caps, the footprint at -jN, and its inverse.
module Footprint {
  import opened Bounds
  import opened Sorting
  import opened Steps
  import opened Sums

  datatype Entry = Entry(tag: Tag, base: nat)

  // `entries` is the per-step baseline table; the cap factor is the fraction num/den.
  datatype MemModel = MemModel(entries: seq<Entry>, total: nat, num: nat, den: nat)

  // A dict has distinct keys; a zero baseline would leave a None among the sorted caps.
  ghost predicate ValidModel(m: MemModel) {
    && m.den > 0
    && DistinctTags(m.entries)
    && forall i :: 0 <= i < |m.entries| ==> m.entries[i].base > 0
  }

  ghost predicate DistinctTags(es: seq<Entry>) {
    forall i, j :: 0 <= i < j < |es| ==> es[i].tag != es[j].tag
  }

  function Scale(m: MemModel, bytes: nat): nat
    requires m.den > 0
  {
    bytes * m.num / m.den
  }

  // The cap is the factor times the baseline, rounded down.
  lemma ScaleExactly(m: MemModel, bytes: nat, cap: nat)
    requires m.den > 0
    ensures cap == Scale(m, bytes) <==> cap * m.den <= bytes * m.num < (cap + 1) * m.den
  {
    QuotientExactly(bytes * m.num, m.den, cap);
  }

  lemma QuotientExactly(n: nat, d: nat, q: nat)
    requires d > 0
    ensures q == n / d <==> q * d <= n < (q + 1) * d
  {
    var r := n / d;
    assert n == r * d + n % d;
    if q < r {
      assert (q + 1) * d <= r * d;
    } else if q > r {
      assert (r + 1) * d <= q * d;
    }
  }

  datatype Cap = NoCap | Cap(bytes: nat)

  function Lookup(es: seq<Entry>, t: Tag): nat {
    if es == [] then 0 else if es[0].tag == t then es[0].base else Lookup(es[1..], t)
  }

  function CapIn(m: MemModel, es: seq<Entry>, t: Tag): Cap
    requires m.den > 0
  {
    var base := Lookup(es, t);
    if base != 0 then Cap(Scale(m, base)) else NoCap
  }

  function StepCap(m: MemModel, t: Tag): Cap
    requires m.den > 0
  {
    CapIn(m, m.entries, t)
  }

  // What a cap adds up to; a step without one is not counted.
  function Counted(c: Cap): nat {
    if c.Cap? then c.bytes else 0
  }

  function OuterCap(m: MemModel): nat
    requires m.den > 0
  {
    Scale(m, m.total)
  }

  // Step and run are capped by the same factor: a step by that of its baseline, if it has one, the
  // run by that of the whole run's.
  lemma CapsExactly(m: MemModel, t: Tag, base: nat)
    requires ValidModel(m) && Entry(t, base) in m.entries
    ensures StepCap(m, t) == Cap(Scale(m, base)) && OuterCap(m) == Scale(m, m.total)
  {
    LookupFinds(m.entries, t, base);
  }

  lemma {:induction false} LookupFinds(es: seq<Entry>, t: Tag, base: nat)
    requires DistinctTags(es) && Entry(t, base) in es
    ensures Lookup(es, t) == base
  {
    if es[0] != Entry(t, base) {
      var i :| 0 <= i < |es| && es[i] == Entry(t, base);
      assert es[1..][i - 1] == es[i];
      LookupFinds(es[1..], t, base);
    }
  }

  predicate Geq(a: nat, b: nat) {
    a >= b
  }

  function CapsOf(m: MemModel, es: seq<Entry>): seq<nat>
    requires m.den > 0
  {
    seq(|es|, i requires 0 <= i < |es| => Scale(m, es[i].base))
  }

  function SortedCaps(m: MemModel): seq<nat>
    requires m.den > 0
  {
    Sort(CapsOf(m, m.entries), Geq)
  }

  // sum(caps[:n])
  function SumFirst(s: seq<nat>, n: nat): nat {
    if n == 0 || s == [] then 0 else s[0] + SumFirst(s[1..], n - 1)
  }

  function JobsFootprint(m: MemModel, jobs: int): int
    requires m.den > 0
  {
    var caps := SortedCaps(m);
    if caps == [] then OuterCap(m)
    else Min(SumFirst(caps, Max(1, jobs)), OuterCap(m))
  }

  // --- What a set of running steps can use ---

  // The sum of the caps of the characterised steps in `running`.
  ghost function CapSum(m: MemModel, es: seq<Entry>, running: set<Tag>): nat
    requires m.den > 0
  {
    if es == [] then 0
    else (if es[0].tag in running then Scale(m, es[0].base) else 0) + CapSum(m, es[1..], running)
  }

  ghost function CountIn(es: seq<Entry>, running: set<Tag>): nat {
    if es == [] then 0
    else (if es[0].tag in running then 1 else 0) + CountIn(es[1..], running)
  }

  // Memory a run may hold: each running characterised step up to its inner cap, all within
  // the outer cap.
  ghost function WorstUse(m: MemModel, running: set<Tag>): int
    requires m.den > 0
  {
    Min(CapSum(m, m.entries, running), OuterCap(m))
  }

  lemma {:induction false} LookupMissing(es: seq<Entry>, t: Tag)
    requires forall i :: 0 <= i < |es| ==> es[i].tag != t
    ensures Lookup(es, t) == 0
  {
    if es != [] {
      LookupMissing(es[1..], t);
    }
  }

  lemma {:induction false} CapSumAdds(m: MemModel, es: seq<Entry>, running: set<Tag>, f: Tag -> int)
    requires m.den > 0 && DistinctTags(es) && forall i :: 0 <= i < |es| ==> es[i].base > 0
    requires forall t :: f(t) == Counted(CapIn(m, es, t))
    ensures CapSum(m, es, running) == SumOver(running, f)
  {
    if es == [] {
      SumConstant(running, f, 0);
    } else {
      var rest, x := es[1..], es[0].tag;
      var g := (t: Tag) => Counted(CapIn(m, rest, t)) as int;
      CapSumAdds(m, rest, running, g);
      LookupMissing(rest, x);
      if x in running {
        SumBump(running, f, g, x, Scale(m, es[0].base));
      } else {
        SumSame(running, f, g);
      }
    }
  }

  // The caps summed here are those the steps run under: for every running step its own inner
  // cap, nothing for a step without one.
  lemma CapSumIsStepCaps(m: MemModel, running: set<Tag>)
    requires ValidModel(m)
    ensures CapSum(m, m.entries, running) == SumOver(running, t => Counted(StepCap(m, t)))
  {
    CapSumAdds(m, m.entries, running, t => Counted(StepCap(m, t)));
  }

  lemma {:induction false} CountAtMostSize(es: seq<Entry>, running: set<Tag>)
    requires DistinctTags(es)
    ensures CountIn(es, running) <= |running|
  {
    if es != [] {
      var t := es[0].tag;
      if t in running {
        CountAtMostSize(es[1..], running - {t});
        CountIrrelevant(es[1..], running, t);
      } else {
        CountAtMostSize(es[1..], running);
      }
    }
  }

  lemma {:induction false} CountIrrelevant(es: seq<Entry>, running: set<Tag>, t: Tag)
    requires forall i :: 0 <= i < |es| ==> es[i].tag != t
    ensures CountIn(es, running) == CountIn(es, running - {t})
  {
    if es != [] {
      CountIrrelevant(es[1..], running, t);
    }
  }

  lemma {:induction false} CapSumIrrelevant(m: MemModel, es: seq<Entry>, running: set<Tag>, t: Tag)
    requires m.den > 0
    requires forall i :: 0 <= i < |es| ==> es[i].tag != t
    ensures CapSum(m, es, running) == CapSum(m, es, running + {t})
  {
    if es != [] {
      CapSumIrrelevant(m, es[1..], running, t);
    }
  }

  lemma GeqOrder()
    ensures TotalPreorder(Geq)
  {
  }

  // In a descending list, shifting the window right never helps.
  lemma {:induction false} WindowShift(s: seq<nat>, n: nat)
    requires s != [] && Ordered(s, Geq) && n > 0
    ensures SumFirst(s, n) <= s[0] + SumFirst(s, n - 1)
  {
    if |s| > 1 && n > 1 {
      WindowShift(s[1..], n - 1);
    }
  }

  // Adding x to the list makes the best n either the old best n, or x with the old best n - 1.
  lemma {:induction false} InsertBest(x: nat, s: seq<nat>, n: nat)
    requires Ordered(s, Geq) && n > 0
    ensures SumFirst(Insert(x, s, Geq), n) == Max(SumFirst(s, n), x + SumFirst(s, n - 1))
  {
    if s == [] || Geq(x, s[0]) {
      assert ([x] + s)[1..] == s;
      if s != [] {
        WindowShift(s, n);
      }
    } else {
      var r := Insert(x, s[1..], Geq);
      assert ([s[0]] + r)[1..] == r;
      if n == 1 {
      } else {
        InsertBest(x, s[1..], n - 1);
      }
    }
  }

  lemma CapsTail(m: MemModel, es: seq<Entry>)
    requires m.den > 0 && es != []
    ensures CapsOf(m, es) != [] && CapsOf(m, es)[0] == Scale(m, es[0].base)
    ensures CapsOf(m, es)[1..] == CapsOf(m, es[1..])
  {
  }

  // No choice of at most n steps outweighs the n largest caps.
  lemma {:induction false} PrefixDominates(m: MemModel, es: seq<Entry>, running: set<Tag>, n: nat)
    requires m.den > 0 && CountIn(es, running) <= n
    ensures CapSum(m, es, running) <= SumFirst(Sort(CapsOf(m, es), Geq), n)
  {
    if es != [] {
      CapsTail(m, es);
      GeqOrder();
      var s := Sort(CapsOf(m, es[1..]), Geq);
      SortOrdered(CapsOf(m, es[1..]), Geq);
      if es[0].tag in running {
        PrefixDominates(m, es[1..], running, n - 1);
        InsertBest(Scale(m, es[0].base), s, n);
      } else {
        PrefixDominates(m, es[1..], running, n);
        if n > 0 {
          InsertBest(Scale(m, es[0].base), s, n);
        }
      }
    }
  }

  ghost predicate Characterised(es: seq<Entry>, t: Tag) {
    exists i :: 0 <= i < |es| && es[i].tag == t
  }

  lemma CharacterisedTail(es: seq<Entry>, t: Tag)
    requires es != []
    ensures Characterised(es, es[0].tag)
    ensures Characterised(es[1..], t) ==> Characterised(es, t)
    ensures DistinctTags(es) && Characterised(es[1..], t) ==> t != es[0].tag
  {
    assert es[0].tag == es[0].tag;
    if Characterised(es[1..], t) {
      var i :| 0 <= i < |es[1..]| && es[1..][i].tag == t;
      assert es[i + 1].tag == t;
    }
  }

  // And some choice of at most n characterised steps attains them.
  lemma {:induction false} PrefixAttained(m: MemModel, es: seq<Entry>, n: nat) returns (running: set<Tag>)
    requires m.den > 0 && DistinctTags(es)
    ensures forall t :: t in running ==> Characterised(es, t)
    ensures |running| <= n
    ensures CapSum(m, es, running) == SumFirst(Sort(CapsOf(m, es), Geq), n)
  {
    running := {};
    if es == [] {
    } else if n == 0 {
      NothingRuns(m, es);
    } else {
      CapsTail(m, es);
      GeqOrder();
      var c, s := Scale(m, es[0].base), Sort(CapsOf(m, es[1..]), Geq);
      SortOrdered(CapsOf(m, es[1..]), Geq);
      InsertBest(c, s, n);
      var take := SumFirst(s, n) <= c + SumFirst(s, n - 1);
      var rest := PrefixAttained(m, es[1..], if take then n - 1 else n);
      forall t ensures (t in rest ==> Characterised(es, t) && t != es[0].tag) && Characterised(es, es[0].tag) {
        CharacterisedTail(es, t);
      }
      running := if take then rest + {es[0].tag} else rest;
      if take {
        CapSumIrrelevant(m, es[1..], rest, es[0].tag);
      }
    }
  }

  lemma {:induction false} NothingRuns(m: MemModel, es: seq<Entry>)
    requires m.den > 0
    ensures CapSum(m, es, {}) == 0
  {
    if es != [] {
      NothingRuns(m, es[1..]);
    }
  }

  ghost predicate Attained(m: MemModel, jobs: int)
    requires m.den > 0
  {
    exists running: set<Tag> :: |running| <= Max(1, jobs) && WorstUse(m, running) == JobsFootprint(m, jobs)
  }

  // The footprint bounds every set of at most max(1, jobs) running steps, and is reached by one
  // exactly when some step has a baseline: without any it is the outer cap, which no inner cap
  // bears out (unless it is zero).
  lemma FootprintIsWorstCase(m: MemModel, jobs: int)
    requires ValidModel(m)
    ensures forall running: set<Tag> :: |running| <= Max(1, jobs) ==> WorstUse(m, running) <= JobsFootprint(m, jobs)
    ensures Attained(m, jobs) <==> m.entries != [] || OuterCap(m) == 0
    ensures m.entries == [] ==> JobsFootprint(m, jobs) == OuterCap(m)
  {
    forall running: set<Tag> | |running| <= Max(1, jobs) ensures WorstUse(m, running) <= JobsFootprint(m, jobs) {
      FootprintBounds(m, jobs, running);
    }
    SortMultiset(CapsOf(m, m.entries), Geq);
    assert |SortedCaps(m)| == |multiset(SortedCaps(m))| == |multiset(CapsOf(m, m.entries))| == |m.entries|;
    if m.entries != [] {
      var running := PrefixAttained(m, m.entries, Max(1, jobs));
      assert WorstUse(m, running) == JobsFootprint(m, jobs);
    } else {
      var nobody: set<Tag> := {};
      assert |nobody| <= Max(1, jobs) && WorstUse(m, nobody) == Min(0, OuterCap(m));
    }
  }

  lemma FootprintBounds(m: MemModel, jobs: int, running: set<Tag>)
    requires ValidModel(m) && |running| <= Max(1, jobs)
    ensures WorstUse(m, running) <= JobsFootprint(m, jobs)
  {
    CountAtMostSize(m.entries, running);
    PrefixDominates(m, m.entries, running, Max(1, jobs));
  }

  lemma {:induction false} SumFirstMonotone(s: seq<nat>, n: nat, n': nat)
    requires n <= n'
    ensures SumFirst(s, n) <= SumFirst(s, n')
  {
    if n > 0 && s != [] {
      SumFirstMonotone(s[1..], n - 1, n' - 1);
    }
  }

  lemma FootprintMonotone(m: MemModel, n: int, n': int)
    requires m.den > 0 && n <= n'
    ensures JobsFootprint(m, n) <= JobsFootprint(m, n')
  {
    SumFirstMonotone(SortedCaps(m), Max(1, n), Max(1, n'));
  }

  // Stopping at the first -jN that does not fit still finds the largest one that does.
  method JobsForBudget(m: MemModel, budget: int, ncpu: int) returns (best: int, footprint: int)
    requires m.den > 0 && ncpu >= 1
    ensures 1 <= best <= ncpu
    ensures footprint == JobsFootprint(m, best)
    ensures forall n :: 1 <= n <= ncpu && JobsFootprint(m, n) <= budget ==> n <= best
    ensures footprint <= budget <==> JobsFootprint(m, 1) <= budget
    ensures footprint > budget ==> best == 1
  {
    best := 1;
    var n := 1;
    while n <= ncpu
      invariant 1 <= n <= ncpu + 1
      invariant best == Max(1, n - 1)
      invariant n > 1 ==> JobsFootprint(m, n - 1) <= budget
    {
      if JobsFootprint(m, n) <= budget {
        best := n;
      } else {
        break;
      }
      n := n + 1;
    }
    footprint := JobsFootprint(m, best);
    FootprintMonotone(m, 1, best);
    forall k | 1 <= k <= ncpu && JobsFootprint(m, k) <= budget ensures k <= best {
      if k > best && n <= ncpu {
        FootprintMonotone(m, n, k);
      }
    }
  }
}
