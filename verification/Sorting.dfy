// Stable sorting, as `sorted` and `Array.prototype.sort` promise it.
module Sorting {

  ghost predicate TotalPreorder<T(!new)>(le: (T, T) -> bool) {
    && (forall x, y :: le(x, y) || le(y, x))
    && (forall x, y, z :: le(x, y) && le(y, z) ==> le(x, z))
  }

  ghost predicate Ordered<T>(s: seq<T>, le: (T, T) -> bool) {
    forall i, j :: 0 <= i < j < |s| ==> le(s[i], s[j])
  }

  // x goes in front of its equals, so inserting from the right keeps their order.
  function Insert<T>(x: T, s: seq<T>, le: (T, T) -> bool): (r: seq<T>)
    ensures |r| == |s| + 1
  {
    if s == [] || le(x, s[0]) then [x] + s else [s[0]] + Insert(x, s[1..], le)
  }

  function Sort<T>(s: seq<T>, le: (T, T) -> bool): (r: seq<T>)
    ensures |r| == |s|
  {
    if s == [] then [] else Insert(s[0], Sort(s[1..], le), le)
  }

  // The members of s that tie with k, in order.
  ghost function Ties<T>(s: seq<T>, k: T, le: (T, T) -> bool): seq<T> {
    if s == [] then []
    else (if Tied(s[0], k, le) then [s[0]] else []) + Ties(s[1..], k, le)
  }

  lemma {:induction false} InsertMultiset<T>(x: T, s: seq<T>, le: (T, T) -> bool)
    ensures multiset(Insert(x, s, le)) == multiset{x} + multiset(s)
  {
    if s != [] && !le(x, s[0]) {
      InsertMultiset(x, s[1..], le);
      assert s == [s[0]] + s[1..];
    }
  }

  lemma {:induction false} SortMultiset<T>(s: seq<T>, le: (T, T) -> bool)
    ensures multiset(Sort(s, le)) == multiset(s)
  {
    if s != [] {
      SortMultiset(s[1..], le);
      InsertMultiset(s[0], Sort(s[1..], le), le);
      assert s == [s[0]] + s[1..];
    }
  }

  lemma {:induction false} InsertOrdered<T(!new)>(x: T, s: seq<T>, le: (T, T) -> bool)
    requires TotalPreorder(le) && Ordered(s, le)
    ensures Ordered(Insert(x, s, le), le)
  {
    if s != [] && !le(x, s[0]) {
      InsertOrdered(x, s[1..], le);
      var r := Insert(x, s[1..], le);
      InsertMultiset(x, s[1..], le);
      forall j | 0 <= j < |r| ensures le(s[0], r[j]) {
        assert r[j] in multiset(r);
      }
    }
  }

  lemma {:induction false} SortOrdered<T(!new)>(s: seq<T>, le: (T, T) -> bool)
    requires TotalPreorder(le)
    ensures Ordered(Sort(s, le), le)
  {
    if s != [] {
      SortOrdered(s[1..], le);
      InsertOrdered(s[0], Sort(s[1..], le), le);
    }
  }

  ghost predicate Tied<T>(x: T, k: T, le: (T, T) -> bool) {
    le(x, k) && le(k, x)
  }

  lemma TiesCons<T>(x: T, s: seq<T>, k: T, le: (T, T) -> bool)
    ensures Ties([x] + s, k, le) == (if Tied(x, k, le) then [x] else []) + Ties(s, k, le)
  {
    assert ([x] + s)[1..] == s;
  }

  lemma {:induction false} InsertTies<T(!new)>(x: T, s: seq<T>, k: T, le: (T, T) -> bool)
    requires TotalPreorder(le)
    ensures Ties(Insert(x, s, le), k, le) == (if Tied(x, k, le) then [x] else []) + Ties(s, k, le)
  {
    TiesCons(x, s, k, le);
    if s != [] && !le(x, s[0]) {
      InsertTies(x, s[1..], k, le);
      TiesCons(s[0], Insert(x, s[1..], le), k, le);
      assert !(le(x, k) && le(k, s[0]));
      assert !Tied(x, k, le) || !Tied(s[0], k, le);
    }
  }

  // Equal elements keep the order they came in.
  lemma {:induction false} SortStable<T(!new)>(s: seq<T>, k: T, le: (T, T) -> bool)
    requires TotalPreorder(le)
    ensures Ties(Sort(s, le), k, le) == Ties(s, k, le)
  {
    if s != [] {
      SortStable(s[1..], k, le);
      InsertTies(s[0], Sort(s[1..], le), k, le);
    }
  }

  lemma SameMembers<T>(s: seq<T>, le: (T, T) -> bool)
    ensures forall x :: x in Sort(s, le) <==> x in s
  {
    SortMultiset(s, le);
    forall x ensures x in Sort(s, le) <==> x in s {
      assert x in Sort(s, le) <==> x in multiset(Sort(s, le));
    }
  }

  ghost predicate NoDup<T(!new)>(s: seq<T>) {
    forall i, j :: 0 <= i < j < |s| ==> s[i] != s[j]
  }

  lemma {:induction false} InsertNoDup<T(!new)>(x: T, s: seq<T>, le: (T, T) -> bool)
    requires NoDup(s) && x !in s
    ensures NoDup(Insert(x, s, le))
  {
    if s != [] && !le(x, s[0]) {
      InsertNoDup(x, s[1..], le);
      var r := Insert(x, s[1..], le);
      InsertMultiset(x, s[1..], le);
      forall j | 0 <= j < |r| ensures r[j] != s[0] {
        assert r[j] in multiset(r);
      }
    }
  }

  lemma {:induction false} SortNoDup<T(!new)>(s: seq<T>, le: (T, T) -> bool)
    requires NoDup(s)
    ensures NoDup(Sort(s, le))
  {
    if s != [] {
      SortNoDup(s[1..], le);
      SameMembers(s[1..], le);
      InsertNoDup(s[0], Sort(s[1..], le), le);
    }
  }

  // --- Which of two elements comes first ---

  ghost predicate Before<T>(s: seq<T>, a: T, b: T) {
    exists i, j :: 0 <= i < j < |s| && s[i] == a && s[j] == b
  }

  lemma BeforeFront<T>(x: T, s: seq<T>, a: T, b: T)
    ensures Before([x] + s, a, b) <==> (x == a && b in s) || Before(s, a, b)
  {
    var t := [x] + s;
    if i, j :| 0 <= i < j < |t| && t[i] == a && t[j] == b {
      assert t[j] == s[j - 1];
      if i > 0 {
        assert s[i - 1] == a && s[j - 1] == b;
      }
    }
    if x == a && b in s {
      var j :| 0 <= j < |s| && s[j] == b;
      assert t[0] == a && t[j + 1] == b;
    }
    if i, j :| 0 <= i < j < |s| && s[i] == a && s[j] == b {
      assert t[i + 1] == a && t[j + 1] == b;
    }
  }

  lemma {:induction false} TiesMembers<T>(s: seq<T>, k: T, le: (T, T) -> bool, x: T)
    ensures x in Ties(s, k, le) <==> x in s && Tied(x, k, le)
  {
    if s != [] {
      TiesMembers(s[1..], k, le, x);
      assert x in s <==> x == s[0] || x in s[1..];
    }
  }

  lemma {:induction false} TiesBefore<T>(s: seq<T>, k: T, le: (T, T) -> bool, a: T, b: T)
    requires Tied(a, k, le) && Tied(b, k, le)
    ensures Before(Ties(s, k, le), a, b) <==> Before(s, a, b)
  {
    if s != [] {
      TiesBefore(s[1..], k, le, a, b);
      TiesMembers(s[1..], k, le, b);
      assert s == [s[0]] + s[1..];
      BeforeFront(s[0], s[1..], a, b);
      var rest := Ties(s[1..], k, le);
      BeforeFront(s[0], rest, a, b);
      if Tied(s[0], k, le) {
        assert Ties(s, k, le) == [s[0]] + rest;
      } else {
        assert Ties(s, k, le) == rest;
      }
    }
  }

  lemma OneIsBefore<T(!new)>(s: seq<T>, a: T, b: T)
    requires NoDup(s) && a in s && b in s && a != b
    ensures Before(s, a, b) <==> !Before(s, b, a)
  {
    var i :| 0 <= i < |s| && s[i] == a;
    var j :| 0 <= j < |s| && s[j] == b;
    assert i < j || j < i;
  }

  lemma OrderedBefore<T(!new)>(s: seq<T>, le: (T, T) -> bool, a: T, b: T)
    requires Ordered(s, le) && Before(s, a, b)
    ensures le(a, b)
  {
  }

  // Sorting puts a before b exactly when it must, or when they tie and a was before b.
  lemma SortBefore<T(!new)>(s: seq<T>, le: (T, T) -> bool, a: T, b: T)
    requires TotalPreorder(le) && NoDup(s) && a in s && b in s && a != b
    ensures Before(Sort(s, le), a, b) <==> le(a, b) && (le(b, a) ==> Before(s, a, b))
  {
    var t := Sort(s, le);
    SortOrdered(s, le);
    SortNoDup(s, le);
    SameMembers(s, le);
    OneIsBefore(t, a, b);
    if Tied(a, b, le) {
      SortStable(s, b, le);
      TiesBefore(s, b, le, a, b);
      TiesBefore(t, b, le, a, b);
    } else if Before(t, a, b) {
      OrderedBefore(t, le, a, b);
    } else {
      OrderedBefore(t, le, b, a);
    }
  }
}
