// The part of Python's regular expressions the oracle uses: a backtracking matcher over a
// sequence of items, tried in Python's order, and what it finds.
module Regex {
  import opened Digits
  import opened Options
  import opened Texts

  datatype Class = Dot | DotNotAt(word: string) | Digit | UpperOrDigit | Blank

  // Literal text; a class repeated at least `min` times, as few or as many as possible; an
  // optional character; a word boundary; the end, which also stands before a closing newline.
  datatype Item =
    | Text(text: string)
    | Rep(cls: Class, min: nat, lazy: bool)
    | Maybe(c: char)
    | WordEdge
    | End

  predicate IsWord(c: char) {
    IsDigit(c, 10) || 'a' <= c <= 'z' || 'A' <= c <= 'Z' || c == '_'
  }

  predicate In(cls: Class, s: string, i: nat)
    requires i < |s|
  {
    match cls
    case Dot => s[i] != '\n'
    case DotNotAt(word) => !StartsAt(s, i, word) && s[i] != '\n'
    case Digit => IsDigit(s[i], 10)
    case UpperOrDigit => IsDigit(s[i], 10) || 'A' <= s[i] <= 'Z'
    case Blank => IsBlank(s[i])
  }

  predicate AtWordEdge(s: string, i: nat)
    requires i <= |s|
  {
    (i > 0 && IsWord(s[i - 1])) != (i < |s| && IsWord(s[i]))
  }

  // --- What a match is: one end for each item ---

  predicate Spans(item: Item, s: string, i: nat, j: nat)
    requires i <= j <= |s|
  {
    match item
    case Text(t) => s[i..j] == t
    case Rep(cls, min, _) => min <= j - i && forall k :: i <= k < j ==> In(cls, s, k)
    case Maybe(c) => j == i || (j == i + 1 && s[i] == c)
    case WordEdge => j == i && AtWordEdge(s, i)
    case End => j == i && (i == |s| || (i == |s| - 1 && s[i] == '\n'))
  }

  predicate Fits(items: seq<Item>, s: string, i: nat, ends: seq<nat>)
    decreases |items|
  {
    |ends| == |items| && i <= |s| &&
    (items == [] || (i <= ends[0] <= |s| && Spans(items[0], s, i, ends[0]) && Fits(items[1..], s, ends[0], ends[1..])))
  }

  // --- The backtracking search ---

  function Then(end: nat, rest: Option<seq<nat>>): Option<seq<nat>> {
    if rest.Some? then Some([end] + rest.value) else None
  }

  function Match(items: seq<Item>, s: string, i: nat): (r: Option<seq<nat>>)
    requires i <= |s|
    ensures r.Some? ==> Fits(items, s, i, r.value)
    decreases |items|, |s| - i, 1
  {
    if items == [] then Some([])
    else
      match items[0]
      case Text(t) =>
        if StartsAt(s, i, t) then Then(i + |t|, Match(items[1..], s, i + |t|)) else None
      case Rep(cls, min, lazy) => Extend(items, s, i, i)
      case Maybe(c) =>
        var taken := if i < |s| && s[i] == c then Then(i + 1, Match(items[1..], s, i + 1)) else None;
        if taken.Some? then taken else Then(i, Match(items[1..], s, i))
      case WordEdge =>
        if AtWordEdge(s, i) then Then(i, Match(items[1..], s, i)) else None
      case End =>
        if i == |s| || (i == |s| - 1 && s[i] == '\n') then Then(i, Match(items[1..], s, i)) else None
  }

  // The repetition at the front of `items` has taken s[i..j].
  function Extend(items: seq<Item>, s: string, i: nat, j: nat): (r: Option<seq<nat>>)
    requires items != [] && items[0].Rep? && i <= j <= |s|
    requires forall k :: i <= k < j ==> In(items[0].cls, s, k)
    ensures r.Some? ==> Fits(items, s, i, r.value)
    decreases |items|, |s| - j, 0
  {
    var stop := if items[0].min <= j - i then Then(j, Match(items[1..], s, j)) else None;
    if items[0].lazy then
      if stop.Some? then stop
      else if j < |s| && In(items[0].cls, s, j) then Extend(items, s, i, j + 1) else None
    else
      var more := if j < |s| && In(items[0].cls, s, j) then Extend(items, s, i, j + 1) else None;
      if more.Some? then more else stop
  }

  // The search finds a match whenever there is one.
  lemma {:induction false} MatchComplete(items: seq<Item>, s: string, i: nat, ends: seq<nat>)
    requires i <= |s| && Fits(items, s, i, ends)
    ensures Match(items, s, i).Some?
    decreases |items|, |s| - i, 1
  {
    if items != [] {
      if items[0].Rep? {
        ExtendComplete(items, s, i, i, ends);
      } else {
        MatchComplete(items[1..], s, ends[0], ends[1..]);
      }
    }
  }

  lemma {:induction false} ExtendComplete(items: seq<Item>, s: string, i: nat, j: nat, ends: seq<nat>)
    requires items != [] && items[0].Rep? && i <= j <= |s| && Fits(items, s, i, ends) && j <= ends[0]
    requires forall k :: i <= k < j ==> In(items[0].cls, s, k)
    ensures Extend(items, s, i, j).Some?
    decreases |items|, |s| - j, 0
  {
    if j < ends[0] {
      ExtendComplete(items, s, i, j + 1, ends);
    } else {
      MatchComplete(items[1..], s, j, ends[1..]);
    }
  }

  lemma MatchExactly(items: seq<Item>, s: string, i: nat)
    requires i <= |s|
    ensures Match(items, s, i).Some? <==> Matches(items, s, i)
  {
    var r := Match(items, s, i);
    if r.Some? {
      assert Fits(items, s, i, r.value);
    } else if Matches(items, s, i) {
      var ends: seq<nat> :| Fits(items, s, i, ends);
      MatchComplete(items, s, i, ends);
    }
  }

  ghost predicate Matches(items: seq<Item>, s: string, i: nat) {
    exists ends: seq<nat> :: Fits(items, s, i, ends)
  }

  // re.search: the first start from i on that matches.
  function Search(items: seq<Item>, s: string, i: nat): (r: Option<nat>)
    requires i <= |s|
    ensures r.Some? ==> i <= r.value <= |s| && Match(items, s, r.value).Some?
    ensures forall k :: i <= k <= |s| && Match(items, s, k).Some? ==> r.Some? && r.value <= k
    decreases |s| - i
  {
    if Match(items, s, i).Some? then Some(i)
    else if i == |s| then None
    else Search(items, s, i + 1)
  }

  // --- Which match is found ---

  // A lazy repetition ends at the first place the rest matches.
  lemma {:induction false} LazyEnd(items: seq<Item>, s: string, i: nat, at: nat, j: nat)
    requires items != [] && items[0].Rep? && items[0].lazy && i <= at <= j <= |s| && i + items[0].min <= j
    requires forall k :: i <= k < j ==> In(items[0].cls, s, k)
    requires forall k :: at <= k < j && i + items[0].min <= k ==> Match(items[1..], s, k).None?
    requires Match(items[1..], s, j).Some?
    ensures Extend(items, s, i, at) == Then(j, Match(items[1..], s, j))
    decreases j - at
  {
    if at < j {
      LazyEnd(items, s, i, at + 1, j);
    }
  }

  // A greedy repetition takes everything it can when the rest matches there.
  lemma {:induction false} GreedyEnd(items: seq<Item>, s: string, i: nat, at: nat, j: nat)
    requires items != [] && items[0].Rep? && !items[0].lazy && i <= at <= j <= |s| && i + items[0].min <= j
    requires forall k :: i <= k < j ==> In(items[0].cls, s, k)
    requires j == |s| || !In(items[0].cls, s, j)
    requires Match(items[1..], s, j).Some?
    ensures Extend(items, s, i, at) == Then(j, Match(items[1..], s, j))
    decreases j - at
  {
    if at < j {
      GreedyEnd(items, s, i, at + 1, j);
    }
  }

  // No occurrence of t starts in s[i..j].
  ghost predicate FreeOf(s: string, i: nat, j: nat, t: string) {
    forall k :: i <= k < j ==> !StartsAt(s, k, t)
  }

  // Item n can take s[i..j], and the search tries nothing else before it: a greedy run stops where
  // it must, a lazy one at the first occurrence of the literal after it.
  ghost predicate Takes(items: seq<Item>, n: nat, s: string, i: nat, j: nat) {
    n < |items| && i <= j <= |s| && Spans(items[n], s, i, j) &&
    match items[n]
    case Rep(cls, min, lazy) =>
      if lazy
      then n + 1 < |items| && items[n + 1].Text? && FreeOf(s, i + min, j, items[n + 1].text)
      else j == |s| || !In(cls, s, j)
    case Maybe(c) => j == i ==> i == |s| || s[i] != c
    case _ => true
  }

  function EndOf(i: nat, ends: seq<nat>, n: nat): nat
    requires n <= |ends|
  {
    if n == 0 then i else ends[n - 1]
  }

  // Then those are the ends the search finds.
  lemma {:induction false} TakesFound(items: seq<Item>, s: string, i: nat, ends: seq<nat>, n: nat)
    requires |ends| == |items| && n <= |items| && EndOf(i, ends, n) <= |s|
    requires forall m: nat :: n <= m < |items| ==> Takes(items, m, s, EndOf(i, ends, m), ends[m])
    ensures Match(items[n..], s, EndOf(i, ends, n)) == Some(ends[n..])
    decreases |items| - n
  {
    if n == |items| {
      assert items[n..] == [] && ends[n..] == [];
    } else {
      var at, j := EndOf(i, ends, n), ends[n];
      assert Takes(items, n, s, at, j);
      TakesFound(items, s, i, ends, n + 1);
      ItemFound(items, n, s, at, j);
      assert [j] + ends[n + 1..] == ends[n..];
    }
  }

  lemma ItemFound(items: seq<Item>, n: nat, s: string, i: nat, j: nat)
    requires Takes(items, n, s, i, j) && Match(items[n + 1..], s, j).Some?
    ensures Match(items[n..], s, i) == Then(j, Match(items[n + 1..], s, j))
  {
    var here := items[n..];
    assert here[1..] == items[n + 1..];
    if items[n].Rep? {
      assert n + 1 < |items| ==> here[1] == items[n + 1];
      RunFound(here, s, i, j);
    }
  }

  lemma RunFound(items: seq<Item>, s: string, i: nat, j: nat)
    requires Takes(items, 0, s, i, j) && items[0].Rep? && Match(items[1..], s, j).Some?
    ensures Match(items, s, i) == Then(j, Match(items[1..], s, j))
  {
    if items[0].lazy {
      LazyEnd(items, s, i, i, j);
    } else {
      GreedyEnd(items, s, i, i, j);
    }
  }

  // --- Text put together from pieces, one for each item ---

  function Offset(pieces: seq<string>, n: nat): nat
    requires n <= |pieces|
  {
    if n == 0 then 0 else |pieces[0]| + Offset(pieces[1..], n - 1)
  }

  lemma {:induction false} PieceAt(pieces: seq<string>, n: nat)
    requires n < |pieces|
    ensures StartsAt(Concat(pieces), Offset(pieces, n), pieces[n])
    ensures Offset(pieces, n + 1) == Offset(pieces, n) + |pieces[n]| <= |Concat(pieces)|
    ensures n + 1 == |pieces| ==> Offset(pieces, n + 1) == |Concat(pieces)|
  {
    var s, rest := Concat(pieces), Concat(pieces[1..]);
    if n > 0 {
      PieceAt(pieces[1..], n - 1);
      assert s[|pieces[0]|..] == rest;
    }
  }

  // An occurrence inside a slice is an occurrence in the text the slice spells.
  lemma SliceStarts(s: string, i: nat, part: string, t: string, k: nat)
    requires i <= k && StartsAt(s, i, part) && k + |t| <= i + |part| && StartsAt(s, k, t)
    ensures Contains(part, t)
  {
    var at := k - i;
    forall n | 0 <= n < |t| ensures part[at + n] == t[n] {
      assert part[at + n] == s[i..i + |part|][at + n] == s[k + n] == s[k..k + |t|][n];
    }
    assert part[at..at + |t|] == t;
    assert StartsAt(part, at, t);
  }

  lemma SearchFirst(items: seq<Item>, s: string, i: nat, p: nat)
    requires i <= p <= |s| && Match(items, s, p).Some? && forall k :: i <= k < p ==> Match(items, s, k).None?
    ensures Search(items, s, i) == Some(p)
  {
  }
}
