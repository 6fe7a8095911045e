// Splitting a text at a separator, and putting it together again.
module Splitting {
  import opened Regex
  import opened Texts

  // str.split: the parts between the occurrences of the separator, left to right; s[at..i] is the
  // part being read.
  function SplitFrom(s: string, sep: string, at: nat, i: nat): (parts: seq<string>)
    requires at <= i <= |s| && sep != ""
    ensures parts != []
    decreases |s| - i
  {
    if i == |s| then [s[at..]]
    else if StartsAt(s, i, sep) then [s[at..i]] + SplitFrom(s, sep, i + |sep|, i + |sep|)
    else SplitFrom(s, sep, at, i + 1)
  }

  function Split(s: string, sep: string): (parts: seq<string>)
    requires sep != ""
    ensures parts != []
  {
    SplitFrom(s, sep, 0, 0)
  }

  // The parts with a filling between each two.
  function Weave(parts: seq<string>, fillings: seq<string>): string
    requires |parts| == |fillings| + 1
  {
    if fillings == [] then parts[0] else parts[0] + fillings[0] + Weave(parts[1..], fillings[1..])
  }

  function Repeat(t: string, n: nat): seq<string> {
    seq(n, _ => t)
  }

  // Splitting and weaving the separator back is the identity.
  lemma {:induction false} SplitJoins(s: string, sep: string, at: nat, i: nat)
    requires at <= i <= |s| && sep != ""
    ensures var parts := SplitFrom(s, sep, at, i); Weave(parts, Repeat(sep, |parts| - 1)) == s[at..]
    decreases |s| - i
  {
    var parts := SplitFrom(s, sep, at, i);
    if i == |s| {
    } else if StartsAt(s, i, sep) {
      SplitJoins(s, sep, i + |sep|, i + |sep|);
      assert Repeat(sep, |parts| - 1)[1..] == Repeat(sep, |parts| - 2);
      assert parts[1..] == SplitFrom(s, sep, i + |sep|, i + |sep|);
      CutAt(s, at, i, sep);
    } else {
      SplitJoins(s, sep, at, i + 1);
    }
  }

  lemma CutAt(s: string, at: nat, i: nat, sep: string)
    requires at <= i && StartsAt(s, i, sep)
    ensures s[at..] == s[at..i] + sep + s[i + |sep|..]
  {
    assert s[at..] == s[at..i] + s[i..];
    assert s[i..] == s[i..i + |sep|] + s[i + |sep|..];
  }

  lemma {:induction false} SplitCounts(s: string, sep: string, at: nat, i: nat)
    requires at <= i <= |s| && sep != ""
    ensures |SplitFrom(s, sep, at, i)| >= 2 <==> exists k :: i <= k <= |s| && StartsAt(s, k, sep)
    decreases |s| - i
  {
    if i < |s| && !StartsAt(s, i, sep) {
      SplitCounts(s, sep, at, i + 1);
      if k :| i <= k <= |s| && StartsAt(s, k, sep) {
        assert i + 1 <= k;
      }
    }
  }

  // The word occurs in pre + word at the end only.
  ghost predicate UpToWord(pre: string, word: string) {
    word != "" && !Contains(pre + word[..|word| - 1], word)
  }

  lemma SeparatorSplits(a: string, sep: string, b: string, a': string, b': string)
    requires UpToWord(a, sep) && UpToWord(a', sep) && |a| <= |a'| && a + sep + b == a' + sep + b'
    ensures a == a' && b == b'
  {
    var s := a + sep + b;
    assert s[..|a|] == a && s[|a|..|a| + |sep|] == sep;
    assert s[..|a'|] == a' && s[|a'|..|a'| + |sep|] == sep;
    var part := a' + sep[..|sep| - 1];
    assert s[..|part|] == part;
    if |a| < |a'| {
      assert StartsAt(s, 0, part) && StartsAt(s, |a|, sep);
      SliceStarts(s, 0, part, sep, |a|);
    }
    assert s[|a| + |sep|..] == b && s[|a'| + |sep|..] == b';
  }

  // The separator's first occurrence cuts equal texts alike.
  lemma SameCut(a: string, sep: string, b: string, a': string, b': string)
    requires UpToWord(a, sep) && UpToWord(a', sep) && a + sep + b == a' + sep + b'
    ensures a == a' && b == b'
  {
    if |a| <= |a'| {
      SeparatorSplits(a, sep, b, a', b');
    } else {
      SeparatorSplits(a', sep, b', a, b);
    }
  }

  // --- The parts are those without the separator ---

  // The separator's first character comes nowhere else in it.
  predicate FrontOnly(sep: string) {
    sep != "" && forall i :: 0 < i < |sep| ==> sep[i] != sep[0]
  }

  // The parts hold no separator, and with one between each two they are the text.
  ghost predicate Parting(s: string, sep: string, parts: seq<string>) {
    parts != [] && (forall p :: p in parts ==> !Contains(p, sep)) && Weave(parts, Repeat(sep, |parts| - 1)) == s
  }

  lemma SplitWeaves(s: string, sep: string)
    requires sep != ""
    ensures var parts := Split(s, sep); Weave(parts, Repeat(sep, |parts| - 1)) == s
  {
    SplitJoins(s, sep, 0, 0);
    assert s[0..] == s;
  }

  lemma FreeSlice(s: string, sep: string, at: nat, i: nat)
    requires at <= i <= |s| && FreeOf(s, at, i, sep) && sep != ""
    ensures !Contains(s[at..i], sep)
  {
    var part := s[at..i];
    forall k: nat | k <= |part| ensures !StartsAt(part, k, sep) {
      if StartsAt(part, k, sep) {
        InSlice(s, sep, at, i, k);
      }
    }
  }

  lemma InSlice(s: string, sep: string, at: nat, i: nat, k: nat)
    requires at <= i <= |s| && StartsAt(s[at..i], k, sep)
    ensures StartsAt(s, at + k, sep)
  {
    var x, y := s[at..i][k..k + |sep|], s[at + k..at + k + |sep|];
    forall n | 0 <= n < |sep| ensures x[n] == y[n] {
      assert x[n] == s[at..i][k + n];
    }
  }

  lemma {:induction false} PartsFree(s: string, sep: string, at: nat, i: nat)
    requires at <= i <= |s| && sep != "" && FreeOf(s, at, i, sep)
    ensures forall p :: p in SplitFrom(s, sep, at, i) ==> !Contains(p, sep)
    decreases |s| - i
  {
    FreeSlice(s, sep, at, i);
    if i == |s| {
      assert s[at..i] == s[at..];
    } else if StartsAt(s, i, sep) {
      PartsFree(s, sep, i + |sep|, i + |sep|);
    } else {
      PartsFree(s, sep, at, i + 1);
    }
  }

  // A part without the separator ends where the separator first comes.
  lemma FreeUpTo(p: string, sep: string)
    requires FrontOnly(sep) && !Contains(p, sep)
    ensures UpToWord(p, sep)
  {
    var t := p + sep[..|sep| - 1];
    forall k | 0 <= k <= |t| ensures !StartsAt(t, k, sep) {
      if StartsAt(t, k, sep) {
        StartInside(p, sep, t, k);
      }
    }
  }

  lemma OnePlace(sep: string, t: string, k: nat, d: nat)
    requires StartsAt(t, k, sep) && d < |sep|
    ensures t[k + d] == sep[d]
  {
    assert t[k..k + |sep|][d] == t[k + d];
  }

  lemma StartInside(p: string, sep: string, t: string, k: nat)
    requires FrontOnly(sep) && t == p + sep[..|sep| - 1] && StartsAt(t, k, sep)
    ensures Contains(p, sep)
  {
    if k + |sep| > |p| {
      OnePlace(sep, t, k, |p| - k);
    }
    assert p[k..k + |sep|] == t[k..k + |sep|];
    assert StartsAt(p, k, sep);
  }

  lemma WeaveFirst(parts: seq<string>, sep: string)
    requires |parts| > 1
    ensures Weave(parts, Repeat(sep, |parts| - 1)) == parts[0] + sep + Weave(parts[1..], Repeat(sep, |parts| - 2))
  {
    assert Repeat(sep, |parts| - 1)[1..] == Repeat(sep, |parts| - 2);
  }

  lemma FirstIsHere(p: string, sep: string, rest: string)
    ensures Contains(p + sep + rest, sep)
  {
    assert StartsAt(p + sep + rest, |p|, sep);
  }

  // There is only one such parting.
  lemma {:induction false} PartingUnique(s: string, sep: string, a: seq<string>, b: seq<string>)
    requires FrontOnly(sep) && Parting(s, sep, a) && Parting(s, sep, b)
    ensures a == b
    decreases |a|
  {
    if |a| == 1 || |b| == 1 {
      LonePart(s, sep, a);
      LonePart(s, sep, b);
    } else {
      WeaveFirst(a, sep);
      WeaveFirst(b, sep);
      FreeUpTo(a[0], sep);
      FreeUpTo(b[0], sep);
      var x, y := Weave(a[1..], Repeat(sep, |a| - 2)), Weave(b[1..], Repeat(sep, |b| - 2));
      SameCut(a[0], sep, x, b[0], y);
      PartingUnique(x, sep, a[1..], b[1..]);
      assert a == [a[0]] + a[1..] && b == [b[0]] + b[1..];
    }
  }

  lemma LonePart(s: string, sep: string, parts: seq<string>)
    requires Parting(s, sep, parts)
    ensures |parts| == 1 ==> parts == [s] && !Contains(s, sep)
    ensures |parts| > 1 ==> Contains(s, sep)
  {
    if |parts| > 1 {
      WeaveFirst(parts, sep);
      FirstIsHere(parts[0], sep, Weave(parts[1..], Repeat(sep, |parts| - 2)));
    }
  }

  // Splitting finds exactly the parts that hold no separator and give the text when woven with it.
  lemma SplitExactly(s: string, sep: string, parts: seq<string>)
    requires FrontOnly(sep)
    ensures parts == Split(s, sep) <==> Parting(s, sep, parts)
  {
    SplitWeaves(s, sep);
    PartsFree(s, sep, 0, 0);
    if Parting(s, sep, parts) {
      PartingUnique(s, sep, parts, Split(s, sep));
    }
  }
}
