// What the oracle's three patterns find, told by how the text divides.
module Patterns {
  import opened Digits
  import opened Options
  import opened Texts
  import opened Regex
  import opened Oracle
  import opened OracleMasks

  // The places between the items, from where the match starts.
  ghost predicate Cuts(l: seq<Item>, s: string, o: seq<nat>) {
    |o| == |l| + 1 && o[0] <= |s| && forall n: nat :: n < |l| ==> CutAt(l, s, o, n)
  }

  ghost predicate CutAt(l: seq<Item>, s: string, o: seq<nat>, n: nat) {
    n < |l| && n + 1 < |o| && Rises(s, o, n) && Spans(l[n], s, o[n], o[n + 1])
  }

  predicate Rises(s: string, o: seq<nat>, n: nat) {
    n + 1 < |o| && o[n] <= o[n + 1] <= |s|
  }

  lemma {:induction false} CutsFit(l: seq<Item>, s: string, o: seq<nat>)
    requires Cuts(l, s, o)
    ensures Fits(l, s, o[0], o[1..])
    decreases |l|
  {
    if l != [] {
      assert CutAt(l, s, o, 0);
      forall n: nat | n < |l| - 1 ensures CutAt(l[1..], s, o[1..], n) {
        assert CutAt(l, s, o, n + 1);
      }
      CutsFit(l[1..], s, o[1..]);
    }
  }

  lemma {:induction false} FitsLength(l: seq<Item>, s: string, i: nat, ends: seq<nat>)
    requires Fits(l, s, i, ends)
    ensures |ends| == |l| && i <= |s|
  {
  }

  lemma FitsCut(l: seq<Item>, s: string, i: nat, ends: seq<nat>)
    requires Fits(l, s, i, ends)
    ensures Cuts(l, s, [i] + ends)
  {
    FitsLength(l, s, i, ends);
    forall n: nat | n < |l| ensures CutAt(l, s, [i] + ends, n) {
      FitsDrop(l, s, i, ends, n);
    }
  }

  // The pattern is found in the text exactly when the text can be cut so at some place.
  lemma FoundExactly(l: seq<Item>, s: string)
    ensures Search(l, s, 0).Some? <==> exists o :: Cuts(l, s, o)
  {
    if Search(l, s, 0).Some? {
      var k := Search(l, s, 0).value;
      FitsCut(l, s, k, Match(l, s, k).value);
    }
    if o :| Cuts(l, s, o) {
      CutsFit(l, s, o);
      MatchComplete(l, s, o[0], o[1..]);
    }
  }

  function Slices(s: string, o: seq<nat>): seq<string>
    requires o != [] && forall n: nat :: n + 1 < |o| ==> Rises(s, o, n)
  {
    seq(|o| - 1, n requires 0 <= n < |o| - 1 => assert Rises(s, o, n); s[o[n]..o[n + 1]])
  }

  lemma {:induction false} SlicesJoin(s: string, o: seq<nat>)
    requires o != [] && o[0] <= |s| && forall n: nat :: n + 1 < |o| ==> Rises(s, o, n)
    ensures o[0] <= o[|o| - 1] <= |s| && Concat(Slices(s, o)) == s[o[0]..o[|o| - 1]]
    decreases |o|
  {
    if |o| > 1 {
      assert Rises(s, o, 0);
      forall n: nat | n + 2 < |o| ensures Rises(s, o[1..], n) {
        assert Rises(s, o, n + 1);
      }
      SlicesJoin(s, o[1..]);
      SlicesTail(s, o);
      TwoSlices(s, o[0], o[1], o[|o| - 1]);
    }
  }

  lemma SlicesTail(s: string, o: seq<nat>)
    requires |o| > 1 && forall n: nat :: n + 1 < |o| ==> Rises(s, o, n)
    requires forall n: nat :: n + 2 < |o| ==> Rises(s, o[1..], n)
    ensures Slices(s, o)[1..] == Slices(s, o[1..])
  {
    var a, b := Slices(s, o)[1..], Slices(s, o[1..]);
    forall n: nat | n < |a| ensures a[n] == b[n] {
    }
  }

  lemma TwoSlices(s: string, i: nat, j: nat, k: nat)
    requires i <= j <= k <= |s|
    ensures s[i..k] == s[i..j] + s[j..k]
  {
  }

  lemma CutsRise(l: seq<Item>, s: string, o: seq<nat>)
    requires Cuts(l, s, o)
    ensures forall n: nat :: n + 1 < |o| ==> Rises(s, o, n)
  {
    forall n: nat | n + 1 < |o| ensures Rises(s, o, n) {
      assert CutAt(l, s, o, n);
    }
  }

  lemma Around(s: string, i: nat, j: nat)
    requires i <= j <= |s|
    ensures s[..i] + s[i..j] + s[j..] == s
  {
  }

  lemma DotSlice(s: string, i: nat, j: nat)
    requires i <= j <= |s| && forall k :: i <= k < j ==> In(Dot, s, k)
    ensures '\n' !in s[i..j]
  {
    forall n | 0 <= n < j - i ensures s[i..j][n] != '\n' {
      assert In(Dot, s, i + n);
    }
  }

  lemma DigitSlice(s: string, i: nat, j: nat)
    requires i < j <= |s| && forall k :: i <= k < j ==> In(Digit, s, k)
    ensures Numeral(s[i..j])
  {
    forall n | 0 <= n < j - i ensures IsDigit(s[i..j][n], 10) {
      assert In(Digit, s, i + n);
    }
  }

  lemma StepSlice(s: string, i: nat, j: nat)
    requires i < j <= |s| && forall k :: i <= k < j ==> In(UpperOrDigit, s, k)
    ensures StepName(s[i..j])
  {
    forall n | 0 <= n < j - i ensures IsDigit(s[i..j][n], 10) || 'A' <= s[i..j][n] <= 'Z' {
      assert In(UpperOrDigit, s, i + n);
    }
  }

  lemma BlankSlice(s: string, i: nat, j: nat)
    requires i <= j <= |s| && forall k :: i <= k < j ==> In(Blank, s, k)
    ensures Blanks(s[i..j])
  {
    forall n | 0 <= n < j - i ensures IsBlank(s[i..j][n]) {
      assert In(Blank, s, i + n);
    }
  }

  // --- Draws ---

  // A draw: a name of any characters but newlines, and a number in parentheses.
  ghost predicate IsDraw(s: string, pre: string, name: string, id: string, post: string) {
    && s == DrawLine(pre, name, id, post)
    && (pre == "" || !IsWord(pre[|pre| - 1])) && name != "" && '\n' !in name && Numeral(id)
  }

  lemma DrawCutPieces(d: seq<Item>, s: string, o: seq<nat>)
    requires DrawItems(d, "draws ") && Cuts(d, s, o)
    ensures |o| == 7 && o[0] == o[1] <= o[2] <= o[3] <= o[4] <= o[5] <= o[6] <= |s| && AtWordEdge(s, o[0])
    ensures s[o[1]..o[2]] == "draws " && s[o[3]..o[4]] == " (" && s[o[5]..o[6]] == ")"
    ensures s[o[2]..o[3]] != "" && '\n' !in s[o[2]..o[3]] && Numeral(s[o[4]..o[5]])
  {
    assert CutAt(d, s, o, 0) && CutAt(d, s, o, 1) && CutAt(d, s, o, 2) && CutAt(d, s, o, 3) && CutAt(d, s, o, 4)
      && CutAt(d, s, o, 5);
    DotSlice(s, o[2], o[3]);
    DigitSlice(s, o[4], o[5]);
  }

  lemma EdgeBefore(s: string, k: nat)
    requires k < |s| && AtWordEdge(s, k) && s[k] == 'd'
    ensures s[..k] == "" || !IsWord(s[..k][k - 1])
  {
  }

  lemma FiveSlices(s: string, a: nat, b: nat, c: nat, d: nat, e: nat, f: nat)
    requires a <= b <= c <= d <= e <= f <= |s|
    ensures s == s[..a] + (s[a..b] + (s[b..c] + (s[c..d] + (s[d..e] + (s[e..f] + s[f..])))))
  {
  }

  lemma DrawCut(s: string, o: seq<nat>) returns (pre: string, name: string, id: string, post: string)
    requires Cuts(DRAW, s, o)
    ensures IsDraw(s, pre, name, id, post)
  {
    DrawCutPieces(DRAW, s, o);
    pre, name, id, post := s[..o[1]], s[o[2]..o[3]], s[o[4]..o[5]], s[o[6]..];
    FiveSlices(s, o[1], o[2], o[3], o[4], o[5], o[6]);
    assert s[o[1]] == s[o[1]..o[2]][0] == "draws "[0];
    EdgeBefore(s, o[1]);
  }

  lemma DrawCuts(s: string, pre: string, name: string, id: string, post: string) returns (o: seq<nat>)
    requires IsDraw(s, pre, name, id, post)
    ensures Cuts(DRAW, s, o)
  {
    var p := DrawPieces(pre, name, id, post);
    DrawLineIs(pre, name, id, post);
    var q := LayOut(p);
    o := [q[1]] + q[1..7];
    DrawSpans(DRAW, s, p, q, o);
  }

  lemma DrawSpans(d: seq<Item>, s: string, p: seq<string>, q: seq<nat>, o: seq<nat>)
    requires DrawItems(d, "draws ") && Laid(s, p, q) && q[0] == 0 && |p| == 7
    requires p[1] == "draws " && p[3] == " (" && p[5] == ")" && o == [q[1]] + q[1..7]
    requires (p[0] == "" || !IsWord(p[0][|p[0]| - 1])) && p[2] != "" && '\n' !in p[2] && Numeral(p[4])
    ensures Cuts(d, s, o)
  {
    WordEdgeAt(s, p, q, "draws ");
    assert StartsAt(s, q[1], p[1]) && StartsAt(s, q[2], p[2]) && StartsAt(s, q[3], p[3]) && StartsAt(s, q[4], p[4])
      && StartsAt(s, q[5], p[5]);
    AllIn(s, q[2], p[2]);
    AllIn(s, q[4], p[4]);
    assert CutAt(d, s, o, 0) && CutAt(d, s, o, 1) && CutAt(d, s, o, 2) && CutAt(d, s, o, 3) && CutAt(d, s, o, 4)
      && CutAt(d, s, o, 5);
  }

  // Names are masked in a text exactly when it holds a draw.
  lemma DrawFoundExactly(s: string)
    ensures Search(DRAW, s, 0).Some? <==> exists pre: string, name: string, id: string, post: string ::
      IsDraw(s, pre, name, id, post)
  {
    FoundExactly(DRAW, s);
    if o :| Cuts(DRAW, s, o) {
      var pre, name, id, post := DrawCut(s, o);
    }
    if pre: string, name: string, id: string, post: string :| IsDraw(s, pre, name, id, post) {
      var o := DrawCuts(s, pre, name, id, post);
    }
  }

  // --- Loss lines ---

  // A loss line anywhere in the text, with any names.
  ghost predicate IsLoss(s: string, l: Loss) {
    && s == LossLine(l) && Numeral(l.turn) && StepName(l.step) && Blanks(l.gap)
    && l.who != "" && '\n' !in l.who && (l.sign == "" || l.sign == "-") && Numeral(l.life)
    && l.winner != "" && '\n' !in l.winner
  }

  // What each piece of a loss line is.
  ghost predicate LossParts(p: seq<string>) {
    && |p| == 13 && p[0] == STARTS && Numeral(p[1]) && p[2] == " " && StepName(p[3]) && p[4] == "]" && Blanks(p[5])
    && p[6] != "" && '\n' !in p[6] && p[7] == LOST && (p[8] == "" || p[8] == "-") && Numeral(p[9]) && p[10] == "). "
    && p[11] != "" && '\n' !in p[11] && p[12] == WINS
  }

  lemma LossTagParts(l: seq<Item>, s: string, o: seq<nat>)
    requires LossItems(l, LOST, WINS) && Cuts(l, s, o)
    ensures o[0] <= o[1] <= o[2] <= o[3] <= o[4] <= o[5] <= o[6] <= |s|
    ensures s[o[0]..o[1]] == STARTS && Numeral(s[o[1]..o[2]]) && s[o[2]..o[3]] == " " && StepName(s[o[3]..o[4]])
    ensures s[o[4]..o[5]] == "]" && Blanks(s[o[5]..o[6]])
  {
    assert CutAt(l, s, o, 0) && CutAt(l, s, o, 1) && CutAt(l, s, o, 2) && CutAt(l, s, o, 3) && CutAt(l, s, o, 4)
      && CutAt(l, s, o, 5);
    DigitSlice(s, o[1], o[2]);
    StepSlice(s, o[3], o[4]);
    BlankSlice(s, o[5], o[6]);
  }

  lemma LossWhoParts(l: seq<Item>, s: string, o: seq<nat>)
    requires LossItems(l, LOST, WINS) && Cuts(l, s, o)
    ensures o[6] <= o[7] <= o[8] <= o[9] <= o[10] <= o[11] <= o[12] <= o[13] <= |s|
    ensures s[o[6]..o[7]] != "" && '\n' !in s[o[6]..o[7]] && s[o[7]..o[8]] == LOST
    ensures (s[o[8]..o[9]] == "" || s[o[8]..o[9]] == "-") && Numeral(s[o[9]..o[10]]) && s[o[10]..o[11]] == "). "
    ensures s[o[11]..o[12]] != "" && '\n' !in s[o[11]..o[12]] && s[o[12]..o[13]] == WINS
  {
    assert CutAt(l, s, o, 6) && CutAt(l, s, o, 7) && CutAt(l, s, o, 8) && CutAt(l, s, o, 9) && CutAt(l, s, o, 10)
      && CutAt(l, s, o, 11) && CutAt(l, s, o, 12);
    DotSlice(s, o[6], o[7]);
    DigitSlice(s, o[9], o[10]);
    DotSlice(s, o[11], o[12]);
  }

  lemma LossCut(s: string, o: seq<nat>) returns (l: Loss)
    requires Cuts(LOSS, s, o)
    ensures IsLoss(s, l)
  {
    LossTagParts(LOSS, s, o);
    LossWhoParts(LOSS, s, o);
    CutsRise(LOSS, s, o);
    SlicesJoin(s, o);
    l := Loss(s[..o[0]], s[o[1]..o[2]], s[o[3]..o[4]], s[o[5]..o[6]], s[o[6]..o[7]], s[o[8]..o[9]], s[o[9]..o[10]],
              s[o[11]..o[12]], s[o[13]..]);
    PiecesAre(Slices(s, o), l);
    Around(s, o[0], o[13]);
  }

  lemma PiecesAre(a: seq<string>, l: Loss)
    requires |a| == 13 && a[0] == STARTS && a[1] == l.turn && a[2] == " " && a[3] == l.step && a[4] == "]"
    requires a[5] == l.gap && a[6] == l.who && a[7] == LOST && a[8] == l.sign && a[9] == l.life && a[10] == "). "
    requires a[11] == l.winner && a[12] == WINS
    ensures a == LossPieces(l)
  {
  }

  lemma TextCut(l: seq<Item>, s: string, p: seq<string>, o: seq<nat>, n: nat)
    requires n < |l| == |p| && Laid(s, p, o) && l[n] == Text(p[n])
    ensures CutAt(l, s, o, n)
  {
    assert StartsAt(s, o[n], p[n]);
  }

  lemma RunCut(l: seq<Item>, s: string, p: seq<string>, o: seq<nat>, n: nat, cls: Class, min: nat, lazy: bool)
    requires n < |l| == |p| && Laid(s, p, o) && l[n] == Rep(cls, min, lazy) && |p[n]| >= min && !cls.DotNotAt?
    requires forall c :: c in p[n] ==> InClass(cls, c)
    ensures CutAt(l, s, o, n)
  {
    assert StartsAt(s, o[n], p[n]);
    AllIn(s, o[n], p[n]);
  }

  predicate InClass(cls: Class, c: char)
    requires !cls.DotNotAt?
  {
    match cls
    case Dot => c != '\n'
    case Digit => IsDigit(c, 10)
    case UpperOrDigit => IsDigit(c, 10) || 'A' <= c <= 'Z'
    case Blank => IsBlank(c)
  }

  lemma SignCut(l: seq<Item>, s: string, p: seq<string>, o: seq<nat>, n: nat)
    requires n < |l| == |p| && Laid(s, p, o) && l[n] == Maybe('-') && (p[n] == "" || p[n] == "-")
    ensures CutAt(l, s, o, n)
  {
    assert StartsAt(s, o[n], p[n]);
    if p[n] == "-" {
      FirstChar(s, o[n], p[n]);
    }
  }

  lemma LossTagSpans(l: seq<Item>, s: string, p: seq<string>, o: seq<nat>)
    requires LossItems(l, LOST, WINS) && LossParts(p) && Laid(s, p, o)
    ensures forall n: nat :: n < 7 ==> CutAt(l, s, o, n)
  {
    TextCut(l, s, p, o, 0);
    RunCut(l, s, p, o, 1, Digit, 1, false);
    TextCut(l, s, p, o, 2);
    RunCut(l, s, p, o, 3, UpperOrDigit, 1, false);
    TextCut(l, s, p, o, 4);
    RunCut(l, s, p, o, 5, Blank, 0, false);
    RunCut(l, s, p, o, 6, Dot, 1, true);
  }

  lemma LossWhoSpans(l: seq<Item>, s: string, p: seq<string>, o: seq<nat>)
    requires LossItems(l, LOST, WINS) && LossParts(p) && Laid(s, p, o)
    ensures forall n: nat :: 7 <= n < 13 ==> CutAt(l, s, o, n)
  {
    TextCut(l, s, p, o, 7);
    SignCut(l, s, p, o, 8);
    RunCut(l, s, p, o, 9, Digit, 1, false);
    TextCut(l, s, p, o, 10);
    RunCut(l, s, p, o, 11, Dot, 1, true);
    TextCut(l, s, p, o, 12);
  }

  lemma LossCuts(s: string, l: Loss) returns (o: seq<nat>)
    requires IsLoss(s, l)
    ensures Cuts(LOSS, s, o)
  {
    var p := LossPieces(l);
    o := LayOut(p);
    o := LaidInside(l.pre, Concat(p), l.post, p, o);
    LossTagSpans(LOSS, s, p, o);
    LossWhoSpans(LOSS, s, p, o);
  }

  // A text is normalised as a loss exactly when it holds a loss line.
  lemma LossFoundExactly(s: string)
    ensures Search(LOSS, s, 0).Some? <==> exists l :: IsLoss(s, l)
  {
    FoundExactly(LOSS, s);
    if o :| Cuts(LOSS, s, o) {
      var l := LossCut(s, o);
    }
    if l :| IsLoss(s, l) {
      var o := LossCuts(s, l);
    }
  }

  // --- Tags ---

  ghost predicate IsTag(s: string, pre: string, turn: string, step: string, post: string) {
    s == pre + ("[GAMELOG Turn" + (turn + (" " + (step + ("]" + post))))) && Numeral(turn) && StepName(step)
  }

  lemma TagCut(s: string, o: seq<nat>)
    requires Cuts(TAG, s, o)
    ensures exists pre: string, turn: string, step: string, post: string :: IsTag(s, pre, turn, step, post)
  {
    assert CutAt(TAG, s, o, 0) && CutAt(TAG, s, o, 1) && CutAt(TAG, s, o, 2) && CutAt(TAG, s, o, 3)
      && CutAt(TAG, s, o, 4);
    DigitSlice(s, o[1], o[2]);
    StepSlice(s, o[3], o[4]);
    FiveSlices(s, o[0], o[1], o[2], o[3], o[4], o[5]);
    assert IsTag(s, s[..o[0]], s[o[1]..o[2]], s[o[3]..o[4]], s[o[5]..]);
  }

  lemma TagCuts(s: string, pre: string, turn: string, step: string, post: string)
    requires IsTag(s, pre, turn, step, post)
    ensures exists o :: Cuts(TAG, s, o)
  {
    var o := [|pre|, |pre| + 13, |pre| + 13 + |turn|, |pre| + 14 + |turn|, |pre| + 14 + |turn| + |step|,
              |pre| + 15 + |turn| + |step|];
    TagSpans(s, pre, turn, step, post, o);
  }

  lemma TagSpans(s: string, pre: string, turn: string, step: string, post: string, o: seq<nat>)
    requires IsTag(s, pre, turn, step, post) && |o| == 6 && o[0] == |pre| && o[1] == o[0] + 13 && o[2] == o[1] + |turn|
    requires o[3] == o[2] + 1 && o[4] == o[3] + |step| && o[5] == o[4] + 1
    ensures Cuts(TAG, s, o)
  {
    assert s[o[0]..o[1]] == "[GAMELOG Turn" && s[o[1]..o[2]] == turn && s[o[2]..o[3]] == " " && s[o[3]..o[4]] == step
      && s[o[4]..o[5]] == "]";
    AllIn(s, o[1], turn);
    AllIn(s, o[3], step);
    assert CutAt(TAG, s, o, 0) && CutAt(TAG, s, o, 1) && CutAt(TAG, s, o, 2) && CutAt(TAG, s, o, 3)
      && CutAt(TAG, s, o, 4);
  }

  // A line counts as tagged exactly when it holds the tag with some turn and step.
  lemma TaggedExactly(s: string)
    ensures Tagged(s) <==> exists pre: string, turn: string, step: string, post: string ::
      IsTag(s, pre, turn, step, post)
  {
    FoundExactly(TAG, s);
    if o :| Cuts(TAG, s, o) {
      TagCut(s, o);
    }
    if pre: string, turn: string, step: string, post: string :| IsTag(s, pre, turn, step, post) {
      TagCuts(s, pre, turn, step, post);
    }
  }
}
