// What the oracle's normal form keeps and what it drops of a draw line and of a loss line.
module OracleMasks {
  import opened Digits
  import opened Options
  import opened Texts
  import opened Regex
  import opened Splitting
  import opened Oracle

  predicate Numeral(s: string) {
    s != "" && forall c :: c in s ==> IsDigit(c, 10)
  }

  predicate StepName(s: string) {
    s != "" && forall c :: c in s ==> IsDigit(c, 10) || 'A' <= c <= 'Z'
  }

  // A text the lazy wildcard before `after` takes whole.
  ghost predicate UpTo(name: string, after: string) {
    name != "" && '\n' !in name && after != "" && !Contains(name + after[..|after| - 1], after)
  }

  lemma UpToFree(s: string, i: nat, name: string, after: string)
    requires UpTo(name, after) && StartsAt(s, i, name) && StartsAt(s, i + |name|, after)
    ensures FreeOf(s, i + 1, i + |name|, after)
    ensures forall k :: i <= k < i + |name| ==> s[k] != '\n'
  {
    var part := name + after[..|after| - 1];
    assert s[i..i + |name|] == name && s[i + |name|..i + |name| + |after|] == after;
    assert StartsAt(s, i, part) by {
      assert s[i..i + |part|] == part;
    }
    forall k | i + 1 <= k < i + |name| ensures !StartsAt(s, k, after) {
      if StartsAt(s, k, after) {
        SliceStarts(s, i, part, after, k);
      }
    }
    forall k | i <= k < i + |name| ensures s[k] != '\n' {
      assert s[k] == name[k - i];
    }
  }

  lemma AllIn(s: string, i: nat, part: string)
    requires StartsAt(s, i, part)
    ensures forall k :: i <= k < i + |part| ==> s[k] in part
  {
    forall k | i <= k < i + |part| ensures s[k] in part {
      assert s[k] == s[i..i + |part|][k - i];
    }
  }

  lemma FirstChar(s: string, i: nat, part: string)
    requires StartsAt(s, i, part) && part != ""
    ensures s[i] == part[0]
  {
    assert s[i] == s[i..i + |part|][0];
  }

  // The pieces' places in the text they make up.
  ghost predicate Laid(s: string, p: seq<string>, o: seq<nat>) {
    && |o| == |p| + 1 && o[|p|] <= |s|
    && (forall n {:trigger p[n]} :: 0 <= n < |p| ==> StartsAt(s, o[n], p[n]) && o[n + 1] == o[n] + |p[n]| <= |s|)
  }

  lemma LayOut(p: seq<string>) returns (o: seq<nat>)
    ensures Laid(Concat(p), p, o) && o[0] == 0 && o[|p|] == |Concat(p)|
  {
    o := seq(|p| + 1, n requires 0 <= n <= |p| => Offset(p, n));
    forall n {:trigger p[n]} | 0 <= n < |p|
      ensures StartsAt(Concat(p), o[n], p[n]) && o[n + 1] == o[n] + |p[n]| <= |Concat(p)|
    {
      PieceAt(p, n);
    }
    if p != [] {
      PieceAt(p, |p| - 1);
    }
  }

  lemma TakesText(l: seq<Item>, n: nat, s: string, i: nat, t: string)
    requires n < |l| && l[n] == Text(t) && StartsAt(s, i, t)
    ensures Takes(l, n, s, i, i + |t|)
  {
  }

  lemma TakesRun(l: seq<Item>, n: nat, s: string, i: nat, part: string, cls: Class)
    requires n < |l| && l[n] == Rep(cls, 1, false) && StartsAt(s, i, part) && i + |part| < |s|
    requires (cls == Digit && Numeral(part)) || (cls == UpperOrDigit && StepName(part))
    requires !In(cls, s, i + |part|)
    ensures Takes(l, n, s, i, i + |part|)
  {
    AllIn(s, i, part);
  }

  lemma TakesUpTo(l: seq<Item>, n: nat, s: string, i: nat, name: string, after: string)
    requires n + 1 < |l| && l[n] == Rep(Dot, 1, true) && l[n + 1] == Text(after)
    requires UpTo(name, after) && StartsAt(s, i, name) && StartsAt(s, i + |name|, after)
    ensures Takes(l, n, s, i, i + |name|)
  {
    UpToFree(s, i, name, after);
  }

  // --- Draws ---

  function DrawPieces(pre: string, name: string, id: string, post: string): seq<string> {
    [pre, "draws ", name, " (", id, ")", post]
  }

  function DrawLine(pre: string, name: string, id: string, post: string): string {
    pre + ("draws " + (name + (" (" + (id + (")" + post)))))
  }

  // A line whose only draw is the one after `pre`, with a name the pattern takes whole.
  ghost predicate OneDraw(pre: string, name: string, id: string, post: string) {
    && (pre == "" || !IsWord(pre[|pre| - 1])) && UpTo(name, " (") && Numeral(id)
    && UpToWord(pre, "draws ") && !Contains(post, "draws ")
    && !Contains(DrawLine(pre, name, id, post), LOST)
  }

  predicate DrawItems(d: seq<Item>, word: string) {
    && |d| == 6 && d[0] == WordEdge && d[1] == Text(word) && d[2] == Rep(Dot, 1, true)
    && d[3] == Text(" (") && d[4] == Rep(Digit, 1, false) && d[5] == Text(")")
  }

  lemma DrawAt(d: seq<Item>, s: string, p: seq<string>, o: seq<nat>, word: string)
    requires DrawItems(d, word) && |p| == 7 && Laid(s, p, o)
    requires p[1] == word && p[3] == " (" && p[5] == ")" && UpTo(p[2], " (") && Numeral(p[4])
    requires AtWordEdge(s, o[1])
    ensures Match(d, s, o[1]) == Some([o[1], o[2], o[3], o[4], o[5], o[6]])
  {
    var ends := [o[1], o[2], o[3], o[4], o[5], o[6]];
    assert p[1] == word && StartsAt(s, o[1], p[1]);
    TakesText(d, 1, s, o[1], word);
    assert StartsAt(s, o[2], p[2]) && StartsAt(s, o[3], p[3]);
    TakesUpTo(d, 2, s, o[2], p[2], " (");
    TakesText(d, 3, s, o[3], " (");
    assert StartsAt(s, o[4], p[4]) && StartsAt(s, o[5], p[5]);
    FirstChar(s, o[5], p[5]);
    TakesRun(d, 4, s, o[4], p[4], Digit);
    TakesText(d, 5, s, o[5], ")");
    TakesFound(d, s, o[1], ends, 0);
    assert d[0..] == d && ends[0..] == ends;
  }

  lemma DrawStarts(s: string, k: nat, word: string)
    requires word == "draws " && k <= |s| && Match(DRAW, s, k).Some?
    ensures StartsAt(s, k, word)
  {
    DrawShape(s, k, Match(DRAW, s, k).value);
  }

  lemma FirstDraw(s: string, p: nat, word: string)
    requires word == "draws " && p <= |s| && Match(DRAW, s, p).Some? && FreeOf(s, 0, p, word)
    ensures Search(DRAW, s, 0) == Some(p)
  {
    forall k | 0 <= k < p ensures Match(DRAW, s, k).None? {
      if Match(DRAW, s, k).Some? {
        DrawStarts(s, k, word);
      }
    }
    SearchFirst(DRAW, s, 0, p);
  }

  lemma NoDraw(s: string, e: nat, word: string)
    requires word == "draws " && e <= |s| && FreeOf(s, e, |s| + 1, word)
    ensures Mask(s, e) == s[e..]
  {
    var k := Search(DRAW, s, e);
    if k.Some? {
      DrawShape(s, k.value, Match(DRAW, s, k.value).value);
    }
  }

  lemma MaskSingle(s: string, p: nat, ends: seq<nat>, word: string)
    requires word == "draws " && p <= |s| && Match(DRAW, s, p) == Some(ends) && |ends| == 6 && ends[5] <= |s|
    requires FreeOf(s, 0, p, word) && FreeOf(s, ends[5], |s| + 1, word)
    ensures ends[1] <= ends[2] <= ends[5]
    ensures Mask(s, 0) == s[0..ends[1]] + "<CARD>" + s[ends[2]..ends[5]] + s[ends[5]..]
  {
    DrawShape(s, p, ends);
    FirstDraw(s, p, word);
    NoDraw(s, ends[5], word);
  }

  lemma ConcatCons(x: string, rest: seq<string>)
    ensures Concat([x] + rest) == x + Concat(rest)
  {
    assert ([x] + rest)[1..] == rest;
  }

  lemma DrawLineIs(pre: string, name: string, id: string, post: string)
    ensures Concat(DrawPieces(pre, name, id, post)) == DrawLine(pre, name, id, post)
  {
    ConcatCons(post, []);
    assert post + Concat([]) == post;
    ConcatCons(")", [post]);
    ConcatCons(id, [")", post]);
    ConcatCons(" (", [id, ")", post]);
    ConcatCons(name, [" (", id, ")", post]);
    ConcatCons("draws ", [name, " (", id, ")", post]);
    ConcatCons(pre, ["draws ", name, " (", id, ")", post]);
  }

  // Nothing before or after the one draw starts with the pattern's word.
  lemma OnlyDraw(s: string, p: seq<string>, o: seq<nat>, word: string)
    requires |p| == 7 && Laid(s, p, o) && o[0] == 0 && o[7] == |s| && p[1] == word
    requires UpToWord(p[0], word) && !Contains(p[6], word)
    ensures FreeOf(s, 0, o[1], word) && FreeOf(s, o[6], |s| + 1, word)
  {
    var part := p[0] + word[..|word| - 1];
    assert StartsAt(s, o[0], p[0]) && StartsAt(s, o[1], p[1]) && StartsAt(s, o[6], p[6]);
    assert s[0..o[1]] == p[0] && s[o[1]..o[1] + |word|] == word;
    assert s[0..|part|] == part;
    forall k: nat | k < o[1] ensures !StartsAt(s, k, word) {
      if StartsAt(s, k, word) {
        SliceStarts(s, 0, part, word, k);
      }
    }
    forall k | o[6] <= k <= |s| ensures !StartsAt(s, k, word) {
      if StartsAt(s, k, word) {
        SliceStarts(s, o[6], p[6], word, k);
      }
    }
  }

  lemma WordEdgeAt(s: string, p: seq<string>, o: seq<nat>, word: string)
    requires |p| == 7 && Laid(s, p, o) && o[0] == 0 && p[1] == word && word != "" && IsWord(word[0])
    requires p[0] == "" || !IsWord(p[0][|p[0]| - 1])
    ensures AtWordEdge(s, o[1])
  {
    assert StartsAt(s, o[0], p[0]) && StartsAt(s, o[1], p[1]);
    FirstChar(s, o[1], word);
    assert o[1] > 0 ==> s[o[1] - 1] == s[0..o[1]][o[1] - 1];
  }

  lemma MaskPieces(s: string, p: seq<string>, o: seq<nat>, word: string)
    requires word == "draws " && |p| == 7 && Laid(s, p, o) && o[0] == 0 && o[7] == |s|
    requires p[1] == word && p[3] == " (" && p[5] == ")" && UpTo(p[2], " (") && Numeral(p[4])
    requires p[0] == "" || !IsWord(p[0][|p[0]| - 1])
    requires UpToWord(p[0], word) && !Contains(p[6], word)
    ensures o[2] <= o[3] <= o[6] <= |s| && Mask(s, 0) == s[0..o[2]] + "<CARD>" + s[o[3]..o[6]] + s[o[6]..]
  {
    WordEdgeAt(s, p, o, word);
    DrawAt(DRAW, s, p, o, word);
    OnlyDraw(s, p, o, word);
    MaskSingle(s, o[1], [o[1], o[2], o[3], o[4], o[5], o[6]], word);
  }

  lemma MaskedText(pre: string, name: string, id: string, post: string, o: seq<nat>)
    requires var p := DrawPieces(pre, name, id, post); Laid(Concat(p), p, o) && o[0] == 0
    ensures var s := DrawLine(pre, name, id, post);
      o[2] <= o[3] <= o[6] <= |s| &&
      s[0..o[2]] + "<CARD>" + s[o[3]..o[6]] + s[o[6]..] == DrawLine(pre, "<CARD>", id, post)
  {
    var p, s := DrawPieces(pre, name, id, post), DrawLine(pre, name, id, post);
    DrawLineIs(pre, name, id, post);
    assert p[0] == pre && p[1] == "draws " && p[2] == name && p[3] == " (" && p[4] == id && p[5] == ")";
    assert s[0..o[2]] == pre + "draws ";
    assert s[o[3]..o[6]] + s[o[6]..] == " (" + (id + (")" + post));
  }

  // A line with one draw normalises to itself with the card's name replaced, whatever the name.
  lemma DrawNormal(pre: string, name: string, id: string, post: string)
    requires OneDraw(pre, name, id, post)
    ensures NormalizeHidden(DrawLine(pre, name, id, post)) == DrawLine(pre, "<CARD>", id, post)
  {
    var p, s := DrawPieces(pre, name, id, post), DrawLine(pre, name, id, post);
    DrawLineIs(pre, name, id, post);
    var o := LayOut(p);
    MaskPieces(s, p, o, "draws ");
    MaskedText(pre, name, id, post, o);
    NoLoss(s);
  }

  // --- Several draws in one line ---

  // A draw and the text before it.
  datatype Draw = Draw(pre: string, name: string, id: string)

  function DrawsLine(ds: seq<Draw>, post: string): string {
    if ds == [] then post else DrawLine(ds[0].pre, ds[0].name, ds[0].id, DrawsLine(ds[1..], post))
  }

  function MaskedDraws(ds: seq<Draw>): seq<Draw> {
    if ds == [] then [] else [ds[0].(name := "<CARD>")] + MaskedDraws(ds[1..])
  }

  // Names the pattern takes whole, and no other draw between or after them.
  ghost predicate GoodDraws(ds: seq<Draw>, post: string) {
    !Contains(post, "draws ") && forall d :: d in ds ==> GoodDraw(d)
  }

  ghost predicate GoodDraw(d: Draw) {
    && (d.pre == "" || !IsWord(d.pre[|d.pre| - 1])) && UpTo(d.name, " (") && Numeral(d.id)
    && UpToWord(d.pre, "draws ")
  }

  lemma EdgeHere(s: string, p: seq<string>, o: seq<nat>, word: string)
    requires |p| == 7 && Laid(s, p, o) && p[1] == word && word != "" && IsWord(word[0])
    requires p[0] == "" || !IsWord(p[0][|p[0]| - 1])
    requires o[0] == 0 || !IsWord(s[o[0] - 1])
    ensures AtWordEdge(s, o[1])
  {
    assert StartsAt(s, o[0], p[0]) && StartsAt(s, o[1], p[1]);
    FirstChar(s, o[1], word);
    assert p[0] != "" ==> s[o[1] - 1] == s[o[0]..o[1]][|p[0]| - 1];
  }

  lemma NoneBetween(s: string, p: seq<string>, o: seq<nat>, word: string)
    requires |p| == 7 && Laid(s, p, o) && p[1] == word && UpToWord(p[0], word)
    ensures FreeOf(s, o[0], o[1], word)
  {
    var part := p[0] + word[..|word| - 1];
    assert StartsAt(s, o[0], p[0]) && StartsAt(s, o[1], p[1]);
    assert s[o[0]..o[1]] == p[0] && s[o[1]..o[1] + |word|] == word;
    assert s[o[0]..o[0] + |part|] == part;
    forall k: nat | o[0] <= k < o[1] ensures !StartsAt(s, k, word) {
      if StartsAt(s, k, word) {
        SliceStarts(s, o[0], part, word, k);
      }
    }
  }

  lemma NextDraw(s: string, e: nat, k: nat, word: string)
    requires word == "draws " && e <= k <= |s| && Match(DRAW, s, k).Some? && FreeOf(s, e, k, word)
    ensures Search(DRAW, s, e) == Some(k)
  {
    forall i | e <= i < k ensures Match(DRAW, s, i).None? {
      if Match(DRAW, s, i).Some? {
        DrawStarts(s, i, word);
      }
    }
    SearchFirst(DRAW, s, e, k);
  }

  // The draw next to e, and where the text after it starts.
  lemma MaskNext(s: string, p: seq<string>, o: seq<nat>, word: string)
    requires word == "draws " && |p| == 7 && Laid(s, p, o) && o[7] == |s|
    requires p[1] == word && p[3] == " (" && p[5] == ")" && UpTo(p[2], " (") && Numeral(p[4])
    requires (p[0] == "" || !IsWord(p[0][|p[0]| - 1])) && UpToWord(p[0], word)
    requires o[0] == 0 || !IsWord(s[o[0] - 1])
    ensures o[0] <= o[2] <= o[3] <= o[6] <= |s|
    ensures Mask(s, o[0]) == s[o[0]..o[2]] + "<CARD>" + s[o[3]..o[6]] + Mask(s, o[6])
  {
    EdgeHere(s, p, o, word);
    DrawAt(DRAW, s, p, o, word);
    NoneBetween(s, p, o, word);
    DrawShape(s, o[1], [o[1], o[2], o[3], o[4], o[5], o[6]]);
    NextDraw(s, o[0], o[1], word);
  }

  // Places in the rest of a text, as places in the text.
  lemma LaidFrom(s: string, e: nat, p: seq<string>) returns (o: seq<nat>)
    requires e <= |s| && s[e..] == Concat(p)
    ensures Laid(s, p, o) && o[0] == e && o[|p|] == |s|
  {
    var q := LayOut(p);
    o := seq(|q|, n requires 0 <= n < |q| => e + q[n]);
    assert s == s[..e] + s[e..] + "";
    forall n {:trigger p[n]} | 0 <= n < |p|
      ensures StartsAt(s, o[n], p[n]) && o[n + 1] == o[n] + |p[n]| <= |s|
    {
      StartsInside(s[..e], s[e..], "", q[n], p[n]);
    }
  }

  lemma PieceSlice(s: string, p: seq<string>, o: seq<nat>, n: nat)
    requires n < |p| && Laid(s, p, o)
    ensures o[n] <= o[n + 1] <= |s| && o[n + 1] == o[n] + |p[n]| && s[o[n]..o[n + 1]] == p[n]
  {
    assert StartsAt(s, o[n], p[n]);
  }

  lemma ThreeSlices(s: string, i: nat, j: nat, k: nat, n: nat)
    requires i <= j <= k <= n <= |s|
    ensures s[i..n] == s[i..j] + s[j..k] + s[k..n]
  {
  }

  lemma DrawSlices(s: string, p: seq<string>, o: seq<nat>, word: string)
    requires |p| == 7 && Laid(s, p, o) && o[7] == |s| && p[1] == word && p[3] == " (" && p[5] == ")"
    ensures o[0] <= o[2] <= o[3] <= o[6] <= |s|
    ensures s[o[0]..o[2]] == p[0] + word && s[o[3]..o[6]] == " (" + p[4] + ")" && s[o[6]..] == p[6]
    ensures o[6] > 0 && s[o[6] - 1] == ')'
  {
    PieceSlice(s, p, o, 0);
    PieceSlice(s, p, o, 1);
    PieceSlice(s, p, o, 2);
    PieceSlice(s, p, o, 3);
    PieceSlice(s, p, o, 4);
    PieceSlice(s, p, o, 5);
    PieceSlice(s, p, o, 6);
    ThreeSlices(s, o[0], o[0], o[1], o[2]);
    ThreeSlices(s, o[3], o[4], o[5], o[6]);
    assert s[o[5]] == s[o[5]..o[6]][0];
  }

  lemma MaskedRegroup(pre: string, id: string, rest: string)
    ensures pre + "draws " + "<CARD>" + (" (" + id + ")") + rest == DrawLine(pre, "<CARD>", id, rest)
  {
  }

  lemma PiecesMasked(s: string, p: seq<string>, o: seq<nat>, word: string)
    requires word == "draws " && |p| == 7 && Laid(s, p, o) && o[7] == |s|
    requires p[1] == word && p[3] == " (" && p[5] == ")" && UpTo(p[2], " (") && Numeral(p[4])
    requires (p[0] == "" || !IsWord(p[0][|p[0]| - 1])) && UpToWord(p[0], word)
    requires o[0] == 0 || !IsWord(s[o[0] - 1])
    ensures o[0] <= |s| && 0 < o[6] <= |s| && s[o[6]..] == p[6] && !IsWord(s[o[6] - 1])
    ensures Mask(s, o[0]) == p[0] + word + "<CARD>" + (" (" + p[4] + ")") + Mask(s, o[6])
  {
    MaskNext(s, p, o, word);
    DrawSlices(s, p, o, word);
  }

  lemma OneMasked(s: string, e: nat, d: Draw, rest: string) returns (n: nat)
    requires e <= |s| && s[e..] == DrawLine(d.pre, d.name, d.id, rest) && GoodDraw(d) && (e == 0 || !IsWord(s[e - 1]))
    ensures 0 < n <= |s| && s[n..] == rest && !IsWord(s[n - 1])
    ensures Mask(s, e) == DrawLine(d.pre, "<CARD>", d.id, Mask(s, n))
  {
    var p := DrawPieces(d.pre, d.name, d.id, rest);
    DrawLineIs(d.pre, d.name, d.id, rest);
    var o := LaidFrom(s, e, p);
    PiecesMasked(s, p, o, p[1]);
    n := o[6];
    MaskedRegroup(d.pre, d.id, Mask(s, n));
  }

  lemma {:induction false} DrawsMasked(s: string, e: nat, ds: seq<Draw>, post: string)
    requires e <= |s| && s[e..] == DrawsLine(ds, post) && GoodDraws(ds, post) && (e == 0 || !IsWord(s[e - 1]))
    ensures Mask(s, e) == DrawsLine(MaskedDraws(ds), post)
    decreases |ds|
  {
    if ds == [] {
      NoneLeft(s, e, "draws ");
      NoDraw(s, e, "draws ");
    } else {
      var n := OneMasked(s, e, ds[0], DrawsLine(ds[1..], post));
      DrawsMasked(s, n, ds[1..], post);
      assert MaskedDraws(ds)[1..] == MaskedDraws(ds[1..]);
    }
  }

  lemma NoneLeft(s: string, e: nat, word: string)
    requires e <= |s| && !Contains(s[e..], word)
    ensures FreeOf(s, e, |s| + 1, word)
  {
    assert StartsAt(s, e, s[e..]);
    forall k: nat | e <= k <= |s| ensures !StartsAt(s, k, word) {
      if StartsAt(s, k, word) {
        SliceStarts(s, e, s[e..], word, k);
      }
    }
  }

  // Every drawn name of a line is masked, and nothing else changes.
  lemma DrawsNormal(ds: seq<Draw>, post: string)
    requires GoodDraws(ds, post) && !Contains(DrawsLine(ds, post), LOST)
    ensures NormalizeHidden(DrawsLine(ds, post)) == DrawsLine(MaskedDraws(ds), post)
  {
    var s := DrawsLine(ds, post);
    assert s[0..] == s;
    DrawsMasked(s, 0, ds, post);
    NoLoss(s);
  }

  lemma NoLoss(s: string)
    requires !Contains(s, LOST)
    ensures NormalizeHidden(s) == Mask(s, 0)
  {
    var k := Search(LOSS, s, 0);
    if k.Some? {
      LossShape(s, k.value, Match(LOSS, s, k.value).value);
    }
  }

  lemma NumeralHasNoClose(id: string)
    requires Numeral(id)
    ensures UpToWord(id, ")")
  {
    if Contains(id + ")"[..0], ")") {
      assert id + ")"[..0] == id;
      ContainsMember(id, ")", ')');
    }
  }

  // The masked line tells what stands around the drawn text.
  lemma MaskedFieldsDiffer(pre: string, id: string, post: string, pre': string, id': string, post': string)
    requires UpToWord(pre, "draws ") && UpToWord(pre', "draws ") && Numeral(id) && Numeral(id')
    ensures DrawLine(pre, "<CARD>", id, post) == DrawLine(pre', "<CARD>", id', post') <==>
      pre == pre' && id == id' && post == post'
  {
    if DrawLine(pre, "<CARD>", id, post) == DrawLine(pre', "<CARD>", id', post') {
      var mid := "<CARD> (";
      var x, x' := mid + (id + ")" + post), mid + (id' + ")" + post');
      assert DrawLine(pre, "<CARD>", id, post) == pre + "draws " + x;
      assert DrawLine(pre', "<CARD>", id', post') == pre' + "draws " + x';
      SameCut(pre, "draws ", x, pre', x');
      assert x[|mid|..] == id + ")" + post && x'[|mid|..] == id' + ")" + post';
      NumeralHasNoClose(id);
      NumeralHasNoClose(id');
      SameCut(id, ")", post, id', post');
    }
  }

  // So two such lines agree exactly when everything around the drawn text is the same, or the
  // client's differs only in masked names. The drawn text itself may be anything: it is not
  // looked up as a card's name.
  lemma DrawsAgreeExactly(pre: string, name: string, id: string, post: string,
                          pre': string, name': string, id': string, post': string)
    requires OneDraw(pre, name, id, post) && OneDraw(pre', name', id', post')
    ensures var s, c := DrawLine(pre, name, id, post), DrawLine(pre', name', id', post');
      Agree(s, c) <==> (pre == pre' && id == id' && post == post') || TolerableUnknownDiff(s, c)
  {
    DrawNormal(pre, name, id, post);
    DrawNormal(pre', name', id', post');
    MaskedFieldsDiffer(pre, id, post, pre', id', post');
  }

  // --- Loss lines ---

  // A text with a loss line in it, in its parts.
  datatype Loss = Loss(pre: string, turn: string, step: string, gap: string, who: string, sign: string,
                       life: string, winner: string, post: string)

  const STARTS := "[GAMELOG Turn"

  function LossPieces(l: Loss): seq<string> {
    [STARTS, l.turn, " ", l.step, "]", l.gap, l.who, LOST, l.sign, l.life, "). ", l.winner, WINS]
  }

  function LossLine(l: Loss): string {
    l.pre + Concat(LossPieces(l)) + l.post
  }

  predicate Blanks(s: string) {
    forall c :: c in s ==> IsBlank(c)
  }

  // Who lost and who won, both taken whole, beside any turn, step and life, after any text without
  // the tag and before any text.
  ghost predicate LossFields(l: Loss) {
    && Numeral(l.turn) && StepName(l.step) && Blanks(l.gap) && UpTo(l.who, LOST)
    && (l.sign == "" || l.sign == "-") && Numeral(l.life) && UpTo(l.winner, WINS) && !IsBlank(l.who[0]) && UpToWord(l.pre, STARTS)
  }

  predicate LossItems(l: seq<Item>, lost: string, wins: string) {
    && |l| == 13 && l[0] == Text("[GAMELOG Turn") && l[1] == Rep(Digit, 1, false) && l[2] == Text(" ")
    && l[3] == Rep(UpperOrDigit, 1, false) && l[4] == Text("]") && l[5] == Rep(Blank, 0, false)
    && l[6] == Rep(Dot, 1, true) && l[7] == Text(lost) && l[8] == Maybe('-') && l[9] == Rep(Digit, 1, false)
    && l[10] == Text("). ") && l[11] == Rep(Dot, 1, true) && l[12] == Text(wins)
  }

  // The pieces a loss pattern's items take, one each.
  ghost predicate LossTexts(p: seq<string>, lost: string, wins: string) {
    && |p| == 13 && p[0] == "[GAMELOG Turn" && Numeral(p[1]) && p[2] == " " && StepName(p[3]) && p[4] == "]"
    && Blanks(p[5]) && UpTo(p[6], lost) && !IsBlank(p[6][0]) && p[7] == lost && (p[8] == "" || p[8] == "-")
    && Numeral(p[9]) && p[10] == "). " && UpTo(p[11], wins) && p[12] == wins
  }

  lemma LossTag(l: seq<Item>, s: string, p: seq<string>, o: seq<nat>, lost: string, wins: string)
    requires LossItems(l, lost, wins) && LossTexts(p, lost, wins) && Laid(s, p, o)
    ensures forall n: nat :: n < 5 ==> Takes(l, n, s, o[n], o[n + 1])
  {
    assert StartsAt(s, o[0], p[0]) && StartsAt(s, o[1], p[1]) && StartsAt(s, o[2], p[2]) && StartsAt(s, o[3], p[3])
      && StartsAt(s, o[4], p[4]);
    FirstChar(s, o[2], p[2]);
    FirstChar(s, o[4], p[4]);
    TakesText(l, 0, s, o[0], p[0]);
    TakesRun(l, 1, s, o[1], p[1], Digit);
    TakesText(l, 2, s, o[2], p[2]);
    TakesRun(l, 3, s, o[3], p[3], UpperOrDigit);
    TakesText(l, 4, s, o[4], p[4]);
  }

  lemma LossGap(l: seq<Item>, s: string, p: seq<string>, o: seq<nat>, lost: string, wins: string)
    requires LossItems(l, lost, wins) && LossTexts(p, lost, wins) && Laid(s, p, o)
    ensures Takes(l, 5, s, o[5], o[6])
  {
    assert StartsAt(s, o[5], p[5]) && StartsAt(s, o[6], p[6]);
    AllIn(s, o[5], p[5]);
    FirstChar(s, o[6], p[6]);
  }

  lemma LossSign(l: seq<Item>, s: string, p: seq<string>, o: seq<nat>, lost: string, wins: string)
    requires LossItems(l, lost, wins) && LossTexts(p, lost, wins) && Laid(s, p, o)
    ensures Takes(l, 8, s, o[8], o[9])
  {
    assert StartsAt(s, o[8], p[8]) && StartsAt(s, o[9], p[9]);
    FirstChar(s, o[9], p[9]);
    assert p[9][0] in p[9];
    if p[8] == "-" {
      FirstChar(s, o[8], p[8]);
    }
  }

  lemma LossWho(l: seq<Item>, s: string, p: seq<string>, o: seq<nat>, lost: string, wins: string)
    requires LossItems(l, lost, wins) && LossTexts(p, lost, wins) && Laid(s, p, o)
    ensures forall n: nat :: 5 <= n < 9 ==> Takes(l, n, s, o[n], o[n + 1])
  {
    LossGap(l, s, p, o, lost, wins);
    assert StartsAt(s, o[6], p[6]) && StartsAt(s, o[7], p[7]);
    TakesUpTo(l, 6, s, o[6], p[6], lost);
    TakesText(l, 7, s, o[7], p[7]);
    LossSign(l, s, p, o, lost, wins);
  }

  lemma LossEnd(l: seq<Item>, s: string, p: seq<string>, o: seq<nat>, lost: string, wins: string)
    requires LossItems(l, lost, wins) && LossTexts(p, lost, wins) && Laid(s, p, o)
    ensures forall n: nat :: 9 <= n < 13 ==> Takes(l, n, s, o[n], o[n + 1])
  {
    assert StartsAt(s, o[9], p[9]) && StartsAt(s, o[10], p[10]) && StartsAt(s, o[11], p[11]) && StartsAt(s, o[12], p[12]);
    FirstChar(s, o[10], p[10]);
    TakesRun(l, 9, s, o[9], p[9], Digit);
    TakesText(l, 10, s, o[10], p[10]);
    TakesUpTo(l, 11, s, o[11], p[11], wins);
    TakesText(l, 12, s, o[12], p[12]);
  }

  lemma LossMatch(l: seq<Item>, s: string, p: seq<string>, o: seq<nat>, lost: string, wins: string)
    requires LossItems(l, lost, wins) && LossTexts(p, lost, wins) && Laid(s, p, o)
    ensures o[0] <= |s| && Match(l, s, o[0]) == Some(o[1..])
  {
    LossTag(l, s, p, o, lost, wins);
    LossWho(l, s, p, o, lost, wins);
    LossEnd(l, s, p, o, lost, wins);
    var ends := o[1..];
    forall m: nat | m < |l| ensures Takes(l, m, s, EndOf(o[0], ends, m), ends[m]) {
      assert EndOf(o[0], ends, m) == o[m] && ends[m] == o[m + 1];
    }
    TakesFound(l, s, o[0], ends, 0);
    assert l[0..] == l && ends[0..] == ends;
  }

  lemma NoLossAt(s: string, k: nat)
    requires k <= |s| && !StartsAt(s, k, STARTS)
    ensures Match(LOSS, s, k).None?
  {
    assert LOSS[0] == Text(STARTS);
  }

  lemma FirstLoss(s: string, k: nat)
    requires k <= |s| && Match(LOSS, s, k).Some? && FreeOf(s, 0, k, STARTS)
    ensures Search(LOSS, s, 0) == Some(k)
  {
    forall i: nat | i < k ensures Match(LOSS, s, i).None? {
      NoLossAt(s, i);
    }
    SearchFirst(LOSS, s, 0, k);
  }

  lemma LossFound(s: string, k: nat, ends: seq<nat>)
    requires Search(LOSS, s, 0) == Some(k) && Match(LOSS, s, k) == Some(ends)
    ensures |ends| == 13 && ends[5] <= ends[6] <= ends[10] <= ends[11] <= |s|
    ensures NormalizeHidden(s) == "<LOSS> " + s[ends[5]..ends[6]] + " lost; " + s[ends[10]..ends[11]] + " wins"
  {
    LossShape(s, k, ends);
  }

  lemma LossSlices(s: string, p: seq<string>, o: seq<nat>)
    requires LossTexts(p, LOST, WINS) && Laid(s, p, o)
    ensures o[6] <= o[7] <= |s| && o[11] <= o[12] <= |s| && s[o[6]..o[7]] == p[6] && s[o[11]..o[12]] == p[11]
  {
    assert StartsAt(s, o[6], p[6]) && StartsAt(s, o[11], p[11]);
  }

  lemma LossOutcome(s: string, p: seq<string>, o: seq<nat>)
    requires LossTexts(p, LOST, WINS) && Laid(s, p, o) && FreeOf(s, 0, o[0], STARTS)
    ensures NormalizeHidden(s) == Outcome(p[6], p[11])
  {
    LossSlices(s, p, o);
    LossMatch(LOSS, s, p, o, LOST, WINS);
    FirstLoss(s, o[0]);
    LossFound(s, o[0], o[1..]);
  }

  function Outcome(who: string, winner: string): string {
    "<LOSS> " + who + " lost; " + winner + " wins"
  }

  lemma StartsInside(pre: string, t: string, post: string, i: nat, x: string)
    requires StartsAt(t, i, x)
    ensures StartsAt(pre + t + post, |pre| + i, x)
  {
    assert (pre + t + post)[|pre| + i..|pre| + i + |x|] == t[i..i + |x|];
  }

  // Pieces laid out in t lie as much further on in pre + t + post.
  lemma LaidInside(pre: string, t: string, post: string, p: seq<string>, o: seq<nat>) returns (o': seq<nat>)
    requires Laid(t, p, o) && o[0] == 0
    ensures Laid(pre + t + post, p, o') && o'[0] == |pre|
  {
    o' := seq(|o|, n requires 0 <= n < |o| => |pre| + o[n]);
    forall n {:trigger p[n]} | 0 <= n < |p|
      ensures StartsAt(pre + t + post, o'[n], p[n]) && o'[n + 1] == o'[n] + |p[n]| <= |pre + t + post|
    {
      StartsInside(pre, t, post, o[n], p[n]);
    }
  }

  lemma NoEarlierTag(pre: string, rest: string, word: string)
    requires UpToWord(pre, word) && StartsAt(pre + rest, |pre|, word)
    ensures FreeOf(pre + rest, 0, |pre|, word)
  {
    var s, part := pre + rest, pre + word[..|word| - 1];
    assert s[|pre|..|pre| + |word|] == word;
    assert s[0..|part|] == part;
    forall k: nat | k < |pre| ensures !StartsAt(s, k, word) {
      if StartsAt(s, k, word) {
        SliceStarts(s, 0, part, word, k);
      }
    }
  }

  // A loss line normalises to who lost and who won; turn, step and life are dropped, and so is all
  // that stands before the tag or after "wins!".
  lemma LossNormal(l: Loss)
    requires LossFields(l)
    ensures NormalizeHidden(LossLine(l)) == Outcome(l.who, l.winner)
  {
    var p := LossPieces(l);
    var o := LayOut(p);
    o := LaidInside(l.pre, Concat(p), l.post, p, o);
    assert p[0] == STARTS && StartsAt(LossLine(l), o[0], p[0]);
    assert LossLine(l) == l.pre + (Concat(p) + l.post);
    NoEarlierTag(l.pre, Concat(p) + l.post, STARTS);
    LossOutcome(LossLine(l), p, o);
  }

  // Outcomes are the same text only for the same loser and winner, when no name holds the word
  // between them.
  lemma OutcomeInjective(who: string, winner: string, who': string, winner': string)
    requires UpToWord(who, " lost; ") && UpToWord(who', " lost; ")
    ensures Outcome(who, winner) == Outcome(who', winner') <==> who == who' && winner == winner'
  {
    if Outcome(who, winner) == Outcome(who', winner') {
      var x, y := who + " lost; " + (winner + " wins"), who' + " lost; " + (winner' + " wins");
      assert Outcome(who, winner) == "<LOSS> " + x && Outcome(who', winner') == "<LOSS> " + y;
      assert ("<LOSS> " + x)[7..] == x && ("<LOSS> " + y)[7..] == y;
      SameCut(who, " lost; ", winner + " wins", who', winner' + " wins");
      assert (winner + " wins")[..|winner|] == winner && (winner' + " wins")[..|winner'|] == winner';
    }
  }

  // Two loss lines agree exactly when loser and winner are the same, whatever turn, step and life
  // each shows and whatever stands around it, or the client's only masks names.
  lemma LossesAgreeExactly(l: Loss, l': Loss)
    requires LossFields(l) && LossFields(l') && UpToWord(l.who, " lost; ") && UpToWord(l'.who, " lost; ")
    ensures NormalizeHidden(LossLine(l)) == NormalizeHidden(LossLine(l')) <==> l.who == l'.who && l.winner == l'.winner
    ensures Agree(LossLine(l), LossLine(l')) <==>
      (l.who == l'.who && l.winner == l'.winner) || TolerableUnknownDiff(LossLine(l), LossLine(l'))
  {
    LossNormal(l);
    LossNormal(l');
    OutcomeInjective(l.who, l.winner, l'.who, l'.winner);
  }

  const SAMPLE := Loss("", "1", "M1", " ", "A", "", "0", "B", "")

  lemma LetterUpTo(name: string, after: string)
    requires |name| == 1 && name[0] != '\n' && after != "" && name[0] != after[0]
    ensures UpTo(name, after)
  {
    var part := name + after[..|after| - 1];
    assert |part| == |after| && part[0] == name[0];
    forall i | 0 <= i <= |part| ensures !StartsAt(part, i, after) {
      if StartsAt(part, i, after) {
        FirstChar(part, i, after);
      }
    }
  }

  lemma NothingBefore(word: string)
    requires word != ""
    ensures UpToWord("", word)
  {
    var part := "" + word[..|word| - 1];
    assert |part| < |word|;
  }

  lemma SampleFields(l: Loss)
    requires l.pre == "" && |l.who| == |l.winner| == 1 && l.who[0] == 'A' && l.winner[0] == 'B'
    requires Numeral(l.turn) && Numeral(l.life) && StepName(l.step) && Blanks(l.gap) && l.sign == ""
    ensures LossFields(l)
  {
    LetterUpTo(l.who, LOST);
    LetterUpTo(l.winner, WINS);
    NothingBefore(STARTS);
  }

  lemma TailJoins(pre: string, mid: string, post: string, tail: string)
    ensures pre + mid + (post + tail) == (pre + mid + post) + tail
  {
  }

  lemma WithTail(l: Loss, tail: string) returns (l': Loss)
    requires LossFields(l)
    ensures LossFields(l') && l'.who == l.who && l'.winner == l.winner && LossLine(l') == LossLine(l) + tail
  {
    l' := l.(post := l.post + tail);
    TailJoins(l.pre, Concat(LossPieces(l)), l.post, tail);
  }

  // Any text the client adds after "wins!" is excused.
  lemma LossTailExcused(l: Loss, tail: string)
    requires LossFields(l)
    ensures Agree(LossLine(l), LossLine(l) + tail)
  {
    var l' := WithTail(l, tail);
    LossNormal(l);
    LossNormal(l');
  }

  lemma SampleTailExcused(tail: string)
    ensures Agree(LossLine(SAMPLE), LossLine(SAMPLE) + tail)
  {
    assert Numeral("1") && Numeral("0") && StepName("M1") && Blanks(" ");
    SampleFields(SAMPLE);
    LossTailExcused(SAMPLE, tail);
  }
}
