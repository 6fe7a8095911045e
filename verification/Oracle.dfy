// Which differences between a server's and a client's game log are mere masking.
module Oracle {
  import opened Digits
  import opened Regex
  import opened Splitting
  import opened Texts

  const UNKNOWN := "Unknown"
  const MISSING := "<missing>"

  // --- The masked-name wildcard ---

  // ^part(?:(?!Unknown).)+?part…$
  function Wildcards(parts: seq<string>): (items: seq<Item>)
    requires parts != []
    ensures |items| == 2 * |parts|
  {
    if |parts| == 1 then [Text(parts[0]), End]
    else [Text(parts[0]), Rep(DotNotAt(UNKNOWN), 1, true)] + Wildcards(parts[1..])
  }

  predicate TolerableUnknownDiff(server: string, client: string) {
    if !Contains(client, UNKNOWN) || Contains(server, UNKNOWN) then false
    else
      var parts := Split(client, UNKNOWN);
      |parts| >= 2 && Match(Wildcards(parts), server, 0).Some?
  }

  // A filling a wildcard can match inside s.
  ghost predicate Filling(f: string) {
    f != "" && '\n' !in f
  }

  // s is the parts with a filling for each gap, and perhaps one closing newline.
  ghost predicate Filled(parts: seq<string>, s: string) {
    exists fillings: seq<string> :: FilledWith(parts, s, fillings)
  }

  ghost predicate FilledWith(parts: seq<string>, s: string, fillings: seq<string>) {
    && |parts| == |fillings| + 1 && (forall f :: f in fillings ==> Filling(f))
    && (s == Weave(parts, fillings) || s == Weave(parts, fillings) + "\n")
  }

  lemma CutTwice(s: string, i: nat, j: nat, k: nat)
    requires i <= j <= k <= |s|
    ensures s[i..] == s[i..j] + s[j..k] + s[k..]
  {
    assert s[i..] == s[i..j] + s[j..];
    assert s[j..] == s[j..k] + s[k..];
  }

  lemma {:induction false} FitsFills(parts: seq<string>, s: string, i: nat, ends: seq<nat>) returns (fillings: seq<string>)
    requires parts != [] && i <= |s| && Fits(Wildcards(parts), s, i, ends)
    ensures FilledWith(parts, s[i..], fillings)
    decreases |parts|
  {
    var j := ends[0];
    if |parts| == 1 {
      fillings := [];
      assert Fits(Wildcards(parts)[1..], s, j, ends[1..]);
      assert s[i..] == s[i..j] + s[j..];
    } else {
      var k := ends[1];
      assert Fits(Wildcards(parts)[1..], s, j, ends[1..]);
      assert Wildcards(parts)[1..][1..] == Wildcards(parts[1..]);
      assert ends[1..][1..] == ends[2..];
      var rest := FitsFills(parts[1..], s, k, ends[2..]);
      fillings := [s[j..k]] + rest;
      assert fillings[1..] == rest;
      forall n | j <= n < k ensures s[n] != '\n' {
        assert In(DotNotAt(UNKNOWN), s, n);
      }
      CutTwice(s, i, j, k);
    }
  }

  // Two more items in front of a fit.
  lemma FitsTwo(items: seq<Item>, s: string, i: nat, j: nat, k: nat, ends: seq<nat>)
    requires |items| >= 2 && i <= j <= k <= |s| && Fits(items[2..], s, k, ends)
    requires Spans(items[0], s, i, j) && Spans(items[1], s, j, k)
    ensures Fits(items, s, i, [j, k] + ends)
  {
    var all := [j, k] + ends;
    assert items[1..][1..] == items[2..] && all[1..][1..] == ends;
    assert all[1..][0] == k;
    assert Fits(items[1..], s, j, all[1..]);
  }

  lemma GapSpans(s: string, j: nat, k: nat, f: string)
    requires j <= k <= |s| && s[j..k] == f && Filling(f) && !Contains(s, UNKNOWN)
    ensures Spans(Rep(DotNotAt(UNKNOWN), 1, true), s, j, k)
  {
    forall n | j <= n < k ensures In(DotNotAt(UNKNOWN), s, n) {
      assert s[n] == f[n - j];
      assert !StartsAt(s, n, UNKNOWN);
    }
  }

  lemma {:induction false} FillsFit(parts: seq<string>, s: string, i: nat, fillings: seq<string>) returns (ends: seq<nat>)
    requires parts != [] && i <= |s| && !Contains(s, UNKNOWN) && FilledWith(parts, s[i..], fillings)
    ensures Fits(Wildcards(parts), s, i, ends)
    decreases |parts|
  {
    var j := i + |parts[0]|;
    if |parts| == 1 {
      assert s[i..][..|parts[0]|] == s[i..j];
      FitsTwo(Wildcards(parts), s, i, j, j, []);
      ends := [j, j] + [];
    } else {
      var k := j + |fillings[0]|;
      assert Filling(fillings[0]);
      Peel(s, i, parts[0], fillings[0], Weave(parts[1..], fillings[1..]));
      var more := FillsFit(parts[1..], s, k, fillings[1..]);
      GapSpans(s, j, k, fillings[0]);
      assert Wildcards(parts)[2..] == Wildcards(parts[1..]);
      FitsTwo(Wildcards(parts), s, i, j, k, more);
      ends := [j, k] + more;
    }
  }

  lemma Peel(s: string, i: nat, a: string, b: string, rest: string)
    requires i <= |s| && (s[i..] == a + b + rest || s[i..] == a + b + rest + "\n")
    ensures i + |a| + |b| <= |s|
    ensures s[i..i + |a|] == a && s[i + |a|..i + |a| + |b|] == b
    ensures s[i + |a| + |b|..] == rest || s[i + |a| + |b|..] == rest + "\n"
  {
    var t := s[i..];
    assert t[..|a|] == a && t[|a|..|a| + |b|] == b;
    assert t[|a| + |b|..] == rest || t[|a| + |b|..] == rest + "\n";
    assert t[|a| + |b|..] == s[i + |a| + |b|..];
  }

  // The token's capital stands at its front only, so the token cannot overlap itself.
  lemma UnknownOnce()
    ensures FrontOnly(UNKNOWN)
  {
  }

  // The difference is tolerated exactly when the client's line has the masked token, the server's
  // has not, and the server's line is the client's with every token replaced by some non-empty
  // text free of newlines, up to one closing newline.
  lemma TolerableExactly(server: string, client: string)
    ensures TolerableUnknownDiff(server, client) <==>
      !Contains(server, UNKNOWN) && exists parts ::
        |parts| >= 2 && Parting(client, UNKNOWN, parts) && Filled(parts, server)
  {
    UnknownOnce();
    SplitExactly(client, UNKNOWN, Split(client, UNKNOWN));
    TolerableBySplit(server, client);
    SplitCounts(client, UNKNOWN, 0, 0);
    forall parts | Parting(client, UNKNOWN, parts) ensures parts == Split(client, UNKNOWN) {
      SplitExactly(client, UNKNOWN, parts);
    }
  }

  lemma TolerableBySplit(server: string, client: string)
    ensures TolerableUnknownDiff(server, client) <==>
      Contains(client, UNKNOWN) && !Contains(server, UNKNOWN) && Filled(Split(client, UNKNOWN), server)
  {
    var parts := Split(client, UNKNOWN);
    SplitCounts(client, UNKNOWN, 0, 0);
    assert server[0..] == server;
    if Contains(client, UNKNOWN) && !Contains(server, UNKNOWN) {
      if Match(Wildcards(parts), server, 0).Some? {
        var fillings := FitsFills(parts, server, 0, Match(Wildcards(parts), server, 0).value);
      }
      if Filled(parts, server) {
        var fillings :| FilledWith(parts, server, fillings);
        var ends := FillsFit(parts, server, 0, fillings);
        MatchComplete(Wildcards(parts), server, 0, ends);
      }
    }
  }

  // --- Masked draws and loss lines ---

  const TAG: seq<Item> :=
    [Text("[GAMELOG Turn"), Rep(Digit, 1, false), Text(" "), Rep(UpperOrDigit, 1, false), Text("]")]

  const DRAW: seq<Item> :=
    [WordEdge, Text("draws "), Rep(Dot, 1, true), Text(" ("), Rep(Digit, 1, false), Text(")")]

  const LOST := " has lost the game (life: "
  const WINS := " wins!"

  const LOSS: seq<Item> :=
    TAG + [Rep(Blank, 0, false), Rep(Dot, 1, true), Text(LOST), Maybe('-'), Rep(Digit, 1, false),
           Text("). "), Rep(Dot, 1, true), Text(WINS)]

  // The drawn names of s[i..] replaced.
  function Mask(s: string, i: nat): string
    requires i <= |s|
    decreases |s| - i
  {
    match Search(DRAW, s, i)
    case None => s[i..]
    case Some(k) =>
      var ends := Match(DRAW, s, k).value;
      DrawShape(s, k, ends);
      s[i..ends[1]] + "<CARD>" + s[ends[2]..ends[5]] + Mask(s, ends[5])
  }

  lemma DrawShape(s: string, k: nat, ends: seq<nat>)
    requires Fits(DRAW, s, k, ends)
    ensures |ends| == 6 && k + 6 == ends[1] < ends[2] < ends[5] <= |s|
    ensures s[k..ends[1]] == "draws " && StartsAt(s, k, "draws ")
  {
    FitsDrop(DRAW, s, k, ends, 0);
    FitsDrop(DRAW, s, k, ends, 1);
    FitsDrop(DRAW, s, k, ends, 2);
    FitsDrop(DRAW, s, k, ends, 3);
    FitsDrop(DRAW, s, k, ends, 4);
    FitsDrop(DRAW, s, k, ends, 5);
  }

  lemma LossShape(s: string, k: nat, ends: seq<nat>)
    requires Fits(LOSS, s, k, ends)
    ensures |ends| == 13 && k <= ends[5] < ends[6] <= ends[10] < ends[11] <= |s|
    ensures exists i :: 0 <= i <= |s| && StartsAt(s, i, LOST)
  {
    FitsDrop(LOSS, s, k, ends, 5);
    FitsDrop(LOSS, s, k, ends, 6);
    FitsDrop(LOSS, s, k, ends, 7);
    FitsDrop(LOSS, s, k, ends, 8);
    FitsDrop(LOSS, s, k, ends, 9);
    FitsDrop(LOSS, s, k, ends, 10);
    FitsDrop(LOSS, s, k, ends, 11);
    assert StartsAt(s, ends[6], LOST);
  }

  lemma {:induction false} FitsDrop(items: seq<Item>, s: string, i: nat, ends: seq<nat>, n: nat)
    requires n < |items| && Fits(items, s, i, ends)
    ensures |ends| == |items|
    ensures var from := if n == 0 then i else ends[n - 1];
      i <= from <= ends[n] <= |s| && Spans(items[n], s, from, ends[n])
  {
    if n > 0 {
      FitsDrop(items[1..], s, ends[0], ends[1..], n - 1);
    }
  }

  function NormalizeHidden(line: string): string {
    match Search(LOSS, line, 0)
    case None => Mask(line, 0)
    case Some(k) =>
      var ends := Match(LOSS, line, k).value;
      LossShape(line, k, ends);
      "<LOSS> " + line[ends[5]..ends[6]] + " lost; " + line[ends[10]..ends[11]] + " wins"
  }

  // Text that is neither a draw nor a loss line is left alone.
  lemma PublicUntouched(line: string)
    requires !Contains(line, "draws ") && !Contains(line, LOST)
    ensures NormalizeHidden(line) == line
  {
    var k := Search(LOSS, line, 0);
    if k.Some? {
      LossShape(line, k.value, Match(LOSS, line, k.value).value);
    }
    var d := Search(DRAW, line, 0);
    if d.Some? {
      DrawShape(line, d.value, Match(DRAW, line, d.value).value);
    }
  }

  // --- Comparing two logs ---

  function LineAt(lines: seq<string>, i: nat): string {
    if i < |lines| then lines[i] else MISSING
  }

  predicate Agree(server: string, client: string) {
    server == client || NormalizeHidden(server) == NormalizeHidden(client) || TolerableUnknownDiff(server, client)
  }

  function Longer(server: seq<string>, client: seq<string>): nat {
    if |server| >= |client| then |server| else |client|
  }

  // When two lines agree.
  type Test = (string, string) -> bool

  // Position by position, the shorter log padded.
  function Verdicts(agree: Test, server: seq<string>, client: seq<string>): seq<bool> {
    seq(Longer(server, client), i requires 0 <= i => agree(LineAt(server, i), LineAt(client, i)))
  }

  // The false positions below n.
  function Falses(verdicts: seq<bool>, n: nat): seq<int>
    requires n <= |verdicts|
  {
    if n == 0 then [] else Falses(verdicts, n - 1) + if verdicts[n - 1] then [] else [n - 1]
  }

  // The positions where the logs really diverge.
  function Divergent(agree: Test, server: seq<string>, client: seq<string>): seq<int> {
    Falses(Verdicts(agree, server, client), Longer(server, client))
  }

  lemma {:induction false} FalsesExactly(verdicts: seq<bool>, n: nat)
    requires n <= |verdicts|
    ensures forall i :: i in Falses(verdicts, n) <==> 0 <= i < n && !verdicts[i]
    ensures forall a, b :: 0 <= a < b < |Falses(verdicts, n)| ==> Falses(verdicts, n)[a] < Falses(verdicts, n)[b]
  {
    if n > 0 {
      FalsesExactly(verdicts, n - 1);
      var before := Falses(verdicts, n - 1);
      assert forall a :: 0 <= a < |before| ==> before[a] in before;
    }
  }

  const SAMPLE := 8

  function FirstFew(found: seq<int>): seq<int> {
    if |found| <= SAMPLE then found else found[..SAMPLE]
  }

  lemma FirstFewMore(found: seq<int>, i: int)
    ensures FirstFew(found + [i]) == if |FirstFew(found)| < SAMPLE then FirstFew(found) + [i] else FirstFew(found)
  {
  }

  // What is printed of one divergent position.
  type Part = int -> string

  function Parts(part: Part, found: seq<int>): seq<string> {
    seq(|found|, k requires 0 <= k < |found| => part(found[k]))
  }

  lemma PartsNext(part: Part, found: seq<int>, i: int)
    ensures Parts(part, found + [i]) == Parts(part, found) + [part(i)]
  {
  }

  lemma ShownNext(part: Part, found: seq<int>, i: int)
    ensures var shown := Parts(part, FirstFew(found));
      Parts(part, FirstFew(found + [i])) == if |shown| < SAMPLE then shown + [part(i)] else shown
  {
    FirstFewMore(found, i);
    PartsNext(part, FirstFew(found), i);
  }

  // The loop over both logs: the number of divergences, and the first few as printed.
  method CompareLogs(agree: Test, part: Part, server: seq<string>, client: seq<string>)
      returns (count: nat, shown: seq<string>)
    ensures count == |Divergent(agree, server, client)|
    ensures shown == Parts(part, FirstFew(Divergent(agree, server, client)))
  {
    count, shown := 0, [];
    ghost var found := [];
    for i := 0 to Longer(server, client)
      invariant found == Falses(Verdicts(agree, server, client), i)
      invariant count == |found| && shown == Parts(part, FirstFew(found))
    {
      if !agree(LineAt(server, i), LineAt(client, i)) {
        ShownNext(part, found, i);
        count := count + 1;
        if |shown| < SAMPLE {
          shown := shown + [part(i)];
        }
        found := found + [i];
      }
    }
  }

  const EXCERPT := 140

  function Excerpt(line: string): string {
    if |line| <= EXCERPT then line else line[..EXCERPT]
  }

  function Upper(c: char): char {
    if 'a' <= c <= 'z' then 'A' + (c - 'a') else c
  }

  function UpperAll(s: string): string {
    seq(|s|, i requires 0 <= i < |s| => Upper(s[i]))
  }

  function PartAt(server: seq<string>, client: seq<string>, who: string, i: int): string {
    if i < 0 then ""
    else
      "  line " + ToDigits(i + 1, 10) + ":\n    SERVER: " + Excerpt(LineAt(server, i))
      + "\n    " + UpperAll(who) + ": " + Excerpt(LineAt(client, i))
  }

  function PartFor(server: seq<string>, client: seq<string>, who: string): Part {
    i => PartAt(server, client, who, i)
  }

  // The sample: the first few divergences and how many more there are.
  function Sample(parts: seq<string>, count: nat): string {
    JoinLines(parts) +
    if count > SAMPLE then "\n  ... and " + ToDigits(count - SAMPLE, 10) + " more real divergences" else ""
  }

  method ComparePerspective(server: seq<string>, client: seq<string>, who: string)
      returns (count: nat, sample: string)
    ensures count == |Divergent(Agree, server, client)|
    ensures sample ==
      Sample(Parts(PartFor(server, client, who), FirstFew(Divergent(Agree, server, client))), count)
  {
    var parts;
    count, parts := CompareLogs(Agree, PartFor(server, client, who), server, client);
    sample := Sample(parts, count);
  }

  // --- What the sample shows ---

  // The first eight positions, or all there are.
  lemma FirstFewExactly(found: seq<int>)
    ensures FirstFew(found) <= found && |FirstFew(found)| == if |found| < 8 then |found| else 8
  {
  }

  // At most 140 characters of a line are quoted, from its start.
  lemma ExcerptExactly(line: string)
    ensures Excerpt(line) <= line && |Excerpt(line)| == if |line| < 140 then |line| else 140
  {
  }

  // The text shown for a position: its number counted from one, and what each side has there.
  lemma PartReads(server: seq<string>, client: seq<string>, who: string, i: nat)
    ensures exists number: string ::
      AllDigits(number, 10) && FromDigits(number, 10) == i + 1 &&
      PartAt(server, client, who, i) ==
        "  line " + number + ":\n    SERVER: " + Excerpt(LineAt(server, i))
        + "\n    " + UpperAll(who) + ": " + Excerpt(LineAt(client, i))
  {
    FromToDigits(i + 1, 10);
  }

  // After more than eight the number of those left out is told.
  lemma SampleTells(parts: seq<string>, count: nat)
    ensures count <= 8 ==> Sample(parts, count) == JoinLines(parts)
    ensures count > 8 ==> exists number: string ::
      AllDigits(number, 10) && FromDigits(number, 10) == count - 8 &&
      Sample(parts, count) == JoinLines(parts) + ("\n  ... and " + number + " more real divergences")
  {
    if count > 8 {
      FromToDigits(count - 8, 10);
    }
  }

  lemma {:induction false} JoinNotEmpty(lines: seq<string>)
    requires lines != [] && lines[0] != ""
    ensures JoinLines(lines) != ""
  {
  }

  // A divergence always shows: the sample is empty exactly when nothing diverges.
  lemma SampleEmptyExactly(server: seq<string>, client: seq<string>, who: string, found: seq<int>)
    requires forall i :: i in found ==> i >= 0
    ensures Sample(Parts(PartFor(server, client, who), FirstFew(found)), |found|) == "" <==> found == []
  {
    if found != [] {
      var parts := Parts(PartFor(server, client, who), FirstFew(found));
      assert found[0] in found;
      assert parts[0] == PartAt(server, client, who, found[0]) && parts[0][0] == ' ';
      JoinNotEmpty(parts);
    }
  }

  // --- What a zero count means ---

  predicate Tagged(line: string) {
    Search(TAG, line, 0).Some?
  }

  lemma TagHasBracket(line: string)
    requires Tagged(line)
    ensures '[' in line
  {
    var k := Search(TAG, line, 0).value;
    FitsDrop(TAG, line, k, Match(TAG, line, k).value, 0);
    var j := Match(TAG, line, k).value[0];
    assert line[k..j] == "[GAMELOG Turn" && line[k..j][0] == '[';
  }

  lemma MaskedHasDraw(s: string)
    ensures Mask(s, 0) == s || 'd' in Mask(s, 0)
  {
    var r := Search(DRAW, s, 0);
    if r.Some? {
      var k := r.value;
      var ends := Match(DRAW, s, k).value;
      DrawShape(s, k, ends);
      assert s[0..ends[1]][k] == s[k..ends[1]][0] == 'd';
      assert Mask(s, 0)[k] == s[0..ends[1]][k];
    }
  }

  lemma {:induction false} WeaveKeeps(parts: seq<string>, a: seq<string>, b: seq<string>, c: char)
    requires |parts| == |a| + 1 == |b| + 1 && c in Weave(parts, a) && forall f :: f in a ==> c !in f
    ensures c in Weave(parts, b)
  {
    if a != [] && c !in parts[0] {
      assert a[0] in a;
      WeaveKeeps(parts[1..], a[1..], b[1..], c);
    }
  }

  // What sets the padding apart from every tagged line.
  predicate Padding(m: string) {
    '[' !in m && 'd' !in m && ' ' !in m && 'U' !in m
  }

  lemma PaddingDisagrees(m: string, line: string)
    requires '[' in line && Padding(m)
    ensures !Agree(m, line) && !Agree(line, m)
  {
    PaddingPlain(m);
    BracketNormal(m, line);
    BracketNotFilled(m, line);
  }

  // A line missing on one side is never excused.
  lemma MissingNeverAgrees(line: string)
    requires Tagged(line)
    ensures !Agree(MISSING, line) && !Agree(line, MISSING)
  {
    TagHasBracket(line);
    PaddingDisagrees(MISSING, line);
  }

  lemma BracketNotFilled(m: string, line: string)
    requires '[' in line && '[' !in m
    ensures !TolerableUnknownDiff(m, line)
  {
    TolerableBySplit(m, line);
    SplitWeaves(line, UNKNOWN);
    var parts := Split(line, UNKNOWN);
    forall fillings ensures !FilledWith(parts, m, fillings) {
      if FilledWith(parts, m, fillings) {
        WeaveKeeps(parts, Repeat(UNKNOWN, |parts| - 1), fillings, '[');
      }
    }
  }

  lemma PaddingPlain(m: string)
    requires Padding(m)
    ensures NormalizeHidden(m) == m && !Contains(m, UNKNOWN)
  {
    if Contains(m, "draws ") {
      ContainsMember(m, "draws ", "draws "[0]);
    } else if Contains(m, LOST) {
      ContainsMember(m, LOST, LOST[0]);
    } else {
      PublicUntouched(m);
    }
    if Contains(m, UNKNOWN) {
      ContainsMember(m, UNKNOWN, UNKNOWN[0]);
    }
  }

  lemma BracketNormal(m: string, line: string)
    requires '[' in line && Padding(m)
    ensures NormalizeHidden(line) != m
  {
    if Search(LOSS, line, 0).Some? {
      assert NormalizeHidden(line)[6] == ' ';
    } else {
      MaskedHasDraw(line);
    }
  }

  ghost predicate PaddingShows(agree: Test, server: seq<string>, client: seq<string>) {
    forall l :: l in server || l in client ==> !agree(MISSING, l) && !agree(l, MISSING)
  }

  lemma VerdictAt(agree: Test, server: seq<string>, client: seq<string>, i: nat)
    requires PaddingShows(agree, server, client) && i < Longer(server, client)
    ensures Verdicts(agree, server, client)[i] <==> i < |server| && i < |client| && agree(server[i], client[i])
  {
    assert Verdicts(agree, server, client)[i] == agree(LineAt(server, i), LineAt(client, i));
    assert i < |server| ==> server[i] in server;
    assert i < |client| ==> client[i] in client;
  }

  // When no line agrees with the padding, no divergence means equal lengths and agreement
  // position by position.
  lemma NoneDivergent(agree: Test, server: seq<string>, client: seq<string>)
    requires PaddingShows(agree, server, client)
    ensures Divergent(agree, server, client) == [] <==> |server| == |client| && AllAgree(agree, server, client)
  {
    var n, verdicts := Longer(server, client), Verdicts(agree, server, client);
    forall i: nat | i < n
      ensures verdicts[i] <==> i < |server| && i < |client| && agree(server[i], client[i])
    {
      VerdictAt(agree, server, client, i);
    }
    NoneFalse(verdicts, n);
    assert |server| < n ==> !verdicts[|server|];
    assert |client| < n ==> !verdicts[|client|];
  }

  lemma NoneFalse(verdicts: seq<bool>, n: nat)
    requires n == |verdicts|
    ensures Falses(verdicts, n) == [] <==> forall i :: 0 <= i < n ==> verdicts[i]
  {
    FalsesExactly(verdicts, n);
    var found := Falses(verdicts, n);
    if found != [] {
      assert found[0] in found;
    }
  }

  ghost predicate AllAgree(agree: Test, server: seq<string>, client: seq<string>) {
    forall i {:trigger server[i]} :: 0 <= i < |server| && i < |client| ==> agree(server[i], client[i])
  }

  // On tagged logs the count is zero exactly when they have the same length and every position
  // is equal, equal once hidden parts are masked, or a masked name.
  lemma ZeroExactly(server: seq<string>, client: seq<string>)
    requires forall l :: l in server || l in client ==> Tagged(l)
    ensures |Divergent(Agree, server, client)| == 0 <==> |server| == |client| && AllAgree(Agree, server, client)
  {
    forall l | l in server || l in client ensures !Agree(MISSING, l) && !Agree(l, MISSING) {
      MissingNeverAgrees(l);
    }
    NoneDivergent(Agree, server, client);
  }

  // A public line, with no draw, loss or masked name, must be identical on both sides.
  lemma PublicMustMatch(server: string, client: string)
    requires forall l :: l in [server, client] ==> !Contains(l, "draws ") && !Contains(l, LOST)
    requires !Contains(client, UNKNOWN)
    ensures Agree(server, client) <==> server == client
  {
    assert server in [server, client] && client in [server, client];
    PublicUntouched(server);
    PublicUntouched(client);
  }

  lemma SplitAll(u: string)
    requires u != ""
    ensures Split(u, u) == ["", ""]
  {
    assert SplitFrom(u, u, |u|, |u|) == [u[|u|..]];
    assert u[0..0] == "" && u[|u|..] == "";
  }

  lemma MissingIsPadding(m: string)
    requires m == MISSING
    ensures Filling(m) && !Contains(m, UNKNOWN)
  {
    assert Padding(m);
    PaddingPlain(m);
  }

  lemma WeaveOne(f: string)
    requires Filling(f)
    ensures Filled(["", ""], f)
  {
    assert Weave(["", ""][1..], []) == "";
    assert Weave(["", ""], [f]) == "" + f + "" == f;
    assert FilledWith(["", ""], f, [f]);
  }

  // Without the tags the padding itself can be excused: a client's extra line reading just the
  // masked token counts as no divergence.
  lemma UntaggedExtraLine(u: string, m: string)
    requires u == UNKNOWN && m == MISSING
    ensures TolerableUnknownDiff(m, u) && !Tagged(u)
  {
    MissingIsPadding(m);
    assert StartsAt(u, 0, u);
    SplitAll(u);
    WeaveOne(m);
    TolerableBySplit(m, u);
    if Tagged(u) {
      TagHasBracket(u);
    }
  }

  // The wildcard stops at a newline: the server's name may not hold one, though the line is the
  // client's with its token replaced by non-empty text.
  lemma NewlineNotTolerated(server: string, client: string)
    requires server == "a\nb" && client == UNKNOWN
    ensures !TolerableUnknownDiff(server, client)
    ensures Split(client, UNKNOWN) == ["", ""] && Weave(["", ""], [server]) == server
  {
    SplitAll(client);
    assert Weave(["", ""][1..], []) == "";
    TolerableBySplit(server, client);
    forall fillings ensures !FilledWith(["", ""], server, fillings) {
      if |fillings| == 1 {
        OneGap(fillings);
      }
    }
  }

  lemma OneGap(fillings: seq<string>)
    requires |fillings| == 1
    ensures Weave(["", ""], fillings) == fillings[0]
    ensures Filling(fillings[0]) ==> fillings[0] != "a\nb" && fillings[0] + "\n" != "a\nb"
  {
    assert ["", ""][1..] == [""] && fillings[1..] == [];
    var f := fillings[0];
    assert "a\nb"[1] == '\n' && "a\nb"[2] == 'b';
    assert (f + "\n")[|f|] == '\n';
  }
}
