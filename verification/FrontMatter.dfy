// The guard against duplicate top-level keys in an issue file's front matter, and its repair.
module FrontMatter {
  import opened Options
  import opened Sequences
  import opened Sums
  import opened Texts

  // --- Lines ---

  // Where the line starting the text ends, its newline included.
  function LineEnd(text: string, i: nat): (j: nat)
    requires i < |text|
    ensures i < j <= |text| && (forall k :: i <= k < j - 1 ==> text[k] != '\n')
    ensures text[j - 1] == '\n' || j == |text|
    decreases |text| - i
  {
    if text[i] == '\n' || i + 1 == |text| then i + 1 else LineEnd(text, i + 1)
  }

  // splitlines(keepends=True).
  function Lines(text: string): seq<string>
    decreases |text|
  {
    if text == "" then [] else
      var j := LineEnd(text, 0);
      [text[..j]] + Lines(text[j..])
  }

  lemma {:induction false} ConcatLines(text: string)
    ensures Concat(Lines(text)) == text
    decreases |text|
  {
    if text != "" {
      var j := LineEnd(text, 0);
      ConcatLines(text[j..]);
      ConcatFront(text[..j], Lines(text[j..]));
      Halves(text, j);
    }
  }

  lemma ConcatFront(first: string, rest: seq<string>)
    ensures Concat([first] + rest) == first + Concat(rest)
  {
    assert ([first] + rest)[1..] == rest;
  }

  lemma Halves(text: string, j: nat)
    requires j <= |text|
    ensures text[..j] + text[j..] == text
  {
  }

  // A line: not empty, with a newline at its end only.
  predicate Ended(line: string) {
    line != "" && line[|line| - 1] == '\n' && forall k :: 0 <= k < |line| - 1 ==> line[k] != '\n'
  }

  predicate Unended(line: string) {
    line != "" && '\n' !in line
  }

  // What splitting can give: every line but the last has its newline.
  predicate WellSplit(lines: seq<string>) {
    && (forall i :: 0 <= i < |lines| - 1 ==> Ended(lines[i]))
    && (lines != [] ==> Ended(lines[|lines| - 1]) || Unended(lines[|lines| - 1]))
  }

  lemma {:induction false} LinesWellSplit(text: string)
    ensures WellSplit(Lines(text))
    decreases |text|
  {
    if text != "" {
      var j := LineEnd(text, 0);
      LinesWellSplit(text[j..]);
      FirstLine(text, j);
      WellSplitFront(text[..j], Lines(text[j..]));
    }
  }

  lemma FirstLine(text: string, j: nat)
    requires text != "" && j == LineEnd(text, 0)
    ensures Ended(text[..j]) || (Unended(text[..j]) && Lines(text[j..]) == [])
  {
    if text[j - 1] != '\n' {
      assert forall k :: 0 <= k < j ==> text[..j][k] != '\n';
    }
  }

  lemma WellSplitFront(first: string, rest: seq<string>)
    requires WellSplit(rest) && (Ended(first) || (Unended(first) && rest == []))
    ensures WellSplit([first] + rest)
  {
    var lines := [first] + rest;
    assert rest != [] ==> lines[|lines| - 1] == rest[|rest| - 1];
  }

  lemma {:induction false} LineEndAt(text: string, i: nat, j: nat)
    requires i < j <= |text| && (forall k :: i <= k < j - 1 ==> text[k] != '\n')
    requires text[j - 1] == '\n' || j == |text|
    ensures LineEnd(text, i) == j
    decreases j - i
  {
    if i + 1 < j {
      LineEndAt(text, i + 1, j);
    }
  }

  lemma {:induction false} LinesConcat(lines: seq<string>)
    requires WellSplit(lines)
    ensures Lines(Concat(lines)) == lines
  {
    if lines != [] {
      var text, first := Concat(lines), lines[0];
      if |lines| == 1 {
        assert Concat(lines[1..]) == "";
        assert text == first;
      }
      assert forall k :: 0 <= k < |first| ==> text[k] == first[k];
      LineEndAt(text, 0, |first|);
      assert text[..|first|] == first && text[|first|..] == Concat(lines[1..]);
      LinesConcat(lines[1..]);
    }
  }

  // The lines are the only pieces of the text that have their newline, if any, at the end.
  lemma LinesExactly(text: string, lines: seq<string>)
    ensures lines == Lines(text) <==> WellSplit(lines) && Concat(lines) == text
  {
    ConcatLines(text);
    LinesWellSplit(text);
    if WellSplit(lines) && Concat(lines) == text {
      LinesConcat(lines);
    }
  }

  // --- Top-level keys ---

  predicate KeyStart(c: char) {
    'A' <= c <= 'Z' || 'a' <= c <= 'z' || c == '_'
  }

  predicate KeyChar(c: char) {
    KeyStart(c) || '0' <= c <= '9' || c == '-'
  }

  // The end of the run of key characters, and of the run of blanks, from i on.
  function KeyEnd(line: string, i: nat): (j: nat)
    requires i <= |line|
    ensures i <= j <= |line| && (forall k :: i <= k < j ==> KeyChar(line[k]))
    ensures j == |line| || !KeyChar(line[j])
    decreases |line| - i
  {
    if i < |line| && KeyChar(line[i]) then KeyEnd(line, i + 1) else i
  }

  function BlankEnd(line: string, i: nat): (j: nat)
    requires i <= |line|
    ensures i <= j <= |line| && (forall k :: i <= k < j ==> IsBlank(line[k]))
    ensures j == |line| || !IsBlank(line[j])
    decreases |line| - i
  {
    if i < |line| && IsBlank(line[i]) then BlankEnd(line, i + 1) else i
  }

  // ^([A-Za-z_][A-Za-z0-9_-]*)\s*:
  function KeyOf(line: string): Option<string> {
    if line == "" || !KeyStart(line[0]) then None
    else
      var j := KeyEnd(line, 1);
      var k := BlankEnd(line, j);
      if k < |line| && line[k] == ':' then Some(line[..j]) else None
  }

  // The pattern matches just the lines that are a key, blanks and a colon, then anything.
  lemma KeyOfExactly(line: string, key: string)
    ensures KeyOf(line) == Some(key) <==>
      exists blanks: string, rest: string :: KeyLine(line, key, blanks, rest)
  {
    if KeyOf(line) == Some(key) {
      var j := KeyEnd(line, 1);
      var k := BlankEnd(line, j);
      assert line == line[..j] + line[j..k] + ":" + line[k + 1..];
      assert KeyLine(line, key, line[j..k], line[k + 1..]);
    }
    forall blanks: string, rest: string | KeyLine(line, key, blanks, rest) ensures KeyOf(line) == Some(key) {
      KeyLineParses(line, key, blanks, rest);
    }
  }

  ghost predicate KeyLine(line: string, key: string, blanks: string, rest: string) {
    && key != "" && KeyStart(key[0]) && (forall c :: c in key ==> KeyChar(c))
    && (forall c :: c in blanks ==> IsBlank(c)) && line == key + blanks + ":" + rest
  }

  lemma KeyLineParses(line: string, key: string, blanks: string, rest: string)
    requires KeyLine(line, key, blanks, rest)
    ensures KeyOf(line) == Some(key)
  {
    var j, k := |key|, |key| + |blanks|;
    assert line[k] == ':' && line[..j] == key;
    assert forall n :: 0 <= n < j ==> line[n] == key[n] && KeyChar(line[n]);
    assert forall n :: j <= n < k ==> line[n] == blanks[n - j] && IsBlank(line[n]);
    assert IsBlank(line[j]) || line[j] == ':';
    assert KeyEnd(line, 1) == j;
    assert BlankEnd(line, j) == k;
  }

  // --- The front matter ---

  // line.rstrip("\n")
  function Stripped(line: string): string {
    if line != "" && line[|line| - 1] == '\n' then Stripped(line[..|line| - 1]) else line
  }

  predicate Fence(line: string) {
    Stripped(line) == "---"
  }

  // The first fence from i on.
  function NextFence(lines: seq<string>, i: nat): (r: Option<nat>)
    requires i <= |lines|
    ensures r.Some? ==> i <= r.value < |lines| && Fence(lines[r.value])
                        && forall k :: i <= k < r.value ==> !Fence(lines[k])
    ensures r.None? ==> forall k :: i <= k < |lines| ==> !Fence(lines[k])
    decreases |lines| - i
  {
    if i == |lines| then None
    else if Fence(lines[i]) then Some(i)
    else NextFence(lines, i + 1)
  }

  // The line closing the front matter that opens at the first line.
  function FrontEnd(lines: seq<string>): (r: Option<nat>)
    ensures r.Some? ==> 1 <= r.value < |lines|
  {
    if lines == [] || !Fence(lines[0]) then None else NextFence(lines, 1)
  }

  // Split lines are fences when they read just ---, with or without the newline.
  lemma FenceExactly(line: string)
    requires Ended(line) || Unended(line)
    ensures Fence(line) <==> IsFence(line)
  {
    var t := line[..|line| - 1];
    if line[|line| - 1] == '\n' {
      assert Stripped(line) == Stripped(t);
      assert line == t + "\n";
      if t != "" {
        assert t[|t| - 1] == line[|t| - 1];
      }
    }
  }

  // The closing line is the first --- after an opening one on the very first line; without an
  // opening or a closing one there is no front matter.
  lemma FrontEndExactly(text: string, end: nat)
    ensures var lines := Lines(text);
      FrontEnd(lines) == Some(end) <==>
        && 1 <= end < |lines| && IsFence(lines[0]) && IsFence(lines[end])
        && forall k :: 1 <= k < end ==> !IsFence(lines[k])
  {
    var lines := Lines(text);
    LinesWellSplit(text);
    forall k | 0 <= k < |lines| ensures Fence(lines[k]) <==> IsFence(lines[k]) {
      FenceExactly(lines[k]);
    }
    if 1 <= end < |lines| && IsFence(lines[end]) && forall k :: 1 <= k < end ==> !IsFence(lines[k]) {
      NextFenceAt(lines, 1, end);
    }
  }

  predicate IsFence(line: string) {
    line == "---" || line == "---\n"
  }

  // A text that does not begin with a fence is left alone.
  lemma NoFrontMatter(text: string)
    requires Lines(text) == [] || !IsFence(Lines(text)[0])
    ensures Repair(text) == text && Duplicates(Body(Lines(text))) == map[]
  {
    LinesWellSplit(text);
    if Lines(text) != [] {
      FenceExactly(Lines(text)[0]);
    }
  }

  method SplitFrontmatter(lines: seq<string>) returns (r: Option<nat>)
    ensures r == FrontEnd(lines)
  {
    if lines == [] || !Fence(lines[0]) {
      return None;
    }
    var i := 1;
    while i < |lines|
      invariant 1 <= i <= |lines|
      invariant NextFence(lines, 1) == NextFence(lines, i)
    {
      if Fence(lines[i]) {
        return Some(i);
      }
      i := i + 1;
    }
    return None;
  }

  function Body(lines: seq<string>): seq<string> {
    var r := FrontEnd(lines);
    if r.None? then [] else lines[1..r.value]
  }

  // --- Duplicates ---

  function Count(body: seq<string>, key: string): nat {
    if body == [] then 0
    else Count(body[..|body| - 1], key) + if KeyOf(body[|body| - 1]) == Some(key) then 1 else 0
  }

  function Keys(body: seq<string>): set<string> {
    set i | 0 <= i < |body| && KeyOf(body[i]).Some? :: KeyOf(body[i]).value
  }

  function Duplicates(body: seq<string>): map<string, nat> {
    map k | k in Keys(body) && Count(body, k) > 1 :: Count(body, k)
  }

  lemma {:induction false} CountKeys(body: seq<string>, key: string)
    ensures Count(body, key) > 0 <==> key in Keys(body)
  {
    if body != [] {
      var n := |body| - 1;
      CountKeys(body[..n], key);
      if i :| 0 <= i < |body| && KeyOf(body[i]) == Some(key) {
        assert i < n ==> body[..n][i] == body[i];
      }
      if j :| 0 <= j < n && KeyOf(body[..n][j]) == Some(key) {
        assert body[j] == body[..n][j];
      }
    }
  }

  lemma CountNext(body: seq<string>, i: nat, key: string)
    requires i < |body|
    ensures Count(body[..i + 1], key) == Count(body[..i], key) + if KeyOf(body[i]) == Some(key) then 1 else 0
  {
    assert body[..i + 1][..i] == body[..i];
  }

  method FindDuplicateKeys(text: string) returns (dups: map<string, nat>)
    ensures dups == Duplicates(Body(Lines(text)))
  {
    var lines := Lines(text);
    var span := SplitFrontmatter(lines);
    if span.None? {
      return map[];
    }
    var body := lines[1..span.value];
    var counts: map<string, nat> := map[];
    for i := 0 to |body|
      invariant forall k :: k in counts <==> Count(body[..i], k) > 0
      invariant forall k :: k in counts ==> counts[k] == Count(body[..i], k)
    {
      forall k ensures Count(body[..i + 1], k) == Count(body[..i], k) + if KeyOf(body[i]) == Some(k) then 1 else 0 {
        CountNext(body, i, k);
      }
      var m := KeyOf(body[i]);
      if m.Some? {
        counts := counts[m.value := (if m.value in counts then counts[m.value] else 0) + 1];
      }
    }
    assert body[..|body|] == body;
    forall k ensures Count(body, k) > 0 <==> k in Keys(body) {
      CountKeys(body, k);
    }
    dups := map k | k in counts && counts[k] > 1 :: counts[k];
  }

  // --- The repair ---

  // Every line but those whose key comes again.
  function KeepLast(body: seq<string>): seq<string> {
    if body == [] then []
    else
      var key := KeyOf(body[0]);
      if key.Some? && key.value in Keys(body[1..]) then KeepLast(body[1..])
      else [body[0]] + KeepLast(body[1..])
  }

  function Repair(text: string): string {
    var lines := Lines(text);
    var r := FrontEnd(lines);
    if r.None? then text else Concat(lines[..1] + KeepLast(Body(lines)) + lines[r.value..])
  }

  lemma {:induction false} CountFront(body: seq<string>, key: string)
    requires body != []
    ensures Count(body, key) == Count(body[1..], key) + if KeyOf(body[0]) == Some(key) then 1 else 0
  {
    if |body| > 1 {
      var n := |body| - 1;
      CountFront(body[..n], key);
      assert body[..n][1..] == body[1..][..n - 1];
    }
  }

  lemma KeysFront(body: seq<string>)
    requires body != []
    ensures Keys(body) == Keys(body[1..]) + if KeyOf(body[0]).Some? then {KeyOf(body[0]).value} else {}
  {
    forall k ensures k in Keys(body) <==>
      k in Keys(body[1..]) || KeyOf(body[0]) == Some(k)
    {
      CountFront(body, k);
      CountKeys(body, k);
      CountKeys(body[1..], k);
    }
  }

  // One line of each key is kept, and no key is lost.
  lemma {:induction false} KeptOnce(body: seq<string>, key: string)
    ensures Count(KeepLast(body), key) == if key in Keys(body) then 1 else 0
  {
    if body != [] {
      var front, rest := KeyOf(body[0]), body[1..];
      KeptOnce(rest, key);
      KeysFront(body);
      if !(front.Some? && front.value in Keys(rest)) {
        CountFront(KeepLast(body), key);
        assert KeepLast(body)[1..] == KeepLast(rest);
      }
    }
  }

  // The line of a key that comes last.
  function LastLine(body: seq<string>, key: string): Option<string> {
    if body == [] then None
    else
      var later := LastLine(body[1..], key);
      if later.Some? then later else if KeyOf(body[0]) == Some(key) then Some(body[0]) else None
  }

  lemma {:induction false} LastLineKeys(body: seq<string>, key: string)
    ensures LastLine(body, key).Some? <==> key in Keys(body)
  {
    if body != [] {
      LastLineKeys(body[1..], key);
      KeysFront(body);
    }
  }

  // Of each key its last line is the one kept.
  lemma {:induction false} KeptLast(body: seq<string>, key: string)
    ensures LastLine(KeepLast(body), key) == LastLine(body, key)
  {
    if body != [] {
      var front, rest := KeyOf(body[0]), body[1..];
      KeptLast(rest, key);
      LastLineKeys(rest, key);
      if !(front.Some? && front.value in Keys(rest)) {
        assert KeepLast(body)[1..] == KeepLast(rest);
      }
    }
  }

  // The lines that are no top-level key: children, list items, anything else.
  function Others(body: seq<string>): seq<string> {
    if body == [] then []
    else if KeyOf(body[0]).None? then [body[0]] + Others(body[1..])
    else Others(body[1..])
  }

  lemma {:induction false} OthersKept(body: seq<string>)
    ensures Others(KeepLast(body)) == Others(body)
  {
    if body != [] {
      var front, rest := KeyOf(body[0]), body[1..];
      OthersKept(rest);
      if !(front.Some? && front.value in Keys(rest)) {
        assert KeepLast(body)[1..] == KeepLast(rest);
      }
    }
  }

  // --- Children: which key each other line belongs to ---

  // A key line sets the current key; every other line belongs to the current one.
  function Current(line: string, key: Option<string>): Option<string> {
    if KeyOf(line).Some? then KeyOf(line) else key
  }

  // The lines that are no key, each with the nearest key before it (`key`, before the first).
  function Owners(body: seq<string>, key: Option<string>): seq<(string, Option<string>)> {
    if body == [] then []
    else if KeyOf(body[0]).None? then [(body[0], key)] + Owners(body[1..], key)
    else Owners(body[1..], KeyOf(body[0]))
  }

  // Some key line whose key comes again is directly followed by a line that is no key.
  predicate Orphaning(body: seq<string>) {
    exists i :: 0 <= i < |body| - 1 && OrphanedAt(body, i)
  }

  predicate OrphanedAt(body: seq<string>, i: nat)
    requires i + 1 < |body|
  {
    KeyOf(body[i]).Some? && KeyOf(body[i]).value in Keys(body[i + 1..]) && KeyOf(body[i + 1]).None?
  }

  lemma OrphaningFront(body: seq<string>)
    requires body != []
    ensures Orphaning(body) <==> (|body| > 1 && OrphanedAt(body, 0)) || Orphaning(body[1..])
  {
    var rest := body[1..];
    if Orphaning(rest) {
      var i :| 0 <= i < |rest| - 1 && OrphanedAt(rest, i);
      assert rest[i + 1..] == body[i + 2..];
      assert OrphanedAt(body, i + 1);
    }
    if Orphaning(body) {
      var i :| 0 <= i < |body| - 1 && OrphanedAt(body, i);
      if i > 0 {
        assert rest[i..] == body[i + 1..];
        assert OrphanedAt(rest, i - 1);
      }
    }
  }

  // Without its key line, what directly follows a dropped key goes to the key before: the
  // children keep their owners exactly when no dropped key has any.
  lemma {:induction false} OwnersKeptFrom(body: seq<string>, key: Option<string>)
    requires key.Some? ==> key.value !in Keys(body)
    ensures Owners(KeepLast(body), key) == Owners(body, key) <==> !Orphaning(body)
    decreases |body|, 1
  {
    if body != [] {
      var front, rest := KeyOf(body[0]), body[1..];
      KeysFront(body);
      if front.Some? && front.value in Keys(rest) {
        OwnersDropped(body, key);
      } else {
        OwnersKeptFrom(rest, Current(body[0], key));
        OwnersCons(body[0], KeepLast(rest), rest, key);
        assert KeepLast(body) == [body[0]] + KeepLast(rest) && [body[0]] + rest == body;
        OrphaningFront(body);
      }
    }
  }

  // The same line in front changes nothing about whether owners agree.
  lemma OwnersCons(line: string, a: seq<string>, b: seq<string>, key: Option<string>)
    ensures Owners([line] + a, key) == Owners([line] + b, key) <==>
      Owners(a, Current(line, key)) == Owners(b, Current(line, key))
  {
    assert ([line] + a)[1..] == a && ([line] + b)[1..] == b;
    var x, y := Owners(a, Current(line, key)), Owners(b, Current(line, key));
    assert ([(line, key)] + x)[1..] == x && ([(line, key)] + y)[1..] == y;
  }

  // The front line is dropped. Its owner could only be missed by a line directly after it.
  lemma {:induction false} OwnersDropped(body: seq<string>, key: Option<string>)
    requires body != [] && KeyOf(body[0]).Some? && KeyOf(body[0]).value in Keys(body[1..])
    requires key.Some? ==> key.value !in Keys(body)
    ensures Owners(KeepLast(body), key) == Owners(body, key) <==> !Orphaning(body)
    decreases |body|, 0
  {
    var rest := body[1..];
    KeysFront(body);
    OrphaningFront(body);
    OwnersKeptFrom(rest, key);
    if KeyOf(rest[0]).None? {
      assert OrphanedAt(body, 0);
      assert Owners(KeepLast(rest), key)[0] == (rest[0], key);
      assert Owners(rest, KeyOf(body[0]))[0] == (rest[0], KeyOf(body[0]));
    }
  }

  // The repair leaves every child with its key exactly when no dropped key has a child.
  lemma OwnersKeptExactly(body: seq<string>)
    ensures Owners(KeepLast(body), None) == Owners(body, None) <==> !Orphaning(body)
  {
    OwnersKeptFrom(body, None);
  }

  // A list under the first of two equal keys, with another key above: afterwards its item belongs
  // to that other key.
  lemma ChildChangesOwner(z: string, a1: string, item: string, a2: string)
    requires z == "z:\n" && a1 == "a:\n" && item == "- x\n" && a2 == "a:\n"
    ensures KeepLast([z, a1, item, a2]) == [z, item, a2]
    ensures Owners([z, a1, item, a2], None) == [(item, Some("a"))]
    ensures Owners([z, item, a2], None) == [(item, Some("z"))]
  {
    KeyLineParses(z, "z", "", "\n");
    KeyLineParses(a1, "a", "", "\n");
    KeyLineParses(a2, "a", "", "\n");
    ThreeKeys(z, a1, item, a2, "z", "a");
  }

  lemma ThreeKeys(z: string, a1: string, item: string, a2: string, outer: string, key: string)
    requires KeyOf(z) == Some(outer) && KeyOf(a1) == KeyOf(a2) == Some(key) && outer != key && KeyOf(item).None?
    ensures KeepLast([z, a1, item, a2]) == [z, item, a2]
    ensures Owners([z, a1, item, a2], None) == [(item, Some(key))]
    ensures Owners([z, item, a2], None) == [(item, Some(outer))]
  {
    var body := [z, a1, item, a2];
    KeysFront([a2]);
    KeysFront([item, a2]);
    KeysFront([a1, item, a2]);
    KeysFront(body);
    assert [item, a2][1..] == [a2] && [a1, item, a2][1..] == [item, a2] && body[1..] == [a1, item, a2];
    assert KeepLast([a2]) == [a2];
    assert KeepLast([item, a2]) == [item, a2];
    assert Owners([a2], Some(key)) == [] && Owners([a2], Some(outer)) == [];
    assert Owners([item, a2], Some(key)) == [(item, Some(key))];
    assert Owners([item, a2], Some(outer)) == [(item, Some(outer))];
    assert [z, item, a2][1..] == [item, a2];
  }

  lemma {:induction false} KeptSubsequence(body: seq<string>)
    ensures Subsequence(KeepLast(body), body)
  {
    if body != [] {
      var front, rest := KeyOf(body[0]), body[1..];
      KeptSubsequence(rest);
      if front.Some? && front.value in Keys(rest) {
        SubsequenceCons(KeepLast(rest), rest, body[0]);
        assert [body[0]] + rest == body;
      } else {
        assert KeepLast(body) == [body[0]] + KeepLast(rest);
        SubsequenceSame(KeepLast(rest), rest, body[0]);
        assert [body[0]] + rest == body;
      }
    }
  }

  lemma {:induction false} Twice(body: seq<string>, i: nat, j: nat, key: string)
    requires i < j < |body| && KeyOf(body[i]) == KeyOf(body[j]) == Some(key)
    ensures key in Duplicates(body)
  {
    assert Count(body, key) > 1 by {
      CountTwo(body, i, j, key);
    }
    CountKeys(body, key);
  }

  lemma {:induction false} CountTwo(body: seq<string>, i: nat, j: nat, key: string)
    requires i < j < |body| && KeyOf(body[i]) == KeyOf(body[j]) == Some(key)
    ensures Count(body, key) > 1
  {
    var n := |body| - 1;
    if j < n {
      CountTwo(body[..n], i, j, key);
    } else {
      CountKeys(body[..n], key);
      assert body[..n][i] == body[i];
    }
  }

  // A body without duplicates is kept whole, and only such a one.
  lemma {:induction false} KeptWhole(body: seq<string>)
    ensures KeepLast(body) == body <==> Duplicates(body) == map[]
    ensures |KeepLast(body)| <= |body|
  {
    if body != [] {
      var front, rest := KeyOf(body[0]), body[1..];
      KeptWhole(rest);
      DuplicatesFront(body);
      if !(front.Some? && front.value in Keys(rest)) {
        assert KeepLast(body)[1..] == KeepLast(rest);
      }
    }
  }

  lemma DuplicatesFront(body: seq<string>)
    requires body != []
    ensures Duplicates(body) == map[] <==>
      Duplicates(body[1..]) == map[] && !(KeyOf(body[0]).Some? && KeyOf(body[0]).value in Keys(body[1..]))
  {
    forall k ensures k in Duplicates(body) <==>
      k in Duplicates(body[1..]) || (KeyOf(body[0]) == Some(k) && k in Keys(body[1..]))
    {
      CountFront(body, k);
      CountKeys(body, k);
      CountKeys(body[1..], k);
    }
    if Duplicates(body) != map[] {
      var k :| k in Duplicates(body);
    }
    if Duplicates(body[1..]) != map[] {
      var k :| k in Duplicates(body[1..]);
    }
  }

  // How many lines of a key are too many.
  ghost function Extra(body: seq<string>): string -> int {
    k => Count(body, k) - 1
  }

  lemma ExtraFront(body: seq<string>, f: string -> int, g: string -> int)
    requires body != [] && f == Extra(body) && g == Extra(body[1..])
    ensures var front, keys := KeyOf(body[0]), Keys(body[1..]);
      SumOver(Keys(body), f) == SumOver(keys, g) + if front.Some? && front.value in keys then 1 else 0
  {
    var front, rest := KeyOf(body[0]), body[1..];
    KeysFront(body);
    forall k ensures f(k) == g(k) + if front == Some(k) then 1 else 0 {
      CountFront(body, k);
    }
    if front.None? {
      SumSame(Keys(rest), f, g);
      assert Keys(body) == Keys(rest);
    } else if front.value in Keys(rest) {
      SumBump(Keys(rest), f, g, front.value, 1);
      assert Keys(body) == Keys(rest);
    } else {
      CountKeys(rest, front.value);
      SumExtend(Keys(rest), f, g, front.value);
    }
  }

  lemma {:induction false} DroppedKeys(body: seq<string>)
    ensures |body| - |KeepLast(body)| == SumOver(Keys(body), Extra(body))
  {
    if body != [] {
      DroppedKeys(body[1..]);
      ExtraFront(body, Extra(body), Extra(body[1..]));
    }
  }

  // The repair drops count - 1 lines of each duplicated key, and nothing else.
  lemma DroppedLines(body: seq<string>)
    ensures |body| - |KeepLast(body)| == SumOver(Duplicates(body).Keys, Extra(body))
  {
    DroppedKeys(body);
    ExtraOfDuplicates(body, Extra(body));
  }

  lemma ExtraOfDuplicates(body: seq<string>, f: string -> int)
    requires f == Extra(body)
    ensures SumOver(Keys(body), f) == SumOver(Duplicates(body).Keys, f)
  {
    var dups := Duplicates(body).Keys;
    forall k | k in Keys(body) && k !in dups ensures f(k) == 0 {
      CountKeys(body, k);
    }
    SumPart(dups, Keys(body), f);
  }

  // --- The loops ---

  // last[k] is the last of the first n lines with the duplicated key k.
  ghost predicate LastSoFar(body: seq<string>, n: nat, dups: map<string, nat>, last: map<string, nat>) {
    && n <= |body| && last.Keys <= dups.Keys
    && (forall k :: k in last ==> last[k] < n && KeyOf(body[last[k]]) == Some(k))
    && (forall j: nat :: j < n && KeyOf(body[j]).Some? && KeyOf(body[j]).value in dups ==>
         KeyOf(body[j]).value in last && j <= last[KeyOf(body[j]).value])
  }

  method LastIndices(body: seq<string>, dups: map<string, nat>) returns (last: map<string, nat>)
    ensures LastSoFar(body, |body|, dups, last)
  {
    last := map[];
    for i := 0 to |body|
      invariant LastSoFar(body, i, dups, last)
    {
      var m := KeyOf(body[i]);
      if m.Some? && m.value in dups {
        last := last[m.value := i];
      }
    }
  }

  // A line is dropped just when its key comes again.
  lemma DroppedExactly(body: seq<string>, last: map<string, nat>, i: nat)
    requires i < |body| && LastSoFar(body, |body|, Duplicates(body), last)
    ensures var m := KeyOf(body[i]);
      (m.Some? && m.value in Duplicates(body) ==> m.value in last) &&
      (m.Some? && m.value in Duplicates(body) && i != last[m.value] <==> m.Some? && m.value in Keys(body[i + 1..]))
  {
    var m := KeyOf(body[i]);
    if m.Some? {
      var rest := body[i + 1..];
      if m.value in Keys(rest) {
        var j :| 0 <= j < |rest| && KeyOf(rest[j]) == m;
        assert rest[j] == body[i + 1 + j];
        Twice(body, i, i + 1 + j, m.value);
      }
      if m.value in Duplicates(body) && i != last[m.value] {
        assert body[i + 1..][last[m.value] - i - 1] == body[last[m.value]];
      }
    }
  }

  lemma CutBody(lines: seq<string>, end: nat)
    requires 1 <= end <= |lines|
    ensures lines == lines[..1] + lines[1..end] + lines[end..]
  {
  }

  method RepairText(text: string) returns (repaired: string)
    ensures repaired == Repair(text)
  {
    var lines := Lines(text);
    var span := SplitFrontmatter(lines);
    if span.None? {
      return text;
    }
    var dups := FindDuplicateKeys(text);
    var body := lines[1..span.value];
    if dups == map[] {
      KeptWhole(body);
      ConcatLines(text);
      CutBody(lines, span.value);
      return text;
    }
    var last := LastIndices(body, dups);
    var kept := DropEarlier(body, dups, last);
    return Concat(lines[..1] + kept + lines[span.value..]);
  }

  method DropEarlier(body: seq<string>, dups: map<string, nat>, last: map<string, nat>) returns (kept: seq<string>)
    requires dups == Duplicates(body) && LastSoFar(body, |body|, dups, last)
    ensures kept == KeepLast(body)
  {
    kept := [];
    assert body[0..] == body;
    for i := 0 to |body|
      invariant kept + KeepLast(body[i..]) == KeepLast(body)
    {
      var m := KeyOf(body[i]);
      DroppedExactly(body, last, i);
      assert body[i..][1..] == body[i + 1..];
      if m.Some? && m.value in dups && i != last[m.value] {
        continue;
      }
      kept := kept + [body[i]];
    }
  }

  // --- The whole text ---

  lemma {:induction false} KeptFrom(body: seq<string>, i: nat)
    requires i < |KeepLast(body)|
    ensures KeepLast(body)[i] in body
  {
    var front, rest := KeyOf(body[0]), body[1..];
    if front.Some? && front.value in Keys(rest) {
      KeptFrom(rest, i);
    } else if i > 0 {
      KeptFrom(rest, i - 1);
    }
  }

  function NewLines(lines: seq<string>): seq<string>
    requires FrontEnd(lines).Some?
  {
    lines[..1] + KeepLast(Body(lines)) + lines[FrontEnd(lines).value..]
  }

  lemma {:induction false} NextFenceAt(lines: seq<string>, i: nat, j: nat)
    requires i <= j < |lines| && Fence(lines[j]) && forall k :: i <= k < j ==> !Fence(lines[k])
    ensures NextFence(lines, i) == Some(j)
    decreases j - i
  {
    if i < j {
      NextFenceAt(lines, i + 1, j);
    }
  }

  lemma KeptLines(lines: seq<string>, i: nat)
    requires WellSplit(lines) && FrontEnd(lines).Some? && i < |KeepLast(Body(lines))|
    ensures Ended(KeepLast(Body(lines))[i]) && !Fence(KeepLast(Body(lines))[i])
  {
    KeptFrom(Body(lines), i);
  }

  // The repaired lines split as they were joined, and only the front matter differs.
  lemma NewLinesShape(lines: seq<string>)
    requires WellSplit(lines) && FrontEnd(lines).Some?
    ensures WellSplit(NewLines(lines)) && FrontEnd(NewLines(lines)).Some?
    ensures Body(NewLines(lines)) == KeepLast(Body(lines))
    ensures NewLines(lines)[..1] == lines[..1]
    ensures NewLines(lines)[FrontEnd(NewLines(lines)).value..] == lines[FrontEnd(lines).value..]
  {
    var end, body := FrontEnd(lines).value, Body(lines);
    var kept, new' := KeepLast(body), NewLines(lines);
    forall i | 0 <= i < |kept| ensures Ended(kept[i]) && !Fence(kept[i]) {
      KeptLines(lines, i);
    }
    var e := 1 + |kept|;
    assert forall i :: 1 <= i < e ==> new'[i] == kept[i - 1];
    assert forall i :: e <= i < |new'| ==> new'[i] == lines[i - e + end];
    NextFenceAt(new', 1, e);
    assert new'[1..e] == kept && new'[e..] == lines[end..];
  }

  // A repaired text has its front matter repaired and is otherwise the same.
  lemma RepairedLines(text: string)
    ensures var lines, after := Lines(text), Lines(Repair(text));
      FrontEnd(after).Some? == FrontEnd(lines).Some? && Body(after) == KeepLast(Body(lines)) &&
      (FrontEnd(lines).None? ==> Repair(text) == text) &&
      (FrontEnd(lines).Some? ==>
        after[..1] == lines[..1] && after[FrontEnd(after).value..] == lines[FrontEnd(lines).value..])
  {
    var lines := Lines(text);
    LinesWellSplit(text);
    if FrontEnd(lines).Some? {
      NewLinesShape(lines);
      LinesConcat(NewLines(lines));
    }
  }

  // The repair of a text leaves every child with its key exactly when no key line it drops has a
  // child.
  lemma RepairKeepsOwnersExactly(text: string)
    ensures var body, after := Body(Lines(text)), Body(Lines(Repair(text)));
      Owners(after, None) == Owners(body, None) <==> !Orphaning(body)
  {
    RepairedLines(text);
    OwnersKeptExactly(Body(Lines(text)));
  }

  // Afterwards no key is duplicated, and repairing again changes nothing.
  lemma RepairCleans(text: string)
    ensures Duplicates(Body(Lines(Repair(text)))) == map[]
    ensures Repair(Repair(text)) == Repair(text)
  {
    RepairedLines(text);
    var body := Body(Lines(text));
    forall k ensures k !in Duplicates(KeepLast(body)) {
      KeptOnce(body, k);
    }
    UnchangedExactly(Repair(text));
  }

  // A text is left as it is exactly when it has no duplicate.
  lemma UnchangedExactly(text: string)
    ensures Repair(text) == text <==> Duplicates(Body(Lines(text))) == map[]
  {
    var lines := Lines(text);
    var body := Body(lines);
    KeptWhole(body);
    RepairedLines(text);
    ConcatLines(text);
    if FrontEnd(lines).Some? && KeepLast(body) == body {
      CutBody(lines, FrontEnd(lines).value);
    }
  }
}
