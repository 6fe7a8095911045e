// What any text means as a deck, told line by line without the parser's state.
module DckMeaning {
  import opened Digits
  import opened Texts
  import opened Dck
  import opened Splitting

  // --- Lines ---

  // A name line: "name=" in any case, after trimming.
  predicate IsName(raw: string) {
    var line := Trim(raw);
    |line| >= 5 && (line[0] == 'n' || line[0] == 'N') && (line[1] == 'a' || line[1] == 'A')
    && (line[2] == 'm' || line[2] == 'M') && (line[3] == 'e' || line[3] == 'E') && line[4] == '='
  }

  predicate IsHeader(raw: string) {
    var line := Trim(raw);
    line != "" && line[0] == '['
  }

  predicate Mentions(raw: string, word: string) {
    Contains(LowerAll(Trim(raw)), word)
  }

  lemma NameExactly(raw: string)
    ensures "name=" <= LowerAll(Trim(raw)) <==> IsName(raw)
  {
    var line, lower := Trim(raw), LowerAll(Trim(raw));
    if |line| >= 5 {
      assert lower[..5] == [lower[0], lower[1], lower[2], lower[3], lower[4]];
      assert "name=" == ['n', 'a', 'm', 'e', '='];
    }
  }

  // --- Card lines ---

  // Digits, white space, and a card to the end of the line.
  ghost predicate IsCard(line: string, digits: string, blanks: string, card: string) {
    && line == digits + blanks + card
    && digits != "" && AllDigits(digits, 10)
    && blanks != "" && (forall c :: c in blanks ==> IsSpace(c))
    && card != "" && !IsSpace(card[0]) && NoTerminators(card)
  }

  lemma {:induction false} DigitRunIs(digits: string, rest: string)
    requires AllDigits(digits, 10) && (rest == "" || !IsDigit(rest[0], 10))
    ensures DigitRun(digits + rest) == digits
  {
    if digits == "" {
      assert digits + rest == rest;
    } else {
      DigitRunIs(digits[1..], rest);
      assert (digits + rest)[1..] == digits[1..] + rest;
    }
  }

  lemma {:induction false} TrimStartIs(blanks: string, rest: string)
    requires (forall c :: c in blanks ==> IsSpace(c)) && (rest == "" || !IsSpace(rest[0]))
    ensures TrimStart(blanks + rest) == rest
  {
    if blanks == "" {
      assert blanks + rest == rest;
    } else {
      TrimStartIs(blanks[1..], rest);
      assert (blanks + rest)[1..] == blanks[1..] + rest;
    }
  }

  lemma {:induction false} TrimStartSplits(s: string) returns (blanks: string)
    ensures s == blanks + TrimStart(s) && forall c :: c in blanks ==> IsSpace(c)
  {
    if s != "" && IsSpace(s[0]) {
      var rest := TrimStartSplits(s[1..]);
      blanks := [s[0]] + rest;
      assert s == [s[0]] + s[1..];
    } else {
      blanks := "";
      assert s == blanks + s;
    }
  }

  lemma LastOf(a: string, b: string)
    requires b != ""
    ensures (a + b)[|a + b| - 1] == b[|b| - 1]
  {
  }

  lemma CardMatches(line: string, digits: string, blanks: string, card: string)
    requires Trimmed(line) && IsCard(line, digits, blanks, card)
    ensures MatchCard(line) == Match(CardCount(card, FromDigits(digits, 10)))
  {
    assert line == digits + (blanks + card);
    assert blanks[0] in blanks;
    DigitRunIs(digits, blanks + card);
    assert line[|digits|..] == blanks + card;
    TrimStartIs(blanks, card);
    LastOf(digits + blanks, card);
    TrimResult(card);
  }

  // A trimmed line gives a card exactly when it is digits, white space and the card, whatever each
  // of them is.
  lemma MatchCardExactly(line: string, e: CardCount)
    requires Trimmed(line)
    ensures MatchCard(line) == Match(e) <==>
      exists digits: string, blanks: string ::
        IsCard(line, digits, blanks, e.card) && e.count == FromDigits(digits, 10)
  {
    if MatchCard(line) == Match(e) {
      var digits := DigitRun(line);
      var after := line[|digits|..];
      var rest := TrimStart(after);
      var blanks := TrimStartSplits(after);
      assert line == digits + after;
      assert line == digits + blanks + rest;
      LastOf(digits + blanks, rest);
      TrimResult(rest);
      assert IsCard(line, digits, blanks, rest);
    }
    forall digits: string, blanks: string | IsCard(line, digits, blanks, e.card) && e.count == FromDigits(digits, 10)
      ensures MatchCard(line) == Match(e)
    {
      CardMatches(line, digits, blanks, e.card);
    }
  }

  // --- The whole text ---

  // The value of the last name line among the first n.
  function LastName(lines: seq<string>, n: nat): string
    requires n <= |lines|
  {
    if n == 0 then ""
    else if IsName(lines[n - 1]) then Trim(Trim(lines[n - 1])[5..])
    else LastName(lines, n - 1)
  }

  // The last header before line i, if there is one, is the sideboard's.
  ghost predicate InSideboard(lines: seq<string>, i: nat)
    requires i <= |lines|
  {
    exists h :: 0 <= h < i && HeaderOf(lines, h, i) && Mentions(lines[h], "sideboard")
  }

  ghost predicate HeaderOf(lines: seq<string>, h: nat, i: nat)
    requires h < i <= |lines|
  {
    IsHeader(lines[h]) && forall k :: h < k < i ==> !IsHeader(lines[k])
  }

  function CardsOf(raw: string): seq<CardCount> {
    var line := Trim(raw);
    if line == "" || IsName(raw) || IsHeader(raw) then []
    else
      match MatchCard(line)
      case NoMatch => []
      case Match(e) => [e]
  }

  // The cards of the first n lines on this side.
  ghost function Cards(lines: seq<string>, n: nat, side: bool): seq<CardCount>
    requires n <= |lines|
  {
    if n == 0 then []
    else Cards(lines, n - 1, side) + if InSideboard(lines, n - 1) == side then CardsOf(lines[n - 1]) else []
  }

  lemma InSideboardNext(lines: seq<string>, i: nat)
    requires i < |lines|
    ensures InSideboard(lines, i + 1) <==>
      if IsHeader(lines[i]) then Mentions(lines[i], "sideboard") else InSideboard(lines, i)
  {
    if IsHeader(lines[i]) {
      assert HeaderOf(lines, i, i + 1);
    } else {
      forall h | 0 <= h < i ensures HeaderOf(lines, h, i + 1) <==> HeaderOf(lines, h, i) {
      }
    }
  }

  lemma SectionNext(p: Parse, raw: string, side: bool)
    requires p.section.Sideboard? == side
    ensures ParseLine(p, raw).section.Sideboard? == (if IsHeader(raw) then Mentions(raw, "sideboard") else side)
  {
    NameExactly(raw);
  }

  lemma ContentNext(p: Parse, raw: string)
    ensures var q := ParseLine(p, raw);
      && q.name == (if IsName(raw) then Trim(Trim(raw)[5..]) else p.name)
      && q.deck.main == p.deck.main + (if p.section.Sideboard? then [] else CardsOf(raw))
      && q.deck.side == p.deck.side + (if p.section.Sideboard? then CardsOf(raw) else [])
  {
    NameExactly(raw);
  }

  ghost predicate SoFar(p: Parse, lines: seq<string>, n: nat)
    requires n <= |lines|
  {
    && p.name == LastName(lines, n) && p.section.Sideboard? == InSideboard(lines, n)
    && p.deck == Deck(Cards(lines, n, false), Cards(lines, n, true))
  }

  lemma NextLine(p: Parse, lines: seq<string>, n: nat)
    requires n < |lines| && SoFar(p, lines, n)
    ensures SoFar(ParseLine(p, lines[n]), lines, n + 1)
  {
    ContentNext(p, lines[n]);
    SectionNext(p, lines[n], InSideboard(lines, n));
    InSideboardNext(lines, n);
  }

  lemma {:induction false} ParsedSoFar(lines: seq<string>, n: nat)
    requires n <= |lines|
    ensures SoFar(ParseLines(START, lines[..n]), lines, n)
  {
    if n > 0 {
      ParsedSoFar(lines, n - 1);
      assert lines[..n][..n - 1] == lines[..n - 1];
      NextLine(ParseLines(START, lines[..n - 1]), lines, n - 1);
    }
  }

  // The name is the last name line's; a card belongs to the sideboard exactly when the last header
  // before it mentions one; everything else says nothing.
  lemma ParseMeans(text: string)
    ensures var lines := SplitLines(text);
      ParseDck(text) == (LastName(lines, |lines|), Deck(Cards(lines, |lines|, false), Cards(lines, |lines|, true)))
  {
    var lines := SplitLines(text);
    ParsedSoFar(lines, |lines|);
    assert lines[..|lines|] == lines;
  }

  // --- Where lines end ---

  lemma NoNewline(p: string)
    ensures Contains(p, "\n") <==> '\n' in p
  {
    if '\n' in p {
      var i :| 0 <= i < |p| && p[i] == '\n';
      assert p[i..i + 1] == "\n";
      assert StartsAt(p, i, "\n");
    } else if Contains(p, "\n") {
      ContainsMember(p, "\n", '\n');
    }
  }

  lemma {:induction false} FirstLineIs(p: string, rest: string)
    requires '\n' !in p && (rest == "" || rest[0] == '\n')
    ensures FirstLine(p + rest) == p
  {
    if p == "" {
      assert p + rest == rest;
    } else {
      FirstLineIs(p[1..], rest);
      assert (p + rest)[1..] == p[1..] + rest;
    }
  }

  lemma PartingRest(text: string, parts: seq<string>) returns (rest: string)
    requires Parting(text, "\n", parts) && |parts| > 1
    ensures Parting(rest, "\n", parts[1..]) && text == parts[0] + ("\n" + rest)
  {
    WeaveFirst(parts, "\n");
    rest := Weave(parts[1..], Repeat("\n", |parts| - 2));
  }

  lemma AfterFirst(first: string, rest: string)
    ensures var text := first + ("\n" + rest); |first| < |text| && text[|first| + 1..] == rest
  {
  }

  lemma SplitStep(text: string)
    ensures var first := FirstLine(text);
      |first| < |text| ==> SplitLines(text) == [DropReturn(first)] + SplitLines(text[|first| + 1..])
  {
  }

  lemma SplitFirst(first: string, rest: string)
    requires '\n' !in first
    ensures SplitLines(first + ("\n" + rest)) == [DropReturn(first)] + SplitLines(rest)
  {
    FirstLineIs(first, "\n" + rest);
    AfterFirst(first, rest);
    SplitStep(first + ("\n" + rest));
  }

  lemma SplitNone(text: string)
    requires '\n' !in text
    ensures SplitLines(text) == [text]
  {
    FirstLineIs(text, "");
    assert text + "" == text;
  }

  // A line ends at a newline, and loses one carriage return before it; the last line loses none.
  lemma {:induction false} LinesExactly(text: string, parts: seq<string>)
    requires Parting(text, "\n", parts)
    ensures |SplitLines(text)| == |parts|
    ensures forall i :: 0 <= i < |parts| ==>
      SplitLines(text)[i] == if i < |parts| - 1 then DropReturn(parts[i]) else parts[i]
    decreases |parts|
  {
    assert parts[0] in parts;
    NoNewline(parts[0]);
    if |parts| == 1 {
      SplitNone(text);
    } else {
      var rest := PartingRest(text, parts);
      LinesExactly(rest, parts[1..]);
      SplitFirst(parts[0], rest);
    }
  }

  // --- The printed form ---

  lemma OneCard(e: CardCount)
    ensures CardLines([e]) == [CardLine(e)]
  {
  }

  lemma JoinTwo(lines: seq<string>, last: string)
    requires lines != []
    ensures JoinLines(lines + [last]) == JoinLines(lines) + "\n" + last
  {
    assert (lines + [last])[..|lines|] == lines;
  }

  lemma JoinHead(name: string)
    ensures JoinLines(["[metadata]", "Name=" + name, "", "[Main]"]) == "[metadata]\nName=" + name + "\n\n[Main]"
  {
    var a := "Name=" + name;
    JoinTwo(["[metadata]"], a);
    JoinTwo(["[metadata]", a], "");
    JoinTwo(["[metadata]", a, ""], "[Main]");
    assert ["[metadata]"] + [a] == ["[metadata]", a];
    assert ["[metadata]", a] + [""] == ["[metadata]", a, ""];
    assert ["[metadata]", a, ""] + ["[Main]"] == ["[metadata]", a, "", "[Main]"];
  }

  lemma JoinMore(head: seq<string>, a: string, b: string, c: string, d: string)
    requires head != []
    ensures JoinLines(head + [a] + [b] + [c] + [d]) == JoinLines(head) + "\n" + a + "\n" + b + "\n" + c + "\n" + d
  {
    JoinTwo(head, a);
    JoinTwo(head + [a], b);
    JoinTwo(head + [a] + [b], c);
    JoinTwo(head + [a] + [b] + [c], d);
  }

  lemma BothSides(name: string, e: CardCount, f: CardCount)
    ensures DeckLines(name, Deck([e], [f]))
         == ["[metadata]", "Name=" + name, "", "[Main]"] + [CardLine(e)] + [""] + ["[Sideboard]"] + [CardLine(f)]
  {
    OneCard(e);
    OneCard(f);
  }

  lemma PrintedCard(card: string, count: nat)
    requires count < 10
    ensures CardLine(CardCount(card, count)) == [DigitChar(count)] + " " + card
  {
  }

  // One card on each side.
  lemma PrintedDeck(name: string, card: string, count: nat, other: string, count': nat)
    requires count < 10 && count' < 10
    ensures DckText(name, Deck([CardCount(card, count)], [CardCount(other, count')])) ==
      "[metadata]\nName=" + name + "\n\n[Main]" + "\n" + ([DigitChar(count)] + " " + card) + "\n" + "" + "\n"
      + "[Sideboard]" + "\n" + ([DigitChar(count')] + " " + other) + "\n"
  {
    BothSides(name, CardCount(card, count), CardCount(other, count'));
    PrintedCard(card, count);
    PrintedCard(other, count');
    JoinHead(name);
    JoinMore(["[metadata]", "Name=" + name, "", "[Main]"], CardLine(CardCount(card, count)), "", "[Sideboard]",
             CardLine(CardCount(other, count')));
  }

  // And a deck without a sideboard has no such section.
  lemma PrintedMain(name: string, card: string, count: nat)
    requires count < 10
    ensures DckText(name, Deck([CardCount(card, count)], [])) ==
      "[metadata]\nName=" + name + "\n\n[Main]" + "\n" + ([DigitChar(count)] + " " + card) + "\n"
  {
    var head, e := ["[metadata]", "Name=" + name, "", "[Main]"], CardCount(card, count);
    OneCard(e);
    PrintedCard(card, count);
    JoinHead(name);
    JoinTwo(head, CardLine(e));
  }
}
