// The plaintext `.dck` form of a deck: the printer and the line-by-line parser.
module Dck {
  import opened Digits
  import opened Texts

  datatype CardCount = CardCount(card: string, count: nat)
  datatype Deck = Deck(main: seq<CardCount>, side: seq<CardCount>)

  // --- Characters, as JavaScript's trim, \s, \d and . see them ---

  predicate IsLineTerminator(c: char) {
    c == '\n' || c == '\r' || c == '\U{2028}' || c == '\U{2029}'
  }

  predicate IsSpace(c: char) {
    || IsLineTerminator(c)
    || c == ' ' || c == '\t' || c == '\U{B}' || c == '\U{C}'
    || c == '\U{A0}' || c == '\U{1680}' || '\U{2000}' <= c <= '\U{200A}'
    || c == '\U{202F}' || c == '\U{205F}' || c == '\U{3000}' || c == '\U{FEFF}'
  }

  function TrimStart(s: string): (r: string)
    ensures r == "" || !IsSpace(r[0])
    ensures r <= r && forall c :: c in r ==> c in s
  {
    if s != "" && IsSpace(s[0]) then TrimStart(s[1..]) else s
  }

  function TrimEnd(s: string): (r: string)
    ensures r <= s
    ensures r == "" || !IsSpace(r[|r| - 1])
  {
    if s != "" && IsSpace(s[|s| - 1]) then TrimEnd(s[..|s| - 1]) else s
  }

  function Trim(s: string): (r: string) {
    TrimEnd(TrimStart(s))
  }

  predicate Trimmed(s: string) {
    s == "" || (!IsSpace(s[0]) && !IsSpace(s[|s| - 1]))
  }

  lemma TrimResult(s: string)
    ensures Trimmed(Trim(s))
    ensures forall c :: c in Trim(s) ==> c in s
    ensures Trimmed(s) ==> Trim(s) == s
  {
    var t := TrimStart(s);
    assert forall c :: c in TrimEnd(t) ==> c in t;
  }

  function Lower(c: char): char {
    if 'A' <= c <= 'Z' then c + 32 as char else c
  }

  function LowerAll(s: string): (r: string)
    ensures |r| == |s|
  {
    seq(|s|, i requires 0 <= i < |s| => Lower(s[i]))
  }

  // --- Printing ---

  function CardLine(e: CardCount): string {
    ToDigits(e.count, 10) + " " + e.card
  }

  function CardLines(es: seq<CardCount>): seq<string> {
    seq(|es|, i requires 0 <= i < |es| => CardLine(es[i]))
  }

  function DeckLines(name: string, deck: Deck): seq<string> {
    var main := ["[metadata]", "Name=" + name, "", "[Main]"] + CardLines(deck.main);
    if deck.side == [] then main else main + ["", "[Sideboard]"] + CardLines(deck.side)
  }

  function DckText(name: string, deck: Deck): string {
    JoinLines(DeckLines(name, deck)) + "\n"
  }

  method DeckToDck(name: string, deck: Deck) returns (text: string)
    ensures text == DckText(name, deck)
  {
    var lines := ["[metadata]", "Name=" + name, "", "[Main]"];
    ghost var start := lines;
    for i := 0 to |deck.main|
      invariant lines == start + CardLines(deck.main[..i])
    {
      lines := lines + [ToDigits(deck.main[i].count, 10) + " " + deck.main[i].card];
      assert CardLines(deck.main[..i + 1]) == CardLines(deck.main[..i]) + [CardLine(deck.main[i])];
    }
    assert deck.main[..|deck.main|] == deck.main;
    if |deck.side| != 0 {
      lines := lines + ["", "[Sideboard]"];
      start := lines;
      for i := 0 to |deck.side|
        invariant lines == start + CardLines(deck.side[..i])
      {
        lines := lines + [ToDigits(deck.side[i].count, 10) + " " + deck.side[i].card];
        assert CardLines(deck.side[..i + 1]) == CardLines(deck.side[..i]) + [CardLine(deck.side[i])];
      }
      assert deck.side[..|deck.side|] == deck.side;
    }
    text := JoinLines(lines) + "\n";
  }

  // --- Parsing ---

  datatype Section = Main | Sideboard | Meta

  datatype Parse = Parse(name: string, section: Section, deck: Deck)

  const START := Parse("", Main, Deck([], []))

  function DigitRun(s: string): (r: string)
    ensures r <= s && AllDigits(r, 10)
    ensures |r| < |s| ==> !IsDigit(s[|r|], 10)
  {
    if s != "" && IsDigit(s[0], 10) then [s[0]] + DigitRun(s[1..]) else ""
  }

  predicate NoTerminators(s: string) {
    forall c :: c in s ==> !IsLineTerminator(c)
  }

  datatype Match = NoMatch | Match(entry: CardCount)

  // ^(\d+)\s+(.+)$ on a trimmed line: digits, white space, and a rest without line terminators.
  function MatchCard(line: string): Match {
    var digits := DigitRun(line);
    var after := line[|digits|..];
    var rest := TrimStart(after);
    if digits == "" || |rest| == |after| || rest == "" || !NoTerminators(rest) then NoMatch
    else Match(CardCount(Trim(rest), FromDigits(digits, 10)))
  }

  function AddEntry(p: Parse, e: CardCount): Parse {
    if p.section.Sideboard? then p.(deck := p.deck.(side := p.deck.side + [e]))
    else p.(deck := p.deck.(main := p.deck.main + [e]))
  }

  function ParseLine(p: Parse, raw: string): Parse {
    var line := Trim(raw);
    var lower := LowerAll(line);
    if line == "" then p
    else if "name=" <= lower then p.(name := Trim(line[5..]))
    else if line[0] == '[' then
      p.(section := if Contains(lower, "sideboard") then Sideboard
                    else if Contains(lower, "main") then Main else Meta)
    else
      match MatchCard(line)
      case NoMatch => p
      case Match(e) => AddEntry(p, e)
  }

  function ParseLines(p: Parse, lines: seq<string>): Parse {
    if lines == [] then p else ParseLine(ParseLines(p, lines[..|lines| - 1]), lines[|lines| - 1])
  }

  // The text up to the first newline.
  function FirstLine(s: string): (r: string)
    ensures r <= s && '\n' !in r
    ensures |r| < |s| ==> s[|r|] == '\n'
  {
    if s == "" || s[0] == '\n' then "" else [s[0]] + FirstLine(s[1..])
  }

  function DropReturn(s: string): string {
    if s != "" && s[|s| - 1] == '\r' then s[..|s| - 1] else s
  }

  // text.split(/\r?\n/)
  function SplitLines(text: string): seq<string>
    decreases |text|
  {
    var first := FirstLine(text);
    if |first| == |text| then [text] else [DropReturn(first)] + SplitLines(text[|first| + 1..])
  }

  function ParseDck(text: string): (string, Deck) {
    var p := ParseLines(START, SplitLines(text));
    (p.name, p.deck)
  }

  method DckToDeck(text: string) returns (name: string, deck: Deck)
    ensures (name, deck) == ParseDck(text)
  {
    var main: seq<CardCount> := [];
    var sideboard: seq<CardCount> := [];
    var section := Main;
    name := "";
    var raws := SplitLines(text);
    for i := 0 to |raws|
      invariant Parse(name, section, Deck(main, sideboard)) == ParseLines(START, raws[..i])
    {
      assert raws[..i + 1][..i] == raws[..i];
      var line := Trim(raws[i]);
      if line == "" {
        continue;
      }
      var lower := LowerAll(line);
      if "name=" <= lower {
        name := Trim(line[5..]);
        continue;
      }
      if line[0] == '[' {
        if Contains(lower, "sideboard") {
          section := Sideboard;
        } else if Contains(lower, "main") {
          section := Main;
        } else {
          section := Meta;
        }
        continue;
      }
      var m := MatchCard(line);
      if m.NoMatch? {
        continue;
      }
      if section.Sideboard? {
        sideboard := sideboard + [m.entry];
      } else {
        main := main + [m.entry];
      }
    }
    assert raws[..|raws|] == raws;
    deck := Deck(main, sideboard);
  }

  // --- Which decks survive ---

  predicate GoodName(name: string) {
    Trimmed(name) && '\n' !in name
  }

  predicate GoodCard(card: string) {
    card != "" && Trimmed(card) && NoTerminators(card)
  }

  predicate GoodEntries(es: seq<CardCount>) {
    forall i :: 0 <= i < |es| ==> GoodCard(es[i].card)
  }

  predicate GoodDeck(deck: Deck) {
    GoodEntries(deck.main) && GoodEntries(deck.side)
  }

  // --- The parser only ever produces good names and cards ---

  lemma MatchIsGood(line: string)
    requires MatchCard(line).Match?
    ensures GoodCard(MatchCard(line).entry.card)
  {
    var rest := TrimStart(line[|DigitRun(line)|..]);
    TrimResult(rest);
    TrimEndNonEmpty(rest);
  }

  lemma {:induction false} TrimEndNonEmpty(s: string)
    requires s != "" && !IsSpace(s[0])
    ensures Trim(s) != ""
  {
    assert TrimStart(s) == s;
    TrimEndKeepsFirst(s);
  }

  lemma {:induction false} TrimEndKeepsFirst(s: string)
    requires s != "" && !IsSpace(s[0])
    ensures TrimEnd(s) != ""
    decreases |s|
  {
    if IsSpace(s[|s| - 1]) {
      TrimEndKeepsFirst(s[..|s| - 1]);
    }
  }

  lemma ParseLineGood(p: Parse, raw: string)
    requires GoodName(p.name) && GoodDeck(p.deck) && '\n' !in raw
    ensures GoodName(ParseLine(p, raw).name) && GoodDeck(ParseLine(p, raw).deck)
  {
    var line := Trim(raw);
    TrimResult(raw);
    if line != "" {
      if "name=" <= LowerAll(line) {
        assert forall c :: c in line[5..] ==> c in line;
        TrimResult(line[5..]);
      } else if line[0] != '[' && MatchCard(line).Match? {
        MatchIsGood(line);
      }
    }
  }

  lemma {:induction false} ParseLinesGood(p: Parse, lines: seq<string>)
    requires GoodName(p.name) && GoodDeck(p.deck)
    requires forall i :: 0 <= i < |lines| ==> '\n' !in lines[i]
    ensures GoodName(ParseLines(p, lines).name) && GoodDeck(ParseLines(p, lines).deck)
    decreases |lines|
  {
    if lines != [] {
      var k := |lines| - 1;
      ParseLinesGood(p, lines[..k]);
      ParseLineGood(ParseLines(p, lines[..k]), lines[k]);
    }
  }

  lemma {:induction false} SplitHasNoNewlines(text: string)
    ensures forall i :: 0 <= i < |SplitLines(text)| ==> '\n' !in SplitLines(text)[i]
    decreases |text|
  {
    var first := FirstLine(text);
    if |first| < |text| {
      SplitHasNoNewlines(text[|first| + 1..]);
      assert '\n' !in DropReturn(first);
    }
  }

  lemma ParseIsGood(text: string)
    ensures GoodName(ParseDck(text).0) && GoodDeck(ParseDck(text).1)
  {
    SplitHasNoNewlines(text);
    ParseLinesGood(START, SplitLines(text));
  }

  // --- The parser inverts the printer on good decks ---

  predicate PlainLine(s: string) {
    '\n' !in s && (s == "" || s[|s| - 1] != '\r')
  }

  lemma {:induction false} FirstLineOf(s: string, rest: string)
    requires '\n' !in s
    ensures FirstLine(s + "\n" + rest) == s
    ensures FirstLine(s) == s
  {
    if s == "" {
      assert s + "\n" + rest == "\n" + rest;
    } else {
      assert '\n' !in s[1..];
      FirstLineOf(s[1..], rest);
      assert (s + "\n" + rest)[1..] == s[1..] + "\n" + rest;
    }
  }

  lemma SplitOne(s: string, rest: string)
    requires PlainLine(s)
    ensures SplitLines(s + "\n" + rest) == [s] + SplitLines(rest)
  {
    FirstLineOf(s, rest);
    assert (s + "\n" + rest)[|s| + 1..] == rest;
  }

  lemma TextRegroups(a: string, b: string, rest: string)
    ensures a + "\n" + b + "\n" + rest == a + "\n" + (b + "\n" + rest)
  {
  }

  lemma LinesRegroup(lines: seq<string>, k: nat, more: seq<string>)
    requires k + 1 == |lines|
    ensures lines[..k] + ([lines[k]] + more) == lines + more
  {
  }

  lemma {:induction false} SplitJoined(lines: seq<string>, rest: string)
    requires lines != [] && forall i :: 0 <= i < |lines| ==> PlainLine(lines[i])
    ensures SplitLines(JoinLines(lines) + "\n" + rest) == lines + SplitLines(rest)
    decreases |lines|
  {
    var k := |lines| - 1;
    SplitOne(lines[k], rest);
    LinesRegroup(lines, k, SplitLines(rest));
    if k == 0 {
      assert lines == [lines[0]];
    } else {
      SplitJoined(lines[..k], lines[k] + "\n" + rest);
      TextRegroups(JoinLines(lines[..k]), lines[k], rest);
    }
  }

  lemma ParseSnoc(p: Parse, lines: seq<string>, raw: string)
    ensures ParseLines(p, lines + [raw]) == ParseLine(ParseLines(p, lines), raw)
  {
    assert (lines + [raw])[..|lines|] == lines;
  }

  lemma LinesRejoin(a: seq<string>, b: seq<string>)
    requires b != []
    ensures b == b[..|b| - 1] + [b[|b| - 1]] && a + b == a + b[..|b| - 1] + [b[|b| - 1]]
  {
  }

  lemma {:induction false} ParseAppend(p: Parse, a: seq<string>, b: seq<string>)
    ensures ParseLines(p, a + b) == ParseLines(ParseLines(p, a), b)
    decreases |b|
  {
    if b == [] {
      assert a + b == a;
    } else {
      var k := |b| - 1;
      ParseAppend(p, a, b[..k]);
      LinesRejoin(a, b);
      ParseSnoc(p, a + b[..k], b[k]);
      ParseSnoc(ParseLines(p, a), b[..k], b[k]);
    }
  }

  lemma {:induction false} DigitRunOf(d: string, rest: string)
    requires AllDigits(d, 10) && (rest == "" || !IsDigit(rest[0], 10))
    ensures DigitRun(d + rest) == d
  {
    if d == "" {
      assert d + rest == rest;
    } else {
      assert AllDigits(d[1..], 10) && IsDigit(d[0], 10);
      DigitRunOf(d[1..], rest);
      assert (d + rest)[1..] == d[1..] + rest;
    }
  }

  lemma CardLineShape(e: CardCount)
    requires GoodCard(e.card)
    ensures Trimmed(CardLine(e)) && PlainLine(CardLine(e)) && IsDigit(CardLine(e)[0], 10)
  {
    var d := ToDigits(e.count, 10);
    var line := CardLine(e);
    assert IsDigit(d[0], 10) && line[0] == d[0];
    assert line[|line| - 1] == e.card[|e.card| - 1];
    forall i | 0 <= i < |line| ensures line[i] != '\n' {
      if i < |d| {
        assert IsDigit(d[i], 10);
      } else if i > |d| {
        assert line[i] == e.card[i - |d| - 1];
        assert e.card[i - |d| - 1] in e.card;
      }
    }
  }

  lemma TrimStartOne(s: string)
    requires s != "" && !IsSpace(s[0])
    ensures TrimStart(" " + s) == s
  {
    assert (" " + s)[1..] == s;
    assert TrimStart(s) == s;
  }

  lemma CardLineMatches(e: CardCount)
    requires GoodCard(e.card)
    ensures MatchCard(CardLine(e)) == Match(e)
  {
    var d := ToDigits(e.count, 10);
    assert CardLine(e) == d + (" " + e.card);
    DigitRunOf(d, " " + e.card);
    assert CardLine(e)[|d|..] == " " + e.card;
    TrimStartOne(e.card);
    TrimResult(e.card);
    FromToDigits(e.count, 10);
  }

  lemma ParseCardLine(p: Parse, e: CardCount)
    requires GoodCard(e.card)
    ensures ParseLine(p, CardLine(e)) == AddEntry(p, e)
  {
    var line := CardLine(e);
    CardLineMatches(e);
    CardLineShape(e);
    TrimResult(line);
    assert LowerAll(line)[0] == line[0];
  }

  function AddEntries(p: Parse, es: seq<CardCount>): Parse {
    if p.section.Sideboard? then p.(deck := p.deck.(side := p.deck.side + es))
    else p.(deck := p.deck.(main := p.deck.main + es))
  }

  lemma AddEntriesSnoc(p: Parse, es: seq<CardCount>, e: CardCount)
    ensures AddEntry(AddEntries(p, es), e) == AddEntries(p, es + [e])
    ensures AddEntries(p, []) == p
  {
    assert p.deck.main + es + [e] == p.deck.main + (es + [e]);
    assert p.deck.side + es + [e] == p.deck.side + (es + [e]);
    assert p.deck.main + [] == p.deck.main && p.deck.side + [] == p.deck.side;
  }

  lemma {:induction false} ParseCardLines(p: Parse, es: seq<CardCount>)
    requires GoodEntries(es)
    ensures ParseLines(p, CardLines(es)) == AddEntries(p, es)
    decreases |es|
  {
    if es == [] {
      AddEntriesSnoc(p, [], CardCount("", 0));
    } else {
      var k := |es| - 1;
      ParseCardLines(p, es[..k]);
      ParseCardLine(AddEntries(p, es[..k]), es[k]);
      AddEntriesSnoc(p, es[..k], es[k]);
      CardLinesButLast(es);
    }
  }

  lemma CardLinesButLast(es: seq<CardCount>)
    requires es != []
    ensures CardLines(es)[..|es| - 1] == CardLines(es[..|es| - 1])
    ensures es[..|es| - 1] + [es[|es| - 1]] == es
  {
  }

  lemma ParseNameLine(p: Parse, name: string)
    requires GoodName(name)
    ensures PlainLine("Name=" + name)
    ensures ParseLine(p, "Name=" + name) == p.(name := name)
  {
    var line := "Name=" + name;
    TrimResult(line);
    TrimResult(name);
    assert line[|line| - 1] == if name == "" then '=' else name[|name| - 1];
    assert Trimmed(line);
    assert LowerAll(line)[..5] == "name=";
    assert line[5..] == name;
    forall i | 0 <= i < |line| ensures line[i] != '\n' {
      if i >= 5 {
        assert line[i] == name[i - 5];
      }
    }
  }

  lemma ContainsOnlyFrom(s: string, sub: string, c: char)
    requires c in sub && c !in s
    ensures !Contains(s, sub)
  {
    if Contains(s, sub) {
      ContainsMember(s, sub, c);
    }
  }

  lemma ParseSectionLine(p: Parse, line: string)
    requires line != "" && Trimmed(line) && line[0] == '['
    ensures ParseLine(p, line) == p.(section :=
      if Contains(LowerAll(line), "sideboard") then Sideboard
      else if Contains(LowerAll(line), "main") then Main else Meta)
  {
    TrimResult(line);
    assert LowerAll(line)[0] == '[' && "name="[0] == 'n';
  }

  lemma MetaSection(p: Parse, line: string)
    requires line == "[metadata]"
    ensures ParseLine(p, line) == p.(section := Meta)
  {
    ParseSectionLine(p, line);
    var lower := LowerAll(line);
    assert lower == line;
    assert 'i' !in lower;
    assert "sideboard"[1] == 'i' && "main"[2] == 'i';
    ContainsOnlyFrom(lower, "sideboard", 'i');
    ContainsOnlyFrom(lower, "main", 'i');
  }

  lemma ParseMetadataLine(p: Parse)
    ensures ParseLine(p, "[metadata]") == p.(section := Meta)
  {
    MetaSection(p, "[metadata]");
  }

  lemma ContainsNext(s: string, sub: string)
    requires s != "" && sub <= s[1..]
    ensures Contains(s, sub)
  {
    assert StartsAt(s, 1, sub);
  }

  lemma ParseMainLine(p: Parse)
    ensures ParseLine(p, "[Main]") == p.(section := Main)
  {
    var line, lower := "[Main]", "[main]";
    ParseSectionLine(p, line);
    assert LowerAll(line) == lower;
    assert 's' !in lower && "sideboard"[0] == 's';
    ContainsOnlyFrom(lower, "sideboard", 's');
    ContainsNext(lower, "main");
  }

  lemma ParseSideboardLine(p: Parse)
    ensures ParseLine(p, "[Sideboard]") == p.(section := Sideboard)
  {
    var line, lower := "[Sideboard]", "[sideboard]";
    ParseSectionLine(p, line);
    assert LowerAll(line) == lower;
    ContainsNext(lower, "sideboard");
  }

  lemma ParsePrefix(name: string, more: seq<string>)
    requires GoodName(name)
    ensures ParseLines(START, ["[metadata]", "Name=" + name, "", "[Main]"] + more)
         == ParseLines(Parse(name, Main, Deck([], [])), more)
  {
    var lines := ["[metadata]", "Name=" + name, "", "[Main]"];
    var p := START.(section := Meta);
    ParseMetadataLine(START);
    ParseNameLine(p, name);
    ParseMainLine(p.(name := name));
    ParseAppend(START, lines, more);
    assert lines[..3] == ["[metadata]", "Name=" + name, ""];
    assert lines[..3][..2] == ["[metadata]", "Name=" + name];
    assert lines[..3][..2][..1] == ["[metadata]"];
    assert lines[..3][..2][..1][..0] == [];
    assert ParseLines(START, ["[metadata]"]) == p;
    assert ParseLines(START, ["[metadata]", "Name=" + name]) == p.(name := name);
    assert ParseLines(START, lines[..3]) == p.(name := name);
  }

  lemma ParseMainPart(name: string, es: seq<CardCount>)
    requires GoodName(name) && GoodEntries(es)
    ensures ParseLines(START, ["[metadata]", "Name=" + name, "", "[Main]"] + CardLines(es))
         == Parse(name, Main, Deck(es, []))
  {
    var p := Parse(name, Main, Deck([], []));
    ParsePrefix(name, CardLines(es));
    ParseCardLines(p, es);
    assert p.deck.main + es == es;
  }

  lemma SideLines(name: string, deck: Deck)
    requires deck.side != []
    ensures DeckLines(name, deck) == (["[metadata]", "Name=" + name, "", "[Main]"] + CardLines(deck.main))
                                     + (["", "[Sideboard]"] + CardLines(deck.side))
  {
  }

  lemma ParseDeckLines(name: string, deck: Deck)
    requires GoodName(name) && GoodDeck(deck)
    ensures var p := ParseLines(START, DeckLines(name, deck)); p.name == name && p.deck == deck
  {
    ParseMainPart(name, deck.main);
    if deck.side != [] {
      SideLines(name, deck);
      ParseAppend(START, ["[metadata]", "Name=" + name, "", "[Main]"] + CardLines(deck.main),
                  ["", "[Sideboard]"] + CardLines(deck.side));
      ParseSideboardPart(Parse(name, Main, Deck(deck.main, [])), deck.side);
    }
  }

  lemma ParseSideboardPart(p: Parse, es: seq<CardCount>)
    requires GoodEntries(es) && p.deck.side == []
    ensures ParseLines(p, ["", "[Sideboard]"] + CardLines(es)) == p.(section := Sideboard, deck := p.deck.(side := es))
  {
    ParseAppend(p, ["", "[Sideboard]"], CardLines(es));
    ParseSideboardLine(p);
    assert ["", "[Sideboard]"][..1] == [""];
    assert [""][..0] == [];
    assert ParseLines(p, [""]) == p;
    ParseCardLines(p.(section := Sideboard), es);
    assert p.deck.side + es == es;
  }

  lemma DeckLinesPlain(name: string, deck: Deck)
    requires GoodName(name) && GoodDeck(deck)
    ensures forall i :: 0 <= i < |DeckLines(name, deck)| ==> PlainLine(DeckLines(name, deck)[i])
  {
    ParseNameLine(START, name);
    CardLinesPlain(deck.main);
    CardLinesPlain(deck.side);
  }

  lemma CardLinesPlain(es: seq<CardCount>)
    requires GoodEntries(es)
    ensures forall i :: 0 <= i < |CardLines(es)| ==> PlainLine(CardLines(es)[i])
  {
    forall i | 0 <= i < |es| ensures PlainLine(CardLines(es)[i]) {
      CardLineShape(es[i]);
    }
  }

  lemma GoodDeckParses(name: string, deck: Deck)
    requires GoodName(name) && GoodDeck(deck)
    ensures ParseDck(DckText(name, deck)) == (name, deck)
  {
    var lines := DeckLines(name, deck);
    DeckLinesPlain(name, deck);
    SplitJoined(lines, "");
    assert DckText(name, deck) + "" == DckText(name, deck);
    ParseAppend(START, lines, [""]);
    var p := ParseLines(START, lines);
    assert [""][..0] == [];
    assert ParseLines(p, [""]) == p;
    ParseDeckLines(name, deck);
  }

  // A deck survives printing and parsing exactly when its name is trimmed and on one line, and
  // every card name is non-empty, trimmed and free of line terminators.
  lemma DckRoundTripExact(name: string, deck: Deck)
    ensures ParseDck(DckText(name, deck)) == (name, deck) <==> GoodName(name) && GoodDeck(deck)
  {
    ParseIsGood(DckText(name, deck));
    if GoodName(name) && GoodDeck(deck) {
      GoodDeckParses(name, deck);
    }
  }
}
