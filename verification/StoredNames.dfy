// Which deck names no other name can collide with once stored.
module StoredNames {
  import opened Tar
  import opened Dck
  import opened DeckCodec

  // A letter, a digit, a blank, a dot or a hyphen.
  predicate PlainChar(c: char) {
    'a' <= c <= 'z' || 'A' <= c <= 'Z' || '0' <= c <= '9' || c in " .-"
  }

  predicate PlainName(n: string) {
    |n| < 96 && forall c :: c in n ==> PlainChar(c)
  }

  lemma PlainIsKept(c: char)
    ensures PlainChar(c) <==> KeptInFilename(c) && c != '_'
  {
  }

  lemma PlainNameIsKept(n: string)
    ensures PlainName(n) <==> |n| < 96 && forall c :: c in n ==> KeptInFilename(c) && c != '_'
  {
    forall c | c in n ensures PlainChar(c) <==> KeptInFilename(c) && c != '_' {
      PlainIsKept(c);
    }
  }

  predicate Nameable(m: string) {
    m != "" && m != "__proto__" && GoodName(m)
  }

  // No other deck name has the stored name of n.
  ghost predicate Unshared(n: string) {
    forall m :: Nameable(m) && StoredName(m) == StoredName(n) ==> m == n
  }

  // --- Sanitizing ---

  lemma Regroup(a: string, b: string, c: string)
    ensures a + (b + c) == (a + b) + c
  {
  }

  lemma TailOfSum(a: string, b: string)
    requires a != ""
    ensures (a + b)[0] == a[0] && (a + b)[1..] == a[1..] + b
  {
  }

  lemma {:induction false} SanitizeAppend(a: string, b: string)
    ensures Sanitize(a + b) == Sanitize(a) + Sanitize(b)
    decreases |a|
  {
    if a == "" {
      assert a + b == b;
    } else {
      SanitizeAppend(a[1..], b);
      TailOfSum(a, b);
      Regroup(SanitizeChar(a[0]), Sanitize(a[1..]), Sanitize(b));
    }
  }

  lemma {:induction false} SanitizeKept(n: string)
    requires forall c :: c in n ==> KeptInFilename(c)
    ensures Sanitize(n) == n
  {
    if n != "" {
      SanitizeKept(n[1..]);
    }
  }

  lemma {:induction false} SanitizeLonger(n: string)
    ensures |Sanitize(n)| >= |n|
  {
    if n != "" {
      SanitizeLonger(n[1..]);
    }
  }

  lemma NotInSum(c: char, a: string, b: string)
    requires c !in a + b
    ensures c !in a && c !in b
  {
  }

  lemma CharBack(c: char)
    requires '_' !in SanitizeChar(c)
    ensures SanitizeChar(c) == [c]
  {
    assert SanitizeChar(c)[0] in SanitizeChar(c);
  }

  // Only a name without underscores sanitizes to itself alone.
  lemma {:induction false} NoUnderscoreBack(m: string)
    requires '_' !in Sanitize(m)
    ensures Sanitize(m) == m
  {
    if m != "" {
      NotInSum('_', SanitizeChar(m[0]), Sanitize(m[1..]));
      CharBack(m[0]);
      NoUnderscoreBack(m[1..]);
    }
  }

  lemma SanitizeOne(c: char)
    ensures Sanitize([c]) == SanitizeChar(c)
  {
    assert [c][1..] == "" && Sanitize("") == "";
  }

  lemma SanitizeAround(a: string, c: char, b: string)
    ensures Sanitize(a + [c] + b) == Sanitize(a) + SanitizeChar(c) + Sanitize(b)
  {
    SanitizeOne(c);
    SanitizeAppend(a, [c]);
    SanitizeAppend(a + [c], b);
  }

  lemma StaysVisible(c: char)
    requires !IsSpace(c)
    ensures forall x :: x in SanitizeChar(c) ==> !IsSpace(x)
  {
  }

  lemma FirstOf(s: string, a: string, b: string)
    requires s == a + b && a != "" && forall x :: x in a ==> !IsSpace(x)
    ensures s != "" && !IsSpace(s[0])
  {
    assert a[0] in a;
  }

  lemma LastOf(s: string, a: string, b: string)
    requires s == a + b && b != "" && forall x :: x in b ==> !IsSpace(x)
    ensures s != "" && !IsSpace(s[|s| - 1])
  {
    assert b[|b| - 1] in b && s[|s| - 1] == b[|b| - 1];
  }

  lemma SanitizeSnoc(a: string, c: char)
    ensures Sanitize(a + [c]) == Sanitize(a) + SanitizeChar(c)
  {
    SanitizeOne(c);
    SanitizeAppend(a, [c]);
  }

  lemma LastSplit(n: string)
    requires n != ""
    ensures n == n[..|n| - 1] + [n[|n| - 1]]
  {
  }

  lemma SanitizeEnds(n: string)
    requires n != "" && Trimmed(n)
    ensures var s := Sanitize(n); s != "" && !IsSpace(s[0]) && !IsSpace(s[|s| - 1])
  {
    var s := Sanitize(n);
    LastSplit(n);
    SanitizeSnoc(n[..|n| - 1], n[|n| - 1]);
    StaysVisible(n[0]);
    StaysVisible(n[|n| - 1]);
    FirstOf(s, SanitizeChar(n[0]), Sanitize(n[1..]));
    LastOf(s, Sanitize(n[..|n| - 1]), SanitizeChar(n[|n| - 1]));
  }

  // --- Plain names are unshared ---

  lemma PlainUnshared(n: string, m: string)
    requires PlainName(n) && StoredName(m) == StoredName(n)
    ensures m == n
  {
    PlainNameIsKept(n);
    SanitizeKept(n);
    assert |FileName(n)| < 100 && Cut(FileName(n)) == FileName(n);
    assert FileName(m) == FileName(n);
    assert FileName(m)[..|FileName(m)| - 4] == Sanitize(m) && FileName(n)[..|FileName(n)| - 4] == n;
    NoUnderscoreBack(m);
  }

  // Its file is the name itself, with the extension.
  lemma PlainFile(n: string)
    requires PlainName(n)
    ensures FileName(n) == n + ".dck" && StoredName(n) == n + ".dck"
  {
    PlainNameIsKept(n);
    SanitizeKept(n);
    assert (n + ".dck")[..|n| + 4] == n + ".dck";
  }

  // --- Any other name is shared with a short ASCII one ---

  lemma KeptVisible(c: char)
    requires KeptInFilename(c)
    ensures c != '\n' && c as int < 128
  {
  }

  lemma AllAscii(s: string)
    requires forall x :: x in s ==> x as int < 128
    ensures AsciiText(s)
  {
    forall i | 0 <= i < |s| ensures s[i] as int < 128 {
      assert s[i] in s;
    }
  }

  lemma SwapSanitized(a: string, c: char, b: string)
    requires c == '/' || c == ':'
    requires forall x :: x in a || x in b ==> KeptInFilename(x)
    ensures Sanitize(a + [c] + b) == a + ['_'] + b
  {
    SanitizeKept(a);
    SanitizeKept(b);
    SanitizeAround(a, c, b);
  }

  lemma SwapNameable(a: string, c: char, b: string)
    requires c == '/' || c == ':'
    requires forall x :: x in a || x in b ==> KeptInFilename(x)
    requires a == "" || !IsSpace(a[0])
    requires b == "" || !IsSpace(b[|b| - 1])
    ensures Nameable(a + [c] + b) && AsciiText(a + [c] + b)
  {
    var m := a + [c] + b;
    assert m[|a|] == c;
    forall x | x in m ensures x != '\n' && x as int < 128 {
      assert x in a || x in b || x == c;
      if x != c {
        KeptVisible(x);
      }
    }
    AllAscii(m);
    assert m[0] == if a == "" then c else a[0];
    assert m[|m| - 1] == if b == "" then c else b[|b| - 1];
    assert c in m && c !in "__proto__";
  }

  lemma Parts(s: string, i: nat)
    requires i < |s|
    ensures s == s[..i] + [s[i]] + s[i + 1..]
    ensures forall x :: x in s[..i] || x in s[i + 1..] ==> x in s
    ensures i > 0 ==> s[..i][0] == s[0]
    ensures i + 1 < |s| ==> s[i + 1..][|s| - i - 2] == s[|s| - 1]
  {
  }

  lemma SharerBySwap(n: string) returns (m: string)
    requires Nameable(n) && |Sanitize(n)| < 96 && !PlainName(n)
    ensures Nameable(m) && m != n && StoredName(m) == StoredName(n) && AsciiText(m) && |m| <= 101
  {
    SanitizeEnds(n);
    PlainNameIsKept(n);
    if '_' !in Sanitize(n) {
      NoUnderscoreBack(n);
      assert false;
    }
    m := Unswapped(Sanitize(n), n);
  }

  // A name other than n that sanitizes to s.
  lemma Unswapped(s: string, n: string) returns (m: string)
    requires '_' in s && !IsSpace(s[0]) && !IsSpace(s[|s| - 1]) && forall x :: x in s ==> KeptInFilename(x)
    ensures m != n && |m| == |s| && Sanitize(m) == s && Nameable(m) && AsciiText(m)
  {
    var i: nat :| i < |s| && s[i] == '_';
    Parts(s, i);
    m := OtherSwap(s[..i], s[i + 1..], n);
  }

  lemma OtherSwap(a: string, b: string, n: string) returns (m: string)
    requires forall x :: x in a || x in b ==> KeptInFilename(x)
    requires a == "" || !IsSpace(a[0])
    requires b == "" || !IsSpace(b[|b| - 1])
    ensures m != n && |m| == |a| + 1 + |b| && Sanitize(m) == a + ['_'] + b && Nameable(m) && AsciiText(m)
  {
    m := Swap(a, '/', b);
    if m == n {
      m := Swap(a, ':', b);
    }
  }

  lemma Swap(a: string, c: char, b: string) returns (m: string)
    requires c == '/' || c == ':'
    requires forall x :: x in a || x in b ==> KeptInFilename(x)
    requires a == "" || !IsSpace(a[0])
    requires b == "" || !IsSpace(b[|b| - 1])
    ensures m == a + [c] + b && m[|a|] == c && Sanitize(m) == a + ['_'] + b && Nameable(m) && AsciiText(m)
  {
    m := a + [c] + b;
    SwapSanitized(a, c, b);
    SwapNameable(a, c, b);
  }

  lemma KeptMore(s: string, c: char)
    requires (forall x :: x in s ==> KeptInFilename(x)) && (c == 'x' || c == 'y')
    ensures forall x :: x in s + [c] ==> KeptInFilename(x) && x != '\n'
  {
    forall x | x in s + [c] ensures KeptInFilename(x) && x != '\n' {
      assert x in s || x == c;
      KeptVisible(x);
    }
  }

  lemma StoredKept(s: string, m: string)
    requires |s| == 100 && s <= m && forall x :: x in m ==> KeptInFilename(x)
    ensures StoredName(m) == s && AsciiText(m)
  {
    SanitizeKept(m);
    assert (m + ".dck")[..100] == s;
  }

  lemma Longer(s: string, c: char) returns (m: string)
    requires |s| == 100 && (forall x :: x in s ==> KeptInFilename(x)) && (c == 'x' || c == 'y') && !IsSpace(s[0])
    ensures Nameable(m) && m == s + [c] && StoredName(m) == s && AsciiText(m)
  {
    m := s + [c];
    KeptMore(s, c);
    StoredKept(s, m);
    assert m[0] == s[0] && m[|m| - 1] == c && |"__proto__"| == 9;
  }

  lemma SharerByLength(n: string) returns (m: string)
    requires Nameable(n) && |Sanitize(n)| >= 96
    ensures Nameable(m) && m != n && StoredName(m) == StoredName(n) && AsciiText(m) && |m| <= 101
  {
    var s := StoredName(n);
    SanitizeEnds(n);
    assert forall x :: x in s ==> x in FileName(n);
    m := Longer(s, 'x');
    if m == n {
      m := Longer(s, 'y');
      assert m[100] != n[100];
    }
  }

  lemma Sharer(n: string) returns (m: string)
    requires Nameable(n) && !PlainName(n)
    ensures Nameable(m) && m != n && StoredName(m) == StoredName(n) && AsciiText(m) && |m| <= 101
  {
    if |Sanitize(n)| < 96 {
      m := SharerBySwap(n);
    } else {
      m := SharerByLength(n);
    }
  }

  // No other deck can take a deck's place in the archive exactly when its name is plain.
  lemma UnsharedExactly(n: string)
    requires Nameable(n)
    ensures Unshared(n) <==> PlainName(n)
  {
    if PlainName(n) {
      forall m | Nameable(m) && StoredName(m) == StoredName(n) ensures m == n {
        PlainUnshared(n, m);
      }
    } else {
      var m := Sharer(n);
    }
  }
}
