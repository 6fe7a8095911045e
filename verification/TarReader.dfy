// What the reader makes of archives it did not write: cut short, or with odd size fields.
module TarReader {
  import opened Bounds
  import opened Digits
  import opened Tar

  // --- Size fields ---

  lemma {:induction false} SkipsSpaces(spaces: Bytes, rest: Bytes)
    requires (forall b :: b in spaces ==> IsAsciiSpace(b)) && (rest == [] || !IsAsciiSpace(rest[0]))
    ensures SkipSpaces(spaces + rest) == rest
  {
    if spaces == [] {
      assert spaces + rest == rest;
    } else {
      SkipsSpaces(spaces[1..], rest);
      assert (spaces + rest)[1..] == spaces[1..] + rest;
    }
  }

  lemma {:induction false} RunStops(digits: string, rest: Bytes)
    requires AllDigits(digits, 8) && AsciiText(digits) && (rest == [] || !IsOctalByte(rest[0]))
    ensures OctalRun(Ascii(digits) + rest) == digits
  {
    var bs := Ascii(digits) + rest;
    if digits == "" {
      assert bs == rest;
    } else {
      RunStops(digits[1..], rest);
      assert IsDigit(digits[0], 8);
      assert bs[1..] == Ascii(digits[1..]) + rest;
    }
  }

  // Whatever a size field holds: spaces, octal digits, and anything else. Without digits it is
  // zero when nothing is left, and no number otherwise.
  lemma SizeOfField(spaces: Bytes, digits: string, rest: Bytes)
    requires (forall b :: b in spaces ==> IsAsciiSpace(b)) && AllDigits(digits, 8) && AsciiText(digits)
    requires rest == [] || (!IsOctalByte(rest[0]) && (digits != "" || !IsAsciiSpace(rest[0])))
    ensures ParseSize(spaces + (Ascii(digits) + rest)) ==
      if digits != "" then Size(FromDigits(digits, 8)) else if rest == [] then Size(0) else NotANumber
  {
    var t := Ascii(digits) + rest;
    if digits != "" {
      assert IsDigit(digits[0], 8);
      assert t[0] == digits[0] as int;
    } else {
      assert t == rest;
    }
    SkipsSpaces(spaces, t);
    RunStops(digits, rest);
  }

  // A header with such a size gives an empty member, the last one.
  lemma NumberlessEnds(h: Bytes, rest: Bytes)
    requires |h| == BLOCK && !AllZero(h) && ParseSize(TakeToNul(h[124..136])) == NotANumber
    ensures ReadMembers(h + rest) == [Member(TakeToNul(h[..100]), [])]
  {
    var tar := h + rest;
    assert tar[..BLOCK] == h && tar[..100] == h[..100] && tar[124..136] == h[124..136];
  }

  // --- Archives cut short ---

  // The members whose headers lie within the first n bytes, bodies as far as those go.
  function CutMembers(ms: seq<Member>, n: int): seq<Member>
    decreases |ms|
  {
    if ms == [] || n < BLOCK then []
    else
      var m := Stored(ms[0]);
      [m.(body := m.body[..Min(|m.body|, n - BLOCK)])] + CutMembers(ms[1..], n - |Entry(ms[0])|)
  }

  lemma HeaderReads(m: Member)
    requires Storable(m)
    ensures var h := Header(m.name, |m.body|);
      !AllZero(h) && TakeToNul(h[..100]) == Stored(m).name && ParseSize(TakeToNul(h[124..136])) == Size(|m.body|)
  {
    HeaderNotZero(m.name, |m.body|);
    HeaderFields(m.name, |m.body|);
    NameFieldCuts(m.name);
    SizeFieldExact(|m.body|);
  }

  lemma ReadOnly(h: Bytes, part: Bytes, name: Bytes, n: nat)
    requires |h| == BLOCK && !AllZero(h) && TakeToNul(h[..100]) == name
    requires ParseSize(TakeToNul(h[124..136])) == Size(n) && |part| <= RoundUp(n)
    ensures ReadMembers(h + part) == [Member(name, part[..Min(n, |part|)])]
  {
    var tar := h + part;
    assert tar[..BLOCK] == h && tar[..100] == h[..100] && tar[124..136] == h[124..136] && tar[BLOCK..] == part;
  }

  lemma ReadPart(h: Bytes, m: Member, part: Bytes)
    requires Storable(m) && h == Header(m.name, |m.body|) && |part| <= RoundUp(|m.body|)
    ensures ReadMembers(h + part) == [Stored(m).(body := part[..Min(|m.body|, |part|)])]
  {
    HeaderReads(m);
    ReadOnly(h, part, Stored(m).name, |m.body|);
  }

  lemma CutEntry(h: Bytes, m: Member, pad: Bytes, tail: Bytes, n: nat)
    requires Storable(m) && h == Header(m.name, |m.body|) && |m.body| + |pad| == RoundUp(|m.body|)
    requires |h| <= n < |h + m.body + pad|
    ensures ReadMembers((h + m.body + pad + tail)[..n]) == [Stored(m).(body := m.body[..Min(|m.body|, n - |h|)])]
  {
    var k := n - |h|;
    CutParts(h, m.body, pad, tail, n);
    BodyOf(m.body, pad, k);
    PartRead(h, m, (m.body + pad)[..k], k);
  }

  lemma PartRead(h: Bytes, m: Member, part: Bytes, k: nat)
    requires Storable(m) && h == Header(m.name, |m.body|) && |part| == k <= RoundUp(|m.body|)
    requires part[..Min(|m.body|, k)] == m.body[..Min(|m.body|, k)]
    ensures ReadMembers(h + part) == [Stored(m).(body := m.body[..Min(|m.body|, k)])]
  {
    ReadPart(h, m, part);
  }

  lemma BodyOf(body: Bytes, pad: Bytes, k: nat)
    requires k <= |body + pad|
    ensures (body + pad)[..k][..Min(|body|, k)] == body[..Min(|body|, k)]
  {
  }

  lemma CutParts(h: Bytes, body: Bytes, pad: Bytes, tail: Bytes, n: nat)
    requires |h| <= n < |h + body + pad|
    ensures (h + body + pad + tail)[..n] == h + (body + pad)[..n - |h|]
  {
  }

  lemma CutLater(e: Bytes, tail: Bytes, n: nat)
    requires |e| <= n <= |e + tail|
    ensures (e + tail)[..n] == e + tail[..n - |e|]
  {
  }

  lemma EntryHolds(m: Member)
    ensures |Entry(m)| >= BLOCK + |m.body|
  {
  }

  lemma CutInside(ms: seq<Member>, n: nat)
    requires ms != [] && BLOCK <= n < |Entry(ms[0])|
    ensures CutMembers(ms, n) == [Stored(ms[0]).(body := ms[0].body[..Min(|ms[0].body|, n - BLOCK)])]
  {
  }

  lemma CutBeyond(ms: seq<Member>, n: nat)
    requires ms != [] && n >= |Entry(ms[0])|
    ensures CutMembers(ms, n) == [Stored(ms[0])] + CutMembers(ms[1..], n - |Entry(ms[0])|)
  {
    EntryHolds(ms[0]);
    assert ms[0].body[..|ms[0].body|] == ms[0].body;
  }

  lemma CutEmpty(n: nat)
    requires n <= |Pack([])|
    ensures ReadMembers(Pack([])[..n]) == []
  {
    if n >= BLOCK {
      assert AllZero(Pack([])[..n][..BLOCK]);
    }
  }

  lemma CutHere(ms: seq<Member>, n: nat)
    requires ms != [] && BLOCK <= n < |Entry(ms[0])| && Storable(ms[0])
    ensures n <= |Pack(ms)| && ReadMembers(Pack(ms)[..n]) == CutMembers(ms, n)
  {
    var m := ms[0];
    PackCons(ms);
    PaddingAligns(|m.body|);
    CutInside(ms, n);
    CutEntry(Header(m.name, |m.body|), m, NulBytes(PadLength(|m.body|)), Pack(ms[1..]), n);
  }

  lemma CutOn(ms: seq<Member>, n: nat)
    requires ms != [] && |Entry(ms[0])| <= n <= |Pack(ms)| && Storable(ms[0])
    requires n - |Entry(ms[0])| <= |Pack(ms[1..])|
    requires ReadMembers(Pack(ms[1..])[..n - |Entry(ms[0])|]) == CutMembers(ms[1..], n - |Entry(ms[0])|)
    ensures ReadMembers(Pack(ms)[..n]) == CutMembers(ms, n)
  {
    var tail := Pack(ms[1..]);
    PackCons(ms);
    CutLater(Entry(ms[0]), tail, n);
    ReadEntry(ms[0], tail[..n - |Entry(ms[0])|]);
    CutBeyond(ms, n);
  }

  ghost predicate AllStorable(ms: seq<Member>) {
    forall m :: m in ms ==> Storable(m)
  }

  lemma TailStorable(ms: seq<Member>)
    requires ms != [] && AllStorable(ms)
    ensures Storable(ms[0]) && AllStorable(ms[1..])
  {
  }

  // An archive cut short anywhere gives the members it still has headers of, the last one with as
  // much of its body as is there, and nothing else.
  lemma {:induction false} CutArchive(ms: seq<Member>, n: nat)
    requires n <= |Pack(ms)| && AllStorable(ms)
    ensures ReadMembers(Pack(ms)[..n]) == CutMembers(ms, n)
    decreases |ms|
  {
    if ms == [] {
      CutEmpty(n);
    } else {
      TailStorable(ms);
      if n >= |Entry(ms[0])| {
        PackCons(ms);
        CutArchive(ms[1..], n - |Entry(ms[0])|);
        CutOn(ms, n);
      } else if n >= BLOCK {
        CutHere(ms, n);
      }
    }
  }
}
