// The hand-written USTAR writer and reader of the cloud deck storage. The format is the "ustar
// Interchange Format" of the pax utility in IEEE Std 1003.1-2017.
module Tar {
  import opened Bounds
  import opened Digits

  type byte = b: int | 0 <= b < 256
  type Bytes = seq<byte>

  const BLOCK := 512

  function NulBytes(n: nat): Bytes {
    seq(n, _ => 0)
  }

  function Spaces(n: nat): Bytes {
    seq(n, _ => 0x20)
  }

  predicate AsciiText(s: string) {
    forall i :: 0 <= i < |s| ==> s[i] as int < 128
  }

  function Ascii(s: string): (bs: Bytes)
    requires AsciiText(s)
    ensures |bs| == |s|
  {
    seq(|s|, i requires 0 <= i < |s| => s[i] as int)
  }

  function CharOf(b: byte): char {
    b as char
  }

  function Octal(n: nat, width: nat): (s: string)
    requires width >= 1
    ensures AsciiText(s)
  {
    var d := PadStart(ToDigits(n, 8), width - 1);
    PadRoundTrip(n, 8, width - 1);
    d + "\0"
  }

  // --- The header, field by field ---

  // What fits of bs, then NULs to the field's width.
  function Field(bs: Bytes, width: nat): (f: Bytes)
    ensures |f| == width
  {
    if |bs| >= width then bs[..width] else bs + NulBytes(width - |bs|)
  }

  // name, mode, uid, gid, size, mtime: bytes 0 to 147
  function Front(name: Bytes, size: nat): (f: Bytes)
    ensures |f| == 148
  {
    Field(name, 100) + Ascii("0000644\0") + Ascii("0000000\0") + Ascii("0000000\0")
    + Field(Ascii(Octal(size, 12)), 12) + Field(Ascii(Octal(0, 12)), 12)
  }

  // typeflag, linkname, magic, version and the unused rest: bytes 156 to 511
  function Back(): (f: Bytes)
    ensures |f| == 356
  {
    Ascii("0") + NulBytes(100) + Ascii("ustar\0") + Ascii("00") + NulBytes(247)
  }

  function HeaderWith(name: Bytes, size: nat, checksum: Bytes): (h: Bytes)
    requires |checksum| == 8
    ensures |h| == BLOCK
  {
    Front(name, size) + checksum + Back()
  }

  function ByteSum(bs: Bytes): nat {
    if bs == [] then 0 else ByteSum(bs[..|bs| - 1]) + bs[|bs| - 1]
  }

  function HeaderSum(name: Bytes, size: nat): (sum: nat)
    ensures sum < 0x40000
  {
    SumFits(HeaderWith(name, size, Spaces(8)));
    ByteSum(HeaderWith(name, size, Spaces(8)))
  }

  // Six octal digits, NUL, space.
  function ChecksumField(sum: nat): (f: Bytes)
    requires sum < 0x40000
    ensures |f| == 8
  {
    SixDigits(sum);
    Ascii(Octal(sum, 7)[..6] + "\0 ")
  }

  function Header(name: Bytes, size: nat): (h: Bytes)
    ensures |h| == BLOCK
  {
    HeaderWith(name, size, ChecksumField(HeaderSum(name, size)))
  }

  lemma PowEight()
    ensures Pow(8, 6) == 0x40000 && Pow(8, 11) == 0x2_0000_0000 && Pow(8, 12) == 0x10_0000_0000
  {
    assert Pow(8, 3) == 8 * Pow(8, 2) == 8 * (8 * Pow(8, 1)) == 8 * (8 * (8 * Pow(8, 0))) == 512;
    assert Pow(8, 6) == 8 * Pow(8, 5) == 8 * (8 * Pow(8, 4)) == 8 * (8 * (8 * Pow(8, 3)));
    assert Pow(8, 9) == 8 * Pow(8, 8) == 8 * (8 * Pow(8, 7)) == 8 * (8 * (8 * Pow(8, 6)));
    assert Pow(8, 12) == 8 * Pow(8, 11) == 8 * (8 * Pow(8, 10)) == 8 * (8 * (8 * Pow(8, 9)));
  }

  lemma SixDigits(sum: nat)
    requires sum < 0x40000
    ensures |Octal(sum, 7)| == 7 && |PadStart(ToDigits(sum, 8), 6)| == 6
  {
    PowEight();
    LengthBound(sum, 8, 6);
  }

  lemma {:induction false} SumBound(bs: Bytes)
    ensures ByteSum(bs) <= 255 * |bs|
  {
    if bs != [] {
      SumBound(bs[..|bs| - 1]);
    }
  }

  // A header's byte sum always fits six octal digits.
  lemma SumFits(h: Bytes)
    requires |h| == BLOCK
    ensures ByteSum(h) < 0x40000
  {
    SumBound(h);
  }

  // --- Reading fields ---

  function TakeToNul(bs: Bytes): Bytes {
    if bs == [] || bs[0] == 0 then [] else [bs[0]] + TakeToNul(bs[1..])
  }

  predicate IsOctalByte(b: byte) {
    0x30 <= b < 0x38
  }

  function OctalRun(bs: Bytes): (r: string)
    ensures AllDigits(r, 8)
  {
    if bs == [] || !IsOctalByte(bs[0]) then "" else [CharOf(bs[0])] + OctalRun(bs[1..])
  }

  predicate IsAsciiSpace(b: byte) {
    b == 0x20 || 0x09 <= b <= 0x0D
  }

  function SkipSpaces(bs: Bytes): Bytes {
    if bs != [] && IsAsciiSpace(bs[0]) then SkipSpaces(bs[1..]) else bs
  }

  datatype Size = NotANumber | Size(n: nat)

  // parseInt(text.trim() || '0', 8): the leading octal digits, or NaN when there are none.
  function ParseSize(bs: Bytes): Size {
    var t := SkipSpaces(bs);
    if t == [] then Size(0)
    else if OctalRun(t) == "" then NotANumber
    else Size(FromDigits(OctalRun(t), 8))
  }

  lemma {:induction false} TakeToNulStops(bs: Bytes, rest: Bytes)
    requires 0 !in bs && (rest == [] || rest[0] == 0)
    ensures TakeToNul(bs + rest) == bs
  {
    if bs == [] {
      assert bs + rest == rest;
    } else {
      assert 0 !in bs[1..];
      TakeToNulStops(bs[1..], rest);
      assert (bs + rest)[1..] == bs[1..] + rest;
    }
  }

  lemma {:induction false} TakeToNulClean(bs: Bytes)
    ensures 0 !in TakeToNul(bs) && |TakeToNul(bs)| <= |bs|
  {
    if bs != [] {
      TakeToNulClean(bs[1..]);
    }
  }

  lemma NameFieldCuts(name: Bytes)
    requires 0 !in name
    ensures TakeToNul(Field(name, 100)) == name[..Min(100, |name|)]
  {
    var kept := name[..Min(100, |name|)];
    TakeToNulStops(kept, NulBytes(100 - |kept|));
    assert Field(name, 100) == kept + NulBytes(100 - |kept|);
  }

  // A name survives its field exactly when it has at most 100 bytes and no NUL.
  lemma NameFieldExact(name: Bytes)
    ensures TakeToNul(Field(name, 100)) == name <==> |name| <= 100 && 0 !in name
  {
    TakeToNulClean(Field(name, 100));
    if |name| <= 100 && 0 !in name {
      NameFieldCuts(name);
    }
  }

  lemma {:induction false} OctalRunReads(d: string)
    requires AllDigits(d, 8)
    ensures AsciiText(d) && OctalRun(Ascii(d)) == d && 0 !in Ascii(d)
  {
    if d != "" {
      assert AllDigits(d[1..], 8);
      OctalRunReads(d[1..]);
      assert Ascii(d)[1..] == Ascii(d[1..]);
      assert IsDigit(d[0], 8);
    }
  }

  lemma ParseSizeReads(d: string)
    requires AllDigits(d, 8) && d != ""
    ensures AsciiText(d) && ParseSize(Ascii(d)) == Size(FromDigits(d, 8))
  {
    OctalRunReads(d);
    assert IsDigit(d[0], 8);
  }

  function SizeField(size: nat): Bytes {
    Field(Ascii(Octal(size, 12)), 12)
  }

  // The size field holds the first twelve of: the digits padded to eleven, then NUL.
  lemma SizeFieldText(size: nat)
    ensures var d := PadStart(ToDigits(size, 8), 11);
            AllDigits(d, 8) && AsciiText(d)
            && TakeToNul(SizeField(size)) == if |d| <= 12 then Ascii(d) else Ascii(d[..12])
  {
    var d := PadStart(ToDigits(size, 8), 11);
    PadRoundTrip(size, 8, 11);
    OctalRunReads(d);
    if |d| == 11 {
      assert SizeField(size) == Ascii(d) + [0];
      TakeToNulStops(Ascii(d), [0]);
    } else {
      var c := if |d| <= 12 then d else d[..12];
      assert SizeField(size) == Ascii(c) + [];
      OctalRunReads(c);
      TakeToNulStops(Ascii(c), []);
    }
  }

  // A size is read back exactly when it is below 8^12: eleven digits and a NUL, or twelve digits
  // filling the field.
  lemma SizeFieldExact(size: nat)
    ensures ParseSize(TakeToNul(SizeField(size))) == Size(size) <==> size < 0x10_0000_0000
  {
    var d := PadStart(ToDigits(size, 8), 11);
    PowEight();
    SizeFieldText(size);
    PadRoundTrip(size, 8, 11);
    LengthBound(size, 8, 12);
    if size < 0x10_0000_0000 {
      ParseSizeReads(d);
    } else {
      ParseSizeReads(d[..12]);
      FromDigitsBound(d[..12], 8);
    }
  }

  lemma HeaderFields(name: Bytes, size: nat)
    ensures var h := Header(name, size);
            && h[..100] == Field(name, 100)
            && h[124..136] == SizeField(size)
            && h[148..156] == ChecksumField(HeaderSum(name, size))
            && h[..148] == Front(name, size) && h[156..] == Back()
  {
  }

  // The stored checksum, read as octal, is the byte sum of the header with that field blanked.
  lemma ChecksumVerifies(name: Bytes, size: nat)
    ensures var h := Header(name, size);
            ParseSize(TakeToNul(h[148..156])) == Size(ByteSum(h[..148] + Spaces(8) + h[156..]))
  {
    var h, sum := Header(name, size), HeaderSum(name, size);
    HeaderFields(name, size);
    SixDigits(sum);
    PadRoundTrip(sum, 8, 6);
    var d := PadStart(ToDigits(sum, 8), 6);
    OctalRunReads(d);
    assert ChecksumField(sum) == Ascii(d) + [0, 0x20];
    TakeToNulStops(Ascii(d), [0, 0x20]);
    ParseSizeReads(d);
  }

  predicate AllZero(bs: Bytes) {
    forall i :: 0 <= i < |bs| ==> bs[i] == 0
  }

  // A header is never mistaken for the end of the archive: its magic starts with 'u'.
  lemma HeaderNotZero(name: Bytes, size: nat)
    ensures !AllZero(Header(name, size))
  {
    var h := Header(name, size);
    HeaderFields(name, size);
    assert Back()[101] == 'u' as int;
    assert h[257] == h[156..][101];
  }

  // --- What the format says of a header, by its offsets ---

  // The field of this width at off: octal digits for n, and a NUL.
  ghost predicate OctalField(h: Bytes, off: nat, width: nat, n: nat) {
    width > 0 && off + width <= |h| && h[off + width - 1] == 0 &&
    var digits := OctalRun(h[off..off + width - 1]);
    |digits| == width - 1 && FromDigits(digits, 8) == n
  }

  // A regular file, mode 0644, owned by nobody in particular, of no date; magic and version; and
  // nothing in the other fields.
  ghost predicate UstarHeader(h: Bytes) {
    && |h| == BLOCK
    && OctalField(h, 100, 8, 420) && OctalField(h, 108, 8, 0) && OctalField(h, 116, 8, 0) && OctalField(h, 136, 12, 0)
    && h[156] == 0x30 && AllZero(h[157..257])
    && h[257..263] == [0x75, 0x73, 0x74, 0x61, 0x72, 0] && h[263..265] == [0x30, 0x30]
    && AllZero(h[265..512])
  }

  lemma OctalText(h: Bytes, off: nat, d: string, n: nat)
    requires AllDigits(d, 8) && FromDigits(d, 8) == n && AsciiText(d + "\0")
    requires off + |d| + 1 <= |h| && h[off..off + |d| + 1] == Ascii(d + "\0")
    ensures OctalField(h, off, |d| + 1, n)
  {
    OctalRunReads(d);
    assert h[off..off + |d|] == Ascii(d + "\0")[..|d|] == Ascii(d);
    assert h[off + |d|] == Ascii(d + "\0")[|d|];
  }

  lemma OctalTexts(mode: string, zero: string)
    requires mode == "0000644" && zero == "0000000"
    ensures AllDigits(mode, 8) && FromDigits(mode, 8) == 420
    ensures AllDigits(zero, 8) && FromDigits(zero, 8) == 0
  {
    FromDigitsPadded(4, "644", 8);
    assert Zeros(4) + "644" == mode && Zeros(7) == zero;
    FromZeros(7, 8);
    FromOneDigit('6', 8);
    FromDigitsAppend("6", '4', 8);
    FromDigitsAppend("64", '4', 8);
    assert "6" + ['4'] == "64" && "64" + ['4'] == "644";
  }

  lemma FrontOffsets(name: Bytes, size: nat)
    ensures var f := Front(name, size);
      && f[100..108] == Ascii("0000644\0") && f[108..116] == Ascii("0000000\0") && f[116..124] == Ascii("0000000\0")
      && f[136..148] == Field(Ascii(Octal(0, 12)), 12)
  {
  }

  // Field mtime, eleven zeros and a NUL.
  lemma MtimeText()
    ensures AllDigits(Zeros(11), 8) && FromDigits(Zeros(11), 8) == 0
    ensures Octal(0, 12) == Zeros(11) + "\0" && Field(Ascii(Octal(0, 12)), 12) == Ascii(Octal(0, 12))
  {
    FromZeros(11, 8);
    assert ToDigits(0, 8) == "0" && Zeros(10) + "0" == Zeros(11);
    FieldFits(Ascii(Octal(0, 12)));
  }

  lemma BackOffsets()
    ensures var b := Back();
      && b[0] == 0x30 && AllZero(b[1..101]) && b[101..107] == [0x75, 0x73, 0x74, 0x61, 0x72, 0]
      && b[107..109] == [0x30, 0x30] && AllZero(b[109..])
  {
    var b := Back();
    assert Ascii("ustar\0") == [0x75, 0x73, 0x74, 0x61, 0x72, 0] && Ascii("00") == [0x30, 0x30] && Ascii("0") == [0x30];
    assert b[1..101] == NulBytes(100) && b[109..] == NulBytes(247);
  }

  lemma FrontFields(h: Bytes, mode: string, zero: string)
    requires mode == "0000644" && zero == "0000000" && |h| == BLOCK
    requires h[100..108] == Ascii(mode + "\0") && h[108..116] == Ascii(zero + "\0") && h[116..124] == Ascii(zero + "\0")
    requires h[136..148] == Ascii(Octal(0, 12))
    ensures OctalField(h, 100, 8, 420) && OctalField(h, 108, 8, 0) && OctalField(h, 116, 8, 0)
    ensures OctalField(h, 136, 12, 0)
  {
    OctalTexts(mode, zero);
    MtimeText();
    OctalText(h, 100, mode, 420);
    OctalText(h, 108, zero, 0);
    OctalText(h, 116, zero, 0);
    OctalText(h, 136, Zeros(11), 0);
  }

  lemma Nested(h: Bytes, a: nat, i: nat, j: nat)
    requires a <= |h| && i <= j <= |h| - a
    ensures h[a..][i..j] == h[a + i..a + j]
  {
  }

  lemma NestedFront(h: Bytes, a: nat, i: nat, j: nat)
    requires i <= j <= a <= |h|
    ensures h[..a][i..j] == h[i..j]
  {
  }

  lemma HeaderIsUstar(name: Bytes, size: nat)
    ensures UstarHeader(Header(name, size))
  {
    var h := Header(name, size);
    HeaderFields(name, size);
    FrontOffsets(name, size);
    MtimeText();
    NestedFront(h, 148, 100, 108);
    NestedFront(h, 148, 108, 116);
    NestedFront(h, 148, 116, 124);
    NestedFront(h, 148, 136, 148);
    assert "0000644" + "\0" == "0000644\0" && "0000000" + "\0" == "0000000\0";
    FrontFields(h, "0000644", "0000000");
    BackIsUstar(h);
  }

  lemma BackIsUstar(h: Bytes)
    requires |h| == BLOCK && h[156..] == Back()
    ensures h[156] == 0x30 && AllZero(h[157..257]) && h[257..263] == [0x75, 0x73, 0x74, 0x61, 0x72, 0]
    ensures h[263..265] == [0x30, 0x30] && AllZero(h[265..512])
  {
    BackOffsets();
    assert h[156] == h[156..][0];
    Nested(h, 156, 1, 101);
    Nested(h, 156, 101, 107);
    Nested(h, 156, 107, 109);
    Nested(h, 156, 109, 356);
  }

  // The checksum field: the sum of the header with that field blank, in six digits, NUL, space.
  lemma ChecksumFieldFormat(name: Bytes, size: nat)
    ensures var h := Header(name, size);
      OctalField(h, 148, 7, ByteSum(h[..148] + Spaces(8) + h[156..])) && h[155] == 0x20
  {
    var h, sum := Header(name, size), HeaderSum(name, size);
    HeaderFields(name, size);
    SixDigits(sum);
    PadRoundTrip(sum, 8, 6);
    var d := PadStart(ToDigits(sum, 8), 6);
    OctalRunReads(d);
    assert h[148..156][..7] == h[148..155] && h[148..156][7] == h[155];
    ChecksumSplits(d, ChecksumField(sum));
    OctalText(h, 148, d, sum);
  }

  lemma ChecksumSplits(d: string, f: Bytes)
    requires |d| == 6 && AsciiText(d) && |f| == 8 && f == Ascii(d + "\0 ")
    ensures f[..7] == Ascii(d + "\0") && f[7] == 0x20
  {
  }

  lemma ShortSizeText(size: nat)
    requires size < 0x2_0000_0000
    ensures var d := PadStart(ToDigits(size, 8), 11);
      |d| == 11 && AllDigits(d, 8) && FromDigits(d, 8) == size && AsciiText(d + "\0")
      && SizeField(size) == Ascii(d + "\0")
  {
    var d := PadStart(ToDigits(size, 8), 11);
    PowEight();
    LengthBound(size, 8, 11);
    PadRoundTrip(size, 8, 11);
    OctalRunReads(d);
    FieldFits(Ascii(d + "\0"));
  }

  // A size below 8^11 has its eleven digits and a NUL.
  lemma SizeFieldFormat(name: Bytes, size: nat)
    requires size < 0x2_0000_0000
    ensures OctalField(Header(name, size), 124, 12, size)
  {
    HeaderFields(name, size);
    ShortSizeText(size);
    OctalText(Header(name, size), 124, PadStart(ToDigits(size, 8), 11), size);
  }

  // --- The archive ---

  datatype Member = Member(name: Bytes, body: Bytes)

  function PadLength(n: nat): nat {
    (BLOCK - n % BLOCK) % BLOCK
  }

  function Entry(m: Member): Bytes {
    Header(m.name, |m.body|) + m.body + NulBytes(PadLength(|m.body|))
  }

  function Flatten(chunks: seq<Bytes>): Bytes {
    if chunks == [] then [] else Flatten(chunks[..|chunks| - 1]) + chunks[|chunks| - 1]
  }

  function EntryList(ms: seq<Member>): seq<Bytes> {
    seq(|ms|, i requires 0 <= i < |ms| => Entry(ms[i]))
  }

  // The entries in order, then two zero blocks.
  function Pack(ms: seq<Member>): Bytes {
    Flatten(EntryList(ms)) + NulBytes(1024)
  }

  lemma FlattenSnoc(chunks: seq<Bytes>, c: Bytes)
    ensures Flatten(chunks + [c]) == Flatten(chunks) + c
  {
    assert (chunks + [c])[..|chunks|] == chunks;
  }

  lemma {:induction false} FlattenCons(c: Bytes, chunks: seq<Bytes>)
    ensures Flatten([c] + chunks) == c + Flatten(chunks)
    decreases |chunks|
  {
    if chunks == [] {
      assert [c] + chunks == [] + [c];
      FlattenSnoc([], c);
    } else {
      var k := |chunks| - 1;
      FlattenCons(c, chunks[..k]);
      FlattenSnoc([c] + chunks[..k], chunks[k]);
      assert ([c] + chunks[..k]) + [chunks[k]] == [c] + chunks;
    }
  }

  lemma PackCons(ms: seq<Member>)
    requires ms != []
    ensures Pack(ms) == Entry(ms[0]) + Pack(ms[1..])
  {
    EntryListCons(ms);
    FlattenCons(Entry(ms[0]), EntryList(ms[1..]));
  }

  lemma EntryListCons(ms: seq<Member>)
    requires ms != []
    ensures EntryList(ms) == [Entry(ms[0])] + EntryList(ms[1..])
  {
    var a, rest := EntryList(ms), EntryList(ms[1..]);
    forall i | 0 < i < |a| ensures a[i] == rest[i - 1] {
      assert ms[1..][i - 1] == ms[i];
    }
  }

  function RoundUp(n: nat): nat {
    (n + BLOCK - 1) / BLOCK * BLOCK
  }

  // The members the reader finds, in order; names may be empty, a size that is no number ends it.
  function ReadMembers(tar: Bytes): seq<Member>
    decreases |tar|
  {
    if |tar| < BLOCK || AllZero(tar[..BLOCK]) then []
    else
      var name, size := TakeToNul(tar[..100]), ParseSize(TakeToNul(tar[124..136]));
      var rest := tar[BLOCK..];
      if size.NotANumber? then [Member(name, [])]
      else [Member(name, rest[..Min(size.n, |rest|)])] + ReadMembers(rest[Min(RoundUp(size.n), |rest|)..])
  }

  predicate Storable(m: Member) {
    0 !in m.name && |m.body| < 0x10_0000_0000
  }

  // What the archive keeps of a member: names are cut to the width of their field.
  function Stored(m: Member): Member {
    m.(name := m.name[..Min(100, |m.name|)])
  }

  function StoredAll(ms: seq<Member>): seq<Member> {
    seq(|ms|, i requires 0 <= i < |ms| => Stored(ms[i]))
  }

  lemma PaddingAligns(n: nat)
    ensures n + PadLength(n) == RoundUp(n)
  {
  }

  lemma ReadEntry(m: Member, tail: Bytes)
    requires Storable(m)
    ensures ReadMembers(Entry(m) + tail) == [Stored(m)] + ReadMembers(tail)
  {
    var n := |m.body|;
    var tar := Entry(m) + tail;
    var h := Header(m.name, n);
    assert tar[..BLOCK] == h;
    HeaderNotZero(m.name, n);
    HeaderFields(m.name, n);
    assert tar[..100] == h[..100] && tar[124..136] == h[124..136];
    NameFieldCuts(m.name);
    SizeFieldExact(n);
    PaddingAligns(n);
    EntryRest(h, m.body, NulBytes(PadLength(n)), tail);
  }

  lemma EntryRest(h: Bytes, body: Bytes, pad: Bytes, tail: Bytes)
    ensures var rest := (h + body + pad + tail)[|h|..];
      rest == body + pad + tail && rest[..|body|] == body && rest[|body| + |pad|..] == tail
  {
    assert h + body + pad + tail == h + (body + pad + tail);
  }

  // Reading an archive gives back its members, in order, with their names cut to 100 bytes.
  lemma {:induction false} PackRoundTrip(ms: seq<Member>)
    requires forall m :: m in ms ==> Storable(m)
    ensures ReadMembers(Pack(ms)) == StoredAll(ms)
  {
    if ms == [] {
      assert AllZero(Pack(ms)[..BLOCK]);
    } else {
      PackRoundTrip(ms[1..]);
      PackCons(ms);
      ReadEntry(ms[0], Pack(ms[1..]));
      StoredAllCons(ms);
    }
  }

  lemma StoredAllCons(ms: seq<Member>)
    requires ms != []
    ensures StoredAll(ms) == [Stored(ms[0])] + StoredAll(ms[1..])
  {
    var a, b := StoredAll(ms), [Stored(ms[0])] + StoredAll(ms[1..]);
    assert |a| == |b| && forall i :: 0 <= i < |a| ==> a[i] == b[i];
  }

  // --- Filling the buffers in place ---

  function Splice(s: Bytes, bs: Bytes, off: nat): Bytes
    requires off + |bs| <= |s|
  {
    s[..off] + bs + s[off + |bs|..]
  }

  lemma SpliceNext(s: Bytes, bs: Bytes, i: nat, off: nat)
    requires i < |bs| && off + i < |s|
    ensures Splice(s, bs[..i], off)[off + i := bs[i]] == Splice(s, bs[..i + 1], off)
  {
  }

  // put(str, off, len): at most len bytes of bs land at off.
  method Put(h: array<byte>, bs: Bytes, off: nat, len: nat)
    requires off + Min(|bs|, len) <= h.Length
    modifies h
    ensures h[..] == Splice(old(h[..]), bs[..Min(|bs|, len)], off)
  {
    var n := Min(|bs|, len);
    var i := 0;
    while i < n
      invariant 0 <= i <= n
      invariant h[..] == Splice(old(h[..]), bs[..i], off)
    {
      SpliceNext(old(h[..]), bs, i, off);
      h[off + i] := bs[i];
      i := i + 1;
    }
  }

  lemma SpliceAppends(p: Bytes, n: nat, bs: Bytes)
    requires |bs| <= n
    ensures Splice(p + NulBytes(n), bs, |p|) == p + bs + NulBytes(n - |bs|)
  {
  }

  // A put into the zeroed rest of the header extends the part already written by one field.
  lemma PutExtends(h: Bytes, p: Bytes, bs: Bytes, len: nat)
    requires |h| == BLOCK && |p| + len <= BLOCK && h == p + NulBytes(BLOCK - |p|)
    ensures Splice(h, bs[..Min(|bs|, len)], |p|) == p + Field(bs, len) + NulBytes(BLOCK - |p| - len)
  {
    SpliceAppends(p, BLOCK - |p|, bs[..Min(|bs|, len)]);
  }

  method PutField(h: array<byte>, bs: Bytes, off: nat, len: nat, ghost p: Bytes)
    requires h.Length == BLOCK && off == |p| && off + len <= BLOCK && h[..] == p + NulBytes(BLOCK - |p|)
    modifies h
    ensures h[..] == p + Field(bs, len) + NulBytes(BLOCK - |p| - len)
  {
    PutExtends(h[..], p, bs, len);
    Put(h, bs, off, len);
  }

  lemma FieldFits(bs: Bytes)
    ensures Field(bs, |bs|) == bs
  {
  }

  // The fields up to the typeflag, written at their offsets in a zeroed block.
  method WriteFront(h: array<byte>, name: Bytes, size: nat)
    requires h.Length == BLOCK && h[..] == NulBytes(BLOCK)
    modifies h
    ensures h[..] == Front(name, size) + NulBytes(BLOCK - 148)
  {
    ghost var p := [];
    PutField(h, name, 0, 100, p);
    p := p + Field(name, 100);
    FieldFits(Ascii("0000644\0"));
    PutField(h, Ascii("0000644\0"), 100, 8, p);
    p := p + Ascii("0000644\0");
    FieldFits(Ascii("0000000\0"));
    PutField(h, Ascii("0000000\0"), 108, 8, p);
    p := p + Ascii("0000000\0");
    PutField(h, Ascii("0000000\0"), 116, 8, p);
    p := p + Ascii("0000000\0");
    PutField(h, Ascii(Octal(size, 12)), 124, 12, p);
    p := p + SizeField(size);
    PutField(h, Ascii(Octal(0, 12)), 136, 12, p);
    assert p + Field(Ascii(Octal(0, 12)), 12) == Front(name, size);
  }

  method WriteBack(h: array<byte>, ghost p: Bytes)
    requires h.Length == BLOCK && |p| == 156 && h[..] == p + NulBytes(BLOCK - 156)
    modifies h
    ensures h[..] == p + Back()
  {
    ghost var q := p + Ascii("0") + NulBytes(100);
    FieldFits(Ascii("ustar\0"));
    FieldFits(Ascii("00"));
    h[156] := '0' as int;
    assert h[..] == q + NulBytes(BLOCK - 257);
    PutField(h, Ascii("ustar\0"), 257, 6, q);
    q := q + Ascii("ustar\0");
    PutField(h, Ascii("00"), 263, 2, q);
    assert q + Ascii("00") + NulBytes(247) == p + Back();
  }

  method SumBytes(h: array<byte>) returns (sum: nat)
    ensures sum == ByteSum(h[..])
  {
    sum := 0;
    var i := 0;
    while i < h.Length
      invariant 0 <= i <= h.Length && sum == ByteSum(h[..i])
    {
      sum := sum + h[i];
      assert h[..i + 1][..i] == h[..i];
      i := i + 1;
    }
    assert h[..h.Length] == h[..];
  }

  method WriteTarHeader(name: Bytes, size: nat) returns (h: array<byte>)
    ensures fresh(h) && h[..] == Header(name, size)
    ensures UstarHeader(h[..])
  {
    HeaderIsUstar(name, size);
    h := new byte[512](_ => 0);
    assert h[..] == NulBytes(BLOCK);
    WriteFront(h, name, size);
    var i := 148;
    while i < 156
      invariant 148 <= i <= 156
      invariant h[..] == Front(name, size) + Spaces(i - 148) + NulBytes(BLOCK - i)
    {
      h[i] := 0x20;
      i := i + 1;
    }
    WriteBack(h, Front(name, size) + Spaces(8));
    assert h[..] == HeaderWith(name, size, Spaces(8));
    var sum := SumBytes(h);
    assert sum == HeaderSum(name, size);
    SixDigits(sum);
    ReplaceChecksum(Front(name, size), Spaces(8), ChecksumField(sum), Back());
    Put(h, Ascii(Octal(sum, 7)[..6] + "\0 "), 148, 8);
  }

  lemma ReplaceChecksum(front: Bytes, was: Bytes, checksum: Bytes, back: Bytes)
    requires |front| == 148 && |was| == |checksum| == 8
    ensures Splice(front + was + back, checksum[..Min(|checksum|, 8)], 148) == front + checksum + back
  {
  }

  lemma {:induction false} FlattenPrefix(chunks: seq<Bytes>, i: nat)
    requires i <= |chunks|
    ensures |Flatten(chunks[..i])| <= |Flatten(chunks)|
    decreases |chunks|
  {
    if i < |chunks| {
      FlattenPrefix(chunks[..|chunks| - 1], i);
      assert chunks[..|chunks| - 1][..i] == chunks[..i];
    } else {
      assert chunks[..i] == chunks;
    }
  }

  method ConcatChunks(chunks: seq<Bytes>) returns (out: array<byte>)
    ensures fresh(out) && out[..] == Flatten(chunks)
  {
    var total := 0;
    for i := 0 to |chunks|
      invariant total == |Flatten(chunks[..i])|
    {
      assert chunks[..i + 1][..i] == chunks[..i];
      total := total + |chunks[i]|;
    }
    assert chunks[..|chunks|] == chunks;
    out := new byte[total](_ => 0);
    var o := 0;
    for i := 0 to |chunks|
      invariant o == |Flatten(chunks[..i])| <= out.Length
      invariant out[..o] == Flatten(chunks[..i])
    {
      assert chunks[..i + 1][..i] == chunks[..i];
      FlattenPrefix(chunks, i + 1);
      ghost var before := out[..];
      Put(out, chunks[i], o, |chunks[i]|);
      assert out[..o] == before[..o];
      assert out[o..o + |chunks[i]|] == chunks[i];
      assert out[..o + |chunks[i]|] == out[..o] + out[o..o + |chunks[i]|];
      o := o + |chunks[i]|;
    }
    assert out[..o] == out[..];
  }

  lemma FlattenTwo(chunks: seq<Bytes>, a: Bytes, b: Bytes)
    ensures Flatten(chunks + [a] + [b]) == Flatten(chunks) + a + b
  {
    FlattenSnoc(chunks, a);
    FlattenSnoc(chunks + [a], b);
  }

  // Header, body, and padding when there is any.
  method PushChunks(chunks: seq<Bytes>, header: Bytes, body: Bytes) returns (more: seq<Bytes>)
    ensures Flatten(more) == Flatten(chunks) + (header + body + NulBytes(PadLength(|body|)))
  {
    FlattenTwo(chunks, header, body);
    more := chunks + [header] + [body];
    var pad := (512 - |body| % 512) % 512;
    Regroup(Flatten(chunks), header, body, NulBytes(pad));
    if pad != 0 {
      FlattenSnoc(more, NulBytes(pad));
      more := more + [NulBytes(pad)];
    }
  }

  lemma Regroup(a: Bytes, b: Bytes, c: Bytes, d: Bytes)
    ensures a + (b + c + d) == a + b + c + d
    ensures d == [] ==> a + (b + c + d) == a + b + c
  {
  }

  method AppendMember(chunks: seq<Bytes>, m: Member) returns (more: seq<Bytes>)
    ensures Flatten(more) == Flatten(chunks) + Entry(m)
  {
    var header := WriteTarHeader(m.name, |m.body|);
    more := PushChunks(chunks, header[..], m.body);
  }

  lemma EntryListSnoc(ms: seq<Member>, i: nat)
    requires i < |ms|
    ensures Flatten(EntryList(ms[..i + 1])) == Flatten(EntryList(ms[..i])) + Entry(ms[i])
  {
    EntryListNext(ms, i);
    FlattenSnoc(EntryList(ms[..i]), Entry(ms[i]));
  }

  lemma EntryListNext(ms: seq<Member>, i: nat)
    requires i < |ms|
    ensures EntryList(ms[..i + 1]) == EntryList(ms[..i]) + [Entry(ms[i])]
  {
    var a, b := EntryList(ms[..i + 1]), EntryList(ms[..i]) + [Entry(ms[i])];
    assert |a| == |b| && forall k :: 0 <= k < |a| ==> a[k] == b[k];
  }

  method PackTar(ms: seq<Member>) returns (tar: array<byte>)
    ensures fresh(tar) && tar[..] == Pack(ms)
  {
    var chunks: seq<Bytes> := [];
    for i := 0 to |ms|
      invariant Flatten(chunks) == Flatten(EntryList(ms[..i]))
    {
      chunks := AppendMember(chunks, ms[i]);
      EntryListSnoc(ms, i);
    }
    assert ms[..|ms|] == ms;
    FlattenSnoc(chunks, NulBytes(1024));
    tar := ConcatChunks(chunks + [NulBytes(1024)]);
  }

  // The string of a field: up to the first NUL or the field's end.
  method ReadStr(buf: array<byte>, off: nat, len: nat) returns (s: Bytes)
    requires off + len <= buf.Length
    ensures s == TakeToNul(buf[off..off + len])
  {
    var end := off;
    var limit := off + len;
    while end < limit && buf[end] != 0
      invariant off <= end <= limit
      invariant buf[off..end] + TakeToNul(buf[end..limit]) == TakeToNul(buf[off..limit])
    {
      assert buf[end..limit][1..] == buf[end + 1..limit];
      assert buf[off..end + 1] == buf[off..end] + [buf[end]];
      end := end + 1;
    }
    s := buf[off..end];
    assert TakeToNul(buf[end..limit]) == [];
  }
}
