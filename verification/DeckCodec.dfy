// The whole way of a deck collection: to `.dck` files, to a tar archive, and back.
module DeckCodec {
  import opened Sorting
  import opened Sums
  import opened Tar
  import opened Dck
  import opened Bounds
  import opened Texts

  type Collection = map<string, Deck>
  type Files = map<string, string>

  // The order in which a JavaScript object lists its own keys.
  ghost predicate Lists(order: seq<string>, keys: set<string>) {
    NoDup(order) && forall k :: k in order <==> k in keys
  }

  // object[key] = value: assigning to "__proto__" creates no own property.
  function Assign<V>(m: map<string, V>, key: string, value: V): map<string, V> {
    if key == "__proto__" then m else m[key := value]
  }

  // --- File names ---

  predicate KeptInFilename(c: char) {
    'A' <= c <= 'Z' || 'a' <= c <= 'z' || '0' <= c <= '9' || c == ' ' || c == '_' || c == '.' || c == '-'
  }

  // The replacement works on UTF-16 units, of which a supplementary character has two.
  function SanitizeChar(c: char): (s: string)
    ensures AsciiText(s) && |s| >= 1
  {
    if KeptInFilename(c) then [c] else if c as int > 0xFFFF then "__" else "_"
  }

  function Sanitize(name: string): (s: string)
    ensures AsciiText(s) && forall c :: c in s ==> KeptInFilename(c)
  {
    if name == "" then "" else SanitizeChar(name[0]) + Sanitize(name[1..])
  }

  function FileName(name: string): (f: string)
    ensures AsciiText(f) && f != "" && forall c :: c in f ==> KeptInFilename(c)
  {
    Sanitize(name) + ".dck"
  }

  // --- Collections and files ---

  function ToFiles(c: Collection, order: seq<string>): Files
    requires forall n :: n in order ==> n in c
  {
    if order == [] then map[]
    else
      var n := order[|order| - 1];
      ToFiles(c, order[..|order| - 1])[FileName(n) := DckText(n, c[n])]
  }

  lemma ToFilesNext(c: Collection, order: seq<string>, i: nat)
    requires i < |order| && forall n :: n in order ==> n in c
    ensures ToFiles(c, order[..i + 1]) == ToFiles(c, order[..i])[FileName(order[i]) := DckText(order[i], c[order[i]])]
  {
    assert order[..i + 1][..i] == order[..i];
  }

  method CollectionToFiles(c: Collection, order: seq<string>) returns (files: Files)
    requires Lists(order, c.Keys)
    ensures files == ToFiles(c, order)
  {
    files := map[];
    for i := 0 to |order|
      invariant files == ToFiles(c, order[..i])
    {
      ToFilesNext(c, order, i);
      var text := DeckToDck(order[i], c[order[i]]);
      files := files[FileName(order[i]) := text];
    }
    assert order[..|order|] == order;
  }

  function AddFile(c: Collection, text: string): Collection {
    var (name, deck) := ParseDck(text);
    if name != "" then Assign(c, name, deck) else c
  }

  function FromFiles(files: Files, order: seq<string>): Collection
    requires forall f :: f in order ==> f in files
  {
    if order == [] then map[]
    else AddFile(FromFiles(files, order[..|order| - 1]), files[order[|order| - 1]])
  }

  method FilesToCollection(files: Files, order: seq<string>) returns (c: Collection)
    requires Lists(order, files.Keys)
    ensures c == FromFiles(files, order)
  {
    c := map[];
    for i := 0 to |order|
      invariant c == FromFiles(files, order[..i])
    {
      assert order[..i + 1][..i] == order[..i];
      var name, deck := DckToDeck(files[order[i]]);
      if name != "" {
        c := Assign(c, name, deck);
      }
    }
    assert order[..|order|] == order;
  }

  // --- Archives; text encoding and compression are a pair of inverse functions each ---

  // TextDecoder drops a leading byte-order mark.
  ghost predicate TextCodec(enc: string -> Bytes, dec: Bytes -> string) {
    && (forall s {:trigger enc(s)} :: s == "" || s[0] != '\U{FEFF}' ==> dec(enc(s)) == s)
    && (forall s {:trigger enc(s)} :: AsciiText(s) ==> enc(s) == Ascii(s))
  }

  ghost predicate Inverse(zip: Bytes -> Bytes, unzip: Bytes -> Bytes) {
    forall b {:trigger zip(b)} :: unzip(zip(b)) == b
  }

  // Lexicographic order of strings.
  predicate StringLe(a: string, b: string) {
    a == "" || (b != "" && (a[0] < b[0] || (a[0] == b[0] && StringLe(a[1..], b[1..]))))
  }

  function Members(files: Files, names: seq<string>, enc: string -> Bytes): seq<Member>
    requires forall f :: f in names ==> f in files
  {
    seq(|names|, i requires 0 <= i < |names| => Member(enc(names[i]), enc(files[names[i]])))
  }

  function SortedNames(order: seq<string>): (names: seq<string>)
    ensures forall f :: f in names <==> f in order
  {
    SameMembers(order, StringLe);
    Sort(order, StringLe)
  }

  function Archive(files: Files, order: seq<string>, enc: string -> Bytes): Bytes
    requires forall f :: f in order ==> f in files
  {
    Pack(Members(files, SortedNames(order), enc))
  }

  method PackTgz(files: Files, order: seq<string>, enc: string -> Bytes, zip: Bytes -> Bytes) returns (tgz: Bytes)
    requires Lists(order, files.Keys)
    ensures tgz == zip(Archive(files, order, enc))
  {
    var tar := PackTar(Members(files, SortedNames(order), enc));
    tgz := zip(tar[..]);
  }

  function AddMember(files: Files, m: Member, dec: Bytes -> string): Files {
    if dec(m.name) != "" then Assign(files, dec(m.name), dec(m.body)) else files
  }

  function AddMembers(files: Files, ms: seq<Member>, dec: Bytes -> string): Files
    decreases |ms|
  {
    if ms == [] then files else AddMembers(AddMember(files, ms[0], dec), ms[1..], dec)
  }

  function UnpackFiles(tar: Bytes, dec: Bytes -> string): Files {
    AddMembers(map[], ReadMembers(tar), dec)
  }

  // The name and size fields of the header at off.
  method ReadHeader(tar: array<byte>, off: nat) returns (name: Bytes, size: Size)
    requires off + 512 <= tar.Length
    ensures name == TakeToNul(tar[off..][..100])
    ensures size == ParseSize(TakeToNul(tar[off..][124..136]))
  {
    assert tar[off..][..100] == tar[off..off + 100];
    assert tar[off..][124..136] == tar[off + 124..off + 136];
    name := ReadStr(tar, off, 100);
    var field := ReadStr(tar, off + 124, 12);
    size := ParseSize(field);
  }

  lemma NothingLeft(here: Bytes)
    requires |here| < BLOCK || AllZero(here[..BLOCK])
    ensures ReadMembers(here) == []
  {
  }

  method ReadTar(tar: array<byte>, dec: Bytes -> string) returns (files: Files)
    ensures files == UnpackFiles(tar[..], dec)
  {
    files := map[];
    var off := 0;
    ghost var left := tar[..];
    while off + 512 <= tar.Length
      invariant left == tar[Min(off, tar.Length)..]
      invariant AddMembers(files, ReadMembers(left), dec) == UnpackFiles(tar[..], dec)
      decreases tar.Length - off
    {
      var found, m, next, last := ReadOne(tar, off);
      if !found {
        break;
      }
      if last {
        AddOne(files, m, [], dec);
        files := AddMember(files, m, dec);
        return;
      }
      ghost var rest := tar[Min(next, tar.Length)..];
      AddOne(files, m, ReadMembers(rest), dec);
      files := AddMember(files, m, dec);
      off, left := next, rest;
    }
    assert ReadMembers(left) == [] by {
      if |left| < BLOCK {
        NothingLeft(left);
      }
    }
  }

  // The member at off, if the block there is not all zero; where the next header is; and whether
  // reading ends here, as a size that is no number makes the offset no number.
  method ReadOne(tar: array<byte>, off: nat) returns (found: bool, m: Member, next: nat, last: bool)
    requires off + 512 <= tar.Length
    ensures found && !last ==> next > off
    ensures ReadMembers(tar[off..]) ==
      if !found then [] else [m] + if last then [] else ReadMembers(tar[Min(next, tar.Length)..])
  {
    ghost var here := tar[off..];
    assert here[..BLOCK] == tar[off..off + 512];
    if AllZero(tar[off..off + 512]) {
      NothingLeft(here);
      return false, Member([], []), off, true;
    }
    found := true;
    var name, size := ReadHeader(tar, off);
    var start := off + 512;
    assert here[BLOCK..] == tar[start..];
    if size.NotANumber? {
      return true, Member(name, []), start, true;
    }
    m, next, last := Member(name, tar[start..Min(start + size.n, tar.Length)]), start + RoundUp(size.n), false;
    StepMember(here, name, size.n, m.body, tar[Min(next, tar.Length)..]);
  }

  lemma AddOne(files: Files, m: Member, ms: seq<Member>, dec: Bytes -> string)
    ensures AddMembers(files, [m] + ms, dec) == AddMembers(AddMember(files, m, dec), ms, dec)
  {
    assert ([m] + ms)[1..] == ms;
  }

  lemma StepMember(here: Bytes, name: Bytes, n: nat, body: Bytes, next: Bytes)
    requires |here| >= BLOCK && !AllZero(here[..BLOCK])
    requires name == TakeToNul(here[..100]) && ParseSize(TakeToNul(here[124..136])) == Size(n)
    requires var rest := here[BLOCK..]; body == rest[..Min(n, |rest|)] && next == rest[Min(RoundUp(n), |rest|)..]
    ensures ReadMembers(here) == [Member(name, body)] + ReadMembers(next)
  {
  }

  method UnpackTgz(tgz: Bytes, dec: Bytes -> string, unzip: Bytes -> Bytes) returns (files: Files)
    ensures files == UnpackFiles(unzip(tgz), dec)
  {
    var bytes := unzip(tgz);
    var tar := new byte[|bytes|](i requires 0 <= i < |bytes| => bytes[i]);
    assert tar[..] == bytes;
    files := ReadTar(tar, dec);
  }

  // --- What survives ---

  predicate GoodEntry(name: string, deck: Deck) {
    name != "" && name != "__proto__" && GoodName(name) && GoodDeck(deck)
  }

  ghost predicate AllGood(c: Collection) {
    forall n :: n in c ==> GoodEntry(n, c[n])
  }

  ghost predicate InjectiveOn(key: string -> string, names: set<string>) {
    forall m, n :: m in names && n in names && key(m) == key(n) ==> m == n
  }

  ghost function Image(key: string -> string, names: set<string>): set<string> {
    set n | n in names :: key(n)
  }

  lemma {:induction false} ImageSize(key: string -> string, names: set<string>)
    ensures |Image(key, names)| <= |names|
    decreases names
  {
    if names != {} {
      var n :| n in names;
      ImageSize(key, names - {n});
      assert Image(key, names) == Image(key, names - {n}) + {key(n)};
    }
  }

  lemma CollisionShrinks(key: string -> string, names: set<string>, m: string, n: string)
    requires m in names && n in names && m != n && key(m) == key(n)
    ensures |Image(key, names)| < |names|
  {
    ImageSize(key, names - {n});
    assert m in names - {n};
    assert Image(key, names) == Image(key, names - {n});
  }

  // A key that keeps all names apart is injective on them.
  lemma FullImageIsInjective(key: string -> string, names: set<string>)
    requires |Image(key, names)| >= |names|
    ensures InjectiveOn(key, names)
  {
    forall m, n | m in names && n in names && key(m) == key(n) ensures m == n {
      if m != n {
        CollisionShrinks(key, names, m, n);
      }
    }
  }

  // Whatever comes out of files is good, and no larger than the files.
  lemma {:induction false} FromFilesGood(files: Files, order: seq<string>)
    requires forall f :: f in order ==> f in files
    ensures AllGood(FromFiles(files, order)) && |FromFiles(files, order)| <= |order|
    decreases |order|
  {
    if order != [] {
      var k := |order| - 1;
      FromFilesGood(files, order[..k]);
      ParseIsGood(files[order[k]]);
      var c, c' := FromFiles(files, order[..k]), FromFiles(files, order);
      var name := ParseDck(files[order[k]]).0;
      assert c'.Keys <= c.Keys + {name};
      SubsetSize(c'.Keys, c.Keys + {name});
    }
  }

  lemma {:induction false} ListLength(order: seq<string>, keys: set<string>)
    requires Lists(order, keys)
    ensures |order| == |keys|
    decreases |order|
  {
    if order == [] {
      assert keys == {};
    } else {
      var k := |order| - 1;
      assert Lists(order[..k], keys - {order[k]}) by {
        forall x ensures x in order[..k] <==> x in keys - {order[k]} {
          assert x in order <==> x in order[..k] || x == order[k];
        }
      }
      ListLength(order[..k], keys - {order[k]});
    }
  }

  // Of the listed files whose text bears a name, the last one decides.
  lemma {:induction false} LastFileDecides(files: Files, order: seq<string>, i: nat)
    requires i < |order| && (forall f :: f in order ==> f in files)
    requires var name := ParseDck(files[order[i]]).0;
      && name != "" && name != "__proto__"
      && forall k :: i < k < |order| ==> ParseDck(files[order[k]]).0 != name
    ensures var (name, deck) := ParseDck(files[order[i]]);
      name in FromFiles(files, order) && FromFiles(files, order)[name] == deck
    decreases |order|
  {
    var k := |order| - 1;
    if i < k {
      LastFileDecides(files, order[..k], i);
    }
  }

  // And nothing is there but what some file bears.
  lemma {:induction false} OnlyFromFiles(files: Files, order: seq<string>, name: string)
    requires (forall f :: f in order ==> f in files) && name in FromFiles(files, order)
    ensures exists i :: 0 <= i < |order| && ParseDck(files[order[i]]).0 == name
    decreases |order|
  {
    var k := |order| - 1;
    if ParseDck(files[order[k]]).0 != name {
      OnlyFromFiles(files, order[..k], name);
      var i :| 0 <= i < k && ParseDck(files[order[..k][i]]).0 == name;
      assert order[..k][i] == order[i];
    }
  }

  // Likewise of the members of an archive.
  lemma {:induction false} LastMemberDecides(files: Files, ms: seq<Member>, dec: Bytes -> string, i: nat)
    requires i < |ms| && dec(ms[i].name) != "" && dec(ms[i].name) != "__proto__"
    requires forall k :: i < k < |ms| ==> dec(ms[k].name) != dec(ms[i].name)
    ensures var f := dec(ms[i].name);
      f in AddMembers(files, ms, dec) && AddMembers(files, ms, dec)[f] == dec(ms[i].body)
    decreases |ms|
  {
    if i > 0 {
      LastMemberDecides(AddMember(files, ms[0], dec), ms[1..], dec, i - 1);
    } else {
      OthersLeave(AddMember(files, ms[0], dec), ms[1..], dec, dec(ms[0].name));
    }
  }

  lemma {:induction false} OthersLeave(files: Files, ms: seq<Member>, dec: Bytes -> string, f: string)
    requires f in files && forall k :: 0 <= k < |ms| ==> dec(ms[k].name) != f
    ensures f in AddMembers(files, ms, dec) && AddMembers(files, ms, dec)[f] == files[f]
    decreases |ms|
  {
    if ms != [] {
      OthersLeave(AddMember(files, ms[0], dec), ms[1..], dec, f);
    }
  }

  // A member without a name, or with the prototype's, leaves no file.
  lemma {:induction false} FilesNamed(files: Files, ms: seq<Member>, dec: Bytes -> string)
    requires "" !in files && "__proto__" !in files
    ensures "" !in AddMembers(files, ms, dec) && "__proto__" !in AddMembers(files, ms, dec)
    decreases |ms|
  {
    if ms != [] {
      FilesNamed(AddMember(files, ms[0], dec), ms[1..], dec);
    }
  }

  lemma {:induction false} OnlyFromMembers(files: Files, ms: seq<Member>, dec: Bytes -> string, f: string)
    requires f in AddMembers(files, ms, dec) && f !in files
    ensures exists i :: 0 <= i < |ms| && dec(ms[i].name) == f
    decreases |ms|
  {
    if ms != [] && dec(ms[0].name) != f {
      OnlyFromMembers(AddMember(files, ms[0], dec), ms[1..], dec, f);
      var i :| 0 <= i < |ms[1..]| && dec(ms[1..][i].name) == f;
      assert ms[i + 1] == ms[1..][i];
    }
  }

  // The files hold the deck of each name under its key.
  ghost predicate Holds(files: Files, c: Collection, key: string -> string) {
    && files.Keys == Image(key, c.Keys)
    && forall n :: n in c ==> files[key(n)] == DckText(n, c[n])
  }

  ghost function Under(c: Collection, key: string -> string, order: seq<string>): Collection {
    map n | n in c && key(n) in order :: c[n]
  }

  lemma UnderGrows(c: Collection, key: string -> string, order: seq<string>, m: string)
    requires m in c && InjectiveOn(key, c.Keys)
    ensures Under(c, key, order)[m := c[m]] == Under(c, key, order + [key(m)])
  {
    forall n | n in c ensures key(n) in order + [key(m)] <==> key(n) in order || n == m {
    }
  }

  lemma AddGoodFile(c: Collection, name: string, deck: Deck)
    requires GoodEntry(name, deck)
    ensures AddFile(c, DckText(name, deck)) == c[name := deck]
  {
    GoodDeckParses(name, deck);
  }

  lemma LastSplits(order: seq<string>)
    requires order != []
    ensures order == order[..|order| - 1] + [order[|order| - 1]]
  {
  }

  lemma {:induction false} GoodFilesParse(files: Files, order: seq<string>, c: Collection, key: string -> string)
    requires AllGood(c) && Holds(files, c, key) && InjectiveOn(key, c.Keys)
    requires forall f :: f in order ==> f in files
    ensures FromFiles(files, order) == Under(c, key, order)
    decreases |order|
  {
    if order != [] {
      var k := |order| - 1;
      var f := order[k];
      GoodFilesParse(files, order[..k], c, key);
      assert f in Image(key, c.Keys);
      var m :| m in c && key(m) == f;
      AddGoodFile(Under(c, key, order[..k]), m, c[m]);
      UnderGrows(c, key, order[..k], m);
      LastSplits(order);
    }
  }

  lemma UnderAll(c: Collection, key: string -> string, order: seq<string>)
    requires forall n :: n in c ==> key(n) in order
    ensures Under(c, key, order) == c
  {
  }

  lemma HoldsRestores(files: Files, order: seq<string>, c: Collection, key: string -> string)
    requires AllGood(c) && Holds(files, c, key) && InjectiveOn(key, c.Keys) && Lists(order, files.Keys)
    ensures FromFiles(files, order) == c
  {
    GoodFilesParse(files, order, c, key);
    forall n | n in c ensures key(n) in order {
      assert key(n) in Image(key, c.Keys);
    }
    UnderAll(c, key, order);
  }

  // If something comes back whole, it was good, and the files' keys kept its names apart.
  lemma RestoredWasGood(files: Files, order: seq<string>, c: Collection, key: string -> string)
    requires Lists(order, files.Keys) && files.Keys <= Image(key, c.Keys)
    requires FromFiles(files, order) == c
    ensures AllGood(c) && InjectiveOn(key, c.Keys)
  {
    FromFilesGood(files, order);
    ListLength(order, files.Keys);
    SubsetSize(files.Keys, Image(key, c.Keys));
    FullImageIsInjective(key, c.Keys);
  }

  lemma {:induction false} ToFilesKeys(c: Collection, order: seq<string>)
    requires forall n :: n in order ==> n in c
    ensures forall f :: f in ToFiles(c, order) <==> exists n :: n in order && FileName(n) == f
    decreases |order|
  {
    if order != [] {
      var k := |order| - 1;
      ToFilesKeys(c, order[..k]);
      forall n ensures n in order <==> n in order[..k] || n == order[k] {
      }
    }
  }

  lemma {:induction false} ToFilesText(c: Collection, order: seq<string>, n: string)
    requires forall x :: x in order ==> x in c
    requires forall x :: x in order && FileName(x) == FileName(n) ==> x == n
    requires n in order
    ensures FileName(n) in ToFiles(c, order) && ToFiles(c, order)[FileName(n)] == DckText(n, c[n])
    decreases |order|
  {
    var k := |order| - 1;
    if order[k] != n {
      ToFilesText(c, order[..k], n);
    }
  }

  lemma ToFilesImage(c: Collection, order: seq<string>)
    requires Lists(order, c.Keys)
    ensures ToFiles(c, order).Keys == Image(FileName, c.Keys)
  {
    ToFilesKeys(c, order);
  }

  lemma ToFilesHolds(c: Collection, order: seq<string>)
    requires Lists(order, c.Keys) && InjectiveOn(FileName, c.Keys)
    ensures Holds(ToFiles(c, order), c, FileName)
  {
    ToFilesImage(c, order);
    forall n | n in c ensures ToFiles(c, order)[FileName(n)] == DckText(n, c[n]) {
      ToFilesText(c, order, n);
    }
  }

  // A collection survives the trip to files and back exactly when every name and card is good
  // and no two names sanitize to the same file name, whatever order the objects list their keys in.
  lemma CollectionRoundTripExact(c: Collection, order: seq<string>, fileOrder: seq<string>)
    requires Lists(order, c.Keys) && Lists(fileOrder, ToFiles(c, order).Keys)
    ensures FromFiles(ToFiles(c, order), fileOrder) == c <==> AllGood(c) && InjectiveOn(FileName, c.Keys)
  {
    var files := ToFiles(c, order);
    ToFilesImage(c, order);
    if FromFiles(files, fileOrder) == c {
      RestoredWasGood(files, fileOrder, c, FileName);
    } else if AllGood(c) && InjectiveOn(FileName, c.Keys) {
      ToFilesHolds(c, order);
      HoldsRestores(files, fileOrder, c, FileName);
    }
  }

  // --- Through the archive ---

  // The archive keeps the first hundred bytes of a file name.
  function Cut(f: string): string {
    f[..Min(100, |f|)]
  }

  function StoredName(name: string): string {
    Cut(FileName(name))
  }

  lemma FileNameDecodes(n: string, enc: string -> Bytes, dec: Bytes -> string)
    requires TextCodec(enc, dec)
    ensures var f := enc(FileName(n)); 0 !in f && dec(f[..Min(100, |f|)]) == StoredName(n)
    ensures StoredName(n) != "" && StoredName(n) != "__proto__"
  {
    var f := FileName(n);
    assert enc(f) == Ascii(f);
    forall i | 0 <= i < |f| ensures Ascii(f)[i] != 0 {
      assert f[i] in f;
    }
    assert AsciiText(Cut(f)) && enc(Cut(f)) == Ascii(Cut(f)) == Ascii(f)[..Min(100, |f|)];
    assert f[|f| - 1] == 'k' && "__proto__"[8] == '_';
    assert IsAsciiFirst(Cut(f));
  }

  predicate IsAsciiFirst(s: string) {
    s != "" && s[0] as int < 128
  }

  // The archive can hold every deck's text.
  ghost predicate Fits(c: Collection, enc: string -> Bytes) {
    forall n :: n in c ==> |enc(DckText(n, c[n]))| < 0x10_0000_0000
  }

  lemma DckTextDecodes(n: string, deck: Deck, enc: string -> Bytes, dec: Bytes -> string)
    requires TextCodec(enc, dec)
    ensures dec(enc(DckText(n, deck))) == DckText(n, deck)
  {
    JoinStarts(DeckLines(n, deck));
    assert DeckLines(n, deck)[0][0] == '[';
  }

  lemma {:induction false} JoinStarts(lines: seq<string>)
    requires lines != [] && lines[0] != ""
    ensures JoinLines(lines) != "" && JoinLines(lines)[0] == lines[0][0]
    decreases |lines|
  {
    if |lines| > 1 {
      JoinStarts(lines[..|lines| - 1]);
    }
  }

  lemma {:induction false} AddMembersSnoc(files: Files, ms: seq<Member>, m: Member, dec: Bytes -> string)
    ensures AddMembers(files, ms + [m], dec) == AddMember(AddMembers(files, ms, dec), m, dec)
    decreases |ms|
  {
    if ms == [] {
      AddOne(files, m, [], dec);
      assert ms + [m] == [m] + [];
    } else {
      AddMembersSnoc(AddMember(files, ms[0], dec), ms[1..], m, dec);
      assert (ms + [m])[1..] == ms[1..] + [m];
    }
  }

  // What the reader makes of the members written for these files.
  function Reread(files: Files, names: seq<string>): Files
    requires forall f :: f in names ==> f in files
  {
    if names == [] then map[]
    else Reread(files, names[..|names| - 1])[Cut(names[|names| - 1]) := files[names[|names| - 1]]]
  }

  ghost predicate FromCollection(files: Files, c: Collection) {
    forall f :: f in files ==> exists n :: n in c && f == FileName(n) && files[f] == DckText(n, c[n])
  }

  lemma AddStored(files: Files, n: string, deck: Deck, enc: string -> Bytes, dec: Bytes -> string)
    requires TextCodec(enc, dec)
    ensures AddMember(files, Stored(Member(enc(FileName(n)), enc(DckText(n, deck)))), dec)
         == files[StoredName(n) := DckText(n, deck)]
  {
    FileNameDecodes(n, enc, dec);
    DckTextDecodes(n, deck, enc, dec);
  }

  lemma StoredSnoc(files: Files, names: seq<string>, enc: string -> Bytes)
    requires names != [] && forall f :: f in names ==> f in files
    ensures StoredAll(Members(files, names, enc))
         == StoredAll(Members(files, names[..|names| - 1], enc))
            + [Stored(Member(enc(names[|names| - 1]), enc(files[names[|names| - 1]])))]
  {
  }

  lemma {:induction false} MembersReread(files: Files, names: seq<string>, c: Collection,
                                         enc: string -> Bytes, dec: Bytes -> string)
    requires TextCodec(enc, dec) && FromCollection(files, c) && forall f :: f in names ==> f in files
    ensures AddMembers(map[], StoredAll(Members(files, names, enc)), dec) == Reread(files, names)
    decreases |names|
  {
    if names != [] {
      var k := |names| - 1;
      var f := names[k];
      MembersReread(files, names[..k], c, enc, dec);
      StoredSnoc(files, names, enc);
      AddMembersSnoc(map[], StoredAll(Members(files, names[..k], enc)), Stored(Member(enc(f), enc(files[f]))), dec);
      var n :| n in c && f == FileName(n) && files[f] == DckText(n, c[n]);
      AddStored(Reread(files, names[..k]), n, c[n], enc, dec);
    }
  }

  lemma {:induction false} ToFilesFromCollection(c: Collection, order: seq<string>)
    requires forall n :: n in order ==> n in c
    ensures FromCollection(ToFiles(c, order), c)
    decreases |order|
  {
    if order != [] {
      var k := |order| - 1;
      ToFilesFromCollection(c, order[..k]);
      var files, files' := ToFiles(c, order[..k]), ToFiles(c, order);
      forall f | f in files' ensures exists n :: n in c && f == FileName(n) && files'[f] == DckText(n, c[n]) {
        if f == FileName(order[k]) {
          assert order[k] in c;
        } else {
          assert f in files;
        }
      }
    }
  }

  lemma DeckStorable(n: string, deck: Deck, enc: string -> Bytes, dec: Bytes -> string)
    requires TextCodec(enc, dec) && |enc(DckText(n, deck))| < 0x10_0000_0000
    ensures Storable(Member(enc(FileName(n)), enc(DckText(n, deck))))
  {
    FileNameDecodes(n, enc, dec);
  }

  lemma MembersStorable(files: Files, names: seq<string>, c: Collection, enc: string -> Bytes, dec: Bytes -> string)
    requires TextCodec(enc, dec) && FromCollection(files, c) && Fits(c, enc) && forall f :: f in names ==> f in files
    ensures forall m :: m in Members(files, names, enc) ==> Storable(m)
  {
    forall i | 0 <= i < |names| ensures Storable(Members(files, names, enc)[i]) {
      assert names[i] in files;
      var n :| n in c && names[i] == FileName(n) && files[names[i]] == DckText(n, c[n]);
      DeckStorable(n, c[n], enc, dec);
    }
  }

  // Unpacking an archive of a collection's files gives its texts under their stored names.
  lemma ArchiveReread(c: Collection, order: seq<string>, fileOrder: seq<string>, enc: string -> Bytes, dec: Bytes -> string)
    requires TextCodec(enc, dec) && Fits(c, enc)
    requires Lists(order, c.Keys) && Lists(fileOrder, ToFiles(c, order).Keys)
    ensures UnpackFiles(Archive(ToFiles(c, order), fileOrder, enc), dec)
         == Reread(ToFiles(c, order), SortedNames(fileOrder))
  {
    var files, names := ToFiles(c, order), SortedNames(fileOrder);
    ToFilesFromCollection(c, order);
    MembersStorable(files, names, c, enc, dec);
    PackRoundTrip(Members(files, names, enc));
    MembersReread(files, names, c, enc, dec);
  }

  lemma {:induction false} RereadKeys(files: Files, names: seq<string>)
    requires forall f :: f in names ==> f in files
    ensures forall k :: k in Reread(files, names) <==> exists f :: f in names && Cut(f) == k
    decreases |names|
  {
    if names != [] {
      var k := |names| - 1;
      RereadKeys(files, names[..k]);
      forall f ensures f in names <==> f in names[..k] || f == names[k] {
      }
    }
  }

  lemma {:induction false} RereadText(files: Files, names: seq<string>, f: string)
    requires forall x :: x in names ==> x in files
    requires forall x :: x in names && Cut(x) == Cut(f) ==> x == f
    requires f in names
    ensures Cut(f) in Reread(files, names) && Reread(files, names)[Cut(f)] == files[f]
    decreases |names|
  {
    var k := |names| - 1;
    if names[k] != f {
      RereadText(files, names[..k], f);
    }
  }

  lemma RereadImage(c: Collection, order: seq<string>, names: seq<string>)
    requires Lists(order, c.Keys) && forall f :: f in names <==> f in ToFiles(c, order)
    ensures Reread(ToFiles(c, order), names).Keys == Image(StoredName, c.Keys)
  {
    var files := ToFiles(c, order);
    ToFilesImage(c, order);
    RereadKeys(files, names);
    forall k | k in Image(StoredName, c.Keys) ensures k in Reread(files, names) {
      var n :| n in c && StoredName(n) == k;
      assert FileName(n) in Image(FileName, c.Keys) && Cut(FileName(n)) == k;
    }
    forall k | k in Reread(files, names) ensures k in Image(StoredName, c.Keys) {
      var f :| f in names && Cut(f) == k;
      assert f in Image(FileName, c.Keys);
      var n :| n in c && FileName(n) == f;
      assert StoredName(n) == k;
    }
  }

  lemma RereadOne(c: Collection, order: seq<string>, names: seq<string>, n: string)
    requires Lists(order, c.Keys) && InjectiveOn(StoredName, c.Keys) && n in c
    requires forall f :: f in names <==> f in ToFiles(c, order)
    ensures StoredName(n) in Reread(ToFiles(c, order), names)
    ensures Reread(ToFiles(c, order), names)[StoredName(n)] == DckText(n, c[n])
  {
    ToFilesImage(c, order);
    forall x | x in names && Cut(x) == StoredName(n) ensures x == FileName(n) {
      assert x in Image(FileName, c.Keys);
      var m :| m in c && FileName(m) == x;
      assert StoredName(m) == StoredName(n);
    }
    assert FileName(n) in Image(FileName, c.Keys);
    RereadText(ToFiles(c, order), names, FileName(n));
    forall x | x in order && FileName(x) == FileName(n) ensures x == n {
      assert StoredName(x) == StoredName(n);
    }
    ToFilesText(c, order, n);
  }

  lemma RereadHolds(c: Collection, order: seq<string>, names: seq<string>)
    requires Lists(order, c.Keys) && InjectiveOn(StoredName, c.Keys)
    requires forall f :: f in names <==> f in ToFiles(c, order)
    ensures Holds(Reread(ToFiles(c, order), names), c, StoredName)
  {
    RereadImage(c, order, names);
    forall n | n in c
      ensures StoredName(n) in Reread(ToFiles(c, order), names)
      ensures Reread(ToFiles(c, order), names)[StoredName(n)] == DckText(n, c[n])
    {
      RereadOne(c, order, names, n);
    }
  }

  // The end-to-end law. A saved collection loads back identical exactly when every name and card
  // is good and the names stay distinct after sanitizing and cutting to a hundred bytes.
  lemma SaveLoadExact(c: Collection, order: seq<string>, fileOrder: seq<string>, loadOrder: seq<string>,
                      enc: string -> Bytes, dec: Bytes -> string, zip: Bytes -> Bytes, unzip: Bytes -> Bytes)
    requires TextCodec(enc, dec) && Inverse(zip, unzip) && Fits(c, enc)
    requires Lists(order, c.Keys) && Lists(fileOrder, ToFiles(c, order).Keys)
    requires Lists(loadOrder, UnpackFiles(unzip(zip(Archive(ToFiles(c, order), fileOrder, enc))), dec).Keys)
    ensures FromFiles(UnpackFiles(unzip(zip(Archive(ToFiles(c, order), fileOrder, enc))), dec), loadOrder) == c
       <==> AllGood(c) && InjectiveOn(StoredName, c.Keys)
  {
    var names := SortedNames(fileOrder);
    var loaded := Reread(ToFiles(c, order), names);
    ArchiveReread(c, order, fileOrder, enc, dec);
    RereadImage(c, order, names);
    if FromFiles(loaded, loadOrder) == c {
      RestoredWasGood(loaded, loadOrder, c, StoredName);
    } else if AllGood(c) && InjectiveOn(StoredName, c.Keys) {
      RereadHolds(c, order, names);
      HoldsRestores(loaded, loadOrder, c, StoredName);
    }
  }

  // The four steps in a row. `listing` is the order in which each object lists its keys.
  method SaveAndLoad(c: Collection, listing: set<string> -> seq<string>,
                     enc: string -> Bytes, dec: Bytes -> string, zip: Bytes -> Bytes, unzip: Bytes -> Bytes)
      returns (loaded: Collection)
    requires TextCodec(enc, dec) && Inverse(zip, unzip) && Fits(c, enc)
    requires forall keys {:trigger listing(keys)} :: Lists(listing(keys), keys)
    ensures loaded == c <==> AllGood(c) && InjectiveOn(StoredName, c.Keys)
  {
    var files := CollectionToFiles(c, listing(c.Keys));
    var tgz := PackTgz(files, listing(files.Keys), enc, zip);
    var back := UnpackTgz(tgz, dec, unzip);
    loaded := FilesToCollection(back, listing(back.Keys));
    SaveLoadExact(c, listing(c.Keys), listing(files.Keys), listing(back.Keys), enc, dec, zip, unzip);
  }

  lemma SameStoredName(m: string, n: string)
    requires m == "a/b" && n == "a_b"
    ensures FileName(m) == FileName(n) && StoredName(m) == StoredName(n)
  {
    assert m[1..] == "/b" && n[1..] == "_b" && m[1..][1..] == n[1..][1..] == "b";
    assert SanitizeChar('/') == SanitizeChar('_') == "_";
    assert Sanitize(m[1..]) == "_" + Sanitize("b") == Sanitize(n[1..]);
  }

  // Decks named "a/b" and "a_b" share a stored name: whatever is in them, one is lost.
  lemma SharedNameLoses(c: Collection, order: seq<string>, fileOrder: seq<string>, loadOrder: seq<string>,
                        enc: string -> Bytes, dec: Bytes -> string, zip: Bytes -> Bytes, unzip: Bytes -> Bytes)
    requires TextCodec(enc, dec) && Inverse(zip, unzip) && Fits(c, enc)
    requires Lists(order, c.Keys) && Lists(fileOrder, ToFiles(c, order).Keys)
    requires Lists(loadOrder, UnpackFiles(unzip(zip(Archive(ToFiles(c, order), fileOrder, enc))), dec).Keys)
    requires "a/b" in c && "a_b" in c
    ensures FromFiles(UnpackFiles(unzip(zip(Archive(ToFiles(c, order), fileOrder, enc))), dec), loadOrder) != c
  {
    SaveLoadExact(c, order, fileOrder, loadOrder, enc, dec, zip, unzip);
    SameStoredName("a/b", "a_b");
    assert "a/b"[1] != "a_b"[1];
  }

  // --- Deterministic archives ---

  lemma {:induction false} StringLeReflexive(a: string)
    ensures StringLe(a, a)
  {
    if a != "" {
      StringLeReflexive(a[1..]);
    }
  }

  lemma {:induction false} StringLeTransitive(a: string, b: string, c: string)
    requires StringLe(a, b) && StringLe(b, c)
    ensures StringLe(a, c)
  {
    if a != "" && a[0] == b[0] && b[0] == c[0] {
      StringLeTransitive(a[1..], b[1..], c[1..]);
    }
  }

  lemma {:induction false} StringLeTotal(a: string, b: string)
    ensures StringLe(a, b) || StringLe(b, a)
    ensures StringLe(a, b) && StringLe(b, a) ==> a == b
  {
    if a != "" && b != "" && a[0] == b[0] {
      StringLeTotal(a[1..], b[1..]);
      assert a == [a[0]] + a[1..] && b == [b[0]] + b[1..];
    }
  }

  lemma StringOrder()
    ensures TotalPreorder(StringLe)
  {
    forall x, y ensures StringLe(x, y) || StringLe(y, x) {
      StringLeTotal(x, y);
    }
    forall x, y, z | StringLe(x, y) && StringLe(y, z) ensures StringLe(x, z) {
      StringLeTransitive(x, y, z);
    }
  }

  lemma SameMembersSameLength(s: seq<string>, t: seq<string>)
    requires NoDup(s) && NoDup(t) && forall x :: x in s <==> x in t
    ensures |s| == |t|
  {
    var keys := set x | x in s;
    ListLength(s, keys);
    ListLength(t, keys);
  }

  // Two ascending lists of the same strings are the same list.
  lemma {:induction false} AscendingUnique(s: seq<string>, t: seq<string>)
    requires NoDup(s) && NoDup(t) && Ordered(s, StringLe) && Ordered(t, StringLe)
    requires forall x :: x in s <==> x in t
    ensures s == t
  {
    SameMembersSameLength(s, t);
    if s != [] {
      assert s[0] in t && t[0] in s;
      LeastFirst(s, t[0]);
      LeastFirst(t, s[0]);
      StringLeTotal(s[0], t[0]);
      forall x ensures x in s[1..] <==> x in t[1..] {
        assert x in s <==> x == s[0] || x in s[1..];
        assert x in t <==> x == t[0] || x in t[1..];
      }
      AscendingUnique(s[1..], t[1..]);
      assert s == [s[0]] + s[1..] && t == [t[0]] + t[1..];
    }
  }

  lemma LeastFirst(s: seq<string>, x: string)
    requires Ordered(s, StringLe) && x in s
    ensures StringLe(s[0], x)
  {
    StringLeReflexive(x);
    var i :| 0 <= i < |s| && s[i] == x;
  }

  // The archive depends on the files only, not on the order their object lists them in.
  lemma ArchiveDeterministic(files: Files, o1: seq<string>, o2: seq<string>, enc: string -> Bytes)
    requires Lists(o1, files.Keys) && Lists(o2, files.Keys)
    ensures Archive(files, o1, enc) == Archive(files, o2, enc)
  {
    StringOrder();
    SortOrdered(o1, StringLe);
    SortOrdered(o2, StringLe);
    SortNoDup(o1, StringLe);
    SortNoDup(o2, StringLe);
    AscendingUnique(SortedNames(o1), SortedNames(o2));
  }
}
