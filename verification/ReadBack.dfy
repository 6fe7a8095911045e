// What a reader gets from a collection that was saved: the codec's answer to the protocol.
module ReadBack {
  import opened Tar
  import opened Dck
  import opened DeckCodec
  import opened Sums
  import opened Texts

  // The text encoding and the compression in use.
  datatype Codec = Codec(enc: string -> Bytes, dec: Bytes -> string, zip: Bytes -> Bytes, unzip: Bytes -> Bytes)

  ghost predicate ValidCodec(k: Codec) {
    TextCodec(k.enc, k.dec) && Inverse(k.zip, k.unzip)
  }

  // The files a reader unpacks from the archive of c.
  ghost function Unpacked(k: Codec, c: Collection, order: seq<string>, fileOrder: seq<string>): Files
    requires Lists(order, c.Keys) && Lists(fileOrder, ToFiles(c, order).Keys)
  {
    UnpackFiles(k.unzip(k.zip(Archive(ToFiles(c, order), fileOrder, k.enc))), k.dec)
  }

  ghost predicate ReadsVia(k: Codec, c: Collection, order: seq<string>, fileOrder: seq<string>, loadOrder: seq<string>,
                           read: Collection) {
    && Lists(order, c.Keys) && Lists(fileOrder, ToFiles(c, order).Keys)
    && Lists(loadOrder, Unpacked(k, c, order, fileOrder).Keys)
    && read == FromFiles(Unpacked(k, c, order, fileOrder), loadOrder)
  }

  // Saved as c, loaded as `read`, each object listing its keys in some order.
  ghost predicate ReadsBackAs(k: Codec, c: Collection, read: Collection) {
    exists order, fileOrder, loadOrder :: ReadsVia(k, c, order, fileOrder, loadOrder, read)
  }

  ghost predicate Restorable(c: Collection) {
    AllGood(c) && InjectiveOn(StoredName, c.Keys)
  }

  ghost predicate Includes(c: Collection, c': Collection) {
    forall n :: n in c ==> n in c' && c'[n] == c[n]
  }

  // --- Exactly when nothing is lost ---

  lemma ReadVia(k: Codec, c: Collection, order: seq<string>, fileOrder: seq<string>, loadOrder: seq<string>,
                read: Collection)
    requires ValidCodec(k) && Fits(c, k.enc) && ReadsVia(k, c, order, fileOrder, loadOrder, read)
    ensures AllGood(read) && |read| <= |c|
    ensures read == c <==> Restorable(c)
  {
    var loaded := Unpacked(k, c, order, fileOrder);
    ArchiveReread(c, order, fileOrder, k.enc, k.dec);
    RereadImage(c, order, SortedNames(fileOrder));
    FromFilesGood(loaded, loadOrder);
    ListLength(loadOrder, loaded.Keys);
    ImageSize(StoredName, c.Keys);
    SaveLoadExact(c, order, fileOrder, loadOrder, k.enc, k.dec, k.zip, k.unzip);
  }

  lemma IncludedWhole(c: Collection, read: Collection)
    requires Includes(c, read) && |read| <= |c|
    ensures read == c
  {
    if read.Keys - c.Keys != {} {
      var n :| n in read.Keys - c.Keys;
      SubsetSize(c.Keys, read.Keys - {n});
      assert false;
    }
    assert read.Keys == c.Keys;
  }

  // A saved collection is read back whole exactly when every deck is well formed and no two names
  // share a stored name; what is read is well formed and never larger.
  lemma KeptExactly(k: Codec, c: Collection, read: Collection)
    requires ValidCodec(k) && Fits(c, k.enc) && ReadsBackAs(k, c, read)
    ensures AllGood(read) && |read| <= |c|
    ensures Includes(c, read) <==> Restorable(c)
    ensures read == c <==> Restorable(c)
  {
    var order, fileOrder, loadOrder :| ReadsVia(k, c, order, fileOrder, loadOrder, read);
    ReadVia(k, c, order, fileOrder, loadOrder, read);
    if Includes(c, read) {
      IncludedWhole(c, read);
    }
  }

  // --- Every collection can be saved and read ---

  lemma {:induction false} ListOf(keys: set<string>) returns (order: seq<string>)
    ensures Lists(order, keys)
    decreases keys
  {
    if keys == {} {
      order := [];
    } else {
      var n :| n in keys;
      var rest := ListOf(keys - {n});
      order := rest + [n];
      ListedMore(rest, keys - {n}, n);
      assert keys - {n} + {n} == keys;
    }
  }

  lemma ListedMore(order: seq<string>, keys: set<string>, n: string)
    requires Lists(order, keys) && n !in keys
    ensures Lists(order + [n], keys + {n})
  {
  }

  lemma ReadInOrder(k: Codec, c: Collection, order: seq<string>) returns (read: Collection)
    requires Lists(order, c.Keys)
    ensures ReadsBackAs(k, c, read)
  {
    var fileOrder := ListOf(ToFiles(c, order).Keys);
    var loadOrder := ListOf(Unpacked(k, c, order, fileOrder).Keys);
    read := FromFiles(Unpacked(k, c, order, fileOrder), loadOrder);
    assert ReadsVia(k, c, order, fileOrder, loadOrder, read);
  }

  lemma ReadSomehow(k: Codec, c: Collection) returns (read: Collection)
    ensures ReadsBackAs(k, c, read)
  {
    var order := ListOf(c.Keys);
    read := ReadInOrder(k, c, order);
  }

  // --- Of two decks with one file name the later one is left ---

  lemma OneFile(c: Collection, d: Collection, m: string, n: string)
    requires m in c && n in c && d == map[n := c[n]] && FileName(m) == FileName(n)
    ensures ToFiles(c, [m, n]) == ToFiles(d, [n])
  {
    assert [m, n][..1] == [m] && [m][..0] == [] && [n][..0] == [];
    assert ToFiles(c, [m]) == map[FileName(m) := DckText(m, c[m])];
  }

  lemma SameFilesReadAlike(k: Codec, c: Collection, d: Collection, order: seq<string>, order': seq<string>)
    requires Lists(order, c.Keys) && Lists(order', d.Keys) && ToFiles(c, order) == ToFiles(d, order')
    ensures exists fileOrder, loadOrder, back ::
      ReadsVia(k, c, order, fileOrder, loadOrder, back) && ReadsVia(k, d, order', fileOrder, loadOrder, back)
  {
    var fileOrder := ListOf(ToFiles(c, order).Keys);
    var loadOrder := ListOf(Unpacked(k, c, order, fileOrder).Keys);
    var back := FromFiles(Unpacked(k, c, order, fileOrder), loadOrder);
    assert ReadsVia(k, c, order, fileOrder, loadOrder, back) && ReadsVia(k, d, order', fileOrder, loadOrder, back);
  }

  lemma SingleRestorable(n: string, y: Deck)
    requires GoodEntry(n, y)
    ensures Restorable(map[n := y])
  {
  }

  lemma LaterOverwrites(k: Codec, c: Collection, d: Collection, m: string, n: string)
    requires ValidCodec(k) && Fits(d, k.enc) && m != n && FileName(m) == FileName(n)
    requires c.Keys == {m, n} && d == map[n := c[n]] && GoodEntry(n, c[n])
    ensures ReadsBackAs(k, c, d)
  {
    OneFile(c, d, m, n);
    SingleRestorable(n, c[n]);
    SameFilesReadAlike(k, c, d, [m, n], [n]);
    var fileOrder, loadOrder, back :|
      ReadsVia(k, c, [m, n], fileOrder, loadOrder, back) && ReadsVia(k, d, [n], fileOrder, loadOrder, back);
    ReadVia(k, d, [n], fileOrder, loadOrder, back);
  }

  // --- A small collection that always fits ---

  const NOTHING := Deck([], [])

  lemma JoinFour(a: string, b: string, c: string, d: string)
    ensures JoinLines([a, b, c, d]) == a + "\n" + b + "\n" + c + "\n" + d
  {
    assert [a, b, c, d][..3] == [a, b, c] && [a, b, c][..2] == [a, b] && [a, b][..1] == [a];
    assert JoinLines([a, b]) == a + "\n" + b;
    assert JoinLines([a, b, c]) == JoinLines([a, b]) + "\n" + c;
  }

  lemma EmptyDeckText(n: string)
    requires AsciiText(n)
    ensures AsciiText(DckText(n, NOTHING)) && |DckText(n, NOTHING)| <= |n| + 40
  {
    var lines := DeckLines(n, NOTHING);
    assert lines == ["[metadata]", "Name=" + n, "", "[Main]"];
    JoinFour("[metadata]", "Name=" + n, "", "[Main]");
  }

  lemma SmallFits(n: string, enc: string -> Bytes, dec: Bytes -> string)
    requires TextCodec(enc, dec) && AsciiText(n) && |n| <= 200
    ensures Fits(map[n := NOTHING], enc)
  {
    EmptyDeckText(n);
    var text := DckText(n, NOTHING);
    assert enc(text) == Ascii(text);
  }
}
