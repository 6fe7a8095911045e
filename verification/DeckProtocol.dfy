// Several devices saving one deck collection: conditional writes on an entity tag, an offline
// cache on each device, and a codec that decides what each version reads back as. If-Match and
// If-None-Match are those of sections 13.1.1 and 13.1.2 of RFC 9110, the refusal is the 412 of
// section 15.5.13.
module DeckProtocol {
  import opened DeckCodec
  import opened Options
  import opened ReadBack

  type Device = nat
  type Etag = string

  // A stored version: the collection as its writer had it, what its archive reads back as, and
  // the collection its writer had started from.
  datatype Version = Version(coll: Collection, read: Collection, etag: Etag, base: Collection)

  // A collection with the tag it was read under (none when absent or not exposed).
  datatype Base = Base(coll: Collection, etag: Option<Etag>)

  // The object's versions, oldest first; the bases the devices' code holds; the cache writes
  // still in flight; and the devices' caches.
  datatype World = World(history: seq<Version>, held: set<(Device, Base)>,
                         inFlight: set<(Device, Base)>, cache: map<Device, Base>)

  const INITIAL := World([], {}, {}, map[])

  // The store, as readers see it: what a collection saved through the codec can read back as.
  datatype Store = Store(codec: Codec, serves: (Collection, Collection) -> bool)

  ghost predicate Archived(codec: Codec, c: Collection, read: Collection) {
    Fits(c, codec.enc) && ReadsBackAs(codec, c, read)
  }

  ghost predicate ValidStore(k: Store) {
    && ValidCodec(k.codec)
    && forall c, read {:trigger Archived(k.codec, c, read)} :: k.serves(c, read) <==> Archived(k.codec, c, read)
  }

  lemma StoreExists(codec: Codec) returns (k: Store)
    requires ValidCodec(codec)
    ensures ValidStore(k) && k.codec == codec
  {
    k := Store(codec, (c, read) => Archived(codec, c, read));
  }

  datatype Event =
    | ReadRemote(dev: Device, exposed: bool)
    | ReadEmpty(dev: Device)
    | ReadCache(dev: Device)
    | WriteCache(dev: Device, base: Base)
    | Put(dev: Device, base: Base, coll: Collection, read: Collection, etag: Etag, exposed: bool, acked: bool)
    | PutRefused(dev: Device, base: Base)

  function Tag(etag: Etag, exposed: bool): Option<Etag> {
    if exposed && etag != "" then Some(etag) else None
  }

  // If-Match with a tag, If-None-Match: * without one.
  predicate Accepts(history: seq<Version>, etag: Option<Etag>) {
    match etag
    case None => history == []
    case Some(e) => history != [] && history[|history| - 1].etag == e
  }

  // Equal tags name equal bytes, hence equal readings.
  ghost predicate TagsFaithful(history: seq<Version>) {
    forall i, j :: 0 <= i < |history| && 0 <= j < |history| && history[i].etag == history[j].etag
      ==> history[i].read == history[j].read
  }

  // What a reader of the object gets.
  function Current(history: seq<Version>): Collection {
    if history == [] then map[] else history[|history| - 1].read
  }

  // Hydrating and saving, one request or cache access at a time. A reader gets the archive's
  // reading, a writer keeps and caches the collection it wrote. An accepted write may lose its
  // answer, and a cache write may land at any later time, or never.
  ghost predicate Next(k: Store, w: World, e: Event, w': World) {
    match e
    case ReadRemote(d, exposed) =>
      w.history != [] &&
      var v := w.history[|w.history| - 1];
      var b := Base(v.read, Tag(v.etag, exposed));
      w' == w.(held := w.held + {(d, b)}, inFlight := w.inFlight + {(d, b)})
    case ReadEmpty(d) =>
      w.history == [] && w' == w.(held := w.held + {(d, Base(map[], None))})
    case ReadCache(d) =>
      d in w.cache && w' == w.(held := w.held + {(d, w.cache[d])})
    case WriteCache(d, b) =>
      (d, b) in w.inFlight && w' == w.(cache := w.cache[d := b])
    case Put(d, b, coll, read, etag, exposed, acked) =>
      (d, b) in w.held && Accepts(w.history, b.etag) && k.serves(coll, read) &&
      var saved := Base(coll, Tag(etag, exposed));
      var history := w.history + [Version(coll, read, etag, b.coll)];
      TagsFaithful(history) &&
      w' == (if acked
             then w.(history := history, held := w.held + {(d, saved)}, inFlight := w.inFlight + {(d, saved)})
             else w.(history := history))
    case PutRefused(d, b) =>
      (d, b) in w.held && !Accepts(w.history, b.etag) && w' == w
  }

  datatype Run = Run(worlds: seq<World>, events: seq<Event>)

  ghost predicate IsRun(k: Store, r: Run) {
    && |r.worlds| == |r.events| + 1
    && r.worlds[0] == INITIAL
    && forall i :: 0 <= i < |r.events| ==> Next(k, r.worlds[i], r.events[i], r.worlds[i + 1])
  }

  // --- What every base a device can hold is ---

  ghost predicate StoredAt(v: Version, b: Base) {
    (b.coll == v.coll || b.coll == v.read) && (b.etag.Some? ==> v.etag == b.etag.value)
  }

  // A version that was stored, as its writer wrote it or as it reads back.
  ghost predicate Stored(history: seq<Version>, b: Base) {
    exists i :: 0 <= i < |history| && StoredAt(history[i], b)
  }

  ghost predicate Known(history: seq<Version>, b: Base) {
    b == Base(map[], None) || Stored(history, b)
  }

  // The current content, or a collection that was saved with this content as its reading.
  ghost predicate FormOfCurrent(k: Store, history: seq<Version>, c: Collection) {
    c == Current(history) || (history != [] && k.serves(c, Current(history)))
  }

  // Each version was written over exactly the one before it, and reads back as its archive does.
  ghost predicate Chained(k: Store, history: seq<Version>) {
    forall i :: 0 <= i < |history| ==>
      FormOfCurrent(k, history[..i], history[i].base) && k.serves(history[i].coll, history[i].read)
  }

  ghost predicate BasesKnown(w: World) {
    && (forall p :: p in w.held ==> Known(w.history, p.1))
    && (forall p :: p in w.inFlight ==> Stored(w.history, p.1))
    && (forall d :: d in w.cache ==> Stored(w.history, w.cache[d]))
  }

  ghost predicate Inv(k: Store, w: World) {
    TagsFaithful(w.history) && Chained(k, w.history) && BasesKnown(w)
  }

  lemma StoredStays(history: seq<Version>, more: seq<Version>, b: Base)
    requires Stored(history, b)
    ensures Stored(history + more, b)
  {
    var i :| 0 <= i < |history| && StoredAt(history[i], b);
    assert (history + more)[i] == history[i];
  }

  lemma StoredLast(history: seq<Version>, v: Version, b: Base)
    requires StoredAt(v, b)
    ensures Stored(history + [v], b)
  {
    assert (history + [v])[|history|] == v;
  }

  // No lost update: an accepted write replaces exactly the content its base came from.
  lemma AcceptedReplacesBase(k: Store, w: World, d: Device, b: Base)
    requires Inv(k, w) && (d, b) in w.held && Accepts(w.history, b.etag)
    ensures FormOfCurrent(k, w.history, b.coll)
  {
    assert Known(w.history, (d, b).1);
    if b != Base(map[], None) {
      var i :| 0 <= i < |w.history| && StoredAt(w.history[i], b);
      assert w.history[i].etag == w.history[|w.history| - 1].etag;
    }
  }

  lemma ChainGrows(k: Store, history: seq<Version>, v: Version)
    requires Chained(k, history) && FormOfCurrent(k, history, v.base) && k.serves(v.coll, v.read)
    ensures Chained(k, history + [v])
  {
    var h := history + [v];
    forall i | 0 <= i < |h| ensures FormOfCurrent(k, h[..i], h[i].base) && k.serves(h[i].coll, h[i].read) {
      if i < |history| {
        assert h[..i] == history[..i];
      } else {
        assert h[..i] == history;
      }
    }
  }

  // A new version leaves the bases known, its writer's included.
  lemma BasesStay(w: World, v: Version, saved: (Device, Base), w': World)
    requires BasesKnown(w) && StoredAt(v, saved.1)
    requires w'.history == w.history + [v] && w'.cache == w.cache
    requires w'.held <= w.held + {saved} && w'.inFlight <= w.inFlight + {saved}
    ensures BasesKnown(w')
  {
    StoredLast(w.history, v, saved.1);
    forall p | p in w'.held ensures Known(w'.history, p.1) {
      if p != saved && Stored(w.history, p.1) {
        StoredStays(w.history, [v], p.1);
      }
    }
    forall p | p in w'.inFlight ensures Stored(w'.history, p.1) {
      if p != saved {
        StoredStays(w.history, [v], p.1);
      }
    }
    forall x | x in w'.cache ensures Stored(w'.history, w'.cache[x]) {
      StoredStays(w.history, [v], w.cache[x]);
    }
  }

  lemma PutInv(k: Store, w: World, e: Event, w': World)
    requires Inv(k, w) && Next(k, w, e, w') && e.Put?
    ensures Inv(k, w')
  {
    var v, saved := Version(e.coll, e.read, e.etag, e.base.coll), Base(e.coll, Tag(e.etag, e.exposed));
    AcceptedReplacesBase(k, w, e.dev, e.base);
    ChainGrows(k, w.history, v);
    BasesStay(w, v, (e.dev, saved), w');
  }

  lemma OtherInv(k: Store, w: World, e: Event, w': World)
    requires BasesKnown(w) && Next(k, w, e, w') && !e.Put?
    ensures BasesKnown(w') && w'.history == w.history
  {
    if e.ReadRemote? {
      var v := w.history[|w.history| - 1];
      assert StoredAt(v, Base(v.read, Tag(v.etag, e.exposed)));
    } else if e.WriteCache? {
      assert Stored(w.history, (e.dev, e.base).1);
    }
  }

  lemma NextInv(k: Store, w: World, e: Event, w': World)
    requires Inv(k, w) && Next(k, w, e, w')
    ensures Inv(k, w')
  {
    if e.Put? {
      PutInv(k, w, e, w');
    } else {
      OtherInv(k, w, e, w');
    }
  }

  lemma {:induction false} RunInv(k: Store, r: Run, i: nat)
    requires IsRun(k, r) && i < |r.worlds|
    ensures Inv(k, r.worlds[i])
  {
    if i > 0 {
      RunInv(k, r, i - 1);
      NextInv(k, r.worlds[i - 1], r.events[i - 1], r.worlds[i]);
    }
  }

  // In every interleaving the accepted writes form one chain, each replacing exactly the content
  // its writer started from, and every cached pair is a version that was stored.
  lemma NoLostUpdate(k: Store, r: Run, i: nat)
    requires IsRun(k, r) && i < |r.worlds|
    ensures Chained(k, r.worlds[i].history)
    ensures forall d :: d in r.worlds[i].cache ==> Stored(r.worlds[i].history, r.worlds[i].cache[d])
    ensures i < |r.events| && r.events[i].Put? ==> FormOfCurrent(k, r.worlds[i].history, r.events[i].base.coll)
    ensures i < |r.events| && r.events[i].PutRefused? && r.events[i].base.etag.Some? ==>
      r.worlds[i].history != [] && r.worlds[i].history[|r.worlds[i].history| - 1].etag != r.events[i].base.etag.value
  {
    RunInv(k, r, i);
    if i < |r.events| {
      assert Next(k, r.worlds[i], r.events[i], r.worlds[i + 1]);
      var e := r.events[i];
      if e.Put? {
        AcceptedReplacesBase(k, r.worlds[i], e.dev, e.base);
      } else if e.PutRefused? {
        assert Known(r.worlds[i].history, (e.dev, e.base).1);
      }
    }
  }

  // No device ever holds an empty tag: without a usable one it writes only where nothing is stored.
  ghost predicate TagsUsable(w: World) {
    && (forall p :: p in w.held ==> p.1.etag != Some(""))
    && (forall p :: p in w.inFlight ==> p.1.etag != Some(""))
    && (forall d :: d in w.cache ==> w.cache[d].etag != Some(""))
  }

  lemma NextTagsUsable(k: Store, w: World, e: Event, w': World)
    requires TagsUsable(w) && Next(k, w, e, w')
    ensures TagsUsable(w')
  {
    if e.WriteCache? {
      assert (e.dev, e.base).1.etag != Some("");
    }
  }

  lemma {:induction false} RunTagsUsable(k: Store, r: Run, i: nat)
    requires IsRun(k, r) && i < |r.worlds|
    ensures TagsUsable(r.worlds[i])
  {
    if i > 0 {
      RunTagsUsable(k, r, i - 1);
      NextTagsUsable(k, r.worlds[i - 1], r.events[i - 1], r.worlds[i]);
    }
  }

  // So what a device read under no tag, or an empty one, it can save only as the first version.
  lemma TaglessOnlyCreates(k: Store, r: Run, i: nat)
    requires IsRun(k, r) && i < |r.events| && r.events[i].Put?
    ensures match r.events[i].base.etag
      case None => r.worlds[i].history == []
      case Some(etag) => etag != "" && r.worlds[i].history != [] && Last(r.worlds[i].history).etag == etag
  {
    RunTagsUsable(k, r, i);
    assert Next(k, r.worlds[i], r.events[i], r.worlds[i + 1]);
    assert (r.events[i].dev, r.events[i].base).1.etag != Some("");
  }

  function Last(history: seq<Version>): Version
    requires history != []
  {
    history[|history| - 1]
  }

  // --- What a save keeps, exactly ---

  lemma StoreKeeps(k: Store, c: Collection, read: Collection)
    requires ValidStore(k) && k.serves(c, read)
    ensures AllGood(read)
    ensures Includes(c, read) <==> Restorable(c)
    ensures read == c <==> Restorable(c)
  {
    assert Archived(k.codec, c, read);
    KeptExactly(k.codec, c, read);
  }

  lemma StoreReads(k: Store, c: Collection) returns (read: Collection)
    requires ValidStore(k) && Fits(c, k.codec.enc)
    ensures k.serves(c, read)
  {
    read := ReadSomehow(k.codec, c);
    assert Archived(k.codec, c, read);
  }

  lemma NextCurrent(k: Store, w: World, e: Event, w': World)
    requires Next(k, w, e, w')
    ensures e.Put? ==> k.serves(e.coll, e.read) && Current(w'.history) == e.read
    ensures e.Put? ==> w'.history == w.history + [Version(e.coll, e.read, e.etag, e.base.coll)]
    ensures !e.Put? ==> w'.history == w.history
  {
  }

  // After an accepted write a reader finds all that was written exactly when the collection is
  // restorable; and then it finds just that.
  lemma PutKeepsExactly(k: Store, r: Run, i: nat)
    requires ValidStore(k) && IsRun(k, r) && i < |r.events| && r.events[i].Put?
    ensures Includes(r.events[i].coll, Current(r.worlds[i + 1].history)) <==> Restorable(r.events[i].coll)
    ensures Current(r.worlds[i + 1].history) == r.events[i].coll <==> Restorable(r.events[i].coll)
  {
    var e := r.events[i];
    NextCurrent(k, r.worlds[i], e, r.worlds[i + 1]);
    StoreKeeps(k, e.coll, e.read);
  }

  // --- Runs in which only restorable collections are written ---

  // The writes among the first i events, that of event p aside.
  ghost predicate RestorableBut(r: Run, i: nat, p: int) {
    forall q :: 0 <= q < i && q < |r.events| && q != p && r.events[q].Put? ==> Restorable(r.events[q].coll)
  }

  ghost predicate RestorableUpTo(r: Run, i: nat) {
    RestorableBut(r, i, -1)
  }

  // Every version reads back as it was written.
  ghost predicate Intact(history: seq<Version>) {
    forall i :: 0 <= i < |history| ==> history[i].read == history[i].coll && Restorable(history[i].coll)
  }

  lemma {:induction false} RestorableIntact(k: Store, r: Run, i: nat)
    requires ValidStore(k) && IsRun(k, r) && i < |r.worlds| && RestorableUpTo(r, i)
    ensures Intact(r.worlds[i].history)
  {
    if i > 0 {
      RestorableIntact(k, r, i - 1);
      NextCurrent(k, r.worlds[i - 1], r.events[i - 1], r.worlds[i]);
      if r.events[i - 1].Put? {
        StoreKeeps(k, r.events[i - 1].coll, r.events[i - 1].read);
      }
    }
  }

  lemma IntactBase(k: Store, w: World, d: Device, b: Base)
    requires Inv(k, w) && Intact(w.history) && (d, b) in w.held && Accepts(w.history, b.etag)
    ensures b.coll == Current(w.history) && Restorable(b.coll)
  {
    assert Known(w.history, (d, b).1);
    if b != Base(map[], None) {
      var i :| 0 <= i < |w.history| && StoredAt(w.history[i], b);
      assert w.history[i].etag == w.history[|w.history| - 1].etag;
    }
  }

  // Then every write starts from exactly what a reader would find, and leaves exactly what it wrote.
  lemma RestorablePut(k: Store, r: Run, i: nat)
    requires ValidStore(k) && IsRun(k, r) && i < |r.events| && r.events[i].Put? && RestorableUpTo(r, i)
    ensures r.events[i].base.coll == Current(r.worlds[i].history) && Restorable(r.events[i].base.coll)
    ensures Restorable(r.events[i].coll) ==> Current(r.worlds[i + 1].history) == r.events[i].coll
  {
    var e := r.events[i];
    RunInv(k, r, i);
    RestorableIntact(k, r, i);
    assert Next(k, r.worlds[i], e, r.worlds[i + 1]);
    IntactBase(k, r.worlds[i], e.dev, e.base);
    PutKeepsExactly(k, r, i);
  }
}
