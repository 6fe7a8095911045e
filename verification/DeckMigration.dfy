// The two migrations of a device's own decks into the shared collection, in any concurrent run.
module DeckMigration {
  import opened Tar
  import opened Dck
  import opened DeckCodec
  import opened DeckProtocol
  import opened Options
  import opened ReadBack
  import opened StoredNames

  // The property names every JavaScript object inherits.
  const INHERITED: set<string> := {
    "constructor", "__proto__", "toString", "toLocaleString", "valueOf", "hasOwnProperty",
    "isPrototypeOf", "propertyIsEnumerable", "__defineGetter__", "__defineSetter__",
    "__lookupGetter__", "__lookupSetter__"
  }

  // migrateLocalStorage: a local deck is added when its name is not `in` the collection.
  function Absent(c: Collection, local: Collection, inherited: set<string>): set<string> {
    set n | n in local && n !in c && n !in inherited
  }

  function Missing(c: Collection, local: Collection): set<string> {
    Absent(c, local, INHERITED)
  }

  function AddNames(c: Collection, local: Collection, names: set<string>): Collection
    requires names <= local.Keys
  {
    c + map n | n in names :: local[n]
  }

  function Additive(c: Collection, local: Collection): Collection {
    AddNames(c, local, Missing(c, local))
  }

  // migrateAll: every local deck is assigned.
  function Override(c: Collection, local: Collection): Collection {
    c + map n | n in local && n != "__proto__" :: local[n]
  }

  // What the additive loop has reached once the names outside `names` are handled.
  ghost predicate AddedSoFar(c: Collection, local: Collection, inherited: set<string>, names: set<string>,
                             merged: Collection) {
    && (forall n :: n in merged <==> n in c || (n in local && n !in inherited && n !in names))
    && (forall n :: n in merged ==> merged[n] == if n in c then c[n] else local[n])
  }

  lemma MapsAgree(a: Collection, b: Collection)
    requires forall n :: n in a <==> n in b
    requires forall n :: n in a ==> n in b && a[n] == b[n]
    ensures a == b
  {
  }

  lemma DisjointKeys(all: set<string>, a: set<string>, b: set<string>)
    requires a !! b && forall n :: n in all <==> n in a || n in b
    ensures |all| == |a| + |b|
  {
    assert all == a + b;
  }

  lemma AddedAll(c: Collection, local: Collection, inherited: set<string>, merged: Collection)
    requires AddedSoFar(c, local, inherited, {}, merged)
    ensures merged == AddNames(c, local, Absent(c, local, inherited))
    ensures |merged| == |c| + |Absent(c, local, inherited)|
  {
    AddedMap(c, local, inherited, merged);
    DisjointKeys(merged.Keys, c.Keys, Absent(c, local, inherited));
  }

  lemma AddedMap(c: Collection, local: Collection, inherited: set<string>, merged: Collection)
    requires AddedSoFar(c, local, inherited, {}, merged)
    ensures merged == AddNames(c, local, Absent(c, local, inherited))
  {
    MapsAgree(merged, AddNames(c, local, Absent(c, local, inherited)));
  }

  // The loops themselves, over the local names in any order.
  method AddMissing(c: Collection, local: Collection) returns (merged: Collection, migrated: nat)
    ensures merged == Additive(c, local)
    ensures AddedSoFar(c, local, INHERITED, {}, merged)
    ensures migrated == |Missing(c, local)| && |merged| == |c| + migrated
  {
    merged, migrated := AddUnlessIn(c, local, INHERITED);
    AddedAll(c, local, INHERITED, merged);
  }

  method AddUnlessIn(c: Collection, local: Collection, inherited: set<string>)
    returns (merged: Collection, migrated: nat)
    ensures AddedSoFar(c, local, inherited, {}, merged)
    ensures |merged| == |c| + migrated
  {
    merged, migrated := c, 0;
    var names := local.Keys;
    while names != {}
      invariant names <= local.Keys
      invariant AddedSoFar(c, local, inherited, names, merged)
      invariant |merged| == |c| + migrated
      decreases names
    {
      var name :| name in names;
      names := names - {name};
      if name !in merged && name !in inherited {
        merged := merged[name := local[name]];
        migrated := migrated + 1;
      }
    }
  }

  method AssignAll(c: Collection, local: Collection) returns (merged: Collection)
    ensures merged == Override(c, local)
    ensures forall n :: n in merged <==> n in c || (n in local && n != "__proto__")
    ensures forall n :: n in merged ==> merged[n] == if n in local && n != "__proto__" then local[n] else c[n]
  {
    merged := AssignNames(c, local);
    OverrideContents(c, local);
  }

  method AssignNames(c: Collection, local: Collection) returns (merged: Collection)
    ensures merged == Override(c, local)
  {
    merged := c;
    var names := local.Keys;
    while names != {}
      invariant names <= local.Keys
      invariant merged == c + map n | n in local && n != "__proto__" && n !in names :: local[n]
      decreases names
    {
      var name :| name in names;
      names := names - {name};
      merged := Assign(merged, name, local[name]);
    }
  }

  lemma OverrideContents(c: Collection, local: Collection)
    ensures var merged := Override(c, local);
      && (forall n :: n in merged <==> n in c || (n in local && n != "__proto__"))
      && (forall n :: n in merged ==> merged[n] == if n in local && n != "__proto__" then local[n] else c[n])
  {
  }

  // A write made by one of the two migrations.
  ghost predicate AdditivePut(e: Event) {
    e.Put? ==> exists local: Collection :: Missing(e.base.coll, local) != {} && e.coll == Additive(e.base.coll, local)
  }

  ghost predicate OverrideOf(e: Event, local: Collection) {
    e.Put? && e.coll == Override(e.base.coll, local)
  }

  ghost predicate OverridePut(e: Event) {
    e.Put? ==> exists local: Collection :: local != map[] && OverrideOf(e, local)
  }

  lemma AdditiveIncludes(e: Event)
    requires e.Put? && AdditivePut(e)
    ensures Includes(e.base.coll, e.coll)
  {
  }

  lemma MigrationKeepsNames(e: Event)
    requires e.Put? && (AdditivePut(e) || OverridePut(e))
    ensures e.base.coll.Keys <= e.coll.Keys
  {
    if AdditivePut(e) {
      AdditiveIncludes(e);
    }
  }

  lemma {:induction false} HistoryGrows(k: Store, r: Run, i: nat, j: nat)
    requires IsRun(k, r) && i <= j < |r.worlds|
    ensures r.worlds[i].history <= r.worlds[j].history
    decreases j
  {
    if i < j {
      HistoryGrows(k, r, i, j - 1);
      NextCurrent(k, r.worlds[j - 1], r.events[j - 1], r.worlds[j]);
    }
  }

  // What a write makes of the current collection while all writes are restorable.
  lemma RestorableNext(k: Store, r: Run, i: nat)
    requires ValidStore(k) && IsRun(k, r) && i < |r.events| && RestorableUpTo(r, i + 1)
    ensures var e, c, c' := r.events[i], Current(r.worlds[i].history), Current(r.worlds[i + 1].history);
      if e.Put? then e.base.coll == c && e.coll == c' else c' == c
    ensures r.worlds[i + 1].history == r.worlds[i].history + if !r.events[i].Put? then []
      else var e := r.events[i]; [Version(e.coll, e.read, e.etag, e.base.coll)]
  {
    NextCurrent(k, r.worlds[i], r.events[i], r.worlds[i + 1]);
    if r.events[i].Put? {
      RestorablePut(k, r, i);
    }
  }

  ghost predicate AdditiveOnly(k: Store, r: Run) {
    IsRun(k, r) && forall q :: 0 <= q < |r.events| ==> AdditivePut(r.events[q])
  }

  lemma AdditiveStep(k: Store, r: Run, i: nat, c: Collection)
    requires ValidStore(k) && AdditiveOnly(k, r) && i < |r.events| && RestorableUpTo(r, i + 1)
    requires Includes(c, Current(r.worlds[i].history))
    ensures Includes(c, Current(r.worlds[i + 1].history))
  {
    RestorableNext(k, r, i);
    assert AdditivePut(r.events[i]);
    if r.events[i].Put? {
      AdditiveIncludes(r.events[i]);
    }
  }

  lemma RestorableSooner(r: Run, i: nat, j: nat)
    requires RestorableUpTo(r, j) && i <= j
    ensures RestorableUpTo(r, i)
  {
  }

  // When only additive migrations write, and what they write is restorable, stored bindings are
  // never removed or changed.
  lemma {:induction false} AdditiveMonotone(k: Store, r: Run, i: nat, j: nat)
    requires ValidStore(k) && AdditiveOnly(k, r) && i <= j < |r.worlds| && RestorableUpTo(r, j)
    ensures Includes(Current(r.worlds[i].history), Current(r.worlds[j].history))
    decreases j
  {
    if i < j {
      RestorableSooner(r, j - 1, j);
      AdditiveMonotone(k, r, i, j - 1);
      AdditiveStep(k, r, j - 1, Current(r.worlds[i].history));
    }
  }

  // --- Runs in which only the two migrations write ---

  ghost predicate MigrationsOnly(k: Store, r: Run) {
    IsRun(k, r) && forall q :: 0 <= q < |r.events| ==> AdditivePut(r.events[q]) || OverridePut(r.events[q])
  }

  ghost predicate NamesGrow(history: seq<Version>) {
    forall i, j :: 0 <= i <= j < |history| ==> history[i].read.Keys <= history[j].read.Keys
  }

  lemma NamesGrowOn(history: seq<Version>, v: Version)
    requires NamesGrow(history) && Current(history).Keys <= v.read.Keys
    ensures NamesGrow(history + [v])
  {
    var h := history + [v];
    forall i, j | 0 <= i <= j < |h| ensures h[i].read.Keys <= h[j].read.Keys {
      if i < j == |history| {
        assert history[i].read.Keys <= history[|history| - 1].read.Keys;
      }
    }
  }

  lemma NamesStep(k: Store, r: Run, i: nat)
    requires ValidStore(k) && MigrationsOnly(k, r) && i < |r.events| && RestorableUpTo(r, i + 1)
    requires NamesGrow(r.worlds[i].history)
    ensures NamesGrow(r.worlds[i + 1].history)
  {
    RestorableNext(k, r, i);
    var e := r.events[i];
    if e.Put? {
      assert AdditivePut(e) || OverridePut(e);
      MigrationKeepsNames(e);
      NextCurrent(k, r.worlds[i], e, r.worlds[i + 1]);
      NamesGrowOn(r.worlds[i].history, Version(e.coll, e.read, e.etag, e.base.coll));
    }
  }

  // Names are never removed, from one stored version to any later one.
  lemma NamesMonotone(k: Store, r: Run, i: nat)
    requires ValidStore(k) && MigrationsOnly(k, r) && i < |r.worlds| && RestorableUpTo(r, i)
    ensures NamesGrow(r.worlds[i].history)
  {
    for j := 0 to i
      invariant NamesGrow(r.worlds[j].history)
    {
      RestorableSooner(r, j + 1, i);
      NamesStep(k, r, j);
    }
  }

  lemma NamesStay(k: Store, r: Run, i: nat, j: nat, names: set<string>)
    requires ValidStore(k) && MigrationsOnly(k, r) && i <= j < |r.worlds| && RestorableUpTo(r, j)
    requires names <= Current(r.worlds[i].history).Keys
    ensures names <= Current(r.worlds[j].history).Keys
  {
    HistoryGrows(k, r, i, j);
    NamesMonotone(k, r, j);
  }

  lemma StoredNamesStay(k: Store, r: Run, i: nat, j: nat, b: Base)
    requires ValidStore(k) && MigrationsOnly(k, r) && i <= j < |r.worlds| && RestorableUpTo(r, j)
    requires DeckProtocol.Stored(r.worlds[i].history, b)
    ensures b.coll.Keys <= Current(r.worlds[j].history).Keys
  {
    var h, h' := r.worlds[i].history, r.worlds[j].history;
    HistoryGrows(k, r, i, j);
    NamesMonotone(k, r, j);
    RestorableIntact(k, r, j);
    var q :| 0 <= q < |h| && StoredAt(h[q], b);
    assert h'[q] == h[q] && h'[q].read.Keys <= h'[|h'| - 1].read.Keys;
  }

  // The device's migrateLocalStorage, hydrated with b, has returned by world i: nothing was missing
  // from what it hydrated (p is i), or its write, event p, was answered.
  ghost predicate Returned(r: Run, i: nat, d: Device, b: Base, local: Collection, p: nat) {
    && i < |r.worlds| && i <= |r.events| && local != map[] && (d, b) in r.worlds[i].held
    && if Missing(b.coll, local) == {} then p == i
       else p < i && AnsweredPut(r.events[p], d, b, Additive(b.coll, local))
  }

  ghost predicate AnsweredPut(e: Event, d: Device, b: Base, coll: Collection) {
    e.Put? && e.dev == d && e.base == b && e.coll == coll && e.acked
  }

  lemma NothingMissing(c: Collection, local: Collection)
    requires Missing(c, local) == {}
    ensures local.Keys - INHERITED <= c.Keys
  {
    forall n | n in local.Keys - INHERITED ensures n in c {
      assert n !in Missing(c, local);
    }
  }

  // A migration that returned, even from a stale cache, leaves every local name bound for good,
  // except a name every JavaScript object inherits.
  lemma ReturnedBinds(k: Store, r: Run, i: nat, d: Device, b: Base, local: Collection, p: nat, j: nat)
    requires ValidStore(k) && MigrationsOnly(k, r) && Returned(r, i, d, b, local, p)
    requires i <= j < |r.worlds| && RestorableUpTo(r, j)
    ensures local.Keys - INHERITED <= Current(r.worlds[j].history).Keys
  {
    if Missing(b.coll, local) == {} {
      NothingMissing(b.coll, local);
      RunInv(k, r, i);
      assert Known(r.worlds[i].history, (d, b).1);
      if DeckProtocol.Stored(r.worlds[i].history, b) {
        StoredNamesStay(k, r, i, j, b);
      }
    } else {
      RestorableNext(k, r, p);
      NamesStay(k, r, p + 1, j, local.Keys - INHERITED);
    }
  }

  // --- Runs with one or two writes ---

  lemma StartRun(k: Store) returns (r: Run)
    ensures IsRun(k, r) && r.events == [ReadEmpty(0)] && r.worlds[1] == INITIAL.(held := {(0, Base(map[], None))})
  {
    r := Run([INITIAL, INITIAL.(held := {(0, Base(map[], None))})], [ReadEmpty(0)]);
  }

  lemma ExtendRun(k: Store, r: Run, e: Event, w: World) returns (r': Run)
    requires IsRun(k, r) && Next(k, r.worlds[|r.events|], e, w)
    ensures IsRun(k, r') && r' == Run(r.worlds + [w], r.events + [e])
  {
    r' := Run(r.worlds + [w], r.events + [e]);
    forall i | 0 <= i < |r'.events| ensures Next(k, r'.worlds[i], r'.events[i], r'.worlds[i + 1]) {
      if i < |r.events| {
        assert r'.worlds[i] == r.worlds[i] && r'.worlds[i + 1] == r.worlds[i + 1] && r'.events[i] == r.events[i];
      }
    }
  }

  lemma FirstPut(k: Store, w: World, e: Event) returns (w': World)
    requires w == INITIAL.(held := {(0, Base(map[], None))})
    requires e.Put? && e == Put(0, Base(map[], None), e.coll, e.read, e.etag, true, true) && e.etag != ""
    requires k.serves(e.coll, e.read)
    ensures Next(k, w, e, w') && w'.history == [Version(e.coll, e.read, e.etag, map[])] && w.held <= w'.held
  {
    var saved := (0, Base(e.coll, Some(e.etag)));
    w' := World([Version(e.coll, e.read, e.etag, map[])], w.held + {saved}, {saved}, map[]);
    assert w.history + [Version(e.coll, e.read, e.etag, map[])] == w'.history;
  }

  // A device finds nothing stored and writes c.
  lemma OneWrite(k: Store, c: Collection, read: Collection, etag: Etag) returns (r: Run)
    requires k.serves(c, read) && etag != ""
    ensures IsRun(k, r) && r.events == [ReadEmpty(0), Put(0, Base(map[], None), c, read, etag, true, true)]
    ensures r.worlds[1].history == [] && r.worlds[2].history == [Version(c, read, etag, map[])]
    ensures (0, Base(map[], None)) in r.worlds[2].held
  {
    r := StartRun(k);
    var e := Put(0, Base(map[], None), c, read, etag, true, true);
    var w := FirstPut(k, r.worlds[1], e);
    r := ExtendRun(k, r, e, w);
  }

  lemma ReadBackNow(k: Store, w: World, v: Version) returns (w': World)
    requires w.history == [v] && v.etag != ""
    ensures Next(k, w, ReadRemote(1, true), w') && w'.history == [v] && (1, Base(v.read, Some(v.etag))) in w'.held
  {
    var p := (1, Base(v.read, Some(v.etag)));
    w' := w.(held := w.held + {p}, inFlight := w.inFlight + {p});
  }

  lemma SecondPut(k: Store, w: World, v: Version, e: Event) returns (w': World)
    requires w.history == [v] && e.Put? && e.etag != "" && e.etag != v.etag
    requires e == Put(1, Base(v.read, Some(v.etag)), e.coll, e.read, e.etag, true, true) && (1, e.base) in w.held
    requires k.serves(e.coll, e.read)
    ensures Next(k, w, e, w') && w'.history == [v, Version(e.coll, e.read, e.etag, v.read)] && w.held <= w'.held
  {
    var saved, v' := (1, Base(e.coll, Some(e.etag))), Version(e.coll, e.read, e.etag, v.read);
    w' := w.(history := [v, v'], held := w.held + {saved}, inFlight := w.inFlight + {saved});
    assert w.history + [v'] == w'.history;
  }

  // Then a second device reads that and writes d.
  lemma TwoWrites(k: Store, c: Collection, etag: Etag, d: Collection, read: Collection, etag': Etag) returns (r: Run)
    requires k.serves(c, c) && k.serves(d, read) && etag != "" && etag' != "" && etag != etag'
    ensures IsRun(k, r) && |r.events| == 4
    ensures r.events[0] == ReadEmpty(0) && r.events[1] == Put(0, Base(map[], None), c, c, etag, true, true)
    ensures r.events[2] == ReadRemote(1, true) && r.events[3] == Put(1, Base(c, Some(etag)), d, read, etag', true, true)
    ensures Current(r.worlds[3].history) == c && Current(r.worlds[4].history) == read
    ensures (1, Base(c, Some(etag))) in r.worlds[4].held
  {
    r := OneWrite(k, c, c, etag);
    var v := Version(c, c, etag, map[]);
    var w := ReadBackNow(k, r.worlds[2], v);
    r := ExtendRun(k, r, ReadRemote(1, true), w);
    var e := Put(1, Base(c, Some(etag)), d, read, etag', true, true);
    var w' := SecondPut(k, w, v, e);
    r := ExtendRun(k, r, e, w');
  }

  // --- A migration can remove a stored deck ---

  lemma SavedWhole(k: Store, c: Collection)
    requires ValidStore(k) && Fits(c, k.codec.enc) && Restorable(c)
    ensures k.serves(c, c)
  {
    var read := StoreReads(k, c);
    StoreKeeps(k, c, read);
  }

  lemma StoreOverwrites(k: Store, c: Collection, d: Collection, m: string, n: string)
    requires ValidStore(k) && Fits(c, k.codec.enc) && Fits(d, k.codec.enc) && m != n && FileName(m) == FileName(n)
    requires c.Keys == {m, n} && d == map[n := c[n]] && GoodEntry(n, c[n])
    ensures k.serves(c, d)
  {
    LaterOverwrites(k.codec, c, d, m, n);
    assert Archived(k.codec, c, d);
  }

  lemma AddOneName(e: Event, n: string, y: Deck)
    requires e.Put? && n !in e.base.coll && n !in INHERITED && e.coll == e.base.coll[n := y]
    ensures AdditivePut(e)
  {
    var local: Collection := map[n := y];
    assert Missing(e.base.coll, local) == {n};
    assert e.coll == Additive(e.base.coll, local);
  }

  lemma TwoPuts(k: Store, r: Run)
    requires IsRun(k, r) && |r.events| == 4 && !r.events[0].Put? && !r.events[2].Put?
    requires AdditivePut(r.events[1]) && AdditivePut(r.events[3])
    ensures AdditiveOnly(k, r)
  {
  }

  lemma AddedTwice(first: Event, second: Event, m: string, x: Deck, n: string, y: Deck)
    requires m != n && m !in INHERITED && n !in INHERITED
    requires first.Put? && first.base.coll == map[] && first.coll == map[m := x]
    requires second.Put? && second.base.coll == map[m := x] && second.coll == map[m := x][n := y]
    ensures AdditivePut(first) && AdditivePut(second)
  {
    AddOneName(first, m, x);
    AddOneName(second, n, y);
  }

  lemma AdditiveTwice(k: Store, m: string, x: Deck, n: string, y: Deck, c: Collection, both: Collection,
                      one: Collection)
      returns (r: Run)
    requires m != n && m !in INHERITED && n !in INHERITED && c == map[m := x] && both == c[n := y]
    requires k.serves(c, c) && k.serves(both, one)
    ensures AdditiveOnly(k, r) && |r.worlds| == 5
    ensures Current(r.worlds[3].history) == c && Current(r.worlds[4].history) == one
  {
    r := TwoWrites(k, c, "\"v1\"", both, one, "\"v2\"");
    AddedTwice(r.events[1], r.events[3], m, x, n, y);
    TwoPuts(k, r);
  }

  // "Existing remote decks are preserved" is false: one device migrates a deck named m, another
  // one named n with the same file name, and the first deck is gone.
  lemma AdditiveRemoves(k: Store, m: string, x: Deck, n: string, y: Deck) returns (r: Run)
    requires ValidStore(k) && Fits(map[m := x], k.codec.enc) && Fits(map[n := y], k.codec.enc)
    requires GoodEntry(m, x) && GoodEntry(n, y) && m != n && FileName(m) == FileName(n)
    requires m !in INHERITED && n !in INHERITED
    ensures AdditiveOnly(k, r) && |r.worlds| == 5
    ensures Current(r.worlds[3].history) == map[m := x]
    ensures Current(r.worlds[4].history) == map[n := y]
  {
    var c: Collection, one: Collection := map[m := x], map[n := y];
    var both := c[n := y];
    SingleRestorable(m, x);
    SavedWhole(k, c);
    MergeFits(both, c, one, k.codec.enc);
    StoreOverwrites(k, both, one, m, n);
    r := AdditiveTwice(k, m, x, n, y, c, both, one);
  }

  lemma ShortNotInherited(n: string)
    requires |n| == 3
    ensures n !in INHERITED
  {
  }

  // Two devices, decks "a_b" and "a/b": the second migration removes the first deck.
  lemma SlashRemovesUnderscore(k: Store, x: Deck, y: Deck, m: string, n: string) returns (r: Run)
    requires ValidStore(k) && m == "a_b" && n == "a/b" && GoodDeck(x) && GoodDeck(y)
    requires Fits(map[m := x], k.codec.enc) && Fits(map[n := y], k.codec.enc)
    ensures AdditiveOnly(k, r) && |r.worlds| == 5
    ensures Current(r.worlds[3].history) == map[m := x]
    ensures Current(r.worlds[4].history) == map[n := y]
  {
    SameStoredName(n, m);
    assert m[1] != n[1];
    ShortNotInherited(m);
    ShortNotInherited(n);
    r := AdditiveRemoves(k, m, x, n, y);
  }

  // --- Exactly the local decks for which a migration keeps everything ---

  // Everything that was in c is in c' as it was, and every local deck whose name was free.
  ghost predicate Added(c: Collection, local: Collection, c': Collection) {
    Includes(c, c') && forall n :: n in local && n !in c ==> n in c' && c'[n] == local[n]
  }

  // All local names bound when the call has returned, and right after its write everything that
  // was stored, with the local decks added.
  ghost predicate Preserved(r: Run, i: nat, local: Collection, p: nat)
    requires i < |r.worlds|
  {
    && local.Keys <= Current(r.worlds[i].history).Keys
    && (p < i ==> Added(Current(r.worlds[p].history), local, Current(r.worlds[p + 1].history)))
  }

  // In every run of migrations whose other writes are restorable.
  ghost predicate AlwaysKeepsAll(k: Store, local: Collection) {
    forall r, i: nat, d, b, p: nat ::
      MigrationsOnly(k, r) && Returned(r, i, d, b, local, p) && RestorableBut(r, i, p) ==> Preserved(r, i, local, p)
  }

  ghost predicate AllPlain(local: Collection) {
    AllGood(local) && forall n :: n in local ==> PlainName(n)
  }

  ghost predicate MergeOf(merged: Collection, c: Collection, local: Collection) {
    forall n :: n in merged ==> (n in c && merged[n] == c[n]) || (n in local && merged[n] == local[n])
  }

  // Plain local decks can join any restorable collection.
  lemma PlainJoins(merged: Collection, c: Collection, local: Collection)
    requires MergeOf(merged, c, local) && Restorable(c) && AllPlain(local)
    ensures Restorable(merged)
  {
    forall m, n | m in merged && n in merged && StoredName(m) == StoredName(n) ensures m == n {
      if n in local {
        PlainUnshared(n, m);
      } else if m in local {
        PlainUnshared(m, n);
      }
    }
  }

  lemma MergeFits(merged: Collection, c: Collection, local: Collection, enc: string -> Bytes)
    requires MergeOf(merged, c, local) && Fits(c, enc) && Fits(local, enc)
    ensures Fits(merged, enc)
  {
  }

  lemma MergedRead(k: Store, merged: Collection, c: Collection, local: Collection) returns (read: Collection)
    requires ValidStore(k) && MergeOf(merged, c, local) && Fits(c, k.codec.enc) && Fits(local, k.codec.enc)
    ensures k.serves(merged, read)
  {
    MergeFits(merged, c, local, k.codec.enc);
    read := StoreReads(k, merged);
  }

  lemma AdditiveMerges(c: Collection, local: Collection)
    ensures MergeOf(Additive(c, local), c, local)
  {
  }

  lemma OverrideMerges(c: Collection, local: Collection)
    ensures MergeOf(Override(c, local), c, local)
  {
  }

  lemma AddedIncludes(c: Collection, local: Collection, c': Collection)
    requires Added(c, local, c')
    ensures Includes(Additive(c, local), c')
  {
  }

  lemma AdditiveAdds(c: Collection, local: Collection)
    requires local.Keys !! INHERITED
    ensures Added(c, local, Additive(c, local))
  {
    forall n | n in local && n !in c ensures n in Missing(c, local) {
    }
  }

  lemma KeepsAllIf(k: Store, r: Run, i: nat, d: Device, b: Base, local: Collection, p: nat)
    requires ValidStore(k) && MigrationsOnly(k, r) && Returned(r, i, d, b, local, p) && RestorableBut(r, i, p)
    requires local.Keys !! INHERITED && AllPlain(local)
    ensures Preserved(r, i, local, p)
  {
    if p < i {
      RestorablePut(k, r, p);
      AdditiveMerges(b.coll, local);
      PlainJoins(Additive(b.coll, local), b.coll, local);
      AdditiveAdds(b.coll, local);
    }
    ReturnedBinds(k, r, i, d, b, local, p, i);
    assert local.Keys - INHERITED == local.Keys;
  }

  lemma LonelyNames(local: Collection)
    ensures Additive(map[], local).Keys == Missing(map[], local) == local.Keys - INHERITED
    ensures forall n :: n in Additive(map[], local) ==> Additive(map[], local)[n] == local[n]
  {
  }

  lemma Promised(k: Store, r: Run, i: nat, d: Device, b: Base, local: Collection, p: nat)
    requires AlwaysKeepsAll(k, local)
    requires MigrationsOnly(k, r) && Returned(r, i, d, b, local, p) && RestorableBut(r, i, p)
    ensures Preserved(r, i, local, p)
  {
  }

  // One device, nothing stored, one migration.
  lemma LonelyIdle(k: Store, local: Collection)
    requires local != map[] && Missing(map[], local) == {}
    ensures !AlwaysKeepsAll(k, local)
  {
    if AlwaysKeepsAll(k, local) {
      var r := StartRun(k);
      Promised(k, r, 1, 0, Base(map[], None), local, 1);
    }
  }

  lemma LonelyPromise(k: Store, local: Collection, c: Collection, read: Collection)
    requires local != map[] && Missing(map[], local) != {} && AlwaysKeepsAll(k, local)
    requires c == Additive(map[], local) && k.serves(c, read)
    ensures Includes(c, read) && local.Keys <= read.Keys
  {
    var r := OneWrite(k, c, read, "\"v1\"");
    LonelyReturned(k, r, local, c);
    Promised(k, r, 2, 0, Base(map[], None), local, 1);
    AddedIncludes(map[], local, read);
  }

  lemma LonelyReturned(k: Store, r: Run, local: Collection, c: Collection)
    requires local != map[] && Missing(map[], local) != {} && c == Additive(map[], local)
    requires IsRun(k, r) && |r.events| == 2 && !r.events[0].Put?
    requires AnsweredPut(r.events[1], 0, Base(map[], None), c) && (0, Base(map[], None)) in r.worlds[2].held
    ensures MigrationsOnly(k, r) && Returned(r, 2, 0, Base(map[], None), local, 1) && RestorableBut(r, 2, 1)
  {
    assert AdditivePut(r.events[1]);
  }

  lemma LonelyMigration(k: Store, local: Collection)
    requires ValidStore(k) && local != map[] && Fits(local, k.codec.enc) && AlwaysKeepsAll(k, local)
    ensures local.Keys !! INHERITED && AllGood(local)
  {
    LonelyNames(local);
    if Missing(map[], local) == {} {
      LonelyIdle(k, local);
    } else {
      var c := Additive(map[], local);
      AdditiveMerges(map[], local);
      var read := MergedRead(k, c, map[], local);
      LonelyPromise(k, local, c, read);
      StoreKeeps(k, c, read);
    }
  }

  lemma NotTogether(merged: Collection, m: string, n: string)
    requires m in merged && n in merged && m != n && Restorable(merged)
    ensures StoredName(m) != StoredName(n)
  {
  }

  // A second device has stored a deck whose name shares a stored name with n.
  lemma SharedMigration(k: Store, local: Collection, m: string, n: string)
    requires ValidStore(k) && Fits(local, k.codec.enc) && AlwaysKeepsAll(k, local)
    requires n in local && n !in INHERITED && Nameable(m) && AsciiText(m) && |m| <= 101 && m != n
    ensures StoredName(m) != StoredName(n)
  {
    var c := SmallStored(k, m);
    var merged := Additive(c, local);
    AdditiveMerges(c, local);
    var read := MergedRead(k, merged, c, local);
    SharedPromise(k, local, c, merged, read, n);
    StoreKeeps(k, merged, read);
    NotTogether(merged, m, n);
  }

  lemma SharedPromise(k: Store, local: Collection, c: Collection, merged: Collection, read: Collection, n: string)
    requires AlwaysKeepsAll(k, local) && n in local && n !in c && n !in INHERITED
    requires c != map[] && Restorable(c) && c == Override(map[], c) && merged == Additive(c, local)
    requires k.serves(c, c) && k.serves(merged, read)
    ensures n in merged && Includes(merged, read)
  {
    assert n in Missing(c, local);
    var r := TwoWrites(k, c, "\"v1\"", merged, read, "\"v2\"");
    SharedRun(k, r, local, c, merged);
    assert AnsweredPut(r.events[3], 1, r.events[3].base, merged);
    Promised(k, r, 4, 1, r.events[3].base, local, 3);
    AddedIncludes(c, local, read);
  }

  // A stored collection of one empty deck.
  lemma SmallStored(k: Store, m: string) returns (c: Collection)
    requires ValidStore(k) && Nameable(m) && AsciiText(m) && |m| <= 101
    ensures c.Keys == {m} && c != map[] && Restorable(c) && Fits(c, k.codec.enc) && k.serves(c, c)
    ensures Override(map[], c) == c
  {
    c := map[m := NOTHING];
    SmallFits(m, k.codec.enc, k.codec.dec);
    SingleRestorable(m, NOTHING);
    SavedWhole(k, c);
    assert m in c;
  }

  lemma SharedPuts(first: Event, second: Event, local: Collection, c: Collection)
    requires first.Put? && first.base.coll == map[] && first.coll == c == Override(map[], c)
    requires second.Put? && second.base.coll == c && second.coll == Additive(c, local)
    requires c != map[] && Missing(c, local) != {}
    ensures OverridePut(first) && AdditivePut(second)
  {
    assert OverrideOf(first, c);
  }

  lemma SharedRun(k: Store, r: Run, local: Collection, c: Collection, merged: Collection)
    requires IsRun(k, r) && |r.events| == 4 && !r.events[0].Put? && !r.events[2].Put?
    requires r.events[1].Put? && r.events[1].base.coll == map[] && r.events[1].coll == c == Override(map[], c)
    requires r.events[3].Put? && r.events[3].base.coll == c && r.events[3].coll == merged == Additive(c, local)
    requires c != map[] && Missing(c, local) != {} && Restorable(c)
    ensures MigrationsOnly(k, r) && RestorableBut(r, 4, 3)
  {
    SharedPuts(r.events[1], r.events[3], local, c);
    FourEvents(k, r);
  }

  lemma FourEvents(k: Store, r: Run)
    requires IsRun(k, r) && |r.events| == 4 && !r.events[0].Put? && !r.events[2].Put?
    requires OverridePut(r.events[1]) && AdditivePut(r.events[3]) && r.events[1].Put? && Restorable(r.events[1].coll)
    ensures MigrationsOnly(k, r) && RestorableBut(r, 4, 3)
  {
  }

  // An additive migration keeps what was stored and binds all local decks, whatever other devices
  // have stored, exactly when no local name is inherited and all local decks are well formed under
  // plain names.
  lemma BindsAllExactly(k: Store, local: Collection)
    requires ValidStore(k) && local != map[] && Fits(local, k.codec.enc)
    ensures AlwaysKeepsAll(k, local) <==> local.Keys !! INHERITED && AllPlain(local)
  {
    if local.Keys !! INHERITED && AllPlain(local) {
      forall r, i: nat, d, b, p: nat | MigrationsOnly(k, r) && Returned(r, i, d, b, local, p) && RestorableBut(r, i, p)
        ensures Preserved(r, i, local, p)
      {
        KeepsAllIf(k, r, i, d, b, local, p);
      }
    }
    if AlwaysKeepsAll(k, local) {
      LonelyMigration(k, local);
      forall n | n in local ensures PlainName(n) {
        if !PlainName(n) {
          var m := Sharer(n);
          SharedMigration(k, local, m, n);
        }
      }
    }
  }

  // --- migrateAll ---

  // A successful migrateAll leaves exactly the collection just before it, overridden by local,
  // when and only when that is restorable.
  lemma OverrideExact(k: Store, r: Run, i: nat, local: Collection)
    requires ValidStore(k) && IsRun(k, r) && i < |r.events| && OverrideOf(r.events[i], local) && RestorableUpTo(r, i)
    ensures Current(r.worlds[i + 1].history) == Override(Current(r.worlds[i].history), local)
       <==> Restorable(Override(Current(r.worlds[i].history), local))
  {
    RestorablePut(k, r, i);
    PutKeepsExactly(k, r, i);
  }

  // Its names stay bound.
  lemma OverrideBinds(k: Store, r: Run, i: nat, local: Collection, j: nat)
    requires ValidStore(k) && MigrationsOnly(k, r) && i < |r.events| && OverrideOf(r.events[i], local)
    requires i < j < |r.worlds| && RestorableUpTo(r, j)
    ensures local.Keys - {"__proto__"} <= Current(r.worlds[j].history).Keys
  {
    RestorableNext(k, r, i);
    NamesStay(k, r, i + 1, j, local.Keys - {"__proto__"});
  }

  // "Every local deck becomes the cloud copy, the others stay", whatever restorable collections
  // were stored before.
  ghost predicate AlwaysOverrides(k: Store, local: Collection) {
    forall r, i: nat :: IsRun(k, r) && i < |r.events| && OverrideOf(r.events[i], local) && RestorableUpTo(r, i) ==>
      Current(r.worlds[i + 1].history) == Current(r.worlds[i].history) + local
  }

  lemma OverridesIf(k: Store, r: Run, i: nat, local: Collection)
    requires ValidStore(k) && IsRun(k, r) && i < |r.events| && OverrideOf(r.events[i], local) && RestorableUpTo(r, i)
    requires AllPlain(local)
    ensures Current(r.worlds[i + 1].history) == Current(r.worlds[i].history) + local
  {
    RestorablePut(k, r, i);
    var c := r.events[i].base.coll;
    OverrideMerges(c, local);
    PlainJoins(Override(c, local), c, local);
    OverrideWhole(c, local);
  }

  lemma OverrideWhole(c: Collection, local: Collection)
    requires "__proto__" !in local
    ensures Override(c, local) == c + local
  {
  }

  lemma PromisedOverride(k: Store, r: Run, i: nat, local: Collection)
    requires AlwaysOverrides(k, local)
    requires IsRun(k, r) && i < |r.events| && OverrideOf(r.events[i], local) && RestorableUpTo(r, i)
    ensures Current(r.worlds[i + 1].history) == Current(r.worlds[i].history) + local
  {
  }

  lemma LonelyOverridden(k: Store, local: Collection, c: Collection, read: Collection)
    requires AlwaysOverrides(k, local) && c == Override(map[], local) && k.serves(c, read)
    ensures read == local
  {
    var r := OneWrite(k, c, read, "\"v1\"");
    PromisedOverride(k, r, 1, local);
    assert map[] + local == local;
  }

  lemma LonelyOverride(k: Store, local: Collection)
    requires ValidStore(k) && Fits(local, k.codec.enc) && AlwaysOverrides(k, local)
    ensures AllGood(local)
  {
    var c := Override(map[], local);
    OverrideMerges(map[], local);
    var read := MergedRead(k, c, map[], local);
    LonelyOverridden(k, local, c, read);
    StoreKeeps(k, c, read);
  }

  lemma SharedOverridden(k: Store, local: Collection, c: Collection, merged: Collection, read: Collection)
    requires AlwaysOverrides(k, local) && merged == Override(c, local) && Restorable(c)
    requires k.serves(c, c) && k.serves(merged, read)
    ensures read == c + local
  {
    var r := TwoWrites(k, c, "\"v1\"", merged, read, "\"v2\"");
    PromisedOverride(k, r, 3, local);
  }

  lemma SharedOverride(k: Store, local: Collection, m: string, n: string)
    requires ValidStore(k) && Fits(local, k.codec.enc) && AlwaysOverrides(k, local) && AllGood(local) && n in local
    requires Nameable(m) && AsciiText(m) && |m| <= 101 && m != n
    ensures StoredName(m) != StoredName(n)
  {
    var c := SmallStored(k, m);
    var merged := Override(c, local);
    OverrideMerges(c, local);
    OverrideWhole(c, local);
    var read := MergedRead(k, merged, c, local);
    SharedOverridden(k, local, c, merged, read);
    StoreKeeps(k, merged, read);
    NotTogether(merged, m, n);
  }

  // migrateAll does what its button says exactly when all local decks are well formed under plain
  // names.
  lemma OverridesExactly(k: Store, local: Collection)
    requires ValidStore(k) && Fits(local, k.codec.enc)
    ensures AlwaysOverrides(k, local) <==> AllPlain(local)
  {
    if AllPlain(local) {
      forall r, i: nat | IsRun(k, r) && i < |r.events| && OverrideOf(r.events[i], local) && RestorableUpTo(r, i)
        ensures Current(r.worlds[i + 1].history) == Current(r.worlds[i].history) + local
      {
        OverridesIf(k, r, i, local);
      }
    }
    if AlwaysOverrides(k, local) {
      LonelyOverride(k, local);
      forall n | n in local ensures PlainName(n) {
        if !PlainName(n) {
          var m := Sharer(n);
          SharedOverride(k, local, m, n);
        }
      }
    }
  }
}
