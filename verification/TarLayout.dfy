// Where everything stands in an archive, by offsets in whole blocks.
module TarLayout {
  import opened Tar

  // The bytes of one member: header, body, and zeros to the end of the block.
  ghost predicate IsEntry(e: Bytes, m: Member) {
    && |e| % BLOCK == 0 && BLOCK + |m.body| <= |e| < BLOCK + |m.body| + BLOCK
    && e[..BLOCK] == Header(m.name, |m.body|) && e[BLOCK..BLOCK + |m.body|] == m.body
    && AllZero(e[BLOCK + |m.body|..])
  }

  lemma ThreeParts(h: Bytes, body: Bytes, pad: Bytes)
    ensures var e := h + body + pad;
      |e| == |h| + |body| + |pad| && e[..|h|] == h && e[|h|..|h| + |body|] == body && e[|h| + |body|..] == pad
  {
  }

  lemma Padded(n: nat)
    ensures (BLOCK + n + PadLength(n)) % BLOCK == 0 && PadLength(n) < BLOCK
  {
  }

  lemma EntryShape(m: Member)
    ensures IsEntry(Entry(m), m)
  {
    ThreeParts(Header(m.name, |m.body|), m.body, NulBytes(PadLength(|m.body|)));
    Padded(|m.body|);
  }

  lemma {:induction false} FlattenBegins(chunks: seq<Bytes>, i: nat)
    requires i <= |chunks|
    ensures Flatten(chunks[..i]) <= Flatten(chunks)
    decreases |chunks|
  {
    if i < |chunks| {
      FlattenBegins(chunks[..|chunks| - 1], i);
      assert chunks[..|chunks| - 1][..i] == chunks[..i];
    } else {
      assert chunks[..i] == chunks;
    }
  }

  lemma FlattenNext(chunks: seq<Bytes>, i: nat)
    requires i < |chunks|
    ensures Flatten(chunks[..i + 1]) == Flatten(chunks[..i]) + chunks[i]
  {
    assert chunks[..i + 1][..i] == chunks[..i];
  }

  // Where chunk i starts.
  function Start(chunks: seq<Bytes>, i: nat): nat
    requires i <= |chunks|
  {
    |Flatten(chunks[..i])|
  }

  lemma ChunkAt(chunks: seq<Bytes>, rest: Bytes, i: nat)
    requires i < |chunks|
    ensures Start(chunks, i) + |chunks[i]| == Start(chunks, i + 1) <= |Flatten(chunks)|
    ensures (Flatten(chunks) + rest)[Start(chunks, i)..Start(chunks, i + 1)] == chunks[i]
  {
    FlattenNext(chunks, i);
    FlattenBegins(chunks, i + 1);
  }

  ghost predicate Aligned(chunks: seq<Bytes>) {
    forall k :: 0 <= k < |chunks| ==> |chunks[k]| % BLOCK == 0
  }

  lemma {:induction false} StartAligned(chunks: seq<Bytes>, i: nat)
    requires i <= |chunks| && Aligned(chunks)
    ensures Start(chunks, i) % BLOCK == 0
  {
    if i > 0 {
      StartAligned(chunks, i - 1);
      FlattenNext(chunks, i - 1);
    }
  }

  lemma EntriesAligned(ms: seq<Member>)
    ensures Aligned(EntryList(ms))
  {
    forall k | 0 <= k < |ms| ensures |EntryList(ms)[k]| % BLOCK == 0 {
      EntryShape(ms[k]);
    }
  }

  lemma EntryIn(chunks: seq<Bytes>, tar: Bytes, i: nat, m: Member)
    requires i < |chunks| && tar == Flatten(chunks) + NulBytes(1024) && chunks[i] == Entry(m) && Aligned(chunks)
    ensures Start(chunks, 0) == 0 && Start(chunks, i) % BLOCK == 0
    ensures Start(chunks, i) <= Start(chunks, i + 1) <= |tar|
    ensures IsEntry(tar[Start(chunks, i)..Start(chunks, i + 1)], m)
  {
    ChunkAt(chunks, NulBytes(1024), i);
    EntryShape(m);
    StartAligned(chunks, i);
  }

  // The members stand one right after another, each in whole blocks of its own.
  lemma PackedAt(ms: seq<Member>, i: nat)
    requires i < |ms|
    ensures var chunks := EntryList(ms);
      && Start(chunks, 0) == 0 && Start(chunks, i) % BLOCK == 0
      && Start(chunks, i) <= Start(chunks, i + 1) <= |Pack(ms)|
      && IsEntry(Pack(ms)[Start(chunks, i)..Start(chunks, i + 1)], ms[i])
  {
    EntriesAligned(ms);
    EntryIn(EntryList(ms), Pack(ms), i, ms[i]);
  }

  // Two blocks of zeros follow the last.
  lemma PackedEnd(ms: seq<Member>)
    ensures var chunks := EntryList(ms);
      Start(chunks, |ms|) + 2 * BLOCK == |Pack(ms)| && AllZero(Pack(ms)[Start(chunks, |ms|)..])
  {
    var chunks := EntryList(ms);
    assert chunks[..|ms|] == chunks;
    assert Pack(ms)[|Flatten(chunks)|..] == NulBytes(1024);
  }
}
