// When two static releases say the same: equal apart from the views, which the source projection
// leaves out. Building from references that agree this way gives releases that agree.
module ReleaseMeaning {
  import opened Wrappers
  import opened StaticRelease

  // ---------------------------------------------------------------- the same meaning

  predicate SameRefs(a: seq<Ref>, b: seq<Ref>) {
    |a| == |b| && forall i | 0 <= i < |a| :: SameSource(a[i], b[i])
  }

  predicate SamePages(a: seq<Page>, b: seq<Page>) {
    |a| == |b| && forall i | 0 <= i < |a| :: a[i].board == b[i].board && SameRefs(a[i].posts, b[i].posts)
  }

  function Viewless(s: Summary): Summary {
    s.(views := 0, payload := s.payload.(views := 0))
  }

  predicate SameSearch(a: seq<Summary>, b: seq<Summary>) {
    |a| == |b| && forall i | 0 <= i < |a| :: Viewless(a[i]) == Viewless(b[i])
  }

  predicate SameKey(a: Option<Payload>, b: Option<Payload>) {
    (a.None? <==> b.None?) && (a.Some? && b.Some? ==> a.value.(views := 0) == b.value.(views := 0))
  }

  // With `titles` the entries have the same titles; without it, those of entries with no post
  // object may differ.
  predicate SameEntry(titles: bool, a: EntryOut, b: EntryOut) {
    && a.position == b.position && a.board == b.board && a.ext == b.ext && a.availability == b.availability
    && SameKey(a.objectKey, b.objectKey)
    && (titles || a.objectKey.Some? ==> a.title == b.title)
  }

  predicate SameEntries(titles: bool, a: seq<EntryOut>, b: seq<EntryOut>) {
    |a| == |b| && forall i | 0 <= i < |a| :: SameEntry(titles, a[i], b[i])
  }

  predicate SameCollection(titles: bool, a: CollectionOut, b: CollectionOut) {
    a.id == b.id && a.board == b.board && a.kind == b.kind && a.title == b.title
    && SameEntries(titles, a.entries, b.entries)
  }

  predicate SameCollections(titles: bool, a: seq<CollectionOut>, b: seq<CollectionOut>) {
    |a| == |b| && forall i | 0 <= i < |a| :: SameCollection(titles, a[i], b[i])
  }

  predicate SameShards(titles: bool, a: seq<Shard>, b: seq<Shard>) {
    |a| == |b| && forall i | 0 <= i < |a| ::
      a[i].shard == b[i].shard && SameCollections(titles, a[i].collections, b[i].collections)
  }

  predicate SameIndex(titles: bool, a: Index, b: Index) {
    && |a.summaries| == |b.summaries|
    && (forall i | 0 <= i < |a.summaries| :: a.summaries[i].(views := 0) == b.summaries[i].(views := 0))
    && SameShards(titles, a.shards, b.shards)
    && a.memberships == b.memberships
  }

  predicate SameRelease(titles: bool, a: Release, b: Release) {
    SamePages(a.boards, b.boards) && SameSearch(a.search, b.search)
    && SameIndex(titles, a.collections, b.collections) && a.counts == b.counts
  }

  lemma SameReleaseTransitive(titles: bool, a: Release, b: Release, c: Release)
    requires SameRelease(titles, a, b) && SameRelease(titles, b, c)
    ensures SameRelease(titles, a, c)
  {
    forall i | 0 <= i < |a.boards| ensures SameRefs(a.boards[i].posts, c.boards[i].posts) {
    }
    forall i | 0 <= i < |a.collections.shards|
      ensures SameCollections(titles, a.collections.shards[i].collections, c.collections.shards[i].collections)
    {
      SameCollectionsTransitive(titles, a.collections.shards[i].collections, b.collections.shards[i].collections,
                                c.collections.shards[i].collections);
    }
  }

  lemma SameCollectionsTransitive(titles: bool, a: seq<CollectionOut>, b: seq<CollectionOut>, c: seq<CollectionOut>)
    requires SameCollections(titles, a, b) && SameCollections(titles, b, c)
    ensures SameCollections(titles, a, c)
  {
    forall i | 0 <= i < |a| ensures SameCollection(titles, a[i], c[i]) {
      assert SameCollection(titles, a[i], b[i]) && SameCollection(titles, b[i], c[i]);
      forall j | 0 <= j < |a[i].entries| ensures SameEntry(titles, a[i].entries[j], c[i].entries[j]) {
        assert SameEntry(titles, a[i].entries[j], b[i].entries[j]);
        assert SameEntry(titles, b[i].entries[j], c[i].entries[j]);
      }
    }
  }

  // ---------------------------------------------------------------- from references that agree

  // Every one of these rows has a reference in both, the same apart from the views.
  ghost predicate Agree(rows: seq<Post>, a: Refs, b: Refs) {
    forall p | p in rows :: Identity(p) in a && Identity(p) in b && SameSource(a[Identity(p)], b[Identity(p)])
  }

  lemma FreshAgree(rows: seq<Post>, a: Refs, b: Refs)
    requires Fresh(rows, a) && Fresh(rows, b)
    requires forall p | p in rows :: Prepared(a[Identity(p)]) && Prepared(b[Identity(p)])
    ensures Agree(rows, a, b)
  {
    forall p | p in rows ensures Identity(p) in a && Identity(p) in b && SameSource(a[Identity(p)], b[Identity(p)]) {
      MatchesIff(p, a[Identity(p)]);
      MatchesIff(p, b[Identity(p)]);
    }
  }

  lemma EmitAgrees(rows: seq<Post>, a: Refs, b: Refs)
    requires Fresh(rows, a) && Fresh(rows, b) && Agree(rows, a, b)
    ensures Emit(rows, a).Ok? && Emit(rows, b).Ok? && SameRefs(Emit(rows, a).value, Emit(rows, b).value)
    ensures |Emit(rows, a).value| == |rows|
  {
    EmitIff(rows, a);
    EmitIff(rows, b);
    forall i | 0 <= i < |rows| ensures SameSource(RefsOf(rows, a)[i], RefsOf(rows, b)[i]) {
      assert rows[i] in rows;
    }
  }

  lemma {:induction false} PagesAgree(boards: seq<Board>, rows: seq<Post>, a: Refs, b: Refs, seen: nat -> string)
    requires Fresh(rows, a) && Fresh(rows, b) && Agree(rows, a, b)
    ensures Pages(boards, rows, a, seen).Ok? && Pages(boards, rows, b, seen).Ok?
    ensures SamePages(Pages(boards, rows, a, seen).value, Pages(boards, rows, b, seen).value)
    ensures PostTotal(Pages(boards, rows, a, seen).value) == PostTotal(Pages(boards, rows, b, seen).value)
    decreases |boards|
  {
    if boards != [] {
      var page := OnBoard(rows, boards[0].id);
      var sorted := Sort(ByNumber, seen, page);
      SameMembers(sorted, page);
      EmitAgrees(sorted, a, b);
      PagesAgree(boards[1..], rows, a, b, seen);
    }
  }

  // ---------------------------------------------------------------- collections

  // The entry objects agree for every entry.
  ghost predicate EntriesAgree(db: Database, a: Refs, b: Refs) {
    forall e: Entry :: || (SummaryFor(db, a, e).None? && SummaryFor(db, b, e).None?)
                       || (SummaryFor(db, a, e).Some? && SummaryFor(db, b, e).Some?
                           && Viewless(SummaryFor(db, a, e).value) == Viewless(SummaryFor(db, b, e).value))
  }

  lemma AgreeingEntries(db: Database, a: Refs, b: Refs)
    requires Agree(Captured(db.posts), a, b)
    ensures EntriesAgree(db, a, b)
  {
    forall e: Entry
      ensures || (SummaryFor(db, a, e).None? && SummaryFor(db, b, e).None?)
              || (SummaryFor(db, a, e).Some? && SummaryFor(db, b, e).Some?
                  && Viewless(SummaryFor(db, a, e).value) == Viewless(SummaryFor(db, b, e).value))
    {
      var p := PostOf(db, e);
      if p.Some? && p.value.version.Some? {
        assert p.value in Captured(db.posts);
      }
    }
  }

  lemma EntryAgrees(db: Database, a: Refs, b: Refs, c: Collection, e: Entry)
    requires EntriesAgree(db, a, b)
    ensures EntryFor(db, a, c, e).Ok? <==> EntryFor(db, b, c, e).Ok?
    ensures EntryFor(db, a, c, e).Ok? ==> SameEntry(true, EntryFor(db, a, c, e).value, EntryFor(db, b, c, e).value)
  {
    var x, y := SummaryFor(db, a, e), SummaryFor(db, b, e);
    if x.Some? {
      assert Viewless(x.value).payload == Viewless(y.value).payload;
    }
  }

  lemma {:induction false} CollectionEntriesAgree(db: Database, a: Refs, b: Refs, c: Collection, entries: seq<Entry>,
                                                  at: nat)
    requires EntriesAgree(db, a, b)
    ensures var x, y := EntriesFor(db, a, c, entries, at), EntriesFor(db, b, c, entries, at);
            (x.Ok? <==> y.Ok?) && (x.Ok? ==> SameEntries(true, x.value, y.value))
    decreases |entries|
  {
    if entries != [] {
      EntryAgrees(db, a, b, c, entries[0]);
      CollectionEntriesAgree(db, a, b, c, entries[1..], at + 1);
    }
  }

  lemma {:induction false} CollectionsAgree(db: Database, a: Refs, b: Refs, cs: seq<Collection>)
    requires EntriesAgree(db, a, b)
    ensures var x, y := CollectionsFor(db, a, cs), CollectionsFor(db, b, cs);
            (x.Ok? <==> y.Ok?) && (x.Ok? ==> SameCollections(true, x.value, y.value))
    decreases |cs|
  {
    if cs != [] {
      CollectionEntriesAgree(db, a, b, cs[0], cs[0].entries, 1);
      CollectionsAgree(db, a, b, cs[1..]);
    }
  }

  // ---------------------------------------------------------------- the collection index

  lemma {:induction false} SameUnavailable(titles: bool, a: seq<EntryOut>, b: seq<EntryOut>)
    requires SameEntries(titles, a, b)
    ensures Unavailable(a) == Unavailable(b) && ThreadTotal(a) == ThreadTotal(b)
    decreases |a|
  {
    if a != [] {
      assert SameEntry(titles, a[0], b[0]);
      if a[0].objectKey.Some? {
        assert a[0].objectKey.value.(views := 0).fields == b[0].objectKey.value.(views := 0).fields;
      }
      assert forall i | 0 <= i < |a[1..]| :: SameEntry(titles, a[1..][i], b[1..][i]) by {
        forall i | 0 <= i < |a[1..]| ensures SameEntry(titles, a[1..][i], b[1..][i]) {
          assert SameEntry(titles, a[i + 1], b[i + 1]);
        }
      }
      SameUnavailable(titles, a[1..], b[1..]);
    }
  }

  lemma SameTail(titles: bool, a: seq<CollectionOut>, b: seq<CollectionOut>)
    requires SameCollections(titles, a, b) && a != []
    ensures SameCollection(titles, a[0], b[0]) && SameCollections(titles, a[1..], b[1..])
  {
    forall i | 0 <= i < |a| - 1 ensures SameCollection(titles, a[1..][i], b[1..][i]) {
      assert SameCollection(titles, a[i + 1], b[i + 1]);
    }
  }

  lemma {:induction false} SameInShard(titles: bool, a: seq<CollectionOut>, b: seq<CollectionOut>, shard: nat)
    requires SameCollections(titles, a, b)
    ensures SameCollections(titles, InShard(a, shard), InShard(b, shard))
    decreases |a|
  {
    if a != [] {
      SameTail(titles, a, b);
      SameInShard(titles, a[1..], b[1..], shard);
      if a[0].id % SHARDS == shard {
        OneMoreCollection(titles, a[0], b[0], InShard(a[1..], shard), InShard(b[1..], shard));
      }
    }
  }

  lemma OneMoreCollection(titles: bool, x: CollectionOut, y: CollectionOut, a: seq<CollectionOut>,
                          b: seq<CollectionOut>)
    requires SameCollection(titles, x, y) && SameCollections(titles, a, b)
    ensures SameCollections(titles, [x] + a, [y] + b)
  {
  }

  lemma {:induction false} SameShardsFrom(titles: bool, a: seq<CollectionOut>, b: seq<CollectionOut>, shard: nat)
    requires SameCollections(titles, a, b) && shard <= SHARDS
    ensures SameShards(titles, ShardsFrom(a, shard), ShardsFrom(b, shard))
    decreases SHARDS - shard
  {
    if shard < SHARDS {
      SameInShard(titles, a, b, shard);
      SameShardsFrom(titles, a, b, shard + 1);
      var x, y := InShard(a, shard), InShard(b, shard);
      assert x == [] <==> y == [];
      if x != [] {
        OneMoreShard(titles, Shard(shard, x), Shard(shard, y), ShardsFrom(a, shard + 1), ShardsFrom(b, shard + 1));
      }
    }
  }

  lemma OneMoreShard(titles: bool, x: Shard, y: Shard, a: seq<Shard>, b: seq<Shard>)
    requires x.shard == y.shard && SameCollections(titles, x.collections, y.collections) && SameShards(titles, a, b)
    ensures SameShards(titles, [x] + a, [y] + b)
  {
  }

  lemma {:induction false} SameBoardMembers(titles: bool, a: seq<CollectionOut>, b: seq<CollectionOut>, board: string)
    requires SameCollections(titles, a, b)
    ensures BoardMembers(a, board) == BoardMembers(b, board)
    ensures BoardUnavailable(a, board) == BoardUnavailable(b, board)
    decreases |a|
  {
    if a != [] {
      SameTail(titles, a, b);
      SameBoardMembers(titles, a[1..], b[1..], board);
      SameUnavailable(titles, a[0].entries, b[0].entries);
      assert MembersOf(a[0]) == MembersOf(b[0]) by {
        forall i | 0 <= i < |a[0].entries| ensures MembersOf(a[0])[i] == MembersOf(b[0])[i] {
          assert SameEntry(titles, a[0].entries[i], b[0].entries[i]);
        }
      }
    }
  }

  lemma {:induction false} SameMemberships(titles: bool, boards: seq<Board>, a: seq<CollectionOut>,
                                           b: seq<CollectionOut>)
    requires SameCollections(titles, a, b)
    ensures Memberships(boards, a) == Memberships(boards, b)
    decreases |boards|
  {
    if boards != [] {
      SameBoardMembers(titles, a, b, boards[0].id);
      SameMemberships(titles, boards[1..], a, b);
    }
  }

  lemma SameIndexOf(titles: bool, boards: seq<Board>, a: seq<CollectionOut>, b: seq<CollectionOut>)
    requires SameCollections(titles, a, b)
    ensures SameIndex(titles, IndexOf(boards, a), IndexOf(boards, b))
  {
    forall i | 0 <= i < |a| ensures SummaryOf(a[i]).(views := 0) == SummaryOf(b[i]).(views := 0) {
      assert SameCollection(titles, a[i], b[i]);
      SameUnavailable(titles, a[i].entries, b[i].entries);
    }
    SameShardsFrom(titles, a, b, 0);
    SameMemberships(titles, boards, a, b);
  }

  lemma {:induction false} SameEntryTotal(titles: bool, a: seq<CollectionOut>, b: seq<CollectionOut>)
    requires SameCollections(titles, a, b)
    ensures EntryTotal(a) == EntryTotal(b)
    decreases |a|
  {
    if a != [] {
      SameTail(titles, a, b);
      SameEntryTotal(titles, a[1..], b[1..]);
    }
  }

  // ---------------------------------------------------------------- whole releases

  // Built from references that are fresh and agree, two releases of one snapshot say the same, and
  // either both builds succeed or neither does.
  lemma BuildsAgree(db: Database, a: Refs, b: Refs, seen: nat -> string)
    requires Fresh(Captured(db.posts), a) && Fresh(Captured(db.posts), b) && Agree(Captured(db.posts), a, b)
    ensures Build(db, a, seen).Ok? <==> Build(db, b, seen).Ok?
    ensures Build(db, a, seen).Ok? ==> SameRelease(true, Build(db, a, seen).value, Build(db, b, seen).value)
  {
    var rows := Captured(db.posts);
    PagesAgree(db.boards, rows, a, b, seen);
    var sorted := Sort(ByDate, seen, rows);
    SameMembers(sorted, rows);
    EmitAgrees(sorted, a, b);
    SearchAgrees(Emit(sorted, a).value, Emit(sorted, b).value);
    AgreeingEntries(db, a, b);
    CollectionsAgree(db, a, b, db.collections);
    if CollectionsFor(db, a, db.collections).Ok? {
      SameIndexOf(true, db.boards, CollectionsFor(db, a, db.collections).value, CollectionsFor(db, b, db.collections).value);
      SameEntryTotal(true, CollectionsFor(db, a, db.collections).value, CollectionsFor(db, b, db.collections).value);
    }
  }

  lemma SearchAgrees(a: seq<Ref>, b: seq<Ref>)
    requires SameRefs(a, b)
    ensures SameSearch(SummariesOf(a), SummariesOf(b))
  {
    forall i | 0 <= i < |a| ensures Viewless(a[i].summary) == Viewless(b[i].summary) {
      assert SameSource(a[i], b[i]);
    }
  }
}
