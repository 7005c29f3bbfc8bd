// What a full export says: every captured post in its page and in search with the columns of its row, and
// every collection with its entries, said over the archive alone. The incremental results are about
// saying the same as this.
module ReleaseContents {
  import opened Wrappers
  import opened StaticRelease
  import opened Incremental
  import O = ReleaseOrder

  // ---------------------------------------------------------------- posts

  // The listing of a post: its columns, the views, and the post object, which leaves out the parsed date.
  predicate Lists(s: Summary, p: Post) {
    && s.board == p.fields.board && s.ext == p.fields.ext && s.title == p.fields.title
    && s.author == p.fields.author && s.category == p.fields.category && s.createdRaw == p.fields.createdRaw
    && s.views == p.views && s.isAa == p.fields.isAa && s.comments == p.fields.comments
    && s.payload.views == p.views && s.payload.fields == p.fields.(created := None)
  }

  lemma FullRefs(rows: seq<Post>, p: Post)
    requires Distinct(rows) && p in rows
    ensures Identity(p) in PrepareAll(rows) && Lists(PrepareAll(rows)[Identity(p)].summary, p)
  {
    var ids := set q | q in rows :: q.id;
    FullIsRepreparingAll(rows, ids);
    var i :| 0 <= i < |rows| && rows[i] == p;
    assert p.id in ids;
    ReprepareAt(rows, ids, map[], i);
  }

  // Every captured post has its own reference.
  ghost predicate RefsSay(db: Database, refs: Refs) {
    forall p | p in db.posts && p.version.Some? :: Says(refs, p)
  }

  predicate Says(refs: Refs, p: Post) {
    Identity(p) in refs && Lists(refs[Identity(p)].summary, p)
  }

  lemma FullRefsSay(db: Database)
    requires Valid(db)
    ensures RefsSay(db, PrepareAll(Captured(db.posts)))
  {
    CapturedRows(db);
    forall p | p in db.posts && p.version.Some? ensures Says(PrepareAll(Captured(db.posts)), p) {
      FullRefs(Captured(db.posts), p);
    }
  }

  // A captured post is in the page of its board.
  lemma PostIsOnItsPage(db: Database, seen: nat -> string, p: Post) returns (i: nat, j: nat)
    requires Valid(db) && FullExport(db, seen).Ok? && p in db.posts && p.version.Some?
    ensures var pages := FullExport(db, seen).value.boards;
            && i < |pages| && pages[i].board.id == p.fields.board && pages[i].board in db.boards
            && j < |pages[i].posts| && Lists(pages[i].posts[j].summary, p)
  {
    var rows := Captured(db.posts);
    var refs := PrepareAll(rows);
    CapturedRows(db);
    O.PagesAreNewestFirst(db, refs, seen);
    assert p in rows;
    i :| 0 <= i < |db.boards| && db.boards[i].id == p.fields.board;
    j := InPage(FullExport(db, seen).value.boards[i], db.boards[i].id, rows, refs, p);
    FullRefs(rows, p);
  }

  lemma InPage(page: Page, board: string, rows: seq<Post>, refs: Refs, p: Post) returns (j: nat)
    requires O.PageInOrder(page, board, rows, refs) && p in rows && p.fields.board == board
    ensures j < |page.posts| && Identity(p) in refs && page.posts[j] == refs[Identity(p)]
  {
    j :| 0 <= j < |page.posts| && O.StandsFor(page.posts[j], p, board, refs);
  }

  // And a page lists nothing else.
  lemma PagesListPosts(db: Database, seen: nat -> string, i: nat, j: nat) returns (p: Post)
    requires Valid(db) && FullExport(db, seen).Ok? && i < |FullExport(db, seen).value.boards|
    requires j < |FullExport(db, seen).value.boards[i].posts|
    ensures var page := FullExport(db, seen).value.boards[i];
            && p in db.posts && p.version.Some? && p.fields.board == page.board.id && Lists(page.posts[j].summary, p)
  {
    var rows := Captured(db.posts);
    var refs := PrepareAll(rows);
    CapturedRows(db);
    O.PagesAreNewestFirst(db, refs, seen);
    var page := FullExport(db, seen).value.boards[i];
    assert O.StandsForSome(page.posts[j], rows, db.boards[i].id, refs);
    p :| p in rows && O.StandsFor(page.posts[j], p, db.boards[i].id, refs);
    FullRefs(rows, p);
  }

  // The search index lists every captured post once, in the order of ReleaseOrder.
  lemma SearchListsPosts(db: Database, seen: nat -> string) returns (rows: seq<Post>)
    requires Valid(db) && FullExport(db, seen).Ok?
    ensures var search := FullExport(db, seen).value.search;
            && |rows| == |search| && multiset(rows) == multiset(Captured(db.posts))
            && forall i | 0 <= i < |rows| :: Lists(search[i], rows[i])
  {
    var all := Captured(db.posts);
    CapturedRows(db);
    rows := O.SearchIsNewestFirst(db, PrepareAll(all), seen);
    SameMembers(rows, all);
    forall i | 0 <= i < |rows| ensures Lists(FullExport(db, seen).value.search[i], rows[i]) {
      assert rows[i] in rows;
      FullRefs(all, rows[i]);
    }
  }

  // ---------------------------------------------------------------- collections

  // What an entry shows: the linked post's identity, availability and, when it has a body, its object;
  // or the number it was made from, as missing. A title of its own comes first.
  ghost predicate Shows(db: Database, c: Collection, e: Entry, out: EntryOut) {
    && out.position == e.position
    && if e.post.Some? then
         exists p :: p in db.posts && p.id == e.post.value && ShowsPost(e, p, out)
       else
         && out.board == c.board && e.sourceExt == Some(out.ext) && out.availability == "missing" && out.objectKey.None?
         && out.title == (if e.title == Some("") then None else e.title)
  }

  predicate ShowsPost(e: Entry, p: Post, out: EntryOut) {
    && out.board == p.fields.board && out.ext == p.fields.ext && out.availability == p.availability
    && out.title == (if e.title.Some? && e.title.value != "" then e.title else Some(p.fields.title))
    && (out.objectKey.Some? <==> p.version.Some?)
    && (out.objectKey.Some? ==> out.objectKey.value.views == p.views && out.objectKey.value.fields == p.fields.(created := None))
  }

  ghost predicate ShowsAll(db: Database, c: Collection, out: CollectionOut) {
    && out.id == c.id && out.board == c.board && out.kind == c.kind && out.title == c.title
    && EntriesShown(db, c, c.entries, out.entries)
  }

  lemma EntryShows(db: Database, refs: Refs, c: Collection, e: Entry)
    requires RefsSay(db, refs) && EntryFits(db, e)
    ensures var r := EntryFor(db, refs, c, e);
            && (r.Ok? <==> e.post.Some? || e.sourceExt.Some?)
            && (r.Ok? ==> r.value.position == e.position && Shows(db, c, e, r.value))
  {
    if e.post.Some? {
      var p := Find(db.posts, e.post.value).value;
      assert p.version.Some? ==> Says(refs, p);
      assert ShowsPost(e, p, EntryFor(db, refs, c, e).value);
    }
  }

  // Positions count on from `at`, and every entry links a post or names the one it was made from.
  predicate InPlace(entries: seq<Entry>, at: nat) {
    forall k | 0 <= k < |entries| ::
      entries[k].position == at + k && (entries[k].post.Some? || entries[k].sourceExt.Some?)
  }

  lemma {:induction false} EntriesShow(db: Database, refs: Refs, c: Collection, entries: seq<Entry>, at: nat)
    requires RefsSay(db, refs) && forall k | 0 <= k < |entries| :: EntryFits(db, entries[k])
    ensures var r := EntriesFor(db, refs, c, entries, at);
            && (r.Ok? <==> InPlace(entries, at))
            && (r.Ok? ==> EntriesShown(db, c, entries, r.value))
    decreases |entries|
  {
    if entries != [] {
      assert forall k | 0 <= k < |entries| - 1 :: entries[1..][k] == entries[k + 1];
      EntriesShow(db, refs, c, entries[1..], at + 1);
      EntryShows(db, refs, c, entries[0]);
      InPlaceTail(entries, at);
      OneMoreShown(db, c, entries, EntriesFor(db, refs, c, entries, at), EntriesFor(db, refs, c, entries[1..], at + 1),
                   EntryFor(db, refs, c, entries[0]));
    }
  }

  ghost predicate EntriesShown(db: Database, c: Collection, entries: seq<Entry>, out: seq<EntryOut>) {
    |out| == |entries| && forall k | 0 <= k < |entries| :: Shows(db, c, entries[k], out[k])
  }

  lemma OneMoreShown(db: Database, c: Collection, entries: seq<Entry>, r: Result<seq<EntryOut>, Error>,
                     rest: Result<seq<EntryOut>, Error>, first: Result<EntryOut, Error>)
    requires entries != [] && (rest.Ok? ==> EntriesShown(db, c, entries[1..], rest.value))
    requires first.Ok? ==> Shows(db, c, entries[0], first.value)
    requires r.Ok? ==> rest.Ok? && first.Ok? && r.value == [first.value] + rest.value
    ensures r.Ok? ==> EntriesShown(db, c, entries, r.value)
  {
    if r.Ok? {
      forall k | 0 <= k < |entries| ensures Shows(db, c, entries[k], r.value[k]) {
        if k > 0 {
          assert entries[1..][k - 1] == entries[k] && rest.value[k - 1] == r.value[k];
        }
      }
    }
  }

  lemma InPlaceTail(entries: seq<Entry>, at: nat)
    requires entries != []
    ensures InPlace(entries, at)
       <==> && entries[0].position == at && (entries[0].post.Some? || entries[0].sourceExt.Some?)
            && InPlace(entries[1..], at + 1)
  {
    if InPlace(entries[1..], at + 1) && entries[0].position == at && (entries[0].post.Some? || entries[0].sourceExt.Some?) {
      forall k | 0 <= k < |entries|
        ensures entries[k].position == at + k && (entries[k].post.Some? || entries[k].sourceExt.Some?)
      {
        if k > 0 {
          assert entries[1..][k - 1] == entries[k];
        }
      }
    }
  }

  ghost predicate AllInPlace(cs: seq<Collection>) {
    forall i | 0 <= i < |cs| :: InPlace(cs[i].entries, 1)
  }

  ghost predicate AllFit(db: Database, cs: seq<Collection>) {
    forall i, j | 0 <= i < |cs| && 0 <= j < |cs[i].entries| :: EntryFits(db, cs[i].entries[j])
  }

  ghost predicate AllShown(db: Database, cs: seq<Collection>, out: seq<CollectionOut>) {
    |out| == |cs| && forall i | 0 <= i < |cs| :: ShowsAll(db, cs[i], out[i])
  }

  lemma {:induction false} CollectionsShow(db: Database, refs: Refs, cs: seq<Collection>)
    requires RefsSay(db, refs) && AllFit(db, cs)
    ensures var r := CollectionsFor(db, refs, cs);
            && (r.Ok? <==> AllInPlace(cs)) && (r.Ok? ==> AllShown(db, cs, r.value))
    decreases |cs|
  {
    if cs != [] {
      assert forall i | 0 <= i < |cs| - 1 :: cs[1..][i] == cs[i + 1];
      CollectionsShow(db, refs, cs[1..]);
      EntriesShow(db, refs, cs[0], cs[0].entries, 1);
    }
  }

  // A full export succeeds if and only if every collection's entries stand at 1, 2, 3, ... and each links
  // a post or names the one it was made from.
  lemma FullExportIff(db: Database, seen: nat -> string)
    requires Valid(db)
    ensures FullExport(db, seen).Ok? <==> AllInPlace(db.collections)
  {
    CapturedRows(db);
    FullIsFresh(Captured(db.posts));
    FreshBuildsOrCollections(db, PrepareAll(Captured(db.posts)), seen);
    FullRefsSay(db);
    CollectionsShow(db, PrepareAll(Captured(db.posts)), db.collections);
  }

  // ---------------------------------------------------------------- the index

  // Its objects are spread over 64 shards by id, in rising order; a summary counts the entries and those
  // without an object; and a board's members are the entries of the collections on it.
  ghost predicate IndexSays(index: Index, boards: seq<Board>, cs: seq<CollectionOut>) {
    && ShardsHold(index.shards, cs) && SummariesCount(index.summaries, cs) && MembershipsHold(index.memberships, boards, cs)
  }

  ghost predicate ShardsHold(shards: seq<Shard>, cs: seq<CollectionOut>) {
    && (forall c | c in cs :: InItsShard(shards, c))
    && (forall i, c | 0 <= i < |shards| && c in shards[i].collections :: c in cs && c.id % 64 == shards[i].shard)
    && (forall i, j | 0 <= i < j < |shards| :: shards[i].shard < shards[j].shard)
  }

  ghost predicate SummariesCount(summaries: seq<CollectionSummary>, cs: seq<CollectionOut>) {
    |summaries| == |cs| && forall i | 0 <= i < |cs| :: Sums(summaries[i], cs[i])
  }

  ghost predicate MembershipsHold(memberships: seq<Membership>, boards: seq<Board>, cs: seq<CollectionOut>) {
    && (forall i | 0 <= i < |memberships| :: MembersSay(memberships[i], cs))
    && (forall b | b in boards && HasEntries(cs, b.id) :: IsListed(memberships, b.id))
  }

  ghost predicate InItsShard(shards: seq<Shard>, c: CollectionOut) {
    exists i :: 0 <= i < |shards| && shards[i].shard == c.id % 64 && c in shards[i].collections
  }

  predicate Sums(s: CollectionSummary, c: CollectionOut) {
    && s.id == c.id && s.board == c.board && s.kind == c.kind && s.title == c.title && s.entryCount == |c.entries|
    && s.unavailable == |set k | 0 <= k < |c.entries| && c.entries[k].objectKey.None?|
  }

  predicate IsEntryOf(cs: seq<CollectionOut>, board: string, m: Member) {
    exists c, k | c in cs && 0 <= k < |c.entries| ::
      c.board == board && m == Member(c.entries[k].ext, c.id, c.entries[k].position)
  }

  ghost predicate MembersSay(m: Membership, cs: seq<CollectionOut>) {
    forall x :: x in m.members <==> IsEntryOf(cs, m.board, x)
  }

  predicate HasEntries(cs: seq<CollectionOut>, board: string) {
    exists c :: c in cs && c.board == board && c.entries != []
  }

  predicate IsListed(memberships: seq<Membership>, board: string) {
    exists i :: 0 <= i < |memberships| && memberships[i].board == board
  }

  lemma {:induction false} UnavailableJoin(a: seq<EntryOut>, e: EntryOut)
    ensures |Unavailable(a + [e])| == |Unavailable(a)| + if e.objectKey.None? then 1 else 0
    decreases |a|
  {
    if a == [] {
      assert a + [e] == [e] && [e][1..] == [];
    } else {
      assert (a + [e])[1..] == a[1..] + [e];
      UnavailableJoin(a[1..], e);
    }
  }

  lemma {:induction false} UnavailableCount(entries: seq<EntryOut>)
    ensures |Unavailable(entries)| == |set k | 0 <= k < |entries| && entries[k].objectKey.None?|
    decreases |entries|
  {
    if entries != [] {
      var front, last := entries[..|entries| - 1], entries[|entries| - 1];
      assert entries == front + [last];
      UnavailableJoin(front, last);
      UnavailableCount(front);
      var a := set k | 0 <= k < |front| && front[k].objectKey.None?;
      var b := set k | 0 <= k < |entries| && entries[k].objectKey.None?;
      assert b == if last.objectKey.None? then a + {|entries| - 1} else a;
    }
  }

  ghost predicate ShardsAre(r: seq<Shard>, cs: seq<CollectionOut>, from: nat) {
    && (forall i | 0 <= i < |r| :: ShardIs(r[i], cs, from))
    && (forall i, j | 0 <= i < j < |r| :: r[i].shard < r[j].shard)
  }

  predicate ShardIs(s: Shard, cs: seq<CollectionOut>, from: nat) {
    from <= s.shard < 64 && s.collections == InShard(cs, s.shard)
  }

  lemma OneShardMore(rest: seq<Shard>, cs: seq<CollectionOut>, from: nat)
    requires ShardsAre(rest, cs, from + 1) && from < 64
    ensures ShardsAre(rest, cs, from) && ShardsAre([Shard(from, InShard(cs, from))] + rest, cs, from)
  {
    var r := [Shard(from, InShard(cs, from))] + rest;
    forall i | 0 <= i < |rest| ensures ShardIs(rest[i], cs, from) && rest[i].shard > from {
      assert ShardIs(rest[i], cs, from + 1);
    }
    forall i | 0 <= i < |r| ensures ShardIs(r[i], cs, from) {
      assert i > 0 ==> r[i] == rest[i - 1];
    }
  }

  lemma {:induction false} ShardsInOrder(cs: seq<CollectionOut>, shard: nat)
    requires shard <= SHARDS
    ensures ShardsAre(ShardsFrom(cs, shard), cs, shard)
    decreases SHARDS - shard
  {
    if shard < SHARDS {
      ShardsInOrder(cs, shard + 1);
      OneShardMore(ShardsFrom(cs, shard + 1), cs, shard);
    }
  }

  lemma {:induction false} ItsShardIsThere(cs: seq<CollectionOut>, shard: nat, c: CollectionOut)
    requires shard <= SHARDS && c in cs && c.id % 64 >= shard
    ensures InItsShard(ShardsFrom(cs, shard), c)
    decreases SHARDS - shard
  {
    var r := ShardsFrom(cs, shard);
    if c.id % 64 == shard {
      assert c in InShard(cs, shard);
      assert r[0] == Shard(shard, InShard(cs, shard));
    } else {
      ItsShardIsThere(cs, shard + 1, c);
      var rest := ShardsFrom(cs, shard + 1);
      var i :| 0 <= i < |rest| && rest[i].shard == c.id % 64 && c in rest[i].collections;
      assert r[i + (|r| - |rest|)] == rest[i];
    }
  }

  lemma ShardsSay(cs: seq<CollectionOut>)
    ensures ShardsHold(ShardsFrom(cs, 0), cs)
  {
    ShardsInOrder(cs, 0);
    var r := ShardsFrom(cs, 0);
    forall i, c | 0 <= i < |r| && c in r[i].collections ensures c in cs && c.id % 64 == r[i].shard {
      assert ShardIs(r[i], cs, 0);
    }
    forall c | c in cs ensures InItsShard(ShardsFrom(cs, 0), c) { ItsShardIsThere(cs, 0, c); }
  }

  lemma {:induction false} BoardMembersSay(cs: seq<CollectionOut>, board: string, x: Member)
    ensures x in BoardMembers(cs, board) <==> IsEntryOf(cs, board, x)
    decreases |cs|
  {
    if cs != [] {
      BoardMembersSay(cs[1..], board, x);
      assert forall c :: c in cs <==> c == cs[0] || c in cs[1..];
      if x in MembersOf(cs[0]) {
        var k :| 0 <= k < |MembersOf(cs[0])| && MembersOf(cs[0])[k] == x;
        assert x == Member(cs[0].entries[k].ext, cs[0].id, cs[0].entries[k].position);
      }
      if IsEntryOf(cs, board, x) {
        var c, k :| c in cs && 0 <= k < |c.entries| && c.board == board
                    && x == Member(c.entries[k].ext, c.id, c.entries[k].position);
        if c == cs[0] {
          assert MembersOf(cs[0])[k] == x;
        }
      }
    }
  }

  lemma {:induction false} MembershipsSay(boards: seq<Board>, cs: seq<CollectionOut>)
    ensures MembershipsHold(Memberships(boards, cs), boards, cs)
    decreases |boards|
  {
    if boards != [] {
      var rest, r := Memberships(boards[1..], cs), Memberships(boards, cs);
      MembershipsSay(boards[1..], cs);
      forall x ensures x in BoardMembers(cs, boards[0].id) <==> IsEntryOf(cs, boards[0].id, x) {
        BoardMembersSay(cs, boards[0].id, x);
      }
      forall b | b in boards && HasEntries(cs, b.id) ensures IsListed(r, b.id) {
        if b == boards[0] {
          var c :| c in cs && c.board == b.id && c.entries != [];
          assert IsEntryOf(cs, b.id, Member(c.entries[0].ext, c.id, c.entries[0].position));
          assert r[0].board == b.id;
        } else {
          var i :| 0 <= i < |rest| && rest[i].board == b.id;
          assert r[i + (|r| - |rest|)] == rest[i];
        }
      }
    }
  }

  lemma SummariesSay(cs: seq<CollectionOut>)
    ensures SummariesCount(Summaries(cs), cs)
  {
    forall i | 0 <= i < |cs| ensures Sums(Summaries(cs)[i], cs[i]) {
      UnavailableCount(cs[i].entries);
    }
  }

  lemma IndexIs(boards: seq<Board>, cs: seq<CollectionOut>)
    ensures IndexSays(IndexOf(boards, cs), boards, cs)
  {
    ShardsSay(cs);
    SummariesSay(cs);
    MembershipsSay(boards, cs);
  }

  // The collections of a full export: every collection of the archive with all of its entries, in order.
  lemma FullExportShowsCollections(db: Database, seen: nat -> string) returns (cs: seq<CollectionOut>)
    requires Valid(db) && FullExport(db, seen).Ok?
    ensures AllShown(db, db.collections, cs) && IndexSays(FullExport(db, seen).value.collections, db.boards, cs)
  {
    var refs := PrepareAll(Captured(db.posts));
    BuildParts(db, refs, seen);
    FullRefsSay(db);
    CollectionsShow(db, refs, db.collections);
    cs := CollectionsFor(db, refs, db.collections).value;
    IndexIs(db.boards, cs);
  }
}
