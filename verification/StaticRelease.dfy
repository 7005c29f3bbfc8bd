// The static release of scripts/export_static.py: what is prepared from a post, what is written from
// a snapshot of the archive, and when a stored post reference still matches its row. Hashes are
// injective, so a hash is modelled by what it was taken of.
module StaticRelease {
  import opened Wrappers
  import Ordering

  // ---------------------------------------------------------------- the archive

  // The columns that source_projection_sha256 covers. `content` and `thread` are the hashes of the
  // body and of the comment list; `created` is the parsed source date, which may be missing.
  datatype Fields = Fields(board: string, ext: nat, url: string, title: string, author: Option<string>,
                           category: Option<string>, created: Option<string>, createdRaw: Option<string>,
                           isAa: bool, comments: nat, content: nat, thread: nat, origin: nat, warc: Option<nat>)

  // A row of posts, joined with its latest version when it has one.
  datatype Post = Post(id: nat, fields: Fields, version: Option<nat>, views: nat, availability: string)

  datatype Board = Board(id: string, name: string, group: string, url: string)

  datatype Entry = Entry(position: nat, post: Option<nat>, sourceExt: Option<nat>, title: Option<string>)

  datatype Collection = Collection(id: nat, board: string, kind: string, title: string, entries: seq<Entry>)

  datatype Database = Database(boards: seq<Board>, posts: seq<Post>, collections: seq<Collection>)

  // What the archive's schema enforces, as far as the export relies on it.
  ghost predicate Valid(db: Database) {
    && (forall i, j | 0 <= i < j < |db.boards| :: db.boards[i].id != db.boards[j].id)
    && (forall i, j | 0 <= i < j < |db.posts| ::
          db.posts[i].id != db.posts[j].id && Identity(db.posts[i]) != Identity(db.posts[j]))
    && (forall i | 0 <= i < |db.posts| :: db.posts[i].fields.ext > 0 && KnownBoard(db.boards, db.posts[i].fields.board))
    && (forall i, j | 0 <= i < j < |db.collections| :: db.collections[i].id != db.collections[j].id)
    && (forall i | 0 <= i < |db.collections| ::
          db.collections[i].id > 0 && KnownBoard(db.boards, db.collections[i].board))
    && (forall i, j | 0 <= i < |db.collections| && 0 <= j < |db.collections[i].entries| ::
          EntryFits(db, db.collections[i].entries[j]))
  }

  predicate EntryFits(db: Database, e: Entry) {
    (e.post.Some? ==> Find(db.posts, e.post.value).Some?) && (e.sourceExt.Some? ==> e.sourceExt.value > 0)
  }

  predicate KnownBoard(boards: seq<Board>, id: string) {
    exists i | 0 <= i < |boards| :: boards[i].id == id
  }

  function Identity(p: Post): (string, nat) {
    (p.fields.board, p.fields.ext)
  }

  function Find(posts: seq<Post>, id: nat): (p: Option<Post>)
    ensures p.Some? ==> p.value in posts && p.value.id == id
    ensures p.None? ==> forall i | 0 <= i < |posts| :: posts[i].id != id
  {
    if posts == [] then None
    else if posts[0].id == id then Some(posts[0])
    else Find(posts[1..], id)
  }

  // The posts with a latest version.
  function Captured(posts: seq<Post>): (rows: seq<Post>)
    ensures forall p :: p in rows <==> p in posts && p.version.Some?
  {
    if posts == [] then []
    else if posts[0].version.Some? then
      [posts[0]] + Captured(posts[1..])
    else Captured(posts[1..])
  }

  function OnBoard(rows: seq<Post>, board: string): (page: seq<Post>)
    ensures forall p :: p in page <==> p in rows && p.fields.board == board
  {
    if rows == [] then []
    else if rows[0].fields.board == board then [rows[0]] + OnBoard(rows[1..], board)
    else OnBoard(rows[1..], board)
  }

  // ---------------------------------------------------------------- post references

  // The post object: everything but the parsed date, and the views at the time.
  datatype Payload = Payload(fields: Fields, views: nat)

  datatype Summary = Summary(board: string, ext: nat, title: string, author: Option<string>,
                             category: Option<string>, createdRaw: Option<string>, views: nat, isAa: bool,
                             comments: nat, payload: Payload)

  datatype Ref = Ref(summary: Summary, projection: Fields)

  type Refs = map<(string, nat), Ref>

  // The projection cannot tell a missing date from an empty one.
  function Projection(p: Post): Fields {
    p.fields.(created := Some(if p.fields.created.Some? then p.fields.created.value else ""))
  }

  function PrepareFrom(f: Fields, views: nat): Ref {
    Ref(Summary(f.board, f.ext, f.title, f.author, f.category, f.createdRaw, views, f.isAa, f.comments,
                Payload(f.(created := None), views)), f)
  }

  // _prepare_static_post
  function Prepare(p: Post): Ref {
    PrepareFrom(Projection(p), p.views)
  }

  // Stored references are the ones some export prepared.
  predicate Prepared(ref: Ref) {
    ref == PrepareFrom(ref.projection, ref.summary.views)
  }

  // _post_row_matches_ref
  predicate Matches(p: Post, ref: Ref) {
    var s, f := ref.summary, p.fields;
    && f.board == s.board
    && f.ext == s.ext
    && f.title == s.title
    && f.author == s.author
    && f.category == s.category
    && f.createdRaw == s.createdRaw
    && f.isAa == s.isAa
    && f.comments == s.comments
    && Projection(p) == ref.projection
  }

  // The same post reference apart from the views, in the summary and inside the post object.
  predicate SameSource(a: Ref, b: Ref) {
    a.(summary := a.summary.(views := 0, payload := a.summary.payload.(views := 0)))
    == b.(summary := b.summary.(views := 0, payload := b.summary.payload.(views := 0)))
  }

  // A prepared reference matches a row exactly when preparing the row again would change nothing
  // but the views.
  lemma MatchesIff(p: Post, ref: Ref)
    requires Prepared(ref)
    ensures Matches(p, ref) <==> SameSource(ref, Prepare(p))
  {
    if SameSource(ref, Prepare(p)) {
      assert ref.projection == Prepare(p).projection;
    }
  }

  // ---------------------------------------------------------------- orders

  // ORDER BY of a board page and of the search index. A post is first seen once: seen(id).
  datatype Order = ByNumber | ByDate

  function Codes(s: string): Ordering.Key {
    seq(|s|, i requires 0 <= i < |s| => s[i] as int)
  }

  function Stamp(seen: nat -> string, p: Post): string {
    if p.fields.created.Some? then p.fields.created.value else seen(p.id)
  }

  // a comes before b: newest first.
  predicate Earlier(order: Order, seen: nat -> string, a: Post, b: Post) {
    if order == ByDate && Stamp(seen, a) != Stamp(seen, b) then
      Ordering.Less(Codes(Stamp(seen, b)), Codes(Stamp(seen, a)))
    else if a.fields.ext != b.fields.ext then a.fields.ext > b.fields.ext
    else order == ByDate && Ordering.Less(Codes(b.fields.board), Codes(a.fields.board))
  }

  function Insert(order: Order, seen: nat -> string, p: Post, sorted: seq<Post>): (r: seq<Post>)
    ensures multiset(r) == multiset(sorted) + multiset{p}
    decreases |sorted|
  {
    if sorted == [] then [p]
    else if Earlier(order, seen, p, sorted[0]) then
      var r := [p] + sorted;
      r
    else
      assert sorted == [sorted[0]] + sorted[1..];
      [sorted[0]] + Insert(order, seen, p, sorted[1..])
  }

  function Sort(order: Order, seen: nat -> string, rows: seq<Post>): (r: seq<Post>)
    ensures multiset(r) == multiset(rows)
    decreases |rows|
  {
    if rows == [] then []
    else
      assert rows == [rows[0]] + rows[1..];
      Insert(order, seen, rows[0], Sort(order, seen, rows[1..]))
  }

  ghost predicate Ordered(order: Order, seen: nat -> string, rows: seq<Post>) {
    forall i, j | 0 <= i < j < |rows| :: !Earlier(order, seen, rows[j], rows[i])
  }

  lemma EarlierIsOrder(order: Order, seen: nat -> string, a: Post, b: Post, c: Post)
    ensures !(Earlier(order, seen, a, b) && Earlier(order, seen, b, a))
    ensures Earlier(order, seen, a, b) && Earlier(order, seen, b, c) ==> Earlier(order, seen, a, c)
  {
    Ordering.LessTotal(Codes(Stamp(seen, a)), Codes(Stamp(seen, b)));
    Ordering.LessTotal(Codes(a.fields.board), Codes(b.fields.board));
    if Earlier(order, seen, a, b) && Earlier(order, seen, b, c) {
      EarlierChains(order, seen, a, b, c);
    }
  }

  lemma EarlierChains(order: Order, seen: nat -> string, a: Post, b: Post, c: Post)
    requires Earlier(order, seen, a, b) && Earlier(order, seen, b, c)
    ensures Earlier(order, seen, a, c)
  {
    var x, y, z := Stamp(seen, a), Stamp(seen, b), Stamp(seen, c);
    if order == ByDate && x != y && y != z {
      Ordering.LessTransitive(Codes(z), Codes(y), Codes(x));
      Ordering.LessTotal(Codes(z), Codes(x));
    } else if a.fields.ext == b.fields.ext == c.fields.ext && order == ByDate && x == y == z {
      Ordering.LessTransitive(Codes(c.fields.board), Codes(b.fields.board), Codes(a.fields.board));
    }
  }

  lemma InsertMembers(order: Order, seen: nat -> string, p: Post, sorted: seq<Post>)
    ensures forall q | q in Insert(order, seen, p, sorted) :: q == p || q in sorted
  {
    var r := Insert(order, seen, p, sorted);
    assert multiset(r) == multiset([p] + sorted);
    SameMembers(r, [p] + sorted);
  }

  lemma {:induction false} InsertOrders(order: Order, seen: nat -> string, p: Post, sorted: seq<Post>)
    requires Ordered(order, seen, sorted)
    ensures Ordered(order, seen, Insert(order, seen, p, sorted))
    decreases |sorted|
  {
    if sorted != [] {
      var r := Insert(order, seen, p, sorted);
      if Earlier(order, seen, p, sorted[0]) {
        forall j | 0 <= j < |sorted| ensures !Earlier(order, seen, sorted[j], p) {
          EarlierIsOrder(order, seen, sorted[j], p, sorted[0]);
        }
        assert r == [p] + sorted;
      } else {
        var rest := Insert(order, seen, p, sorted[1..]);
        InsertOrders(order, seen, p, sorted[1..]);
        InsertMembers(order, seen, p, sorted[1..]);
        forall j | 0 <= j < |rest| ensures !Earlier(order, seen, rest[j], sorted[0]) {
          assert rest[j] in rest;
          if rest[j] != p {
            var k :| 0 <= k < |sorted[1..]| && sorted[1..][k] == rest[j];
            assert !Earlier(order, seen, sorted[k + 1], sorted[0]);
          }
        }
        assert r == [sorted[0]] + rest;
      }
    }
  }

  // Pages and search list every row once, newest first.
  lemma {:induction false} SortOrders(order: Order, seen: nat -> string, rows: seq<Post>)
    ensures Ordered(order, seen, Sort(order, seen, rows)) && multiset(Sort(order, seen, rows)) == multiset(rows)
    decreases |rows|
  {
    if rows != [] {
      SortOrders(order, seen, rows[1..]);
      InsertOrders(order, seen, rows[0], Sort(order, seen, rows[1..]));
    }
  }

  lemma SameMembers(a: seq<Post>, b: seq<Post>)
    requires multiset(a) == multiset(b)
    ensures |a| == |b| && forall p :: p in a <==> p in b
  {
    assert |a| == |multiset(a)| && |b| == |multiset(b)|;
    forall p ensures p in a <==> p in b {
      assert p in a <==> p in multiset(a);
      assert p in b <==> p in multiset(b);
    }
  }

  // ---------------------------------------------------------------- boards and search

  datatype Page = Page(board: Board, posts: seq<Ref>)

  datatype Error = MissingObject(post: (string, nat)) | StaleSummary(post: (string, nat)) | CountChanged
                 | NoIdentity | MissingEntryObject(post: (string, nat)) | PositionsNotContiguous

  // The references of these rows, each checked against its row.
  function Emit(rows: seq<Post>, refs: Refs): Result<seq<Ref>, Error>
    decreases |rows|
  {
    if rows == [] then Ok([])
    else if Identity(rows[0]) !in refs then Err(MissingObject(Identity(rows[0])))
    else if !Matches(rows[0], refs[Identity(rows[0])]) then Err(StaleSummary(Identity(rows[0])))
    else
      var rest := Emit(rows[1..], refs);
      if rest.Err? then rest else Ok([refs[Identity(rows[0])]] + rest.value)
  }

  // Every row has a reference that matches it.
  ghost predicate Fresh(rows: seq<Post>, refs: Refs) {
    forall p | p in rows :: Identity(p) in refs && Matches(p, refs[Identity(p)])
  }

  function RefsOf(rows: seq<Post>, refs: Refs): seq<Ref>
    requires Fresh(rows, refs)
  {
    seq(|rows|, i requires 0 <= i < |rows| => assert rows[i] in rows; refs[Identity(rows[i])])
  }

  lemma FreshOneMore(rows: seq<Post>, refs: Refs)
    requires rows != []
    ensures Fresh(rows, refs)
            <==> Identity(rows[0]) in refs && Matches(rows[0], refs[Identity(rows[0])]) && Fresh(rows[1..], refs)
  {
    assert rows[0] in rows && forall p | p in rows[1..] :: p in rows;
    assert forall p | p in rows :: p == rows[0] || p in rows[1..];
  }

  // The staleness errors fire exactly when some row is stale.
  lemma {:induction false} EmitIff(rows: seq<Post>, refs: Refs)
    ensures Emit(rows, refs).Ok? <==> Fresh(rows, refs)
    ensures Fresh(rows, refs) ==> Emit(rows, refs) == Ok(RefsOf(rows, refs))
    decreases |rows|
  {
    if rows != [] {
      EmitIff(rows[1..], refs);
      FreshOneMore(rows, refs);
      if Fresh(rows, refs) {
        assert RefsOf(rows, refs) == [refs[Identity(rows[0])]] + RefsOf(rows[1..], refs);
      }
    } else {
      assert RefsOf(rows, refs) == [];
    }
  }

  function Pages(boards: seq<Board>, rows: seq<Post>, refs: Refs, seen: nat -> string): Result<seq<Page>, Error>
    decreases |boards|
  {
    if boards == [] then Ok([])
    else
      var posts := Emit(Sort(ByNumber, seen, OnBoard(rows, boards[0].id)), refs);
      if posts.Err? then Err(posts.error)
      else
        var rest := Pages(boards[1..], rows, refs, seen);
        if rest.Err? then rest else Ok([Page(boards[0], posts.value)] + rest.value)
  }

  function PostTotal(pages: seq<Page>): nat {
    if pages == [] then 0 else |pages[0].posts| + PostTotal(pages[1..])
  }

  function CommentTotal(rows: seq<Post>): nat {
    if rows == [] then 0 else rows[0].fields.comments + CommentTotal(rows[1..])
  }

  // ---------------------------------------------------------------- collections

  datatype EntryOut = EntryOut(position: nat, board: string, ext: nat, title: Option<string>,
                               availability: string, objectKey: Option<Payload>)

  datatype CollectionOut = CollectionOut(id: nat, board: string, kind: string, title: string, entries: seq<EntryOut>)

  datatype CollectionSummary = CollectionSummary(id: nat, board: string, kind: string, title: string,
                                                 entryCount: nat, unavailable: nat, views: nat, comments: nat)

  datatype Shard = Shard(shard: nat, collections: seq<CollectionOut>)

  datatype Member = Member(ext: nat, collection: nat, position: nat)

  datatype Membership = Membership(board: string, members: seq<Member>, unavailable: seq<nat>)

  datatype Index = Index(summaries: seq<CollectionSummary>, shards: seq<Shard>, memberships: seq<Membership>)

  const SHARDS: nat := 64

  function PostOf(db: Database, e: Entry): Option<Post> {
    if e.post.Some? then Find(db.posts, e.post.value) else None
  }

  // The post summary this release references for an entry.
  function SummaryFor(db: Database, refs: Refs, e: Entry): Option<Summary> {
    var p := PostOf(db, e);
    if p.Some? && p.value.version.Some? && Identity(p.value) in refs then Some(refs[Identity(p.value)].summary)
    else None
  }

  function TitleFor(db: Database, e: Entry): Option<string> {
    var p := PostOf(db, e);
    if e.title.Some? && e.title.value != "" then e.title
    else if p.Some? then Some(p.value.fields.title)
    else None
  }

  // _collection_entry
  function EntryFor(db: Database, refs: Refs, c: Collection, e: Entry): Result<EntryOut, Error> {
    var p := PostOf(db, e);
    var summary := SummaryFor(db, refs, e);
    if p.None? && e.sourceExt.None? then Err(NoIdentity)
    else if p.Some? && p.value.version.Some? && summary.None? then Err(MissingEntryObject(Identity(p.value)))
    else Ok(EntryOut(e.position,
                     if p.Some? then p.value.fields.board else c.board,
                     if p.Some? then p.value.fields.ext else e.sourceExt.value,
                     TitleFor(db, e),
                     if p.Some? then p.value.availability else "missing",
                     if summary.Some? then Some(summary.value.payload) else None))
  }

  function EntriesFor(db: Database, refs: Refs, c: Collection, entries: seq<Entry>, at: nat): Result<seq<EntryOut>,
                      Error>
    decreases |entries|
  {
    if entries == [] then Ok([])
    else
      var first := EntryFor(db, refs, c, entries[0]);
      if first.Err? then Err(first.error)
      else if first.value.position != at then Err(PositionsNotContiguous)
      else
        var rest := EntriesFor(db, refs, c, entries[1..], at + 1);
        if rest.Err? then rest else Ok([first.value] + rest.value)
  }

  function CollectionsFor(db: Database, refs: Refs, cs: seq<Collection>): Result<seq<CollectionOut>, Error>
    decreases |cs|
  {
    if cs == [] then Ok([])
    else
      var entries := EntriesFor(db, refs, cs[0], cs[0].entries, 1);
      if entries.Err? then Err(entries.error)
      else
        var rest := CollectionsFor(db, refs, cs[1..]);
        if rest.Err? then rest
        else Ok([CollectionOut(cs[0].id, cs[0].board, cs[0].kind, cs[0].title, entries.value)] + rest.value)
  }

  function Unavailable(entries: seq<EntryOut>): (exts: seq<nat>)
    ensures |exts| <= |entries|
  {
    if entries == [] then []
    else (if entries[0].objectKey.None? then [entries[0].ext] else []) + Unavailable(entries[1..])
  }

  function ViewTotal(entries: seq<EntryOut>): nat {
    if entries == [] then 0
    else (if entries[0].objectKey.Some? then entries[0].objectKey.value.views else 0) + ViewTotal(entries[1..])
  }

  function ThreadTotal(entries: seq<EntryOut>): nat {
    if entries == [] then 0
    else (if entries[0].objectKey.Some? then entries[0].objectKey.value.fields.comments else 0) + ThreadTotal(entries[1..])
  }

  function SummaryOf(c: CollectionOut): CollectionSummary {
    CollectionSummary(c.id, c.board, c.kind, c.title, |c.entries|, |Unavailable(c.entries)|,
                      ViewTotal(c.entries), ThreadTotal(c.entries))
  }

  function Summaries(cs: seq<CollectionOut>): seq<CollectionSummary> {
    seq(|cs|, i requires 0 <= i < |cs| => SummaryOf(cs[i]))
  }

  function InShard(cs: seq<CollectionOut>, shard: nat): (r: seq<CollectionOut>)
    ensures forall c :: c in r <==> c in cs && c.id % SHARDS == shard
  {
    if cs == [] then []
    else if cs[0].id % SHARDS == shard then [cs[0]] + InShard(cs[1..], shard)
    else InShard(cs[1..], shard)
  }

  // The non-empty shards from `shard` on.
  function ShardsFrom(cs: seq<CollectionOut>, shard: nat): seq<Shard>
    requires shard <= SHARDS
    decreases SHARDS - shard
  {
    if shard == SHARDS then []
    else
      var rest := ShardsFrom(cs, shard + 1);
      if InShard(cs, shard) == [] then rest else [Shard(shard, InShard(cs, shard))] + rest
  }

  function MembersOf(c: CollectionOut): seq<Member> {
    seq(|c.entries|, i requires 0 <= i < |c.entries| => Member(c.entries[i].ext, c.id, c.entries[i].position))
  }

  // The members and the unavailable ones of the collections of one board.
  function BoardMembers(cs: seq<CollectionOut>, board: string): seq<Member> {
    if cs == [] then []
    else (if cs[0].board == board then MembersOf(cs[0]) else []) + BoardMembers(cs[1..], board)
  }

  function BoardUnavailable(cs: seq<CollectionOut>, board: string): seq<nat> {
    if cs == [] then []
    else (if cs[0].board == board then Unavailable(cs[0].entries) else []) + BoardUnavailable(cs[1..], board)
  }

  // One membership object for every board whose collections have entries.
  function Memberships(boards: seq<Board>, cs: seq<CollectionOut>): seq<Membership> {
    if boards == [] then []
    else
      var members := BoardMembers(cs, boards[0].id);
      (if members == [] then [] else [Membership(boards[0].id, members, BoardUnavailable(cs, boards[0].id))])
      + Memberships(boards[1..], cs)
  }

  function EntryTotal(cs: seq<CollectionOut>): nat {
    if cs == [] then 0 else |cs[0].entries| + EntryTotal(cs[1..])
  }

  function IndexOf(boards: seq<Board>, cs: seq<CollectionOut>): Index {
    Index(Summaries(cs), ShardsFrom(cs, 0), Memberships(boards, cs))
  }

  // ---------------------------------------------------------------- the release

  datatype Counts = Counts(posts: nat, comments: nat, boards: nat, collections: nat, entries: nat,
                           unavailablePosts: nat, unavailableComments: nat)

  datatype Release = Release(boards: seq<Page>, search: seq<Summary>, collections: Index, counts: Counts)

  function Bodyless(posts: seq<Post>): seq<Post> {
    if posts == [] then []
    else if posts[0].version.None? then [posts[0]] + Bodyless(posts[1..])
    else Bodyless(posts[1..])
  }

  function SummariesOf(refs: seq<Ref>): seq<Summary> {
    seq(|refs|, i requires 0 <= i < |refs| => refs[i].summary)
  }

  // _write_projection_release
  function Build(db: Database, refs: Refs, seen: nat -> string): Result<Release, Error> {
    var rows, missing := Captured(db.posts), Bodyless(db.posts);
    Assembled(db.boards, Pages(db.boards, rows, refs, seen), Emit(Sort(ByDate, seen, rows), refs),
              CollectionsFor(db, refs, db.collections), (|rows|, CommentTotal(rows)), (|missing|, CommentTotal(missing)))
  }

  // The first stage that fails decides. `rows` and `missing` are post and comment counts.
  function Assembled(boards: seq<Board>, pages: Result<seq<Page>, Error>, search: Result<seq<Ref>, Error>,
                     cs: Result<seq<CollectionOut>, Error>, rows: (nat, nat), missing: (nat, nat))
      : Result<Release, Error>
  {
    if pages.Err? then Err(pages.error)
    else if search.Err? then Err(search.error)
    else if cs.Err? then Err(cs.error)
    else if PostTotal(pages.value) != rows.0 then Err(CountChanged)
    else
      Ok(Release(pages.value, SummariesOf(search.value), IndexOf(boards, cs.value),
                 Counts(PostTotal(pages.value), rows.1, |boards|, |cs.value|, EntryTotal(cs.value), missing.0, missing.1)))
  }

  // What a full export prepares: a reference for every captured post, from its row.
  function PrepareAll(rows: seq<Post>): Refs
    decreases |rows|
  {
    if rows == [] then map[]
    else PrepareAll(rows[..|rows| - 1])[Identity(rows[|rows| - 1]) := Prepare(rows[|rows| - 1])]
  }

  function FullExport(db: Database, seen: nat -> string): Result<Release, Error> {
    Build(db, PrepareAll(Captured(db.posts)), seen)
  }
}
