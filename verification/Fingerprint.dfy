// The no-op shortcut of the incremental export: what the content fingerprint of a snapshot covers,
// and what therefore stays true of a release that is kept because the fingerprint did not change.
module Fingerprint {
  import opened Wrappers
  import opened StaticRelease
  import opened ReleaseMeaning
  import opened Incremental

  // A row of post-topology-v1.
  datatype Place = Place(id: nat, board: string, ext: nat, availability: string, captured: bool)

  // A row of posts-v1.
  datatype Projected = Projected(id: nat, version: nat, fields: Fields)

  // _content_fingerprint: the hashes are injective, so the fingerprint is what they were taken of.
  datatype Content = Content(posts: seq<Projected>, boards: seq<Board>, places: seq<Place>,
                             collections: seq<Collection>, unavailable: nat, unavailableComments: nat)

  function ProjectionRows(posts: seq<Post>): seq<Projected> {
    if posts == [] then []
    else (if posts[0].version.Some? then [Projected(posts[0].id, posts[0].version.value, posts[0].fields)] else [])
         + ProjectionRows(posts[1..])
  }

  function PlaceOf(p: Post): Place {
    Place(p.id, p.fields.board, p.fields.ext, p.availability, p.version.Some?)
  }

  function Places(posts: seq<Post>): seq<Place> {
    seq(|posts|, i requires 0 <= i < |posts| => PlaceOf(posts[i]))
  }

  // _snapshot_fingerprint, without the collection export revision
  function ContentOf(db: Database): Content {
    Content(ProjectionRows(db.posts), db.boards, Places(db.posts), db.collections,
            |Bodyless(db.posts)|, CommentTotal(Bodyless(db.posts)))
  }

  // ---------------------------------------------------------------- what the fingerprint fixes

  predicate SamePost(a: Post, b: Post) {
    PlaceOf(a) == PlaceOf(b) && (a.version.Some? ==> a.version == b.version && a.fields == b.fields)
  }

  predicate SamePosts(a: seq<Post>, b: seq<Post>) {
    |a| == |b| && forall i | 0 <= i < |a| :: SamePost(a[i], b[i])
  }

  // Captured rows that are the same apart from the views.
  predicate SameRows(a: seq<Post>, b: seq<Post>) {
    |a| == |b| && forall i | 0 <= i < |a| :: a[i].(views := 0) == b[i].(views := 0)
  }

  lemma {:induction false} ContentFixesPosts(a: seq<Post>, b: seq<Post>)
    requires ProjectionRows(a) == ProjectionRows(b) && Places(a) == Places(b)
    ensures SamePosts(a, b) && SameRows(Captured(a), Captured(b)) && |Bodyless(a)| == |Bodyless(b)|
    decreases |a|
  {
    assert |Places(a)| == |a| && |Places(b)| == |b|;
    if a != [] {
      FirstAndRest(a, b);
      ContentFixesPosts(a[1..], b[1..]);
    }
  }

  lemma FirstAndRest(a: seq<Post>, b: seq<Post>)
    requires ProjectionRows(a) == ProjectionRows(b) && Places(a) == Places(b) && a != [] && b != []
    ensures SamePost(a[0], b[0]) && ProjectionRows(a[1..]) == ProjectionRows(b[1..]) && Places(a[1..]) == Places(b[1..])
  {
    assert Places(a)[0] == PlaceOf(a[0]) && Places(b)[0] == PlaceOf(b[0]);
    assert Places(a)[1..] == Places(a[1..]) && Places(b)[1..] == Places(b[1..]);
    if a[0].version.Some? {
      assert ProjectionRows(a)[0] == Projected(a[0].id, a[0].version.value, a[0].fields);
      assert ProjectionRows(b)[0] == Projected(b[0].id, b[0].version.value, b[0].fields);
      assert ProjectionRows(a)[1..] == ProjectionRows(a[1..]) && ProjectionRows(b)[1..] == ProjectionRows(b[1..]);
    } else {
      assert ProjectionRows(a) == ProjectionRows(a[1..]) && ProjectionRows(b) == ProjectionRows(b[1..]);
    }
  }

  lemma SameRowsTail(a: seq<Post>, b: seq<Post>)
    requires SameRows(a, b) && a != []
    ensures a[0].(views := 0) == b[0].(views := 0) && SameRows(a[1..], b[1..])
  {
    forall i | 0 <= i < |a| - 1 ensures a[1..][i].(views := 0) == b[1..][i].(views := 0) {
      assert a[i + 1].(views := 0) == b[i + 1].(views := 0);
    }
  }

  lemma {:induction false} SameOnBoard(a: seq<Post>, b: seq<Post>, board: string)
    requires SameRows(a, b)
    ensures SameRows(OnBoard(a, board), OnBoard(b, board))
    decreases |a|
  {
    if a != [] {
      SameRowsTail(a, b);
      SameOnBoard(a[1..], b[1..], board);
    }
  }

  lemma ViewsDoNotOrder(order: Order, seen: nat -> string, p: Post, q: Post, r: Post, s: Post)
    requires p.(views := 0) == q.(views := 0) && r.(views := 0) == s.(views := 0)
    ensures Earlier(order, seen, p, r) == Earlier(order, seen, q, s)
  {
    assert p.id == q.id && p.fields == q.fields && r.id == s.id && r.fields == s.fields;
  }

  lemma {:induction false} SameInsert(order: Order, seen: nat -> string, p: Post, q: Post, a: seq<Post>, b: seq<Post>)
    requires p.(views := 0) == q.(views := 0) && SameRows(a, b)
    ensures SameRows(Insert(order, seen, p, a), Insert(order, seen, q, b))
    decreases |a|
  {
    if a != [] {
      SameRowsTail(a, b);
      ViewsDoNotOrder(order, seen, p, q, a[0], b[0]);
      if Earlier(order, seen, p, a[0]) {
        OneMoreRow(p, q, a, b);
      } else {
        SameInsert(order, seen, p, q, a[1..], b[1..]);
        OneMoreRow(a[0], b[0], Insert(order, seen, p, a[1..]), Insert(order, seen, q, b[1..]));
      }
    }
  }

  lemma OneMoreRow(p: Post, q: Post, a: seq<Post>, b: seq<Post>)
    requires p.(views := 0) == q.(views := 0) && SameRows(a, b)
    ensures SameRows([p] + a, [q] + b)
  {
  }

  lemma {:induction false} SameSort(order: Order, seen: nat -> string, a: seq<Post>, b: seq<Post>)
    requires SameRows(a, b)
    ensures SameRows(Sort(order, seen, a), Sort(order, seen, b))
    decreases |a|
  {
    if a != [] {
      SameRowsTail(a, b);
      SameSort(order, seen, a[1..], b[1..]);
      SameInsert(order, seen, a[0], b[0], Sort(order, seen, a[1..]), Sort(order, seen, b[1..]));
    }
  }

  lemma {:induction false} SameEmit(a: seq<Post>, b: seq<Post>, refs: Refs)
    requires SameRows(a, b)
    ensures Emit(a, refs) == Emit(b, refs)
    decreases |a|
  {
    if a != [] {
      SameRowsTail(a, b);
      assert a[0].fields == b[0].fields;
      SameEmit(a[1..], b[1..], refs);
    }
  }

  lemma {:induction false} SamePagesBuilt(boards: seq<Board>, a: seq<Post>, b: seq<Post>, refs: Refs,
                                          seen: nat -> string)
    requires SameRows(a, b)
    ensures Pages(boards, a, refs, seen) == Pages(boards, b, refs, seen)
    decreases |boards|
  {
    if boards != [] {
      SameOnBoard(a, b, boards[0].id);
      SameSort(ByNumber, seen, OnBoard(a, boards[0].id), OnBoard(b, boards[0].id));
      SameEmit(Sort(ByNumber, seen, OnBoard(a, boards[0].id)), Sort(ByNumber, seen, OnBoard(b, boards[0].id)), refs);
      SamePagesBuilt(boards[1..], a, b, refs, seen);
    }
  }

  lemma {:induction false} SameComments(a: seq<Post>, b: seq<Post>)
    requires SameRows(a, b)
    ensures CommentTotal(a) == CommentTotal(b)
    decreases |a|
  {
    if a != [] {
      SameRowsTail(a, b);
      assert a[0].fields == b[0].fields;
      SameComments(a[1..], b[1..]);
    }
  }

  lemma {:induction false} SameFind(a: seq<Post>, b: seq<Post>, id: nat)
    requires SamePosts(a, b)
    ensures Find(a, id).Some? <==> Find(b, id).Some?
    ensures Find(a, id).Some? ==> SamePost(Find(a, id).value, Find(b, id).value)
    decreases |a|
  {
    if a != [] {
      assert SamePost(a[0], b[0]);
      assert forall i | 0 <= i < |a| - 1 :: SamePost(a[1..][i], b[1..][i]) by {
        forall i | 0 <= i < |a| - 1 ensures SamePost(a[1..][i], b[1..][i]) {
          assert SamePost(a[i + 1], b[i + 1]);
        }
      }
      SameFind(a[1..], b[1..], id);
    }
  }

  // ---------------------------------------------------------------- collections under one fingerprint

  lemma EntryUnderContent(a: Database, b: Database, refs: Refs, c: Collection, e: Entry)
    requires SamePosts(a.posts, b.posts)
    ensures EntryFor(a, refs, c, e).Ok? <==> EntryFor(b, refs, c, e).Ok?
    ensures EntryFor(a, refs, c, e).Ok? ==>
              SameEntry(false, EntryFor(a, refs, c, e).value, EntryFor(b, refs, c, e).value)
              && (EntryFor(a, refs, c, e).value == EntryFor(b, refs, c, e).value <==> TitleFor(a, e) == TitleFor(b, e))
  {
    if e.post.Some? {
      SameFind(a.posts, b.posts, e.post.value);
    }
  }

  // No entry changes its title: its own, or that of the post it names.
  ghost predicate TitlesKept(a: Database, b: Database, entries: seq<Entry>) {
    forall i | 0 <= i < |entries| :: TitleFor(a, entries[i]) == TitleFor(b, entries[i])
  }

  lemma {:induction false} EntriesUnderContent(a: Database, b: Database, refs: Refs, c: Collection, entries: seq<Entry>,
                                               at: nat)
    requires SamePosts(a.posts, b.posts)
    ensures var x, y := EntriesFor(a, refs, c, entries, at), EntriesFor(b, refs, c, entries, at);
            && (x.Ok? <==> y.Ok?)
            && (x.Ok? ==> SameEntries(false, x.value, y.value) && (x == y <==> TitlesKept(a, b, entries)))
    decreases |entries|
  {
    if entries != [] {
      EntryUnderContent(a, b, refs, c, entries[0]);
      EntriesUnderContent(a, b, refs, c, entries[1..], at + 1);
      TitlesOneMore(a, b, entries);
      var x, y := EntryFor(a, refs, c, entries[0]), EntryFor(b, refs, c, entries[0]);
      var xs, ys := EntriesFor(a, refs, c, entries[1..], at + 1), EntriesFor(b, refs, c, entries[1..], at + 1);
      EntriesAre(a, refs, c, entries, at, x, xs);
      EntriesAre(b, refs, c, entries, at, y, ys);
      if x.Ok? && xs.Ok? {
        OneMoreEntry(x.value, y.value, xs.value, ys.value);
      }
    }
  }

  lemma EntriesAre(db: Database, refs: Refs, c: Collection, entries: seq<Entry>, at: nat,
                   first: Result<EntryOut, Error>, rest: Result<seq<EntryOut>, Error>)
    requires entries != [] && first == EntryFor(db, refs, c, entries[0])
    requires rest == EntriesFor(db, refs, c, entries[1..], at + 1)
    ensures var all := EntriesFor(db, refs, c, entries, at);
            if first.Ok? && first.value.position == at && rest.Ok? then all == Ok([first.value] + rest.value) else all.Err?
  {
  }

  lemma OneMoreEntry(x: EntryOut, y: EntryOut, xs: seq<EntryOut>, ys: seq<EntryOut>)
    requires SameEntry(false, x, y) && SameEntries(false, xs, ys)
    ensures SameEntries(false, [x] + xs, [y] + ys)
    ensures [x] + xs == [y] + ys <==> x == y && xs == ys
  {
    assert ([x] + xs)[0] == x && ([x] + xs)[1..] == xs && ([y] + ys)[0] == y && ([y] + ys)[1..] == ys;
  }

  lemma TitlesOneMore(a: Database, b: Database, entries: seq<Entry>)
    requires entries != []
    ensures TitlesKept(a, b, entries)
            <==> TitleFor(a, entries[0]) == TitleFor(b, entries[0]) && TitlesKept(a, b, entries[1..])
  {
    if TitlesKept(a, b, entries) {
      assert forall i | 0 <= i < |entries[1..]| :: entries[1..][i] == entries[i + 1];
    }
    if TitleFor(a, entries[0]) == TitleFor(b, entries[0]) && TitlesKept(a, b, entries[1..]) {
      forall i | 0 <= i < |entries| ensures TitleFor(a, entries[i]) == TitleFor(b, entries[i]) {
        if i > 0 {
          assert entries[1..][i - 1] == entries[i];
        }
      }
    }
  }

  ghost predicate AllTitlesKept(a: Database, b: Database, cs: seq<Collection>) {
    forall i | 0 <= i < |cs| :: TitlesKept(a, b, cs[i].entries)
  }

  // Under one fingerprint the collection objects agree, but for the titles of entries that have no
  // post object; and they are the same objects exactly when no entry changed its title.
  lemma {:induction false} CollectionsUnderContent(a: Database, b: Database, refs: Refs, cs: seq<Collection>)
    requires SamePosts(a.posts, b.posts)
    ensures var x, y := CollectionsFor(a, refs, cs), CollectionsFor(b, refs, cs);
            && (x.Ok? <==> y.Ok?)
            && (x.Ok? ==> SameCollections(false, x.value, y.value) && (x == y <==> AllTitlesKept(a, b, cs)))
    decreases |cs|
  {
    if cs != [] {
      EntriesUnderContent(a, b, refs, cs[0], cs[0].entries, 1);
      CollectionsUnderContent(a, b, refs, cs[1..]);
      var x, y := CollectionsFor(a, refs, cs), CollectionsFor(b, refs, cs);
      AllTitlesOneMore(a, b, cs);
      if x.Ok? {
        assert x.value[1..] == CollectionsFor(a, refs, cs[1..]).value;
        assert y.value[1..] == CollectionsFor(b, refs, cs[1..]).value;
      }
    }
  }

  lemma AllTitlesOneMore(a: Database, b: Database, cs: seq<Collection>)
    requires cs != []
    ensures AllTitlesKept(a, b, cs) <==> TitlesKept(a, b, cs[0].entries) && AllTitlesKept(a, b, cs[1..])
  {
    if AllTitlesKept(a, b, cs) {
      assert forall i | 0 <= i < |cs[1..]| :: cs[1..][i] == cs[i + 1];
    }
    if TitlesKept(a, b, cs[0].entries) && AllTitlesKept(a, b, cs[1..]) {
      forall i | 0 <= i < |cs| ensures TitlesKept(a, b, cs[i].entries) {
        if i > 0 {
          assert cs[1..][i - 1] == cs[i];
        }
      }
    }
  }

  // ---------------------------------------------------------------- the kept release

  // Built from the same references, two snapshots with one content fingerprint give the same boards,
  // search, memberships and counts, and the same whole release when no entry changed its title.
  lemma OneContentOneRelease(a: Database, b: Database, refs: Refs, seen: nat -> string)
    requires ContentOf(a) == ContentOf(b)
    ensures Build(a, refs, seen).Ok? <==> Build(b, refs, seen).Ok?
    ensures Build(a, refs, seen).Ok? ==>
              && SameRelease(false, Build(a, refs, seen).value, Build(b, refs, seen).value)
              && Build(a, refs, seen).value.boards == Build(b, refs, seen).value.boards
              && Build(a, refs, seen).value.search == Build(b, refs, seen).value.search
              && (AllTitlesKept(a, b, a.collections) ==> Build(a, refs, seen) == Build(b, refs, seen))
  {
    BuildsUnderContent(a, b, refs, seen);
    if Build(a, refs, seen).Ok? {
      BuildParts(a, refs, seen);
      BuildParts(b, refs, seen);
      RowsUnderContent(a, b, refs, seen);
      IndexUnderContent(a, b, refs);
    }
  }

  lemma BuildsUnderContent(a: Database, b: Database, refs: Refs, seen: nat -> string)
    requires ContentOf(a) == ContentOf(b)
    ensures Build(a, refs, seen).Ok? <==> Build(b, refs, seen).Ok?
    ensures Build(a, refs, seen).Ok? && AllTitlesKept(a, b, a.collections) ==> Build(a, refs, seen) == Build(b, refs, seen)
  {
    RowsUnderContent(a, b, refs, seen);
    IndexUnderContent(a, b, refs);
    BuiltFromParts(a, b, refs, seen, AllTitlesKept(a, b, a.collections));
  }

  // A build is determined by its pages, search, collections and counts.
  lemma BuiltFromParts(a: Database, b: Database, refs: Refs, seen: nat -> string, same: bool)
    requires ContentOf(a) == ContentOf(b)
    requires var x, y := Captured(a.posts), Captured(b.posts);
             && |x| == |y| && CommentTotal(x) == CommentTotal(y)
             && Pages(a.boards, x, refs, seen) == Pages(b.boards, y, refs, seen)
             && Emit(Sort(ByDate, seen, x), refs) == Emit(Sort(ByDate, seen, y), refs)
    requires var cs, ds := CollectionsFor(a, refs, a.collections), CollectionsFor(b, refs, b.collections);
             (cs.Ok? <==> ds.Ok?) && (cs.Ok? && same ==> cs == ds)
    ensures Build(a, refs, seen).Ok? <==> Build(b, refs, seen).Ok?
    ensures Build(a, refs, seen).Ok? && same ==> Build(a, refs, seen) == Build(b, refs, seen)
  {
  }

  lemma RowsUnderContent(a: Database, b: Database, refs: Refs, seen: nat -> string)
    requires ContentOf(a) == ContentOf(b)
    ensures var x, y := Captured(a.posts), Captured(b.posts);
            && |x| == |y| && CommentTotal(x) == CommentTotal(y)
            && Pages(a.boards, x, refs, seen) == Pages(b.boards, y, refs, seen)
            && Emit(Sort(ByDate, seen, x), refs) == Emit(Sort(ByDate, seen, y), refs)
  {
    ContentFixesPosts(a.posts, b.posts);
    var x, y := Captured(a.posts), Captured(b.posts);
    SamePagesBuilt(a.boards, x, y, refs, seen);
    SameSort(ByDate, seen, x, y);
    SameEmit(Sort(ByDate, seen, x), Sort(ByDate, seen, y), refs);
    SameComments(x, y);
  }

  lemma IndexUnderContent(a: Database, b: Database, refs: Refs)
    requires ContentOf(a) == ContentOf(b)
    ensures var cs, ds := CollectionsFor(a, refs, a.collections), CollectionsFor(b, refs, b.collections);
            && (cs.Ok? <==> ds.Ok?)
            && (cs.Ok? ==> && |cs.value| == |ds.value| && EntryTotal(cs.value) == EntryTotal(ds.value)
                           && SameIndex(false, IndexOf(a.boards, cs.value), IndexOf(b.boards, ds.value))
                           && (AllTitlesKept(a, b, a.collections) ==> cs == ds))
  {
    ContentFixesPosts(a.posts, b.posts);
    CollectionsUnderContent(a, b, refs, a.collections);
    var cs, ds := CollectionsFor(a, refs, a.collections), CollectionsFor(b, refs, b.collections);
    if cs.Ok? {
      SameIndexOf(false, a.boards, cs.value, ds.value);
      SameEntryTotal(false, cs.value, ds.value);
    }
  }

  lemma FreshUnderContent(a: Database, b: Database, refs: Refs)
    requires ContentOf(a) == ContentOf(b) && Fresh(Captured(a.posts), refs)
    ensures Fresh(Captured(b.posts), refs)
  {
    ContentFixesPosts(a.posts, b.posts);
    SameEmit(Captured(a.posts), Captured(b.posts), refs);
    EmitIff(Captured(a.posts), refs);
    EmitIff(Captured(b.posts), refs);
  }

  // The release an export built still says what a full export would say of any later snapshot with
  // the same content fingerprint, but for the titles of entries with no post object; and those too
  // exactly when no entry changed its title.
  lemma KeptReleaseSaysWhatFullSays(built: Database, now: Database, refs: Refs, seen: nat -> string)
    requires Valid(now) && ContentOf(built) == ContentOf(now) && AllPrepared(refs)
    requires Fresh(Captured(built.posts), refs) && Build(built, refs, seen).Ok?
    ensures FullExport(now, seen).Ok?
    ensures SameRelease(false, Build(built, refs, seen).value, FullExport(now, seen).value)
    ensures SameRelease(true, Build(built, refs, seen).value, FullExport(now, seen).value)
            <==> AllTitlesKept(built, now, built.collections)
  {
    OneContentOneRelease(built, now, refs, seen);
    FreshUnderContent(built, now, refs);
    FreshSaysWhatFullSays(now, refs, seen);
    WeakerSame(Build(now, refs, seen).value, FullExport(now, seen).value);
    SameReleaseTransitive(false, Build(built, refs, seen).value, Build(now, refs, seen).value, FullExport(now, seen).value);
    if SameRelease(true, Build(built, refs, seen).value, FullExport(now, seen).value) {
      SameShardsVia(Build(built, refs, seen).value.collections.shards, Build(now, refs, seen).value.collections.shards,
                    FullExport(now, seen).value.collections.shards);
      SameTitlesAreKept(built, now, refs, seen);
    }
  }

  lemma SameShardsVia(a: seq<Shard>, b: seq<Shard>, c: seq<Shard>)
    requires SameShards(true, a, c) && SameShards(true, b, c)
    ensures SameShards(true, a, b)
  {
    forall i | 0 <= i < |a| ensures SameCollections(true, a[i].collections, b[i].collections) {
      forall k | 0 <= k < |a[i].collections| ensures SameCollection(true, a[i].collections[k], b[i].collections[k]) {
        SameCollectionVia(a[i].collections[k], b[i].collections[k], c[i].collections[k]);
      }
    }
  }

  lemma SameCollectionVia(a: CollectionOut, b: CollectionOut, c: CollectionOut)
    requires SameCollection(true, a, c) && SameCollection(true, b, c)
    ensures SameCollection(true, a, b)
  {
    forall j | 0 <= j < |a.entries| ensures SameEntry(true, a.entries[j], b.entries[j]) {
      assert SameEntry(true, a.entries[j], c.entries[j]) && SameEntry(true, b.entries[j], c.entries[j]);
    }
  }

  // Two builds whose shards show the same titles have kept every title.
  lemma SameTitlesAreKept(a: Database, b: Database, refs: Refs, seen: nat -> string)
    requires ContentOf(a) == ContentOf(b) && Valid(b) && Build(a, refs, seen).Ok? && Build(b, refs, seen).Ok?
    requires SameShards(true, Build(a, refs, seen).value.collections.shards,
                        Build(b, refs, seen).value.collections.shards)
    ensures AllTitlesKept(a, b, a.collections)
  {
    BuildParts(a, refs, seen);
    BuildParts(b, refs, seen);
    var x, y := CollectionsFor(a, refs, a.collections).value, CollectionsFor(b, refs, b.collections).value;
    CollectionSizes(a, refs, a.collections);
    CollectionSizes(b, refs, b.collections);
    forall i | 0 <= i < |a.collections| ensures TitlesKept(a, b, a.collections[i].entries) {
      CollectionAt(a, refs, a.collections, i);
      CollectionAt(b, refs, b.collections, i);
      forall k | 0 <= k < |y| && y[k].id == y[i].id ensures k == i {
        CollectionAt(b, refs, b.collections, k);
      }
      SameInShards(x, y, i);
      forall j | 0 <= j < |a.collections[i].entries|
        ensures TitleFor(a, a.collections[i].entries[j]) == TitleFor(b, a.collections[i].entries[j])
      {
        TitleAt(a, refs, a.collections[i], a.collections[i].entries, 1, j);
        TitleAt(b, refs, b.collections[i], b.collections[i].entries, 1, j);
        assert SameEntry(true, x[i].entries[j], y[i].entries[j]);
      }
    }
  }

  lemma {:induction false} CollectionSizes(db: Database, refs: Refs, cs: seq<Collection>)
    requires CollectionsFor(db, refs, cs).Ok?
    ensures |CollectionsFor(db, refs, cs).value| == |cs|
    decreases |cs|
  {
    if cs != [] { CollectionSizes(db, refs, cs[1..]); }
  }

  lemma {:induction false} CollectionAt(db: Database, refs: Refs, cs: seq<Collection>, i: nat)
    requires CollectionsFor(db, refs, cs).Ok? && i < |cs| && |CollectionsFor(db, refs, cs).value| == |cs|
    ensures var out := CollectionsFor(db, refs, cs).value[i];
            out.id == cs[i].id && EntriesFor(db, refs, cs[i], cs[i].entries, 1) == Ok(out.entries)
    decreases |cs|
  {
    assert CollectionsFor(db, refs, cs).value[1..] == CollectionsFor(db, refs, cs[1..]).value;
    if i > 0 { CollectionAt(db, refs, cs[1..], i - 1); }
  }

  lemma {:induction false} TitleAt(db: Database, refs: Refs, c: Collection, entries: seq<Entry>, at: nat, j: nat)
    requires EntriesFor(db, refs, c, entries, at).Ok? && j < |entries|
    ensures var out := EntriesFor(db, refs, c, entries, at).value;
            j < |out| && out[j].title == TitleFor(db, entries[j])
    decreases |entries|
  {
    if j > 0 { TitleAt(db, refs, c, entries[1..], at + 1, j - 1); }
  }

  // A collection is in one shard, and the other release has its own at the same place.
  lemma SameInShards(x: seq<CollectionOut>, y: seq<CollectionOut>, i: nat)
    requires i < |x| && |x| == |y| && x[i].id == y[i].id && forall k | 0 <= k < |y| && y[k].id == y[i].id :: k == i
    requires SameShards(true, ShardsFrom(x, 0), ShardsFrom(y, 0))
    ensures SameCollection(true, x[i], y[i])
  {
    var n := InSomeShard(x, x[i], 0);
    var a, b := ShardsFrom(x, 0)[n].collections, ShardsFrom(y, 0)[n].collections;
    var k :| 0 <= k < |a| && a[k] == x[i];
    assert SameCollection(true, a[k], b[k]);
    ShardMembers(y, 0);
    assert b[k] in y;
    var m :| 0 <= m < |y| && y[m] == b[k];
  }

  lemma {:induction false} InSomeShard(cs: seq<CollectionOut>, c: CollectionOut, shard: nat) returns (n: nat)
    requires c in cs && shard <= c.id % SHARDS
    ensures n < |ShardsFrom(cs, shard)| && c in ShardsFrom(cs, shard)[n].collections
    decreases SHARDS - shard
  {
    if c.id % SHARDS == shard {
      assert c in InShard(cs, shard);
      n := 0;
    } else {
      n := InSomeShard(cs, c, shard + 1);
      if InShard(cs, shard) != [] { n := n + 1; }
    }
  }

  lemma {:induction false} ShardMembers(cs: seq<CollectionOut>, shard: nat)
    requires shard <= SHARDS
    ensures forall n, c | 0 <= n < |ShardsFrom(cs, shard)| && c in ShardsFrom(cs, shard)[n].collections :: c in cs
    decreases SHARDS - shard
  {
    if shard < SHARDS { ShardMembers(cs, shard + 1); }
  }

  lemma WeakerSame(a: Release, b: Release)
    requires SameRelease(true, a, b)
    ensures SameRelease(false, a, b)
  {
    forall i | 0 <= i < |a.collections.shards|
      ensures SameCollections(false, a.collections.shards[i].collections, b.collections.shards[i].collections)
    {
      var x, y := a.collections.shards[i].collections, b.collections.shards[i].collections;
      forall k | 0 <= k < |x| ensures SameCollection(false, x[k], y[k]) {
        assert SameCollection(true, x[k], y[k]);
        forall j | 0 <= j < |x[k].entries| ensures SameEntry(false, x[k].entries[j], y[k].entries[j]) {
          assert SameEntry(true, x[k].entries[j], y[k].entries[j]);
        }
      }
    }
  }
}
