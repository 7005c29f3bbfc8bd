// Where the incremental export stops short: exactly when it refuses a projection as untracked, and an
// archive whose unchanged fingerprint keeps an old title.
module ExportLimits {
  import opened Wrappers
  import opened StaticRelease
  import opened Incremental
  import opened Fingerprint
  import opened Journal
  import opened ExportRuns

  function Sources(rows: seq<Post>): set<Fields> {
    set p | p in rows :: Projection(p)
  }

  lemma {:induction false} SourceCount(rows: seq<Post>)
    requires Distinct(rows)
    ensures |Sources(rows)| == |rows|
    decreases |rows|
  {
    if rows != [] {
      var front, last := rows[..|rows| - 1], rows[|rows| - 1];
      SourceCount(front);
      forall p | p in front ensures Projection(p) != Projection(last) {
        var k :| 0 <= k < |front| && front[k] == p;
        assert Identity(rows[k]) != Identity(rows[|rows| - 1]);
      }
      assert rows == front + [last];
      assert Sources(rows) == Sources(front) + {Projection(last)};
    }
  }

  lemma {:induction false} ProjectionCount(posts: seq<Post>)
    ensures |ProjectionRows(posts)| == |Captured(posts)|
    decreases |posts|
  {
    if posts != [] {
      ProjectionCount(posts[1..]);
    }
  }

  lemma SubsetOfSameSize<T>(a: set<T>, b: set<T>)
    requires a <= b && |a| == |b|
    ensures a == b
  {
    assert b == a + (b - a) && |a + (b - a)| == |a| + |b - a|;
  }

  // The loaded references are those of captured posts of the base, and no others.
  lemma {:induction false} LoadedKeys(boards: seq<Board>, rows: seq<Post>, refs: Refs, seen: nat -> string)
    requires Fresh(rows, refs) && Pages(boards, rows, refs, seen).Ok?
    ensures forall k | k in LoadRefs(Pages(boards, rows, refs, seen).value) :: exists p :: p in rows && Identity(p) == k
    decreases |boards|
  {
    if boards != [] {
      var page := OnBoard(rows, boards[0].id);
      var sorted := Sort(ByNumber, seen, page);
      SameMembers(sorted, page);
      EmitIff(sorted, refs);
      PageKeys(sorted, refs);
      LoadedKeys(boards[1..], rows, refs, seen);
    }
  }

  lemma PageKeys(sorted: seq<Post>, refs: Refs)
    requires Fresh(sorted, refs)
    ensures forall k | k in PageRefs(RefsOf(sorted, refs)) :: exists p :: p in sorted && Identity(p) == k
  {
    var posts := RefsOf(sorted, refs);
    forall k | k in PageRefs(posts) ensures exists p :: p in sorted && Identity(p) == k {
      KeysComeFrom(posts, k);
      var i :| 0 <= i < |posts| && KeyOf(posts[i]) == k;
      assert sorted[i] in sorted && Identity(sorted[i]) == k;
    }
  }

  lemma {:induction false} KeysComeFrom(posts: seq<Ref>, k: (string, nat))
    requires k in PageRefs(posts)
    ensures exists i :: 0 <= i < |posts| && KeyOf(posts[i]) == k
    decreases |posts|
  {
    if KeyOf(posts[0]) != k {
      KeysComeFrom(posts[1..], k);
      var i :| 0 <= i < |posts| - 1 && KeyOf(posts[1..][i]) == k;
      assert KeyOf(posts[i + 1]) == k;
    }
  }

  lemma SameProjectionMatches(p: Post, q: Post, ref: Ref)
    requires Projection(p) == Projection(q) && Matches(p, ref)
    ensures Matches(q, ref) && Identity(p) == Identity(q)
  {
    assert Projection(p).board == p.fields.board && Projection(p).ext == p.fields.ext;
  }

  // Every current row is unchanged exactly when the two snapshots have the same source projections;
  // given as many posts as before.
  lemma NothingStaleIff(rows: seq<Post>, base: seq<Post>, refs: Refs)
    requires Distinct(rows) && Distinct(base) && Fresh(base, refs)
    requires forall k | k in refs :: exists p :: p in base && Identity(p) == k
    ensures (|rows| == |base| && Fresh(rows, refs)) <==> Sources(rows) == Sources(base)
  {
    SourceCount(rows);
    SourceCount(base);
    if |rows| == |base| && Fresh(rows, refs) {
      forall f | f in Sources(rows) ensures f in Sources(base) {
        var p :| p in rows && Projection(p) == f;
        var q :| q in base && Identity(q) == Identity(p);
        assert Matches(q, refs[Identity(q)]) && Matches(p, refs[Identity(p)]);
      }
      SubsetOfSameSize(Sources(rows), Sources(base));
    }
    if Sources(rows) == Sources(base) {
      forall p | p in rows ensures Identity(p) in refs && Matches(p, refs[Identity(p)]) {
        assert Projection(p) in Sources(base);
        var q :| q in base && Projection(q) == Projection(p);
        SameProjectionMatches(q, p, refs[Identity(q)]);
      }
    }
  }

  // incremental_projection_untracked fires exactly when the projection rows changed but neither a
  // capture nor any source projection did: only row ids, version ids, or a missing date that became
  // an empty one.
  lemma UntrackedIff(built: Database, now: Database, refs: Refs, stored: set<nat>, seen: nat -> string)
    requires Valid(built) && Valid(now) && Fresh(Captured(built.posts), refs) && Build(built, refs, seen).Ok?
    ensures var rows := Captured(now.posts);
            var loaded := LoadRefs(Build(built, refs, seen).value.boards);
            Untracked(ContentOf(now), ContentOf(built), ChangedIds(rows, loaded, stored))
            <==> && ContentOf(now).posts != ContentOf(built).posts
                 && (forall p | p in rows :: p.id !in stored)
                 && Sources(rows) == Sources(Captured(built.posts))
  {
    var rows, base := Captured(now.posts), Captured(built.posts);
    var loaded := LoadRefs(Build(built, refs, seen).value.boards);
    CapturedRows(built);
    CapturedRows(now);
    BuildParts(built, refs, seen);
    LoadedPages(built.boards, base, refs, seen);
    LoadedKeys(built.boards, base, refs, seen);
    assert Fresh(base, loaded);
    ProjectionCount(now.posts);
    ProjectionCount(built.posts);
    NothingStaleIff(rows, base, loaded);
    NoneChangedIff(rows, loaded, stored);
  }

  lemma NoneChangedIff(rows: seq<Post>, refs: Refs, stored: set<nat>)
    ensures ChangedIds(rows, refs, stored) == {} <==> (forall p | p in rows :: p.id !in stored) && Fresh(rows, refs)
  {
    var changed := ChangedIds(rows, refs, stored);
    forall p | p in rows && (p.id in stored || Stale(p, refs)) ensures p.id in changed {
    }
    if changed == {} {
      assert forall p | p in rows :: p.id !in stored && !Stale(p, refs);
    }
  }

  // ---------------------------------------------------------------- a title the shortcut keeps

  // Two archives that differ in the title of a post without a stored body, named by an entry that
  // has no title of its own.
  function Listed(title: string): Database {
    var f := Fields("novel", 7, "p", title, None, None, None, None, false, 0, 0, 0, 0, None);
    Database([Board("novel", "n", "g", "u")], [Post(1, f, None, 0, "missing")],
             [Collection(1, "novel", "series", "c", [Entry(1, Some(1), None, None)])])
  }

  lemma ListedIsValid(title: string)
    ensures Valid(Listed(title)) && CollectionsFor(Listed(title), map[], Listed(title).collections).Ok?
    ensures TitleFor(Listed(title), Listed(title).collections[0].entries[0]) == Some(title)
    ensures ProjectionRows(Listed(title).posts) == [] && |Bodyless(Listed(title).posts)| == 1
    ensures CommentTotal(Bodyless(Listed(title).posts)) == 0
  {
    var db := Listed(title);
    var e := db.collections[0].entries[0];
    assert db.boards[0].id == "novel";
    assert KnownBoard(db.boards, "novel");
    assert Find(db.posts, 1) == Some(db.posts[0]);
    assert PostOf(db, e) == Some(db.posts[0]);
    assert EntryFor(db, map[], db.collections[0], e).Ok?;
    assert db.collections[0].entries[1..] == [] && db.collections[1..] == [];
    assert EntriesFor(db, map[], db.collections[0], [], 2) == Ok([]);
    assert CollectionsFor(db, map[], []) == Ok([]);
    assert db.posts[1..] == [];
    assert ProjectionRows([]) == [] && Bodyless([]) == [];
    assert Bodyless(db.posts) == [db.posts[0]];
    assert Bodyless(db.posts)[1..] == [];
  }

  // A new listing title changes the collection objects but not the fingerprint, so the shortcut keeps
  // the old ones.
  lemma ShortcutKeepsAnOldTitle(before: string, after: string)
    requires before != after
    ensures Valid(Listed(before)) && Valid(Listed(after)) && ContentOf(Listed(before)) == ContentOf(Listed(after))
    ensures CollectionsFor(Listed(before), map[], Listed(before).collections)
            != CollectionsFor(Listed(after), map[], Listed(after).collections)
  {
    var a, b := Listed(before), Listed(after);
    ListedIsValid(before);
    ListedIsValid(after);
    assert Places(a.posts) == Places(b.posts);
    ContentFixesPosts(a.posts, b.posts);
    CollectionsUnderContent(a, b, map[], a.collections);
    assert !TitlesKept(a, b, a.collections[0].entries);
    assert !AllTitlesKept(a, b, a.collections);
  }

  // ---------------------------------------------------------------- what an export does, case by case

  // The posts an incremental export prepares again, and whether its projection is untracked.
  ghost predicate Changes(base: Snapshot<Release, Mark>, q: Request, changed: set<nat>, untracked: bool) {
    && changed == ChangedIds(Captured(q.db.posts), LoadRefs(base.release.boards),
                             StoredIds(q.captures, base.highWater, q.highWater))
    && (untracked <==> && ContentOf(q.db).posts != base.fingerprint.content.posts && changed == {}
                       && |ContentOf(q.db).posts| == |base.fingerprint.content.posts|)
  }

  // Keeping the release is for an unchanged archive alone; the incremental errors come for a source
  // behind the base, an untracked projection and a delta above the limit, and for nothing else; and a
  // delta is promoted whenever a full export would be.
  lemma IncrementalPlanIff(base: Snapshot<Release, Mark>, q: Request, seen: nat -> string, changed: set<nat>,
                           untracked: bool)
    requires Valid(q.db) && AllPrepared(LoadRefs(base.release.boards)) && !q.full && Changes(base, q, changed, untracked)
    ensures var plan := ExportPlan(Some(base), q, seen);
            var same := ContentOf(q.db) == base.fingerprint.content;
            var ahead := base.highWater <= q.highWater;
            && (plan.Keep? <==> ahead && same && q.revision == base.fingerprint.revision)
            && (plan == Fail("incremental_source_rewound") <==> !ahead)
            && (plan == Fail("incremental_projection_untracked") <==> ahead && !same && untracked)
            && (plan == Fail("incremental_delta_too_large") <==>
                  ahead && !same && !untracked && q.limit > 0 && |changed| > q.limit)
            && plan != Fail("incremental_bootstrap_required")
  {
    assert ExportPlan(Some(base), q, seen) == IncrementalPlan(base, q, seen);
    if ContentOf(q.db) != base.fingerprint.content {
      assert untracked == Untracked(ContentOf(q.db), base.fingerprint.content, changed);
      assert q.highWater < base.highWater || IncrementalPlan(base, q, seen) == DeltaPlan(base, q, seen);
    }
  }

  lemma DeltaIsPromotedIff(base: Snapshot<Release, Mark>, q: Request, seen: nat -> string, changed: set<nat>,
                           untracked: bool)
    requires Valid(q.db) && AllPrepared(LoadRefs(base.release.boards)) && !q.full && Changes(base, q, changed, untracked)
    requires base.highWater <= q.highWater && ContentOf(q.db) != base.fingerprint.content
    ensures ExportPlan(Some(base), q, seen).Promote?
       <==> !untracked && (q.limit == 0 || |changed| <= q.limit) && FullExport(q.db, seen).Ok?
  {
    IncrementalSaysWhatFullSays(q.db, LoadRefs(base.release.boards),
                                StoredIds(q.captures, base.highWater, q.highWater), seen);
  }

  // A full export is made when asked for or when there is no base, unless only an incremental one may be.
  lemma FullPlanIff(base: Option<Snapshot<Release, Mark>>, q: Request, seen: nat -> string)
    requires q.full || base.None?
    ensures var plan := ExportPlan(base, q, seen);
            && (plan == Fail("incremental_bootstrap_required") <==> !q.full && q.incrementalOnly)
            && (plan.Promote? <==> (q.full || !q.incrementalOnly) && FullExport(q.db, seen).Ok?)
            && (plan.Promote? ==> plan.built.release == FullExport(q.db, seen).value)
            && !plan.Keep?
  {
  }
}
