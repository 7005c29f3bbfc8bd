// The incremental export of scripts/export_static.py: which posts are prepared again, and why the
// release built from the refreshed references says what a full export of the snapshot says.
module Incremental {
  import opened Wrappers
  import opened StaticRelease
  import opened ReleaseMeaning

  datatype Capture = Capture(id: nat, ofPost: bool, stored: bool, post: Option<nat>)

  // The posts captured in (low, high].
  function StoredIds(captures: seq<Capture>, low: nat, high: nat): set<nat> {
    set c | c in captures && low < c.id <= high && c.ofPost && c.stored && c.post.Some? :: c.post.value
  }

  predicate Stale(p: Post, refs: Refs) {
    Identity(p) !in refs || !Matches(p, refs[Identity(p)])
  }

  // _changed_post_ids
  function ChangedIds(rows: seq<Post>, refs: Refs, stored: set<nat>): set<nat> {
    set p | p in rows && (p.id in stored || Stale(p, refs)) :: p.id
  }

  // The references once the rows with these ids were prepared again, in row order.
  function Reprepare(rows: seq<Post>, ids: set<nat>, refs: Refs): Refs
    decreases |rows|
  {
    if rows == [] then refs
    else
      var p := rows[|rows| - 1];
      var before := Reprepare(rows[..|rows| - 1], ids, refs);
      if p.id in ids then before[Identity(p) := Prepare(p)] else before
  }

  ghost predicate Distinct(rows: seq<Post>) {
    forall i, j | 0 <= i < j < |rows| :: rows[i].id != rows[j].id && Identity(rows[i]) != Identity(rows[j])
  }

  lemma {:induction false} CapturedAreDistinct(posts: seq<Post>)
    requires Distinct(posts)
    ensures Distinct(Captured(posts))
    decreases |posts|
  {
    if posts != [] {
      var tail := posts[1..];
      assert forall i | 0 <= i < |tail| :: tail[i] == posts[i + 1];
      CapturedAreDistinct(tail);
      var rest := Captured(tail);
      forall i | 0 <= i < |rest| ensures rest[i].id != posts[0].id && Identity(rest[i]) != Identity(posts[0]) {
        assert rest[i] in rest && rest[i] in tail;
        var k :| 0 <= k < |tail| && tail[k] == rest[i];
        assert posts[0].id != posts[k + 1].id;
      }
    }
  }

  lemma {:induction false} ReprepareElsewhere(rows: seq<Post>, ids: set<nat>, refs: Refs, key: (string, nat))
    requires forall p | p in rows :: p.id in ids ==> Identity(p) != key
    ensures key in Reprepare(rows, ids, refs) <==> key in refs
    ensures key in refs ==> Reprepare(rows, ids, refs)[key] == refs[key]
    decreases |rows|
  {
    if rows != [] {
      assert forall p | p in rows[..|rows| - 1] :: p in rows;
      assert rows[|rows| - 1] in rows;
      ReprepareElsewhere(rows[..|rows| - 1], ids, refs, key);
    }
  }

  // After preparing again, a chosen row has its own fresh reference; any other keeps what it had.
  lemma {:induction false} ReprepareAt(rows: seq<Post>, ids: set<nat>, refs: Refs, i: nat)
    requires Distinct(rows) && i < |rows|
    ensures var after := Reprepare(rows, ids, refs); var key := Identity(rows[i]);
            if rows[i].id in ids then key in after && after[key] == Prepare(rows[i])
            else (key in after <==> key in refs) && (key in refs ==> after[key] == refs[key])
    decreases |rows|
  {
    var front, last := rows[..|rows| - 1], rows[|rows| - 1];
    if i < |rows| - 1 {
      assert front[i] == rows[i];
      ReprepareAt(front, ids, refs, i);
      assert Identity(last) != Identity(rows[i]);
    } else if last.id !in ids {
      forall p | p in front ensures p.id in ids ==> Identity(p) != Identity(last) {
        var k :| 0 <= k < |front| && front[k] == p;
        assert Identity(rows[k]) != Identity(rows[|rows| - 1]);
      }
      ReprepareElsewhere(front, ids, refs, Identity(last));
    }
  }

  lemma PreparedMatches(p: Post)
    ensures Matches(p, Prepare(p)) && Prepared(Prepare(p))
  {
  }

  // Every row matches its reference exactly when no stale post was left out.
  lemma RepreparingIff(rows: seq<Post>, ids: set<nat>, refs: Refs)
    requires Distinct(rows)
    ensures Fresh(rows, Reprepare(rows, ids, refs)) <==> forall p | p in rows && Stale(p, refs) :: p.id in ids
  {
    var after := Reprepare(rows, ids, refs);
    forall p | p in rows
      ensures (Identity(p) in after && Matches(p, after[Identity(p)])) <==> (p.id in ids || !Stale(p, refs))
    {
      var i :| 0 <= i < |rows| && rows[i] == p;
      ReprepareAt(rows, ids, refs, i);
      PreparedMatches(p);
    }
  }

  lemma ChangedIdsAreEnough(rows: seq<Post>, refs: Refs, stored: set<nat>)
    requires Distinct(rows)
    ensures Fresh(rows, Reprepare(rows, ChangedIds(rows, refs, stored), refs))
  {
    RepreparingIff(rows, ChangedIds(rows, refs, stored), refs);
  }

  ghost predicate AllPrepared(refs: Refs) {
    forall key | key in refs :: Prepared(refs[key])
  }

  lemma {:induction false} RepreparingKeepsPrepared(rows: seq<Post>, ids: set<nat>, refs: Refs)
    requires AllPrepared(refs)
    ensures AllPrepared(Reprepare(rows, ids, refs))
    decreases |rows|
  {
    if rows != [] {
      RepreparingKeepsPrepared(rows[..|rows| - 1], ids, refs);
      PreparedMatches(rows[|rows| - 1]);
    }
  }

  // A full export prepares every row again, starting from nothing.
  lemma {:induction false} FullIsRepreparingAll(rows: seq<Post>, ids: set<nat>)
    requires forall p | p in rows :: p.id in ids
    ensures PrepareAll(rows) == Reprepare(rows, ids, map[])
    decreases |rows|
  {
    if rows != [] {
      assert forall p | p in rows[..|rows| - 1] :: p in rows;
      assert rows[|rows| - 1] in rows;
      FullIsRepreparingAll(rows[..|rows| - 1], ids);
    }
  }

  lemma FullIsFresh(rows: seq<Post>)
    requires Distinct(rows)
    ensures Fresh(rows, PrepareAll(rows)) && AllPrepared(PrepareAll(rows))
  {
    var ids := set p | p in rows :: p.id;
    FullIsRepreparingAll(rows, ids);
    RepreparingIff(rows, ids, map[]);
    RepreparingKeepsPrepared(rows, ids, map[]);
  }

  // ---------------------------------------------------------------- the build cannot fail stale

  function BoardTotal(boards: seq<Board>, rows: seq<Post>): nat {
    if boards == [] then 0 else |OnBoard(rows, boards[0].id)| + BoardTotal(boards[1..], rows)
  }

  predicate DistinctBoards(boards: seq<Board>) {
    forall i, j | 0 <= i < j < |boards| :: boards[i].id != boards[j].id
  }

  lemma {:induction false} OneRowLess(boards: seq<Board>, rows: seq<Post>)
    requires rows != [] && DistinctBoards(boards)
    ensures BoardTotal(boards, rows)
            == BoardTotal(boards, rows[1..]) + (if KnownBoard(boards, rows[0].fields.board) then 1 else 0)
    decreases |boards|
  {
    if boards != [] {
      var tail := boards[1..];
      assert forall i | 0 <= i < |tail| :: tail[i] == boards[i + 1];
      OneRowLess(tail, rows);
      var id := rows[0].fields.board;
      if boards[0].id == id {
        assert KnownBoard(boards, id);
        assert !KnownBoard(tail, id);
      } else if KnownBoard(boards, id) {
        var i :| 0 <= i < |boards| && boards[i].id == id;
        assert tail[i - 1].id == id;
      }
    }
  }

  // Every post is on exactly one board, so the pages hold all of them.
  lemma {:induction false} BoardTotalIsAll(boards: seq<Board>, rows: seq<Post>)
    requires DistinctBoards(boards) && forall p | p in rows :: KnownBoard(boards, p.fields.board)
    ensures BoardTotal(boards, rows) == |rows|
    decreases |rows|
  {
    if rows == [] {
      NoRows(boards);
    } else {
      assert rows[0] in rows;
      assert forall p | p in rows[1..] :: p in rows;
      BoardTotalIsAll(boards, rows[1..]);
      OneRowLess(boards, rows);
    }
  }

  lemma {:induction false} NoRows(boards: seq<Board>)
    ensures BoardTotal(boards, []) == 0
    decreases |boards|
  {
    if boards != [] {
      NoRows(boards[1..]);
    }
  }

  lemma {:induction false} PagesHoldBoards(boards: seq<Board>, rows: seq<Post>, refs: Refs, seen: nat -> string)
    requires Fresh(rows, refs)
    ensures Pages(boards, rows, refs, seen).Ok?
    ensures PostTotal(Pages(boards, rows, refs, seen).value) == BoardTotal(boards, rows)
    decreases |boards|
  {
    if boards != [] {
      var page := OnBoard(rows, boards[0].id);
      var sorted := Sort(ByNumber, seen, page);
      SameMembers(sorted, page);
      EmitIff(sorted, refs);
      PagesHoldBoards(boards[1..], rows, refs, seen);
    }
  }

  // The errors that only say something about the collections of the archive.
  predicate AboutCollections(e: Error) {
    e.NoIdentity? || e.PositionsNotContiguous?
  }

  lemma {:induction false} EntriesNotMissing(db: Database, refs: Refs, c: Collection, entries: seq<Entry>, at: nat)
    requires Fresh(Captured(db.posts), refs)
    ensures EntriesFor(db, refs, c, entries, at).Err? ==> AboutCollections(EntriesFor(db, refs, c, entries, at).error)
    decreases |entries|
  {
    if entries != [] {
      var p := PostOf(db, entries[0]);
      if p.Some? && p.value.version.Some? {
        assert p.value in Captured(db.posts);
      }
      EntriesNotMissing(db, refs, c, entries[1..], at + 1);
    }
  }

  lemma {:induction false} CollectionsNotMissing(db: Database, refs: Refs, cs: seq<Collection>)
    requires Fresh(Captured(db.posts), refs)
    ensures CollectionsFor(db, refs, cs).Err? ==> AboutCollections(CollectionsFor(db, refs, cs).error)
    decreases |cs|
  {
    if cs != [] {
      EntriesNotMissing(db, refs, cs[0], cs[0].entries, 1);
      CollectionsNotMissing(db, refs, cs[1..]);
    }
  }

  lemma CapturedRows(db: Database)
    requires Valid(db)
    ensures Distinct(Captured(db.posts))
    ensures forall p | p in Captured(db.posts) :: KnownBoard(db.boards, p.fields.board) && p.fields.ext > 0
  {
    CapturedAreDistinct(db.posts);
    forall p | p in Captured(db.posts) ensures KnownBoard(db.boards, p.fields.board) && p.fields.ext > 0 {
      var i :| 0 <= i < |db.posts| && db.posts[i] == p;
      assert KnownBoard(db.boards, db.posts[i].fields.board);
    }
  }

  // With fresh references neither a staleness error nor a count error can fire: a build fails only
  // on collections that have no identity or whose positions have gaps.
  lemma FreshBuildsOrCollections(db: Database, refs: Refs, seen: nat -> string)
    requires Valid(db) && Fresh(Captured(db.posts), refs)
    ensures var r := Build(db, refs, seen); r.Err? ==> AboutCollections(r.error)
    ensures Build(db, refs, seen).Ok? <==> CollectionsFor(db, refs, db.collections).Ok?
  {
    var rows := Captured(db.posts);
    CapturedRows(db);
    PagesHoldBoards(db.boards, rows, refs, seen);
    BoardTotalIsAll(db.boards, rows);
    var sorted := Sort(ByDate, seen, rows);
    SameMembers(sorted, rows);
    EmitIff(sorted, refs);
    CollectionsNotMissing(db, refs, db.collections);
  }

  // What a successful build consists of.
  lemma BuildParts(db: Database, refs: Refs, seen: nat -> string)
    requires Build(db, refs, seen).Ok?
    ensures var rows := Captured(db.posts);
            && Pages(db.boards, rows, refs, seen).Ok? && Emit(Sort(ByDate, seen, rows), refs).Ok?
            && CollectionsFor(db, refs, db.collections).Ok?
    ensures var rows, built := Captured(db.posts), Build(db, refs, seen).value;
            var cs := CollectionsFor(db, refs, db.collections).value;
            && built.boards == Pages(db.boards, rows, refs, seen).value
            && built.search == SummariesOf(Emit(Sort(ByDate, seen, rows), refs).value)
            && built.collections == IndexOf(db.boards, cs)
            && built.counts == Counts(|rows|, CommentTotal(rows), |db.boards|, |cs|, EntryTotal(cs),
                                      |Bodyless(db.posts)|, CommentTotal(Bodyless(db.posts)))
  {
  }

  // After exactly the changed posts were prepared again the staleness errors cannot fire.
  lemma NothingIsStale(db: Database, base: Refs, stored: set<nat>, seen: nat -> string)
    requires Valid(db)
    ensures var rows := Captured(db.posts);
            var after := Reprepare(rows, ChangedIds(rows, base, stored), base);
            Fresh(rows, after) && (Build(db, after, seen).Err? ==> AboutCollections(Build(db, after, seen).error))
  {
    CapturedRows(db);
    var rows := Captured(db.posts);
    ChangedIdsAreEnough(rows, base, stored);
    FreshBuildsOrCollections(db, Reprepare(rows, ChangedIds(rows, base, stored), base), seen);
  }

  // An incremental export says what a full export of the same snapshot says, whatever base it
  // started from, and fails only when the full export fails.
  lemma IncrementalSaysWhatFullSays(db: Database, base: Refs, stored: set<nat>, seen: nat -> string)
    requires Valid(db) && AllPrepared(base)
    ensures var rows := Captured(db.posts);
            var incremental := Build(db, Reprepare(rows, ChangedIds(rows, base, stored), base), seen);
            && (incremental.Ok? <==> FullExport(db, seen).Ok?)
            && (incremental.Ok? ==> SameRelease(true, incremental.value, FullExport(db, seen).value))
  {
    CapturedRows(db);
    var rows := Captured(db.posts);
    var ids := ChangedIds(rows, base, stored);
    ChangedIdsAreEnough(rows, base, stored);
    RepreparingKeepsPrepared(rows, ids, base);
    FullIsFresh(rows);
    FreshAgree(rows, Reprepare(rows, ids, base), PrepareAll(rows));
    BuildsAgree(db, Reprepare(rows, ids, base), PrepareAll(rows), seen);
  }

  // A build from any fresh, prepared references says what a full export says.
  lemma FreshSaysWhatFullSays(db: Database, refs: Refs, seen: nat -> string)
    requires Valid(db) && AllPrepared(refs) && Fresh(Captured(db.posts), refs)
    ensures Build(db, refs, seen).Ok? <==> FullExport(db, seen).Ok?
    ensures Build(db, refs, seen).Ok? ==> SameRelease(true, Build(db, refs, seen).value, FullExport(db, seen).value)
  {
    CapturedRows(db);
    var rows := Captured(db.posts);
    FullIsFresh(rows);
    FreshAgree(rows, refs, PrepareAll(rows));
    BuildsAgree(db, refs, PrepareAll(rows), seen);
  }

  // ---------------------------------------------------------------- the exporter

  // The in-memory references of one export, updated in place.
  class PostRefs {
    var refs: Refs

    constructor (base: Refs)
      ensures refs == base
    {
      refs := base;
    }

    // _changed_post_ids, before the ids are sorted
    method ChangedPostIds(rows: seq<Post>, stored: set<nat>) returns (changed: set<nat>)
      ensures changed == ChangedIds(rows, refs, stored)
    {
      changed := stored;
      var current: set<nat> := {};
      for n := 0 to |rows|
        invariant current == set k | 0 <= k < n :: rows[k].id
        invariant changed == stored + set k | 0 <= k < n && Stale(rows[k], refs) :: rows[k].id
      {
        var row := rows[n];
        current := current + {row.id};
        if Identity(row) !in refs || !Matches(row, refs[Identity(row)]) {
          changed := changed + {row.id};
        }
      }
      changed := changed * current;
      ChangedMembers(rows, refs, stored, changed);
    }

    // Prepares the rows with these ids again.
    method PrepareAgain(rows: seq<Post>, ids: set<nat>)
      modifies this
      ensures refs == Reprepare(rows, ids, old(refs))
    {
      for n := 0 to |rows|
        invariant refs == Reprepare(rows[..n], ids, old(refs))
      {
        assert rows[..n + 1][..n] == rows[..n];
        if rows[n].id in ids {
          refs := refs[Identity(rows[n]) := Prepare(rows[n])];
        }
      }
      assert rows[..|rows|] == rows;
    }

    // One page, or the search rows: each reference is checked against its row as it is written.
    method WriteRows(rows: seq<Post>) returns (r: Result<seq<Ref>, Error>)
      ensures r.Ok? <==> Fresh(rows, refs)
      ensures r == Emit(rows, refs)
    {
      var written: seq<Ref> := [];
      assert rows[0..] == rows && (Emit(rows, refs).Ok? ==> written + Emit(rows, refs).value == Emit(rows, refs).value);
      for n := 0 to |rows|
        invariant Emit(rows, refs) == Joined(written, Emit(rows[n..], refs))
      {
        var row := rows[n];
        assert rows[n..][1..] == rows[n + 1..] && rows[n..][0] == row;
        if Identity(row) !in refs {
          return Err(MissingObject(Identity(row)));
        }
        if !Matches(row, refs[Identity(row)]) {
          return Err(StaleSummary(Identity(row)));
        }
        ghost var rest := Emit(rows[n + 1..], refs);
        assert rest.Ok? ==> written + ([refs[Identity(row)]] + rest.value) == written + [refs[Identity(row)]] + rest.value;
        written := written + [refs[Identity(row)]];
      }
      EmitIff(rows, refs);
      assert rows[|rows|..] == [] && rows[..|rows|] == rows && written + [] == written;
      return Ok(written);
    }
  }

  function Joined(written: seq<Ref>, rest: Result<seq<Ref>, Error>): Result<seq<Ref>, Error> {
    if rest.Err? then rest else Ok(written + rest.value)
  }

  lemma ChangedMembers(rows: seq<Post>, refs: Refs, stored: set<nat>, changed: set<nat>)
    requires changed == (stored + set k | 0 <= k < |rows| && Stale(rows[k], refs) :: rows[k].id)
                        * (set k | 0 <= k < |rows| :: rows[k].id)
    ensures changed == ChangedIds(rows, refs, stored)
  {
    var wanted := ChangedIds(rows, refs, stored);
    forall id | id in wanted ensures id in changed {
      var p :| p in rows && (p.id in stored || Stale(p, refs)) && p.id == id;
      var k :| 0 <= k < |rows| && rows[k] == p;
    }
    forall id | id in changed ensures id in wanted {
      var k :| 0 <= k < |rows| && rows[k].id == id;
      if id !in stored {
        var j :| 0 <= j < |rows| && Stale(rows[j], refs) && rows[j].id == id;
        assert rows[j] in rows;
      } else {
        assert rows[k] in rows;
      }
    }
  }
}
