// Writer against validator: a release built from fresh references is accepted by validate_release if
// and only if every post is in at most one collection, and that collection is on the post's own board.
module AcceptedReleases {
  import opened Wrappers
  import opened StaticRelease
  import opened Validation
  import opened ValidBoards
  import opened ValidCollections
  import opened ValidReleases
  import I = Incremental
  import R = ExportRuns
  import J = Journal

  // What staging guarantees of its collections, whatever the archive's memberships are.
  ghost predicate WellStaged(boards: seq<Board>, cs: seq<CollectionOut>, objects: set<Payload>) {
    && I.DistinctBoards(boards) && DistinctIds(cs)
    && (forall c | c in cs :: KnownBoard(boards, c.board) && c.id > 0 && CollectionFits(c, objects))
    && (forall c, i | c in cs && 0 <= i < |c.entries| :: c.entries[i].ext > 0)
  }

  lemma SummariesAlwaysFit(boards: seq<Board>, cs: seq<CollectionOut>, objects: set<Payload>)
    requires WellStaged(boards, cs, objects)
    ensures SummariesFit(Summaries(cs), Rows(ShardsFrom(cs, 0)))
  {
    var rows := Rows(ShardsFrom(cs, 0));
    AllRows(cs);
    forall i, c | 0 <= i < |cs| && c in rows && c.id == Summaries(cs)[i].id ensures SummaryFits(Summaries(cs)[i], c) {
      assert cs[i] in cs && c in cs;
      SameIdSame(cs, c, cs[i]);
    }
    forall id ensures id in Elements(RowIds(rows)) <==> id in Elements(SummaryIds(Summaries(cs))) {
      IdsOf(rows, id);
      IdsOf(cs, id);
      assert SummaryIds(Summaries(cs)) == RowIds(cs);
    }
  }

  lemma IdsOf(rows: seq<CollectionOut>, id: nat)
    ensures id in RowIds(rows) <==> exists c :: c in rows && c.id == id
  {
    if id in RowIds(rows) {
      var i :| 0 <= i < |rows| && RowIds(rows)[i] == id;
      assert rows[i] in rows;
    }
    if c :| c in rows && c.id == id {
      var i :| 0 <= i < |rows| && rows[i] == c;
      assert RowIds(rows)[i] == id;
    }
  }

  lemma MembershipAlwaysFits(boards: seq<Board>, cs: seq<CollectionOut>, objects: set<Payload>, m: Membership)
    requires WellStaged(boards, cs, objects) && Homes(cs) && Distinct(Keys(Expected(cs))) && MadeFor(m, cs)
    ensures MembershipFits(m, Rows(ShardsFrom(cs, 0)))
  {
    var rows := Rows(ShardsFrom(cs, 0));
    AllRows(cs);
    BoardMembersAre(cs, m.board);
    BoardUnavailableAre(cs, m.board);
    BoardUnavailableOnce(cs, m.board);
    forall i | 0 <= i < |m.members|
      ensures m.members[i].ext > 0 && m.members[i].collection > 0 && m.members[i].position > 0
    {
      assert m.members[i] in m.members;
      var c, k :| c in cs && c.board == m.board && 0 <= k < |c.entries|
                  && m.members[i] == Member(c.entries[k].ext, c.id, c.entries[k].position);
    }
    forall x | x in m.unavailable ensures x > 0 && exists i :: 0 <= i < |m.members| && m.members[i].ext == x {
      var c, k :| c in cs && c.board == m.board && 0 <= k < |c.entries|
                  && c.entries[k].objectKey.None? && c.entries[k].ext == x;
      assert Member(c.entries[k].ext, c.id, c.entries[k].position) in m.members;
    }
    UnavailableAgree(cs, rows, m.board);
  }

  lemma UnavailableAgree(cs: seq<CollectionOut>, rows: seq<CollectionOut>, board: string)
    requires Homes(cs) && forall c :: c in rows <==> c in cs
    ensures Elements(BoardUnavailable(cs, board)) == UnavailableOn(rows, board)
  {
    BoardUnavailableAre(cs, board);
    forall x ensures x in Elements(BoardUnavailable(cs, board)) <==> x in UnavailableOn(rows, board) {
      if x in BoardUnavailable(cs, board) {
        var c, k :| c in cs && c.board == board && 0 <= k < |c.entries|
                    && c.entries[k].objectKey.None? && c.entries[k].ext == x;
        assert c in rows && c.entries[k].board == board;
      }
      if x in UnavailableOn(rows, board) {
        var c, k :| c in rows && 0 <= k < |c.entries| && c.entries[k].board == board
                    && c.entries[k].objectKey.None? && c.entries[k].ext == x;
        assert c in cs && c.entries[k].board == c.board;
      }
    }
  }

  lemma IndexIff(boards: seq<Board>, cs: seq<CollectionOut>, objects: set<Payload>)
    requires WellStaged(boards, cs, objects)
    ensures IndexFits(IndexOf(boards, cs), objects) <==> Homes(cs) && Distinct(Keys(Expected(cs)))
  {
    var rows := Rows(ShardsFrom(cs, 0));
    AllRows(cs);
    SummariesAlwaysFit(boards, cs, objects);
    ShardNumbersDistinct(cs, 0);
    MembershipsMade(boards, cs);
    ShardsKeepPlacements(cs);
    DeclaredIffHomes(boards, cs);
    if Homes(cs) && Distinct(Keys(Expected(cs))) {
      DeclaredOnce(boards, cs);
      forall m | m in Memberships(boards, cs) ensures MembershipFits(m, rows) {
        MembershipAlwaysFits(boards, cs, objects, m);
      }
    }
  }

  // ---------------------------------------------------------------- from the archive

  lemma StagingIsWell(db: Database, refs: Refs, objects: set<Payload>)
    requires Valid(db) && Fresh(Captured(db.posts), refs) && CollectionsFor(db, refs, db.collections).Ok?
    requires forall p | p in Captured(db.posts) :: refs[Identity(p)].summary.payload in objects
    ensures WellStaged(db.boards, CollectionsFor(db, refs, db.collections).value, objects)
  {
    var cs := CollectionsFor(db, refs, db.collections).value;
    CollectionsStaged(db, refs, db.collections);
    forall i, j | 0 <= i < j < |cs| ensures cs[i].id != cs[j].id {
      assert Staged(db, refs, db.collections[i], cs[i]) && Staged(db, refs, db.collections[j], cs[j]);
    }
    forall c | c in cs
      ensures KnownBoard(db.boards, c.board) && c.id > 0 && CollectionFits(c, objects)
      ensures forall k | 0 <= k < |c.entries| :: c.entries[k].ext > 0
    {
      var i :| 0 <= i < |cs| && cs[i] == c;
      assert Staged(db, refs, db.collections[i], c);
      forall k | 0 <= k < |c.entries|
        ensures c.entries[k].position == k + 1 && c.entries[k].ext > 0
        ensures c.entries[k].objectKey.Some? ==> c.entries[k].objectKey.value in objects
      {
        assert StagedEntry(db, refs, db.collections[i], db.collections[i].entries[k], c.entries[k], k + 1);
        assert EntryFits(db, db.collections[i].entries[k]);
        StagedEntryFits(db, refs, db.collections[i], db.collections[i].entries[k], objects);
      }
    }
  }

  lemma StagedEntryFits(db: Database, refs: Refs, c: Collection, e: Entry, objects: set<Payload>)
    requires Valid(db) && EntryFits(db, e) && EntryFor(db, refs, c, e).Ok?
    requires forall p | p in Captured(db.posts) :: Identity(p) in refs && refs[Identity(p)].summary.payload in objects
    ensures var out := EntryFor(db, refs, c, e).value;
            out.ext > 0 && (out.objectKey.Some? ==> out.objectKey.value in objects)
  {
    var p := PostOf(db, e);
    if p.Some? {
      var i :| 0 <= i < |db.posts| && db.posts[i] == p.value;
      assert db.posts[i].fields.ext > 0;
      if p.value.version.Some? {
        assert p.value in Captured(db.posts);
      }
    }
  }

  lemma ConditionsOfStaged(db: Database, refs: Refs)
    requires CollectionsFor(db, refs, db.collections).Ok?
    ensures var cs := CollectionsFor(db, refs, db.collections).value;
            (Homes(cs) <==> OnOwnBoards(db)) && (Distinct(Keys(Expected(cs))) <==> InOneCollection(db))
  {
    var cs := CollectionsFor(db, refs, db.collections).value;
    CollectionsStaged(db, refs, db.collections);
    ExpectedKeys(db, refs, db.collections, cs);
    if Homes(cs) {
      forall i, j | 0 <= i < |db.collections| && 0 <= j < |db.collections[i].entries|
        ensures EntryKey(db, db.collections[i], db.collections[i].entries[j]).0 == db.collections[i].board
      {
        assert Staged(db, refs, db.collections[i], cs[i]) && cs[i] in cs;
        assert StagedEntry(db, refs, db.collections[i], db.collections[i].entries[j], cs[i].entries[j], j + 1);
      }
    }
    if OnOwnBoards(db) {
      forall c, j | c in cs && 0 <= j < |c.entries| ensures c.entries[j].board == c.board {
        var i :| 0 <= i < |cs| && cs[i] == c;
        assert Staged(db, refs, db.collections[i], c);
        assert StagedEntry(db, refs, db.collections[i], db.collections[i].entries[j], c.entries[j], j + 1);
      }
    }
  }

  // Every release the writer builds is accepted exactly under the two conditions on the archive.
  lemma BuiltIsAcceptedIff(db: Database, refs: Refs, seen: nat -> string)
    requires Valid(db) && Fresh(Captured(db.posts), refs) && I.AllPrepared(refs) && Build(db, refs, seen).Ok?
    ensures Accepted(Build(db, refs, seen).value) <==> OnOwnBoards(db) && InOneCollection(db)
  {
    var r := Build(db, refs, seen).value;
    I.BuildParts(db, refs, seen);
    var cs := CollectionsFor(db, refs, db.collections).value;
    BoardsAndSearchFit(db, refs, seen);
    ObjectOfEvery(db, refs, seen);
    StagingIsWell(db, refs, Objects(r.boards));
    IndexIff(db.boards, cs, Objects(r.boards));
    ConditionsOfStaged(db, refs);
    AllRows(cs);
    assert r.collections.shards == ShardsFrom(cs, 0);
  }

  // Full and incremental exports of one archive are accepted together.
  lemma ExportsAreAcceptedIff(db: Database, base: Refs, stored: set<nat>, seen: nat -> string)
    requires Valid(db) && I.AllPrepared(base) && FullExport(db, seen).Ok?
    ensures var rows := Captured(db.posts);
            var after := I.Reprepare(rows, I.ChangedIds(rows, base, stored), base);
            && (Accepted(FullExport(db, seen).value) <==> OnOwnBoards(db) && InOneCollection(db))
            && Build(db, after, seen).Ok?
            && (Accepted(Build(db, after, seen).value) <==> OnOwnBoards(db) && InOneCollection(db))
  {
    var rows := Captured(db.posts);
    FullExportIsAcceptedIff(db, seen);
    I.NothingIsStale(db, base, stored, seen);
    I.IncrementalSaysWhatFullSays(db, base, stored, seen);
    I.RepreparingKeepsPrepared(rows, I.ChangedIds(rows, base, stored), base);
    BuiltIsAcceptedIff(db, I.Reprepare(rows, I.ChangedIds(rows, base, stored), base), seen);
  }

  ghost function Accepts(): Release -> bool {
    (r: Release) => Accepted(r)
  }

  // A full export of such an archive is never refused, so run to its end it leaves the pointer on a
  // release that says what it built; any other archive is refused, and the pointer stays.
  lemma FullExportMovesThePointerIff(d: J.Disk<Release, R.Mark>, q: R.Request, seen: nat -> string)
    requires Valid(q.db) && q.full && FullExport(q.db, seen).Ok?
    ensures var after := J.Step(d, R.EventOf(d, R.Run(q, 1, 3), seen, Accepts()));
            after.pointer == if OnOwnBoards(q.db) && InOneCollection(q.db) then Some(FullExport(q.db, seen).value)
                             else d.pointer
  {
    FullExportIsAcceptedIff(q.db, seen);
    R.FullExportPointer(d, q, seen, Accepts());
  }

  lemma FullExportIsAcceptedIff(db: Database, seen: nat -> string)
    requires Valid(db) && FullExport(db, seen).Ok?
    ensures Accepted(FullExport(db, seen).value) <==> OnOwnBoards(db) && InOneCollection(db)
  {
    var rows := Captured(db.posts);
    I.CapturedRows(db);
    I.FullIsFresh(rows);
    BuiltIsAcceptedIff(db, PrepareAll(rows), seen);
  }
}
