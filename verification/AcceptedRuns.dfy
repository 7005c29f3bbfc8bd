// Every kind of export against the validator: what is promoted is accepted under one condition on the
// archive, which only a full export checks; over whole runs, and with a run that shows the difference.
module AcceptedRuns {
  import opened Wrappers
  import opened StaticRelease
  import opened Validation
  import opened ValidBoards
  import opened ValidCollections
  import opened ValidReleases
  import opened AcceptedReleases
  import opened Fingerprint
  import opened ExportRuns
  import I = Incremental
  import J = Journal

  // ---------------------------------------------------------------- what collections do not touch

  // The half of validate_release that is about boards, search and post counts.
  ghost predicate PostsFit(r: Release) {
    && BoardsFit(r.boards) && SearchFits(r)
    && r.counts.posts == |AllRefs(r.boards)| == |r.search|
    && r.counts.comments == CommentSum(AllRefs(r.boards)) && r.counts.boards == |r.boards|
  }

  // The other half.
  ghost predicate CollectionsFit(r: Release) {
    var rows := Rows(r.collections.shards);
    && IndexFits(r.collections, Objects(r.boards))
    && r.counts.collections == |rows| && r.counts.entries == EntryTotal(rows)
  }

  lemma AcceptedHalves(r: Release)
    ensures Accepted(r) <==> PostsFit(r) && CollectionsFit(r)
  {
  }

  lemma BuiltPostsFit(db: Database, refs: Refs, seen: nat -> string)
    requires Valid(db) && Fresh(Captured(db.posts), refs) && I.AllPrepared(refs) && Build(db, refs, seen).Ok?
    ensures PostsFit(Build(db, refs, seen).value)
  {
    I.BuildParts(db, refs, seen);
    BoardsAndSearchFit(db, refs, seen);
  }

  // ---------------------------------------------------------------- a refresh

  lemma {:induction false} PageRefsListed(posts: seq<Ref>)
    ensures forall k | k in PageRefs(posts) :: PageRefs(posts)[k] in posts
    decreases |posts|
  {
    if posts != [] {
      PageRefsListed(posts[1..]);
    }
  }

  lemma {:induction false} LoadedAreListed(pages: seq<Page>)
    ensures forall k | k in LoadRefs(pages) :: LoadRefs(pages)[k] in AllRefs(pages)
    decreases |pages|
  {
    if pages != [] {
      LoadedAreListed(pages[1..]);
      PageRefsListed(pages[0].posts);
    }
  }

  // Rebuilding only the collections of a release whose boards and search fit gives an acceptable one
  // under the same condition on the archive.
  lemma RefreshedIsAcceptedIff(db: Database, base: Release, mark: Mark, seen: nat -> string)
    requires Valid(db) && Describes(seen, base, mark) && ContentOf(db) == mark.content && Refreshed(db, base).Ok?
    requires PostsFit(base)
    ensures PostsFit(Refreshed(db, base).value)
    ensures Accepted(Refreshed(db, base).value) <==> OnOwnBoards(db) && InOneCollection(db)
  {
    var refs := LoadRefs(base.boards);
    var cs := CollectionsFor(db, refs, db.collections).value;
    DescribesAt(seen, base, mark, db);
    LoadedAreListed(base.boards);
    forall p | p in Captured(db.posts) ensures refs[Identity(p)].summary.payload in Objects(base.boards) {
      assert refs[Identity(p)] in AllRefs(base.boards);
    }
    StagingIsWell(db, refs, Objects(base.boards));
    IndexIff(db.boards, cs, Objects(base.boards));
    ConditionsOfStaged(db, refs);
    AllRows(cs);
    AcceptedHalves(Refreshed(db, base).value);
  }

  // ---------------------------------------------------------------- any export

  // What the journal records of a release: what it says, and that its boards and search fit.
  ghost predicate Sound(seen: nat -> string, release: Release, mark: Mark) {
    Describes(seen, release, mark) && PostsFit(release)
  }

  ghost function Soundly(seen: nat -> string): (Release, Mark) -> bool {
    (release: Release, mark: Mark) => Sound(seen, release, mark)
  }

  // Whatever an export builds, whole, from a delta or by a refresh, is acceptable under one and the same
  // condition on the archive.
  lemma PlanIsAcceptedIff(base: Option<J.Snapshot<Release, Mark>>, q: Request, seen: nat -> string)
    requires Valid(q.db) && (base.Some? ==> Sound(seen, base.value.release, base.value.fingerprint))
    requires ExportPlan(base, q, seen).Promote?
    ensures var built := ExportPlan(base, q, seen).built;
            && Sound(seen, built.release, built.fingerprint)
            && (Accepted(built.release) <==> OnOwnBoards(q.db) && InOneCollection(q.db))
  {
    PlanSaysWhatFullSays(base, q, seen);
    if q.full || base.None? {
      FullPlanFits(q, seen);
    } else if ContentOf(q.db) == base.value.fingerprint.content {
      RefreshedIsAcceptedIff(q.db, base.value.release, base.value.fingerprint, seen);
    } else {
      DeltaPlanFits(base.value, q, seen);
    }
  }

  lemma FullPlanFits(q: Request, seen: nat -> string)
    requires Valid(q.db) && FullExport(q.db, seen).Ok?
    ensures PostsFit(FullExport(q.db, seen).value)
    ensures Accepted(FullExport(q.db, seen).value) <==> OnOwnBoards(q.db) && InOneCollection(q.db)
  {
    I.CapturedRows(q.db);
    I.FullIsFresh(Captured(q.db.posts));
    BuiltPostsFit(q.db, PrepareAll(Captured(q.db.posts)), seen);
    FullExportIsAcceptedIff(q.db, seen);
  }

  lemma DeltaPlanFits(base: J.Snapshot<Release, Mark>, q: Request, seen: nat -> string)
    requires Valid(q.db) && I.AllPrepared(LoadRefs(base.release.boards)) && DeltaPlan(base, q, seen).Promote?
    ensures var built := DeltaPlan(base, q, seen).built;
            PostsFit(built.release) && (Accepted(built.release) <==> OnOwnBoards(q.db) && InOneCollection(q.db))
  {
    var rows, refs := Captured(q.db.posts), LoadRefs(base.release.boards);
    var stored := I.StoredIds(q.captures, base.highWater, q.highWater);
    var changed := I.ChangedIds(rows, refs, stored);
    I.NothingIsStale(q.db, refs, stored, seen);
    I.RepreparingKeepsPrepared(rows, changed, refs);
    BuiltPostsFit(q.db, I.Reprepare(rows, changed, refs), seen);
    BuiltIsAcceptedIff(q.db, I.Reprepare(rows, changed, refs), seen);
  }

  // ---------------------------------------------------------------- over runs

  lemma SoundBase(d: J.Disk<Release, Mark>, seen: nat -> string)
    requires J.Honest(d, Soundly(seen))
    ensures var base := RecoveredBase(d);
            base.Some? ==> Sound(seen, base.value.release, base.value.fingerprint)
  {
    J.RecoveryIff(d);
    var base := RecoveredBase(d);
    if base.Some? {
      assert Soundly(seen)(base.value.release, base.value.fingerprint);
    }
  }

  lemma EventsAreSound(d: J.Disk<Release, Mark>, h: Happening, seen: nat -> string, accepts: Release -> bool)
    requires J.Honest(d, Soundly(seen)) && (h.Run? ==> Valid(h.q.db))
    ensures J.EventHonest(d, EventOf(d, h, seen, accepts), Soundly(seen))
  {
    if h.Run? && (J.Recovery(d).result.Ok? || h.q.full) {
      SoundBase(d, seen);
      PlanIsSound(RecoveredBase(d), h.q, seen);
      PlannedIsSound(d, ExportPlan(RecoveredBase(d), h.q, seen), h, seen, accepts);
      EventIsPlanned(d, h, seen, accepts);
    }
  }

  lemma PlanIsSound(base: Option<J.Snapshot<Release, Mark>>, q: Request, seen: nat -> string)
    requires Valid(q.db) && (base.Some? ==> Sound(seen, base.value.release, base.value.fingerprint))
    ensures var plan := ExportPlan(base, q, seen);
            && (plan.Promote? ==> Sound(seen, plan.built.release, plan.built.fingerprint))
            && (plan.Keep? ==> base.Some? && Sound(seen, base.value.release, plan.mark))
  {
    PlanSaysWhatFullSays(base, q, seen);
    if ExportPlan(base, q, seen).Promote? {
      PlanIsAcceptedIff(base, q, seen);
    }
  }

  lemma EventIsPlanned(d: J.Disk<Release, Mark>, h: Happening, seen: nat -> string, accepts: Release -> bool)
    requires h.Run? && (J.Recovery(d).result.Ok? || h.q.full)
    ensures EventOf(d, h, seen, accepts)
            == PlannedEvent(d, ExportPlan(RecoveredBase(d), h.q, seen), h.q, h.recoveryCut, h.cut, accepts)
  {
  }

  lemma PlannedIsSound(d: J.Disk<Release, Mark>, plan: Plan, h: Happening, seen: nat -> string,
                       accepts: Release -> bool)
    requires h.Run?
    requires plan.Promote? ==> Sound(seen, plan.built.release, plan.built.fingerprint)
    requires plan.Keep? ==> RecoveredBase(d).Some? && Sound(seen, RecoveredBase(d).value.release, plan.mark)
    ensures J.EventHonest(d, PlannedEvent(d, plan, h.q, h.recoveryCut, h.cut, accepts), Soundly(seen))
  {
  }

  lemma {:induction false} RunsStaySound(d: J.Disk<Release, Mark>, hs: seq<Happening>, seen: nat -> string,
                                         accepts: Release -> bool)
    requires J.Honest(d, Soundly(seen)) && ValidArchives(hs)
    ensures J.Honest(After(d, hs, seen, accepts), Soundly(seen))
    decreases |hs|
  {
    if hs != [] {
      assert hs[0] in hs && forall h | h in hs[1..] :: h in hs;
      EventsAreSound(d, hs[0], seen, accepts);
      J.StepKeepsHonest(d, EventOf(d, hs[0], seen, accepts), Soundly(seen));
      RunsStaySound(J.Step(d, EventOf(d, hs[0], seen, accepts)), hs[1..], seen, accepts);
    }
  }

  // After any run, crashes included, an export that builds a release is acceptable exactly under the
  // condition on its archive, but only an export without a base, or a full one, is held to it: any other
  // moves the pointer to what it built all the same.
  lemma ExportsMoveThePointerIff(pointer: Option<Release>, hs: seq<Happening>, seen: nat -> string, q: Request)
    requires ValidArchives(hs) && Valid(q.db)
    requires var d := After(J.Disk(None, pointer, true), hs, seen, Accepts());
             ExportPlan(RecoveredBase(d), q, seen).Promote? && (J.Recovery(d).result.Ok? || q.full)
    ensures var d := After(J.Disk(None, pointer, true), hs, seen, Accepts());
            var built := ExportPlan(RecoveredBase(d), q, seen).built.release;
            var after := J.Step(d, EventOf(d, Run(q, 1, 3), seen, Accepts())).pointer;
            && (Accepted(built) <==> OnOwnBoards(q.db) && InOneCollection(q.db))
            && after == if (q.full || RecoveredBase(d).None?) && !Accepted(built) then d.pointer else Some(built)
  {
    var d := After(J.Disk(None, pointer, true), hs, seen, Accepts());
    RunsStaySound(J.Disk(None, pointer, true), hs, seen, Accepts());
    ExportMovesThePointerIff(d, seen, q);
  }

  lemma ExportMovesThePointerIff(d: J.Disk<Release, Mark>, seen: nat -> string, q: Request)
    requires J.Honest(d, Soundly(seen)) && Valid(q.db)
    requires ExportPlan(RecoveredBase(d), q, seen).Promote? && (J.Recovery(d).result.Ok? || q.full)
    ensures var built := ExportPlan(RecoveredBase(d), q, seen).built.release;
            var after := J.Step(d, EventOf(d, Run(q, 1, 3), seen, Accepts())).pointer;
            && (Accepted(built) <==> OnOwnBoards(q.db) && InOneCollection(q.db))
            && after == if (q.full || RecoveredBase(d).None?) && !Accepted(built) then d.pointer else Some(built)
  {
    SoundBase(d, seen);
    PlanIsAcceptedIff(RecoveredBase(d), q, seen);
    PromotedPointer(d, q, seen);
  }

  lemma PromotedPointer(d: J.Disk<Release, Mark>, q: Request, seen: nat -> string)
    requires ExportPlan(RecoveredBase(d), q, seen).Promote? && (J.Recovery(d).result.Ok? || q.full)
    ensures var built := ExportPlan(RecoveredBase(d), q, seen).built.release;
            J.Step(d, EventOf(d, Run(q, 1, 3), seen, Accepts())).pointer
            == if (q.full || RecoveredBase(d).None?) && !Accepted(built) then d.pointer else Some(built)
  {
    var built := ExportPlan(RecoveredBase(d), q, seen).built;
    var refused := Refused(RecoveredBase(d), q, built.release, Accepts());
    assert EventOf(d, Run(q, 1, 3), seen, Accepts()) == J.Export(built, 1, if refused then 1 else 3);
    J.WholeExport(d, built, if refused then 1 else 3);
  }

  // ---------------------------------------------------------------- a run that shows it

  // An archive with one captured post, in one collection or in two.
  function Shelved(twice: bool): Database {
    var f := Fields("novel", 7, "p", "t", None, None, None, None, false, 0, 0, 0, 0, None);
    var one := Collection(1, "novel", "series", "one", [Entry(1, Some(1), None, None)]);
    var two := Collection(2, "novel", "series", "two", [Entry(1, Some(1), None, None)]);
    Database([Board("novel", "n", "g", "u")], [Post(1, f, Some(1), 0, "available")],
             if twice then [one, two] else [one])
  }

  lemma ShelvedIsValid(twice: bool)
    ensures Valid(Shelved(twice)) && OnOwnBoards(Shelved(twice)) && (InOneCollection(Shelved(twice)) <==> !twice)
  {
    var db := Shelved(twice);
    assert db.boards[0].id == "novel";
    assert KnownBoard(db.boards, "novel");
    assert Find(db.posts, 1) == Some(db.posts[0]);
    ShelvedKeys(twice);
    var keys := EntryKeys(db, db.collections);
    assert twice ==> keys[0] == keys[1];
  }

  lemma ShelvedKeys(twice: bool)
    ensures EntryKeys(Shelved(twice), Shelved(twice).collections)
            == if twice then [("novel", 7), ("novel", 7)] else [("novel", 7)]
  {
    var db := Shelved(twice);
    var key: (string, nat) := ("novel", 7);
    OneKey(db, db.collections[0]);
    if twice {
      OneKey(db, db.collections[1]);
      assert db.collections[1..] == [db.collections[1]] && db.collections[1..][1..] == [];
      assert EntryKeys(db, []) == [];
      assert EntryKeys(db, db.collections[1..]) == [key] + [];
      assert EntryKeys(db, db.collections) == [key] + ([key] + []) == [key, key];
    } else {
      assert db.collections[1..] == [];
      assert EntryKeys(db, db.collections) == [key] + [] == [key];
    }
  }

  lemma OneKey(db: Database, c: Collection)
    requires c.entries == [Entry(1, Some(1), None, None)] && Find(db.posts, 1) == Some(Shelved(false).posts[0])
    ensures seq(|c.entries|, i requires 0 <= i < |c.entries| => EntryKey(db, c, c.entries[i])) == [("novel", 7)]
  {
    assert PostOf(db, c.entries[0]) == Some(Shelved(false).posts[0]);
  }

  lemma ShelvedIsBuilt(twice: bool, seen: nat -> string)
    ensures Valid(Shelved(twice)) && FullExport(Shelved(twice), seen).Ok?
  {
    var db := Shelved(twice);
    ShelvedIsValid(twice);
    var rows := Captured(db.posts);
    var refs := PrepareAll(rows);
    I.CapturedRows(db);
    I.FullIsFresh(rows);
    assert db.posts[0] in rows;
    ShelvedCollection(db, refs, db.collections[0]);
    if twice {
      ShelvedCollection(db, refs, db.collections[1]);
      assert db.collections[1..] == [db.collections[1]] && db.collections[1..][1..] == [];
    } else {
      assert db.collections[1..] == [];
    }
    assert CollectionsFor(db, refs, []) == Ok([]);
    I.FreshBuildsOrCollections(db, refs, seen);
  }

  lemma ShelvedCollection(db: Database, refs: Refs, c: Collection)
    requires db.posts == Shelved(false).posts && Identity(db.posts[0]) in refs
    requires c.entries == [Entry(1, Some(1), None, None)]
    ensures EntriesFor(db, refs, c, c.entries, 1).Ok?
  {
    assert PostOf(db, c.entries[0]) == Some(db.posts[0]);
    assert EntryFor(db, refs, c, c.entries[0]).Ok?;
    assert c.entries[1..] == [] && EntriesFor(db, refs, c, [], 2) == Ok([]);
  }

  function Asked(twice: bool, full: bool): Request {
    Request(Shelved(twice), [], 0, full, false, 0, 0)
  }

  // What a full export of the one leaves.
  function Published(seen: nat -> string): J.Disk<Release, Mark>
    requires FullExport(Shelved(false), seen).Ok?
  {
    var release := FullExport(Shelved(false), seen).value;
    var built := J.Snapshot(release, 0, Mark(ContentOf(Shelved(false)), 0));
    J.Disk(Some(J.State(Some(built), None)), Some(release), true)
  }

  // A full export of the one is published. An incremental export of the other is published too, though
  // the validator does not accept what it built, and a full export of it is refused.
  lemma IncrementalPublishesWhatFullRefuses(seen: nat -> string)
    ensures var d := After(J.Disk(None, None, true), [Run(Asked(false, true), 1, 3)], seen, Accepts());
            var full := J.Step(d, EventOf(d, Run(Asked(true, true), 1, 3), seen, Accepts()));
            var delta := J.Step(d, EventOf(d, Run(Asked(true, false), 1, 3), seen, Accepts()));
            && d.pointer.Some? && Accepted(d.pointer.value) && full.pointer == d.pointer
            && delta.pointer.Some? && !Accepted(delta.pointer.value)
  {
    FirstShelved(seen);
    ShelvedIsValid(false);
    FullExportIsAcceptedIff(Shelved(false), seen);
    SecondIsRefused(Published(seen), seen);
    SecondIsPublished(seen);
  }

  lemma SecondIsRefused(d: J.Disk<Release, Mark>, seen: nat -> string)
    ensures J.Step(d, EventOf(d, Run(Asked(true, true), 1, 3), seen, Accepts())).pointer == d.pointer
  {
    ShelvedIsValid(true);
    ShelvedIsBuilt(true, seen);
    FullExportMovesThePointerIff(d, Asked(true, true), seen);
  }

  lemma SecondIsPublished(seen: nat -> string)
    requires FullExport(Shelved(false), seen).Ok?
    ensures var d := Published(seen);
            var delta := J.Step(d, EventOf(d, Run(Asked(true, false), 1, 3), seen, Accepts()));
            delta.pointer.Some? && !Accepted(delta.pointer.value)
  {
    ShelvedIsValid(true);
    PublishedBase(seen);
    DeltaShelved(RecoveredBase(Published(seen)).value, seen);
    ExportMovesThePointerIff(Published(seen), seen, Asked(true, false));
  }

  lemma PublishedBase(seen: nat -> string)
    requires FullExport(Shelved(false), seen).Ok?
    ensures var d := Published(seen);
            && J.Honest(d, Soundly(seen))
            && J.Recovery(d).result == Ok(d.journal) && RecoveredBase(d) == d.journal.value.base
  {
    var base := Published(seen).journal.value.base.value;
    ShelvedIsValid(false);
    FullIsSound(Asked(false, true), seen);
    OnlyBase(Published(seen), base, seen);
  }

  lemma FullIsSound(q: Request, seen: nat -> string)
    requires Valid(q.db) && FullExport(q.db, seen).Ok?
    ensures Sound(seen, FullExport(q.db, seen).value, Mark(ContentOf(q.db), q.revision))
  {
    FullPlanSays(q, seen);
    FullPlanFits(q, seen);
  }

  lemma OnlyBase(d: J.Disk<Release, Mark>, base: J.Snapshot<Release, Mark>, seen: nat -> string)
    requires d == J.Disk(Some(J.State(Some(base), None)), Some(base.release), true)
    requires Sound(seen, base.release, base.fingerprint)
    ensures J.Honest(d, Soundly(seen)) && J.Recovery(d).result == Ok(d.journal) && RecoveredBase(d) == Some(base)
  {
  }

  lemma FirstShelved(seen: nat -> string)
    ensures FullExport(Shelved(false), seen).Ok?
    ensures After(J.Disk(None, None, true), [Run(Asked(false, true), 1, 3)], seen, Accepts()) == Published(seen)
  {
    ShelvedIsValid(false);
    ShelvedIsBuilt(false, seen);
    FullExportIsAcceptedIff(Shelved(false), seen);
    FullEvent(J.Disk(None, None, true), Asked(false, true), seen, Accepts());
    FirstPromotion(Published(seen).journal.value.base.value);
    AfterOne(J.Disk(None, None, true), Run(Asked(false, true), 1, 3), seen);
  }

  lemma AfterOne(d: J.Disk<Release, Mark>, h: Happening, seen: nat -> string)
    ensures After(d, [h], seen, Accepts()) == J.Step(d, EventOf(d, h, seen, Accepts()))
  {
    var t := J.Step(d, EventOf(d, h, seen, Accepts()));
    assert [h][1..] == [] && After(t, [], seen, Accepts()) == t;
  }

  lemma FirstPromotion(built: J.Snapshot<Release, Mark>)
    ensures J.Step(J.Disk(None, None, true), J.Export(built, 1, 3))
            == J.Disk(Some(J.State(Some(built), None)), Some(built.release), true)
  {
    var start: J.Disk<Release, Mark> := J.Disk(None, None, true);
    assert J.Recovery(start) == J.Outcome([], Ok(None));
    J.PromotionStages(start, None, built, 3);
    PromoteWrites(start, built, 3);
  }

  lemma DeltaShelved(base: J.Snapshot<Release, Mark>, seen: nat -> string)
    requires FullExport(Shelved(false), seen).Ok? && base.release == FullExport(Shelved(false), seen).value
    requires base.highWater == 0 && base.fingerprint == Mark(ContentOf(Shelved(false)), 0)
    ensures ExportPlan(Some(base), Asked(true, false), seen).Promote?
  {
    var q := Asked(true, false);
    ShelvedIsValid(false);
    ShelvedIsBuilt(true, seen);
    FullPlanSays(Asked(false, true), seen);
    ContentsDiffer();
    var refs := LoadRefs(base.release.boards);
    I.IncrementalSaysWhatFullSays(q.db, refs, I.StoredIds(q.captures, base.highWater, q.highWater), seen);
  }

  lemma ContentsDiffer()
    ensures ContentOf(Shelved(true)) != ContentOf(Shelved(false))
    ensures ContentOf(Shelved(true)).posts == ContentOf(Shelved(false)).posts
  {
    assert |Shelved(true).collections| != |Shelved(false).collections|;
  }
}
