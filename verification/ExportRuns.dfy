// Runs of exports over a changing archive, with a crash allowed between any two durable writes: the
// base that recovery returns always says what a full export says.
module ExportRuns {
  import opened Wrappers
  import opened StaticRelease
  import opened ReleaseMeaning
  import opened Incremental
  import opened Fingerprint
  import opened Journal

  datatype Mark = Mark(content: Content, revision: nat)

  // ---------------------------------------------------------------- the base release

  function KeyOf(r: Ref): (string, nat) {
    (r.summary.board, r.summary.ext)
  }

  function PageRefs(posts: seq<Ref>): Refs {
    if posts == [] then map[] else PageRefs(posts[1..])[KeyOf(posts[0]) := posts[0]]
  }

  // _load_base_release
  function LoadRefs(pages: seq<Page>): Refs {
    if pages == [] then map[] else LoadRefs(pages[1..]) + PageRefs(pages[0].posts)
  }

  lemma {:induction false} PageRefsAre(posts: seq<Ref>, refs: Refs)
    requires forall r | r in posts :: KeyOf(r) in refs && refs[KeyOf(r)] == r
    ensures forall k | k in PageRefs(posts) :: k in refs && PageRefs(posts)[k] == refs[k]
    ensures forall r | r in posts :: KeyOf(r) in PageRefs(posts)
    decreases |posts|
  {
    if posts != [] {
      assert posts[0] in posts && forall r | r in posts[1..] :: r in posts;
      PageRefsAre(posts[1..], refs);
      assert forall r | r in posts :: r == posts[0] || r in posts[1..];
    }
  }

  // What is loaded back from the pages of a release are the references it was built from.
  lemma {:induction false} LoadedPages(boards: seq<Board>, rows: seq<Post>, refs: Refs, seen: nat -> string)
    requires Fresh(rows, refs) && Pages(boards, rows, refs, seen).Ok?
    ensures var loaded := LoadRefs(Pages(boards, rows, refs, seen).value);
            && (forall k | k in loaded :: k in refs && loaded[k] == refs[k])
            && (forall p | p in rows && KnownBoard(boards, p.fields.board) :: Identity(p) in loaded)
    decreases |boards|
  {
    if boards != [] {
      LoadedPage(boards[0].id, rows, refs, seen);
      LoadedPages(boards[1..], rows, refs, seen);
      forall p | p in rows && KnownBoard(boards, p.fields.board) && p.fields.board != boards[0].id
        ensures KnownBoard(boards[1..], p.fields.board)
      {
        OnLaterBoard(boards, p.fields.board);
      }
    }
  }

  lemma OnLaterBoard(boards: seq<Board>, id: string)
    requires KnownBoard(boards, id) && boards[0].id != id
    ensures KnownBoard(boards[1..], id)
  {
    var i :| 0 <= i < |boards| && boards[i].id == id;
    assert boards[1..][i - 1].id == id;
  }

  // The same for the page of one board.
  lemma LoadedPage(board: string, rows: seq<Post>, refs: Refs, seen: nat -> string)
    requires Fresh(rows, refs) && Emit(Sort(ByNumber, seen, OnBoard(rows, board)), refs).Ok?
    ensures var loaded := PageRefs(Emit(Sort(ByNumber, seen, OnBoard(rows, board)), refs).value);
            && (forall k | k in loaded :: k in refs && loaded[k] == refs[k])
            && (forall p | p in rows && p.fields.board == board :: Identity(p) in loaded)
  {
    var sorted := Sort(ByNumber, seen, OnBoard(rows, board));
    SameMembers(sorted, OnBoard(rows, board));
    EmitIff(sorted, refs);
    var posts := RefsOf(sorted, refs);
    forall r | r in posts ensures KeyOf(r) in refs && refs[KeyOf(r)] == r {
      var i :| 0 <= i < |posts| && posts[i] == r;
      assert sorted[i] in sorted;
    }
    PageRefsAre(posts, refs);
    forall p | p in sorted ensures Identity(p) in PageRefs(posts) {
      var i :| 0 <= i < |sorted| && sorted[i] == p;
      assert posts[i] in posts && Matches(p, posts[i]);
    }
  }

  lemma LoadedAreFresh(db: Database, refs: Refs, seen: nat -> string)
    requires Valid(db) && Fresh(Captured(db.posts), refs) && AllPrepared(refs) && Build(db, refs, seen).Ok?
    ensures var loaded := LoadRefs(Build(db, refs, seen).value.boards);
            Fresh(Captured(db.posts), loaded) && AllPrepared(loaded)
  {
    var rows := Captured(db.posts);
    BuildParts(db, refs, seen);
    LoadedPages(db.boards, rows, refs, seen);
    CapturedRows(db);
  }

  // ---------------------------------------------------------------- what a snapshot says

  // The release says what a full export says of every archive with this content, apart from the
  // views and the titles of entries with no post object; and its own references are fresh there.
  ghost predicate Describes(seen: nat -> string, release: Release, mark: Mark) {
    && AllPrepared(LoadRefs(release.boards))
    && forall db | Valid(db) && ContentOf(db) == mark.content ::
         && Fresh(Captured(db.posts), LoadRefs(release.boards))
         && FullExport(db, seen).Ok?
         && SameRelease(false, release, FullExport(db, seen).value)
  }

  lemma BuildDescribes(db: Database, refs: Refs, seen: nat -> string, revision: nat)
    requires Valid(db) && AllPrepared(refs) && Fresh(Captured(db.posts), refs) && Build(db, refs, seen).Ok?
    ensures Describes(seen, Build(db, refs, seen).value, Mark(ContentOf(db), revision))
  {
    var release := Build(db, refs, seen).value;
    LoadedAreFresh(db, refs, seen);
    forall now | Valid(now) && ContentOf(now) == ContentOf(db)
      ensures Fresh(Captured(now.posts), LoadRefs(release.boards))
      ensures FullExport(now, seen).Ok? && SameRelease(false, release, FullExport(now, seen).value)
    {
      FreshUnderContent(db, now, LoadRefs(release.boards));
      KeptReleaseSaysWhatFullSays(db, now, refs, seen);
    }
  }

  // _refresh_collection_aggregates
  function Refreshed(db: Database, base: Release): Result<Release, Error> {
    var cs := CollectionsFor(db, LoadRefs(base.boards), db.collections);
    if cs.Err? then Err(cs.error)
    else Ok(base.(collections := IndexOf(db.boards, cs.value),
                  counts := base.counts.(collections := |cs.value|, entries := EntryTotal(cs.value))))
  }

  lemma RefreshedSays(db: Database, now: Database, base: Release, mark: Mark, seen: nat -> string)
    requires Valid(db) && Describes(seen, base, mark) && ContentOf(db) == mark.content && Refreshed(db, base).Ok?
    requires Valid(now) && ContentOf(now) == mark.content
    ensures FullExport(now, seen).Ok? && SameRelease(false, Refreshed(db, base).value, FullExport(now, seen).value)
    ensures now == db ==> SameRelease(true, Refreshed(db, base).value, FullExport(now, seen).value)
  {
    var loaded := LoadRefs(base.boards);
    DescribesAt(seen, base, mark, db);
    DescribesAt(seen, base, mark, now);
    FreshBuildsOrCollections(db, loaded, seen);
    BuildParts(db, loaded, seen);
    KeptReleaseSaysWhatFullSays(db, now, loaded, seen);
    Combined(false, base, Build(db, loaded, seen).value, Refreshed(db, base).value, FullExport(now, seen).value);
    if now == db {
      FreshSaysWhatFullSays(db, loaded, seen);
      Combined(true, base, Build(db, loaded, seen).value, Refreshed(db, base).value, FullExport(now, seen).value);
    }
  }

  lemma DescribesAt(seen: nat -> string, release: Release, mark: Mark, db: Database)
    requires Describes(seen, release, mark) && Valid(db) && ContentOf(db) == mark.content
    ensures AllPrepared(LoadRefs(release.boards)) && Fresh(Captured(db.posts), LoadRefs(release.boards))
    ensures FullExport(db, seen).Ok? && SameRelease(false, release, FullExport(db, seen).value)
  {
  }

  // The boards and search of one release with the collections of another.
  lemma Combined(titles: bool, base: Release, built: Release, both: Release, full: Release)
    requires SameRelease(false, base, full) && SameRelease(titles, built, full)
    requires both.boards == base.boards && both.search == base.search && both.collections == built.collections
    requires both.counts == base.counts.(collections := built.counts.collections, entries := built.counts.entries)
    ensures SameRelease(titles, both, full)
  {
  }

  lemma RefreshDescribes(db: Database, base: Release, mark: Mark, seen: nat -> string, revision: nat)
    requires Valid(db) && Describes(seen, base, mark) && ContentOf(db) == mark.content && Refreshed(db, base).Ok?
    ensures Describes(seen, Refreshed(db, base).value, Mark(mark.content, revision))
  {
    forall now | Valid(now) && ContentOf(now) == mark.content
      ensures FullExport(now, seen).Ok? && SameRelease(false, Refreshed(db, base).value, FullExport(now, seen).value)
    {
      RefreshedSays(db, now, base, mark, seen);
    }
  }

  // ---------------------------------------------------------------- one export

  datatype Request = Request(db: Database, captures: seq<Capture>, highWater: nat, full: bool, incrementalOnly: bool,
                             limit: nat, revision: nat)

  datatype Plan = Keep(highWater: nat, mark: Mark) | Promote(built: Snapshot<Release, Mark>) | Fail(code: string)

  function PlanOf(r: Result<Release, Error>, q: Request): Plan {
    if r.Err? then Fail("invalid archive")
    else Promote(Snapshot(r.value, q.highWater, Mark(ContentOf(q.db), q.revision)))
  }

  // export_static: a full export, or _incremental_export_static from a recovered base.
  function ExportPlan(base: Option<Snapshot<Release, Mark>>, q: Request, seen: nat -> string): Plan {
    if q.full || (base.None? && !q.incrementalOnly) then PlanOf(FullExport(q.db, seen), q)
    else if base.None? then Fail("incremental_bootstrap_required")
    else IncrementalPlan(base.value, q, seen)
  }

  function IncrementalPlan(base: Snapshot<Release, Mark>, q: Request, seen: nat -> string): Plan {
    if q.highWater < base.highWater then Fail("incremental_source_rewound")
    else if ContentOf(q.db) == base.fingerprint.content then SameContentPlan(base, q)
    else DeltaPlan(base, q, seen)
  }

  function SameContentPlan(base: Snapshot<Release, Mark>, q: Request): Plan {
    if q.revision == base.fingerprint.revision then Keep(q.highWater, Mark(ContentOf(q.db), q.revision))
    else PlanOf(Refreshed(q.db, base.release), q)
  }

  function DeltaPlan(base: Snapshot<Release, Mark>, q: Request, seen: nat -> string): Plan {
    var rows := Captured(q.db.posts);
    var refs := LoadRefs(base.release.boards);
    var changed := ChangedIds(rows, refs, StoredIds(q.captures, base.highWater, q.highWater));
    if Untracked(ContentOf(q.db), base.fingerprint.content, changed) then Fail("incremental_projection_untracked")
    else if q.limit > 0 && |changed| > q.limit then Fail("incremental_delta_too_large")
    else PlanOf(Build(q.db, Reprepare(rows, changed, refs), seen), q)
  }

  predicate Untracked(content: Content, base: Content, changed: set<nat>) {
    content.posts != base.posts && changed == {} && |content.posts| == |base.posts|
  }

  // What an export may promote or keep: it says what a full export of its snapshot says, and
  // describes every later snapshot with the same content.
  ghost predicate PlanSays(base: Option<Snapshot<Release, Mark>>, q: Request, seen: nat -> string, plan: Plan) {
    match plan
    case Promote(s) => BuiltSays(q, seen, s.release, s.fingerprint)
    case Keep(_, mark) =>
      && base.Some? && Describes(seen, base.value.release, mark)
      && FullExport(q.db, seen).Ok? && SameRelease(false, base.value.release, FullExport(q.db, seen).value)
    case Fail(_) => true
  }

  ghost predicate BuiltSays(q: Request, seen: nat -> string, release: Release, mark: Mark) {
    && Describes(seen, release, mark)
    && FullExport(q.db, seen).Ok? && SameRelease(true, release, FullExport(q.db, seen).value)
  }

  // Whatever an export decides, it is sound.
  lemma PlanSaysWhatFullSays(base: Option<Snapshot<Release, Mark>>, q: Request, seen: nat -> string)
    requires Valid(q.db) && (base.Some? ==> Describes(seen, base.value.release, base.value.fingerprint))
    ensures PlanSays(base, q, seen, ExportPlan(base, q, seen))
  {
    if q.full || base.None? {
      FullPlanSays(q, seen);
    } else {
      IncrementalPlanSays(base.value, q, seen);
    }
  }

  lemma FullPlanSays(q: Request, seen: nat -> string)
    requires Valid(q.db)
    ensures FullExport(q.db, seen).Ok? ==>
              BuiltSays(q, seen, FullExport(q.db, seen).value, Mark(ContentOf(q.db), q.revision))
  {
    if FullExport(q.db, seen).Ok? {
      CapturedRows(q.db);
      FullIsFresh(Captured(q.db.posts));
      BuildDescribes(q.db, PrepareAll(Captured(q.db.posts)), seen, q.revision);
      FreshSaysWhatFullSays(q.db, PrepareAll(Captured(q.db.posts)), seen);
    }
  }

  lemma IncrementalPlanSays(base: Snapshot<Release, Mark>, q: Request, seen: nat -> string)
    requires Valid(q.db) && Describes(seen, base.release, base.fingerprint)
    ensures PlanSays(Some(base), q, seen, IncrementalPlan(base, q, seen))
  {
    if ContentOf(q.db) == base.fingerprint.content {
      SameContentPlanSays(base, q, seen);
    } else {
      DeltaPlanSays(base, q, seen);
    }
  }

  lemma SameContentPlanSays(base: Snapshot<Release, Mark>, q: Request, seen: nat -> string)
    requires Valid(q.db) && Describes(seen, base.release, base.fingerprint)
    requires ContentOf(q.db) == base.fingerprint.content
    ensures PlanSays(Some(base), q, seen, SameContentPlan(base, q))
  {
    var mark := Mark(ContentOf(q.db), q.revision);
    DescribesAt(seen, base.release, base.fingerprint, q.db);
    KeepDescribes(seen, base.release, base.fingerprint, mark);
    if Refreshed(q.db, base.release).Ok? {
      RefreshedSays(q.db, q.db, base.release, base.fingerprint, seen);
      RefreshDescribes(q.db, base.release, base.fingerprint, seen, q.revision);
      assert BuiltSays(q, seen, Refreshed(q.db, base.release).value, mark);
    }
  }

  lemma KeepDescribes(seen: nat -> string, release: Release, mark: Mark, next: Mark)
    requires Describes(seen, release, mark) && mark.content == next.content
    ensures Describes(seen, release, next)
  {
  }

  lemma DeltaPlanSays(base: Snapshot<Release, Mark>, q: Request, seen: nat -> string)
    requires Valid(q.db) && Describes(seen, base.release, base.fingerprint)
    ensures PlanSays(Some(base), q, seen, DeltaPlan(base, q, seen))
  {
    var refs := LoadRefs(base.release.boards);
    var stored := StoredIds(q.captures, base.highWater, q.highWater);
    DeltaBuildSays(refs, stored, q, seen);
  }

  lemma DeltaBuildSays(refs: Refs, stored: set<nat>, q: Request, seen: nat -> string)
    requires Valid(q.db) && AllPrepared(refs)
    ensures var rows := Captured(q.db.posts);
            var built := Build(q.db, Reprepare(rows, ChangedIds(rows, refs, stored), refs), seen);
            built.Ok? ==> BuiltSays(q, seen, built.value, Mark(ContentOf(q.db), q.revision))
  {
    var rows := Captured(q.db.posts);
    var changed := ChangedIds(rows, refs, stored);
    NothingIsStale(q.db, refs, stored, seen);
    RepreparingKeepsPrepared(rows, changed, refs);
    IncrementalSaysWhatFullSays(q.db, refs, stored, seen);
    if Build(q.db, Reprepare(rows, changed, refs), seen).Ok? {
      BuildDescribes(q.db, Reprepare(rows, changed, refs), seen, q.revision);
    }
  }

  // ---------------------------------------------------------------- runs

  // An export of whatever the archive holds at the time, stopped anywhere; the operator moving the
  // pointer; the state file lost.
  datatype Happening = Run(q: Request, recoveryCut: nat, cut: nat) | Hand(release: Release) | Lost

  function RecoveredBase(d: Disk<Release, Mark>): Option<Snapshot<Release, Mark>> {
    var r := Recovery(d).result;
    if r.Ok? && r.value.Some? then r.value.value.base else None
  }

  // A full export validates what it built once the journal names it, before the pointer moves; an
  // incremental one does not. `accepts` is the verdict of validate_release.
  predicate Refused(base: Option<Snapshot<Release, Mark>>, q: Request, release: Release, accepts: Release -> bool) {
    (q.full || base.None?) && !accepts(release)
  }

  function EventOf(d: Disk<Release, Mark>, h: Happening, seen: nat -> string,
                   accepts: Release -> bool): Event<Release, Mark> {
    match h
    case Hand(release) => Activate(release)
    case Lost => LoseJournal
    case Run(q, recoveryCut, cut) =>
      if Recovery(d).result.Err? && !q.full then Abandon(recoveryCut)
      else PlannedEvent(d, ExportPlan(RecoveredBase(d), q, seen), q, recoveryCut, cut, accepts)
  }

  function PlannedEvent(d: Disk<Release, Mark>, plan: Plan, q: Request, recoveryCut: nat, cut: nat,
                        accepts: Release -> bool): Event<Release, Mark> {
    match plan
    case Fail(_) => Abandon(recoveryCut)
    case Promote(s) =>
      Export(s, recoveryCut, if Refused(RecoveredBase(d), q, s.release, accepts) && cut > 1 then 1 else cut)
    case Keep(highWater, mark) =>
      if recoveryCut < |Recovery(d).writes| || cut == 0 then Abandon(recoveryCut) else Unchanged(highWater, mark)
  }

  lemma FullEvent(d: Disk<Release, Mark>, q: Request, seen: nat -> string, accepts: Release -> bool)
    requires q.full && FullExport(q.db, seen).Ok?
    ensures var release := FullExport(q.db, seen).value;
            EventOf(d, Run(q, 1, 3), seen, accepts)
            == Export(Snapshot(release, q.highWater, Mark(ContentOf(q.db), q.revision)), 1,
                      if accepts(release) then 3 else 1)
  {
    var release := FullExport(q.db, seen).value;
    var accepted := accepts(release);
    assert Refused(RecoveredBase(d), q, release, accepts) == !accepted;
  }

  function After(d: Disk<Release, Mark>, hs: seq<Happening>, seen: nat -> string,
                 accepts: Release -> bool): Disk<Release, Mark>
    decreases |hs|
  {
    if hs == [] then d else After(Step(d, EventOf(d, hs[0], seen, accepts)), hs[1..], seen, accepts)
  }

  ghost predicate ValidArchives(hs: seq<Happening>) {
    forall h | h in hs && h.Run? :: Valid(h.q.db)
  }

  ghost function Says(seen: nat -> string): (Release, Mark) -> bool {
    (release: Release, mark: Mark) => Describes(seen, release, mark)
  }

  lemma HonestBase(d: Disk<Release, Mark>, seen: nat -> string)
    requires Honest(d, Says(seen))
    ensures var base := RecoveredBase(d);
            base.Some? ==> Describes(seen, base.value.release, base.value.fingerprint)
  {
    RecoveryIff(d);
    var base := RecoveredBase(d);
    if base.Some? {
      assert Says(seen)(base.value.release, base.value.fingerprint);
    }
  }

  lemma EventsAreHonest(d: Disk<Release, Mark>, h: Happening, seen: nat -> string, accepts: Release -> bool)
    requires Honest(d, Says(seen)) && (h.Run? ==> Valid(h.q.db))
    ensures EventHonest(d, EventOf(d, h, seen, accepts), Says(seen))
  {
    if h.Run? {
      HonestBase(d, seen);
      RecoveryIff(d);
      PlanSaysWhatFullSays(RecoveredBase(d), h.q, seen);
    }
  }

  lemma {:induction false} RunsStayHonest(d: Disk<Release, Mark>, hs: seq<Happening>, seen: nat -> string,
                                          accepts: Release -> bool)
    requires Honest(d, Says(seen)) && ValidArchives(hs)
    ensures Honest(After(d, hs, seen, accepts), Says(seen))
    decreases |hs|
  {
    if hs != [] {
      assert hs[0] in hs && forall h | h in hs[1..] :: h in hs;
      EventsAreHonest(d, hs[0], seen, accepts);
      StepKeepsHonest(d, EventOf(d, hs[0], seen, accepts), Says(seen));
      RunsStayHonest(Step(d, EventOf(d, hs[0], seen, accepts)), hs[1..], seen, accepts);
    }
  }

  // After any run, crashes included, the base recovery returns is the release in force, and that
  // release says what a full export says of any archive with the recorded fingerprint.
  lemma RecoveredBaseSaysWhatFullSays(pointer: Option<Release>, hs: seq<Happening>, seen: nat -> string,
                                      accepts: Release -> bool, now: Database)
    requires ValidArchives(hs) && Valid(now)
    ensures var d := After(Disk(None, pointer, true), hs, seen, accepts); var base := RecoveredBase(d);
            base.Some? && base.value.fingerprint.content == ContentOf(now) ==>
              && d.pointer == Some(base.value.release)
              && FullExport(now, seen).Ok?
              && SameRelease(false, base.value.release, FullExport(now, seen).value)
  {
    var d := After(Disk(None, pointer, true), hs, seen, accepts);
    RunsStayHonest(Disk(None, pointer, true), hs, seen, accepts);
    HonestBase(d, seen);
    RecoveryIff(d);
  }

  // An export that ran to its end leaves the pointer on a release that says what a full export of
  // its snapshot says; a kept release may show old titles for entries with no post object.
  lemma FinishedExportIsCurrent(d: Disk<Release, Mark>, q: Request, seen: nat -> string, accepts: Release -> bool)
    requires Honest(d, Says(seen)) && Valid(q.db) && !ExportPlan(RecoveredBase(d), q, seen).Fail?
    requires Recovery(d).result.Ok? || q.full
    requires var plan := ExportPlan(RecoveredBase(d), q, seen);
             plan.Promote? ==> !Refused(RecoveredBase(d), q, plan.built.release, accepts)
    ensures var after := Step(d, EventOf(d, Run(q, 1, 3), seen, accepts));
            && after.pointer.Some? && FullExport(q.db, seen).Ok?
            && SameRelease(ExportPlan(RecoveredBase(d), q, seen).Promote?, after.pointer.value,
                           FullExport(q.db, seen).value)
  {
    var plan := ExportPlan(RecoveredBase(d), q, seen);
    HonestBase(d, seen);
    PlanSaysWhatFullSays(RecoveredBase(d), q, seen);
    if plan.Promote? {
      PromoteEvent(d, q, seen, accepts, plan.built);
    } else {
      KeepEvent(d, q, seen, accepts, plan);
    }
  }

  lemma PromoteEvent(d: Disk<Release, Mark>, q: Request, seen: nat -> string, accepts: Release -> bool,
                     built: Snapshot<Release, Mark>)
    requires ExportPlan(RecoveredBase(d), q, seen) == Promote(built)
    requires !Refused(RecoveredBase(d), q, built.release, accepts)
    requires Recovery(d).result.Ok? || q.full
    ensures Step(d, EventOf(d, Run(q, 1, 3), seen, accepts)).pointer == Some(built.release)
  {
    assert EventOf(d, Run(q, 1, 3), seen, accepts) == Export(built, 1, 3);
    WholeExport(d, built, 3);
  }

  lemma KeepEvent(d: Disk<Release, Mark>, q: Request, seen: nat -> string, accepts: Release -> bool, plan: Plan)
    requires plan == ExportPlan(RecoveredBase(d), q, seen) && plan.Keep? && Recovery(d).result.Ok?
    requires RecoveredBase(d).Some?
    ensures Step(d, EventOf(d, Run(q, 1, 3), seen, accepts)).pointer == Some(RecoveredBase(d).value.release)
  {
    assert EventOf(d, Run(q, 1, 3), seen, accepts) == Unchanged(plan.highWater, plan.mark);
    UnchangedKeepsThePointer(d, plan.highWater, plan.mark);
    RecoveryIff(d);
  }

  // A full export run to its end moves the pointer exactly when its release is accepted.
  lemma FullExportPointer(d: Disk<Release, Mark>, q: Request, seen: nat -> string, accepts: Release -> bool)
    requires q.full && FullExport(q.db, seen).Ok?
    ensures var release := FullExport(q.db, seen).value;
            Step(d, EventOf(d, Run(q, 1, 3), seen, accepts)).pointer == if accepts(release) then Some(release) else d.pointer
  {
    var release := FullExport(q.db, seen).value;
    var built := Snapshot(release, q.highWater, Mark(ContentOf(q.db), q.revision));
    FullEvent(d, q, seen, accepts);
    WholeExport(d, built, if accepts(release) then 3 else 1);
  }

  // ---------------------------------------------------------------- as it runs

  // What to do with the recovered base: prepare the changed posts again in place and build.
  method PlanExport(base: Option<Snapshot<Release, Mark>>, q: Request, seen: nat -> string) returns (plan: Plan)
    ensures plan == ExportPlan(base, q, seen)
  {
    if q.full || (base.None? && !q.incrementalOnly) {
      return PlanOf(FullExport(q.db, seen), q);
    }
    if base.None? {
      return Fail("incremental_bootstrap_required");
    }
    var s := base.value;
    if q.highWater < s.highWater {
      return Fail("incremental_source_rewound");
    }
    if ContentOf(q.db) == s.fingerprint.content {
      return SameContentPlan(s, q);
    }
    plan := PlanDelta(s, q, seen);
  }

  method PlanDelta(base: Snapshot<Release, Mark>, q: Request, seen: nat -> string) returns (plan: Plan)
    ensures plan == DeltaPlan(base, q, seen)
  {
    var rows := Captured(q.db.posts);
    var posts := new PostRefs(LoadRefs(base.release.boards));
    var changed := posts.ChangedPostIds(rows, StoredIds(q.captures, base.highWater, q.highWater));
    if Untracked(ContentOf(q.db), base.fingerprint.content, changed) {
      return Fail("incremental_projection_untracked");
    }
    if q.limit > 0 && |changed| > q.limit {
      return Fail("incremental_delta_too_large");
    }
    posts.PrepareAgain(rows, changed);
    return PlanOf(Build(q.db, posts.refs, seen), q);
  }

  // export_static, run to its end: the files go through exactly the writes of the event.
  method ExportStatic(files: ExportFiles<Release, Mark>, q: Request, seen: nat -> string, accepts: Release -> bool)
    returns (ok: bool)
    modifies files
    ensures files.View() == Step(old(files.View()), EventOf(old(files.View()), Run(q, 1, 3), seen, accepts))
  {
    ghost var d := files.View();
    AbandonWrites(d);
    var r := files.RecoverState();
    if r.Err? && !q.full {
      return false;
    }
    var base := if r.Ok? && r.value.Some? then r.value.value.base else None;
    var plan := PlanExport(base, q, seen);
    ok := CarryOut(files, d, base, plan, q, accepts);
  }

  // What the plan says, on the recovered files.
  method CarryOut(files: ExportFiles<Release, Mark>, ghost d: Disk<Release, Mark>,
                  base: Option<Snapshot<Release, Mark>>, plan: Plan, q: Request, accepts: Release -> bool)
    returns (ok: bool)
    requires files.View() == Do(d, Recovery(d).writes) && base == RecoveredBase(d)
    requires plan.Keep? ==> base.Some?
    modifies files
    ensures files.View() == Step(d, PlannedEvent(d, plan, q, 1, 3, accepts))
  {
    AbandonWrites(d);
    match plan {
      case Fail(_) =>
        ok := false;
      case Keep(highWater, mark) =>
        KeepWrites(d, highWater, mark);
        files.journal := Some(State(Some(Snapshot(base.value.release, highWater, mark)), None));
        ok := true;
      case Promote(s) =>
        var refused := Refused(base, q, s.release, accepts);
        PromoteWrites(d, s, if refused then 1 else 3);
        ok := files.PromoteRelease(base, s, !refused);
    }
  }

  lemma AbandonWrites(d: Disk<Release, Mark>)
    ensures Step(d, Abandon(1)) == Do(d, Recovery(d).writes)
  {
    var w := Recovery(d).writes;
    assert w[..|w|] == w;
  }

  lemma KeepWrites(d: Disk<Release, Mark>, highWater: nat, mark: Mark)
    requires RecoveredBase(d).Some?
    ensures Step(d, Unchanged(highWater, mark))
            == Do(d, Recovery(d).writes)
               .(journal := Some(State(Some(Snapshot(RecoveredBase(d).value.release, highWater, mark)), None)))
  {
    var save: Write<Release, Mark> := SaveJournal(State(Some(Snapshot(RecoveredBase(d).value.release, highWater, mark)), None));
    DoJoin(d, Recovery(d).writes, [save]);
    DoOne(Do(d, Recovery(d).writes), save);
  }

  lemma PromoteWrites(d: Disk<Release, Mark>, s: Snapshot<Release, Mark>, cut: nat)
    requires cut <= 3
    ensures Step(d, Export(s, 1, cut)) == Do(Do(d, Recovery(d).writes), Promotion(RecoveredBase(d), s)[..cut])
  {
    DoJoin(d, Recovery(d).writes, Promotion(RecoveredBase(d), s)[..cut]);
  }
}
