// Where the publication protocol stops holding: exact conditions, and runs that show them.
module PublishingLimits {
  import opened Wrappers
  import opened Publishing
  import opened PublishingSafety
  import opened PublishingRuns
  import opened PublishingTrust
  import opened PublishingBudget

  // ------------------------------------------------------------------ forgetting a predecessor

  // A publish keeps the invariant after every write exactly when it does not forget the predecessor.
  lemma PublishKeepsIff(c: Content, s: Site, release: Key, incremental: bool, e: Choices)
    requires Inv(c, s)
    ensures Along(c, s, Publish(c, s, release, incremental, e))
            <==> !ForgetsPredecessor(c, s, release, incremental, e)
  {
    if ForgetsPredecessor(c, s, release, incremental, e) {
      var t := Forgotten(c, s, release, e);
      if Along(c, s, Publish(c, s, release, incremental, e)) {
        AlongEnd(c, s, Publish(c, s, release, incremental, e));
      }
    } else {
      PublishKeeps(c, s, release, incremental, e);
    }
  }

  // What forgetting leaves: an active ledger without the predecessor the marker holds.
  lemma Forgotten(c: Content, s: Site, release: Key, e: Choices) returns (t: Site)
    requires Inv(c, s) && ForgetsPredecessor(c, s, release, false, e)
    ensures t == Do(s, Publish(c, s, release, false, e))
    ensures t == s.(active := t.active, pending := None)
    ensures t.active.Some? && t.active.value.release == release && t.active.value.previous.None?
    ensures !AgreesWithMarker(t.active, t.marker.value) && Read(t.active) == t.active
  {
    AllReadable(c, s);
    RecoveryKeeps(c, s, false);
    RecoveryStops(c, s, false);
    var r := Recovery(c, s, false);
    var u := Do(s, r.writes);
    AlongEnd(c, s, r.writes);
    AllReadable(c, u);
    UnnamedStays(c, s);
    var l := Ledger(release, None, TrueBytes(c, u), TrueObjects(u));
    assert Advance(c, u, release, false, e) == [PutActive(l)];
    DoJoin(s, r.writes, [PutActive(l)]);
    assert [PutActive(l)][1..] == [];
    t := Apply(u, PutActive(l));
    assert Do(u, [PutActive(l)]) == Do(t, []) == t;
  }

  lemma UnnamedStays(c: Content, s: Site)
    requires Inv(c, s) && s.marker.Some? && s.marker.value.previous.Some? && Names(s.marker, s.pointer)
    requires !ActiveIsCurrent(s) && !Names(s.pending, s.pointer)
    requires !FollowsPointer(s)
    ensures var r := Recovery(c, s, false);
            Do(s, r.writes) == s.(pending := None)
  {
    AllReadable(c, s);
    var p := RecoverPending(s, false);
    RecoverPendingKeeps(c, s, false);
    var t := Do(s, p.writes);
    assert t == s.(pending := None);
    assert RecoverRolledBack(c, t) == [];
    assert CheckMarker(t, false).writes == [];
    assert p.writes + [] + [] == p.writes;
  }

  // Why it matters: after an explicit publish that forgets, a rollback, a publish and a collection,
  // each cut after one write, leave the pointer at a release whose manifest is gone from the bucket.
  lemma ForgettingLosesTheRelease(c: Content, s: Site, release: Key, e: Choices) returns (events: seq<Attempted>)
    requires Inv(c, s) && ForgetsPredecessor(c, s, release, false, e)
    requires var p := s.marker.value.previous.value;
             s.current.Some? && p !in Objects(c, release) && p !in Objects(c, s.current.value)
    ensures |events| == 4
    ensures var t := Run(c, s, events);
            t.pointer == s.marker.value.previous && t.pointer.value !in t.remote
  {
    var p := s.marker.value.previous.value;
    var full := Attempted(ExplicitPublish(release, e), |Publish(c, s, release, false, e)|);
    var back, again, collect := Attempted(Rollback(e), 1), Attempted(ExplicitPublish(release, e), 1),
                                Attempted(Collecting({}, [p]), 1);
    events := [full, back, again, collect];
    var s1 := Forgotten(c, s, release, e);
    assert Step(c, s, full) == s1;
    AllReadable(c, s);
    AfterForgetting(c, s1, p, release, e);
    RunFour(c, s, full, back, again, collect);
  }

  lemma AfterForgetting(c: Content, s: Site, p: Key, release: Key, e: Choices)
    requires s.marker.Some? && Read(s.marker) == s.marker && s.marker.value.release == release
    requires s.marker.value.previous == Some(p) && s.pointer == Some(release) && s.pending.None?
    requires p in s.local && p in s.remote && Objects(c, release) <= s.local
    requires s.active.Some? && Read(s.active) == s.active
    requires s.active.value.release == release && s.active.value.previous.None?
    requires s.current.Some? && p !in Objects(c, release) && p !in Objects(c, s.current.value)
    ensures var s2 := Step(c, s, Attempted(Rollback(e), 1));
            var s3 := Step(c, s2, Attempted(ExplicitPublish(release, e), 1));
            var s4 := Step(c, s3, Attempted(Collecting({}, [p]), 1));
            s4.pointer == Some(p) && p !in s4.remote
  {
    BackUnrecorded(c, s, p, release, e);
    LeftMarkerDropped(c, s.(pointer := Some(p)), release, e);
    ManifestCollected(c, s.(pointer := Some(p), marker := None), p);
  }

  lemma RunFour(c: Content, s: Site, a: Attempted, b: Attempted, d: Attempted, f: Attempted)
    ensures Run(c, s, [a, b, d, f]) == Step(c, Step(c, Step(c, Step(c, s, a), b), d), f)
  {
    var s1 := Step(c, s, a);
    var s2 := Step(c, s1, b);
    var s3 := Step(c, s2, d);
    var s4 := Step(c, s3, f);
    assert [f][1..] == [] && Run(c, s4, []) == s4;
    assert [d, f][1..] == [f] && Run(c, s2, [d, f]) == Run(c, s3, [f]);
    assert [b, d, f][1..] == [d, f] && Run(c, s1, [b, d, f]) == Run(c, s2, [d, f]);
    assert [a, b, d, f][1..] == [b, d, f];
  }

  lemma FirstWrite(s: Site, ws: seq<Write>)
    requires ws != []
    ensures Do(s, ws[..1]) == Apply(s, ws[0])
  {
    assert ws[..1] == [ws[0]] && ws[..1][1..] == [];
    assert Do(Apply(s, ws[0]), []) == Apply(s, ws[0]);
  }

  lemma BackUnrecorded(c: Content, s: Site, p: Key, release: Key, e: Choices)
    requires s.marker.Some? && Read(s.marker) == s.marker && s.marker.value.release == release
    requires s.marker.value.previous == Some(p) && s.pointer == Some(release) && s.pending.None?
    requires p in s.local && p in s.remote && release in s.local
    requires s.active.Some? && s.active.value.previous.None?
    ensures Step(c, s, Attempted(Rollback(e), 1)) == s.(pointer := Some(p))
  {
    var ws := Writes(c, s, Rollback(e));
    assert Attempt(s, p).None?;
    assert ws[0] == Flip(p);
    FirstWrite(s, ws);
    assert |ws| == 1 ==> ws == ws[..1];
  }

  lemma LeftMarkerDropped(c: Content, s: Site, release: Key, e: Choices)
    requires s.marker.Some? && Read(s.marker) == s.marker && s.marker.value.release in s.local
    requires s.pointer.Some? && s.pointer != Some(s.marker.value.release) && s.pending.None?
    requires s.active.Some? && s.active.value.previous.None? && Objects(c, release) <= s.local
    ensures Step(c, s, Attempted(ExplicitPublish(release, e), 1)) == s.(marker := None)
  {
    var ws := Writes(c, s, ExplicitPublish(release, e));
    assert RecoverPending(s, false) == Stage([], true);
    assert Do(s, []) == s && RecoverRolledBack(c, s) == [];
    assert Recovery(c, s, false) == Stage([] + [] + [DropMarker], true);
    assert ws[0] == DropMarker;
    FirstWrite(s, ws);
    assert |ws| == 1 ==> ws == ws[..1];
  }

  lemma ManifestCollected(c: Content, s: Site, p: Key)
    requires s.marker.None? && s.pending.None? && s.current.Some? && p in s.local
    requires s.active.Some? && Read(s.active) == s.active && s.active.value.previous.None?
    requires p !in Objects(c, s.active.value.release) && p !in Objects(c, s.current.value)
    ensures Step(c, s, Attempted(Collecting({}, [p]), 1)) == s.(remote := s.remote - {p})
  {
    var ws := Writes(c, s, Collecting({}, [p]));
    assert IsGarbage(c, s, {}, [p]);
    assert DeleteRemotes([p])[0] == DeleteRemote(p);
    assert ws[0] == DeleteRemote(p);
    FirstWrite(s, ws);
  }

  // What a publish that goes through leaves on a settled site.
  lemma PublishedSite(c: Content, s: Site, release: Key, incremental: bool, e: Choices) returns (l: Ledger)
    requires Inv(c, s) && s.marker.None? && s.pending.None? && s.pointer.Some? && s.pointer != Some(release)
    requires Valid(c, s, release, incremental) && GoesThrough(c, s, release, incremental, e)
    ensures l.release == release && (l.previous == s.pointer <==> incremental || e.seen || e.seenLater)
    ensures var t := Do(s, Publish(c, s, release, incremental, e));
            && Inv(c, t)
            && t == s.(pointer := Some(release), marker := Some(l), remote := t.remote,
                       active := if e.ledgerFails then s.active else Some(l),
                       pending := if e.ledgerFails then Some(l) else None)
  {
    PublishKeeps(c, s, release, incremental, e);
    AlongEnd(c, s, Publish(c, s, release, incremental, e));
    SettledPublish(c, s, release, incremental, e);
    var move := Planned(c, s, release, incremental, e).value;
    PlannedFollows(c, s, release, incremental, e);
    PlannedCompletes(c, s, release, incremental, e);
    RecordsPredecessorIff(c, s, release, incremental, e);
    l := move.ledger;
    var ups := Uploads(e.order, move.keys - s.remote);
    UploadsKeep(c, s, e.order, move.keys - s.remote);
    AlongEnd(c, s, ups);
    FinishKeeps(c, Do(s, ups), l, e.ledgerFails);
    DoJoin(s, ups, Finish(l, e.ledgerFails));
  }

  // Not refused, and everything missing is copied.
  ghost predicate GoesThrough(c: Content, s: Site, release: Key, incremental: bool, e: Choices) {
    && Planned(c, s, release, incremental, e).Some?
    && Planned(c, s, release, incremental, e).value.keys <= s.remote + Copied(e.order)
  }

  // A planned move records the release it replaces exactly when that could be read back.
  lemma RecordsPredecessorIff(c: Content, s: Site, release: Key, incremental: bool, e: Choices)
    requires Inv(c, s) && s.pointer.Some? && Planned(c, s, release, incremental, e).Some?
    ensures Planned(c, s, release, incremental, e).value.ledger.previous == s.pointer
            <==> incremental || e.seen || e.seenLater
  {
    AllReadable(c, s);
  }

  // Two crashes reach such a site from a settled one: a publish that loses its last ledger, then a
  // rollback cut after its pending record.
  lemma TwoCrashesReachIt(c: Content, s: Site, release: Key, e: Choices) returns (events: seq<Attempted>)
    requires Inv(c, s) && s.marker.None? && s.pending.None? && s.pointer.Some? && s.pointer != Some(release)
    requires Valid(c, s, release, false) && GoesThrough(c, s, release, false, e)
    requires e.seen && e.ledgerFails && e.measured && s.active.value.previous != Some(release)
    ensures |events| == 2
    ensures var t := Run(c, s, events);
            && Inv(c, t) && ForgetsPredecessor(c, t, release, false, e)
            && t.marker.value.previous == s.pointer && t.current == s.current
  {
    var l := PublishedSite(c, s, release, false, e);
    var publish := Attempted(ExplicitPublish(release, e), |Publish(c, s, release, false, e)|);
    var t := Step(c, s, publish);
    assert t == Do(s, Publish(c, s, release, false, e));
    CutRollback(c, t, l, e);
    events := [publish, Attempted(Rollback(e), 1)];
    RunTwo(c, s, events[0], events[1]);
  }

  // A rollback of an attempt cut after its pending record: no ledger names the attempt any more.
  lemma CutRollback(c: Content, s: Site, l: Ledger, e: Choices)
    requires Inv(c, s) && s.pending == s.marker == Some(l) && s.pointer == Some(l.release) && l.previous.Some?
    requires !ActiveIsCurrent(s) && !FollowsPointer(s) && Valid(c, s, l.release, false) && e.measured
    ensures var t := Step(c, s, Attempted(Rollback(e), 1));
            && Inv(c, t) && ForgetsPredecessor(c, t, l.release, false, e)
            && t.marker == s.marker && t.current == s.current
  {
    AllReadable(c, s);
    var back := Back(c, l, l.previous.value);
    assert Attempt(s, l.previous.value) == Some(l);
    var ws := Writes(c, s, Rollback(e));
    assert ws[0] == PutPending(back) && |ws| > 1;
    FirstWrite(s, ws);
    EventKeeps(c, s, Rollback(e));
    AlongCut(c, s, ws, 1);
    assert Step(c, s, Attempted(Rollback(e), 1)) == s.(pending := Some(back));
  }

  lemma RunTwo(c: Content, s: Site, a: Attempted, b: Attempted)
    ensures Run(c, s, [a, b]) == Step(c, Step(c, s, a), b)
  {
    var t := Step(c, s, a);
    assert [b][1..] == [] && Run(c, Step(c, t, b), []) == Step(c, t, b);
    assert [a, b][1..] == [b];
  }

  lemma {:induction false} RunJoin(c: Content, s: Site, a: seq<Attempted>, b: seq<Attempted>)
    ensures Run(c, s, a + b) == Run(c, Run(c, s, a), b)
    decreases |a|
  {
    if a == [] {
      assert a + b == b;
    } else {
      assert (a + b)[1..] == a[1..] + b && (a + b)[0] == a[0];
      RunJoin(c, Step(c, s, a[0]), a[1..], b);
    }
  }

  // Together: from a settled site six ordinary events, each of them an operation that was cut or lost
  // its last write, leave the pointer at the old release without its manifest.
  lemma CrashesLoseTheRelease(c: Content, s: Site, release: Key, e: Choices) returns (events: seq<Attempted>)
    requires Inv(c, s) && s.marker.None? && s.pending.None? && s.pointer.Some? && s.pointer != Some(release)
    requires Valid(c, s, release, false) && GoesThrough(c, s, release, false, e)
    requires e.seen && e.ledgerFails && e.measured && s.active.value.previous != Some(release)
    requires s.current.Some? && s.pointer.value !in Objects(c, release) + Objects(c, s.current.value)
    ensures |events| == 6
    ensures var t := Run(c, s, events);
            t.pointer == s.pointer && t.pointer.value !in t.remote
  {
    var crashes := TwoCrashesReachIt(c, s, release, e);
    var losses := ForgettingLosesTheRelease(c, Run(c, s, crashes), release, e);
    events := crashes + losses;
    RunJoin(c, s, crashes, losses);
  }

  // ------------------------------------------------------------------ a rollback to a failed release

  // The step PublishingTrust excludes does make an unverified release live again: two writes after the
  // publish has recovered the ledger.
  lemma RolledBackThenRepublished(c: Content, s: Site, y: Cycle) returns (cut: nat)
    requires Inv(c, s) && BlindRollback(s, y)
    ensures var t := Step(c, s, Attempted(RunnerPublish(y), cut));
            t.marker.None? && t.pointer == s.pending.value.previous && t.pointer.value !in t.verified
  {
    var release, target := s.current.value, s.pending.value.previous.value;
    var ws := Publish(c, s, release, true, y.publish);
    PublishKeeps(c, s, release, true, y.publish);
    AlongEnd(c, s, ws);
    RepublishRecovers(c, s, release, y.publish);
    RecoversPendingIff(c, s);
    var t := Do(s, ws);
    AllReadable(c, t);
    var rest := AfterSmoke(c, t, release, Some(target), y);
    assert PublishCycle(c, s, y) == ws + rest;
    UnmarkedRollback(c, t, release, target, y);
    cut := |ws| + 2;
    CutAfter(s, ws, rest, cut);
    assert Cut(rest, 2) == rest[..2];
  }

  lemma UnmarkedRollback(c: Content, s: Site, release: Key, target: Key, y: Cycle)
    requires Inv(c, s) && s.marker.None? && Recorded(s, target, release) && y.smoke.Fail?
    ensures var ws := AfterSmoke(c, s, release, Some(target), y);
            |ws| >= 2 && Do(s, ws[..2]) == s.(pending := Do(s, ws[..2]).pending, pointer := Some(target))
  {
    var l := UnmarkedActivation(c, s, release, target, y.rollback);
    SmokeRollsBack(c, s, release, target, y);
    DoTwo(s, PutPending(l), Flip(target));
  }

  lemma SmokeRollsBack(c: Content, s: Site, release: Key, target: Key, y: Cycle)
    requires y.smoke.Fail? && |Activate(c, s, target, release, y.rollback)| >= 2
    ensures var ws := AfterSmoke(c, s, release, Some(target), y);
            |ws| >= 2 && ws[..2] == Activate(c, s, target, release, y.rollback)[..2]
  {
  }

  lemma UnmarkedActivation(c: Content, s: Site, release: Key, target: Key, e: Choices) returns (l: Ledger)
    requires Inv(c, s) && s.marker.None? && Recorded(s, target, release)
    ensures var ws := Activate(c, s, target, release, e);
            |ws| >= 2 && ws[..2] == [PutPending(l), Flip(target)]
  {
    AllReadable(c, s);
    l := Back(c, s.active.value, target);
    assert MayActivate(s, target, release) && Attempt(s, target) == s.active;
  }

  // The runner gets there by itself: a publish whose smoke fails, with a rollback that loses its last
  // ledger write but passes its smoke; the export of the release it is back at; and a publish of that
  // whose smoke fails. The release that failed first is live again, without a marker.
  lemma FailedPublishReachesIt(c: Content, s: Site, y: Cycle, staged: seq<Key>, again: Cycle)
      returns (events: seq<Attempted>)
    requires Inv(c, s) && s.marker.None? && s.pending.None? && s.pointer.Some? && s.current.Some?
    requires s.pointer != s.current && s.current.value in s.local && s.current.value !in s.verified
    requires GoesThrough(c, s, s.current.value, true, y.publish) && !y.publish.ledgerFails
    requires y.smoke.Fail? && y.rollback.ledgerFails && y.rollbackSmoke.Pass? && again.smoke.Fail?
    requires Objects(c, s.pointer.value) <= s.local + Copied(staged)
    ensures |events| == 3
    ensures var t := Run(c, s, events);
            t.marker.None? && t.pointer == s.current && t.pointer.value !in t.verified
  {
    var failed := Attempted(RunnerPublish(y), |PublishCycle(c, s, y)|);
    var back := Attempted(Exporting(s.pointer.value, staged), |Export(c, s, s.pointer.value, staged)|);
    var u := Step(c, s, failed);
    FailedCycle(c, s, y);
    EventKeeps(c, s, failed.ev);
    AlongEnd(c, s, Writes(c, s, failed.ev));
    var v := Step(c, u, back);
    Exported(c, u, s.pointer.value, staged);
    assert Export(c, u, s.pointer.value, staged) == Export(c, s, s.pointer.value, staged);
    EventKeeps(c, u, back.ev);
    AlongEnd(c, u, Writes(c, u, back.ev));
    var cut := RolledBackThenRepublished(c, v, again);
    events := [failed, back, Attempted(RunnerPublish(again), cut)];
    RunTwo(c, u, back, events[2]);
    assert events[1..] == [back, events[2]];
  }

  lemma Exported(c: Content, s: Site, release: Key, staged: seq<Key>)
    requires Inv(c, s) && Objects(c, release) <= s.local + Copied(staged)
    ensures Do(s, Export(c, s, release, staged)) == s.(local := s.local + Copied(staged), current := Some(release))
  {
    AddLocalsKeep(c, s, staged);
    DoJoin(s, AddLocals(staged), [SetCurrent(release)]);
    assert [SetCurrent(release)][1..] == [];
    var t := Apply(Do(s, AddLocals(staged)), SetCurrent(release));
    assert Do(Do(s, AddLocals(staged)), [SetCurrent(release)]) == Do(t, []) == t;
  }

  // The first of these cycles ends at the old release, with the failed one pending as its predecessor.
  lemma FailedCycle(c: Content, s: Site, y: Cycle)
    requires Inv(c, s) && s.marker.None? && s.pending.None? && s.pointer.Some? && s.current.Some?
    requires s.pointer != s.current && s.current.value in s.local && s.current.value !in s.verified
    requires GoesThrough(c, s, s.current.value, true, y.publish) && !y.publish.ledgerFails
    requires y.smoke.Fail? && y.rollback.ledgerFails && y.rollbackSmoke.Pass?
    ensures var t := Do(s, PublishCycle(c, s, y));
            && t.marker.None? && t.pointer == s.pointer && t.local == s.local && Names(t.pending, t.pointer)
            && t.pending.value.previous == s.current && s.current.value !in t.verified
  {
    var release := s.current.value;
    var l := PublishedSite(c, s, release, true, y.publish);
    var ws := Publish(c, s, release, true, y.publish);
    var t := Do(s, ws);
    AllReadable(c, t);
    var rest := AfterSmoke(c, t, release, l.previous, y);
    assert PublishCycle(c, s, y) == ws + rest;
    DoJoin(s, ws, rest);
    FailedSmoke(c, t, l, y);
  }

  lemma FailedSmoke(c: Content, s: Site, l: Ledger, y: Cycle)
    requires Inv(c, s) && s.marker == Some(l) && s.pending.None? && s.active == Some(l)
    requires s.pointer == Some(l.release) && l.previous.Some? && l.release !in s.verified
    requires y.smoke.Fail? && y.rollbackSmoke.Pass? && y.rollback.ledgerFails
    ensures var t := Do(s, AfterSmoke(c, s, l.release, l.previous, y));
            && t.marker.None? && t.pointer == l.previous && t.local == s.local && Names(t.pending, t.pointer)
            && t.pending.value.previous == Some(l.release) && l.release !in t.verified
  {
    AllReadable(c, s);
    var p := l.previous.value;
    var back := Back(c, l, p);
    var ws := Activate(c, s, p, l.release, y.rollback);
    var count := if y.rollback.countFails then [] else [CountRollback(l.release)];
    assert Attempt(s, p) == Some(l);
    BackKeeps(c, s, back, count, true);
    assert ws == BackWrites(back, count, true);
    var t := Do(s, ws);
    AlongEnd(c, s, ws);
    AllReadable(c, t);
    DoJoin(s, ws, Confirmed(t, p));
    assert Confirmed(t, p) == [SmokePassed(p), DropMarker];
    DoTwo(t, SmokePassed(p), DropMarker);
  }

  // ------------------------------------------------------------------ the marker's pair

  // Once a publish has put its marker, and until it moves the pointer, the pair (attempt, predecessor)
  // contains the pointer exactly when the release being replaced could be read back; an explicit
  // publish goes on without that.
  lemma PairContainsPointerIff(c: Content, s: Site, release: Key, incremental: bool, e: Choices, cut: nat)
    requires Inv(c, s) && s.pointer.Some? && cut <= |Publish(c, s, release, incremental, e)|
    ensures var t := Do(s, Publish(c, s, release, incremental, e)[..cut]);
            t.marker.Some? && t.marker != s.marker && t.pointer == s.pointer ==>
              (t.pointer == Some(t.marker.value.release) || t.pointer == t.marker.value.previous
               <==> incremental || e.seen || e.seenLater)
  {
    var ws := Publish(c, s, release, incremental, e)[..cut];
    var t := Do(s, ws);
    MarkerFrom(s, ws);
    if t.marker.Some? && t.marker != s.marker {
      PublishMarks(c, s, release, incremental, e, PutMarker(t.marker.value));
      RecoveryKeeps(c, s, incremental);
      AlongEnd(c, s, Recovery(c, s, incremental).writes);
      var u := Do(s, Recovery(c, s, incremental).writes);
      PlannedFollows(c, u, release, incremental, e);
      RecordsPredecessorIff(c, u, release, incremental, e);
    }
  }

  lemma {:induction false} MarkerFrom(s: Site, ws: seq<Write>)
    ensures var m := Do(s, ws).marker; m.Some? && m != s.marker ==> PutMarker(m.value) in ws
    decreases |ws|
  {
    if ws != [] {
      MarkerFrom(Apply(s, ws[0]), ws[1..]);
      assert ws[0] in ws;
    }
  }

  // A publish puts one marker: the ledger of its planned move.
  lemma PublishMarks(c: Content, s: Site, release: Key, incremental: bool, e: Choices, w: Write)
    requires Inv(c, s) && w in Publish(c, s, release, incremental, e) && w.PutMarker?
    ensures var r := Recovery(c, s, incremental);
            var u := Do(s, r.writes);
            && r.goesOn && u.pointer != Some(release)
            && Planned(c, u, release, incremental, e).Some?
            && w.ledger == Planned(c, u, release, incremental, e).value.ledger
  {
    NoMarkerInRecovery(c, s, incremental);
    var r := Recovery(c, s, incremental);
    MarkerInAdvance(c, Do(s, r.writes), release, incremental, e, w);
  }

  lemma NoMarkerInRecovery(c: Content, s: Site, incremental: bool)
    ensures forall w | w in Recovery(c, s, incremental).writes :: !w.PutMarker?
  {
    var p := RecoverPending(s, incremental);
    assert forall w | w in p.writes :: !w.PutMarker?;
  }

  lemma MarkerInAdvance(c: Content, s: Site, release: Key, incremental: bool, e: Choices, w: Write)
    requires w in Advance(c, s, release, incremental, e) && w.PutMarker?
    ensures s.pointer != Some(release) && Planned(c, s, release, incremental, e).Some?
            && w.ledger == Planned(c, s, release, incremental, e).value.ledger
  {
    var move := Planned(c, s, release, incremental, e);
    if s.pointer != Some(release) && move.Some? {
      UploadsAreQuiet(e.order, move.value.keys - s.remote);
      assert w in Finish(move.value.ledger, e.ledgerFails);
    }
  }

  // A publish that does go on without it, cut before it moves the pointer, leaves it outside the pair.
  lemma PairMissesPointer(c: Content, s: Site, release: Key, e: Choices) returns (cut: nat)
    requires Inv(c, s) && s.marker.None? && s.pending.None? && s.pointer.Some? && s.pointer != Some(release)
    requires Valid(c, s, release, false) && GoesThrough(c, s, release, false, e) && !e.seen && !e.seenLater
    ensures cut <= |Publish(c, s, release, false, e)|
    ensures var t := Do(s, Publish(c, s, release, false, e)[..cut]);
            && t.pointer == s.pointer && t.marker.Some?
            && t.pointer != Some(t.marker.value.release) && t.pointer != t.marker.value.previous
  {
    SettledPublish(c, s, release, false, e);
    var move := Planned(c, s, release, false, e).value;
    PlannedFollows(c, s, release, false, e);
    RecordsPredecessorIff(c, s, release, false, e);
    var ups := Uploads(e.order, move.keys - s.remote);
    UploadsKeep(c, s, e.order, move.keys - s.remote);
    MarkedSite(s, ups, move.ledger, e.ledgerFails);
    cut := |ups| + 2;
  }

  lemma MarkedSite(s: Site, ups: seq<Write>, l: Ledger, ledgerFails: bool)
    ensures Do(s, (ups + Finish(l, ledgerFails))[..|ups| + 2]) == Do(s, ups).(pending := Some(l), marker := Some(l))
  {
    FinishStarts(ups, l, ledgerFails);
    DoTwoMore(s, ups, PutPending(l), PutMarker(l));
  }

  lemma FinishStarts(ups: seq<Write>, l: Ledger, ledgerFails: bool)
    ensures (ups + Finish(l, ledgerFails))[..|ups| + 2] == ups + [PutPending(l)] + [PutMarker(l)]
  {
    assert Finish(l, ledgerFails)[..2] == [PutPending(l)] + [PutMarker(l)];
  }

  // Such a publish: the old release is live and on disk, the new one is staged, and the old manifest
  // cannot be read back.
  lemma UnseenPredecessor() returns (c: Content, s: Site, e: Choices)
    ensures Inv(c, s) && s.marker.None? && s.pending.None? && s.pointer == Some("old")
    ensures Valid(c, s, "new", false) && GoesThrough(c, s, "new", false, e) && !e.seen && !e.seenLater
  {
    c := Content(k => {}, k => 0);
    s := Site({"old", "new"}, Some("new"), {"old"}, Some("old"), Some(Ledger("old", None, 0, 2)), None, None, None,
              {"old"});
    e := Choices(false, false, ["new"], true, false, false);
    WeightWithout(c, {"old"}, "old");
    WeightWithout(c, {"new"}, "new");
    assert {"old"} - {"old"} == {} && {"new"} - {"new"} == {} && s.local - s.remote == {"new"};
  }
}
