// What a publish, a smoke, a rollback and a collection must do, spelled out on the site before: when the
// pointer moves, what is uploaded and written, and what is refused.
module PublishingOutcome {
  import opened Wrappers
  import opened Publishing
  import opened PublishingSafety
  import opened PublishingRuns
  import opened PublishingBudget
  import opened PublishingBooks

  // ------------------------------------------------------------------ an automatic publish

  // The manifest of a release and everything it refers to.
  function Whole(c: Content, release: Key): set<Key> {
    {release} + c.refs(release)
  }

  // A site with nothing to recover: no pending ledger, no smoke marker, and an active ledger whose
  // predecessor is not what is live.
  predicate Quiet(s: Site) {
    s.pending.None? && s.marker.None? && !(s.active.Some? && s.pointer.Some? && s.active.value.previous == s.pointer)
  }

  lemma QuietRecovery(c: Content, s: Site, incremental: bool)
    requires Quiet(s)
    ensures Recovery(c, s, incremental) == Stage([], true)
  {
    assert Do(s, []) == s && RecoverRolledBack(c, s) == [];
    assert Recovery(c, s, incremental) == Stage([] + [] + [], true);
  }

  lemma {:induction false} UploadsDo(s: Site, order: seq<Key>, wanted: set<Key>)
    ensures Do(s, Uploads(order, wanted)) == s.(remote := s.remote + (set k | k in order && k in wanted))
    decreases |order|
  {
    if order == [] {
      assert s.remote + {} == s.remote;
    } else {
      var rest := Uploads(order[1..], wanted);
      if order[0] in wanted {
        UploadsDo(Apply(s, Upload(order[0])), order[1..], wanted);
        assert Uploads(order, wanted)[1..] == rest;
        assert s.remote + {order[0]} + (set k | k in order[1..] && k in wanted)
            == s.remote + (set k | k in order && k in wanted);
      } else {
        UploadsDo(s, order[1..], wanted);
        assert Uploads(order, wanted) == rest;
        assert (set k | k in order[1..] && k in wanted) == (set k | k in order && k in wanted);
      }
    }
  }

  // A move that is not refused: everything missing is uploaded, or only what the copy brought.
  function Moved(s: Site, l: Ledger, missing: set<Key>, e: Choices): Site {
    if missing <= (set k | k in e.order) then
      s.(remote := s.remote + missing, pointer := Some(l.release), marker := Some(l),
         active := if e.ledgerFails then s.active else Some(l), pending := if e.ledgerFails then Some(l) else s.pending)
    else s.(remote := s.remote + (set k | k in e.order && k in missing))
  }

  lemma MoveDoes(s: Site, keys: set<Key>, l: Ledger, e: Choices)
    requires s.pending.None?
    ensures Do(s, UploadAndFinish(s, keys, l, e)) == Moved(s, l, keys - s.remote, e)
  {
    var missing := keys - s.remote;
    var ups := Uploads(e.order, missing);
    UploadsDo(s, e.order, missing);
    if keys <= s.remote + Copied(e.order) {
      assert missing <= (set k | k in e.order);
      assert (set k | k in e.order && k in missing) == missing;
      var last := Finish(l, e.ledgerFails);
      FinishCut(Do(s, ups), l, e.ledgerFails, |last|);
      assert last[..|last|] == last;
      DoJoin(s, ups, last);
    } else {
      assert ups + [] == ups;
      assert !(missing <= (set k | k in e.order)) by {
        var k :| k in keys && k !in s.remote + Copied(e.order);
        assert k in missing;
      }
    }
  }

  // The new keys, the ledger brought forward, and whether both of its numbers fit.
  function NewKeys(c: Content, release: Key, previous: Key): set<Key> {
    Whole(c, release) - Whole(c, previous)
  }

  ghost function Forward(c: Content, s: Site, l: Ledger, release: Key): Ledger {
    var missing := NewKeys(c, release, l.release) - s.remote;
    Ledger(release, Some(l.release), l.bytes + Weight(c, missing) + c.size(release) - c.size(l.release),
           l.objects + |missing|)
  }

  predicate Fits(l: Ledger) {
    l.bytes <= 20_000_000_000 && l.objects <= 800_000
  }

  // The live release can be gone on from: it was read back, it is on disk and in the bucket, and a
  // well-formed active ledger is its own.
  predicate GoesOnFrom(s: Site, e: Choices) {
    && s.pointer.Some? && e.seen && s.pointer.value in s.local && s.pointer.value in s.remote
    && s.active.Some? && s.active.value.release == s.pointer.value && s.active.value.previous != s.pointer
    && s.active.value.bytes >= 0 && s.active.value.objects >= 0
  }

  // Rolled back three times.
  predicate Rejected(s: Site, release: Key) {
    s.rollbacks.Some? && s.rollbacks.value.0 == release && s.rollbacks.value.1 >= 3
  }

  // All that must hold for an automatic publish of another release to be tried.
  ghost predicate AutomaticallyTried(c: Content, s: Site, release: Key, e: Choices) {
    && s.current == Some(release) && release in s.local && !Rejected(s, release) && GoesOnFrom(s, e)
    && NewKeys(c, release, s.pointer.value) <= s.local && Fits(Forward(c, s, s.active.value, release))
  }

  // An automatic publish of a release that is not live does nothing unless it is tried; then it uploads
  // exactly the new keys that are missing, and moves the pointer exactly when all of them arrived.
  lemma AutomaticPublish(c: Content, s: Site, release: Key, e: Choices)
    requires Quiet(s) && s.pointer != Some(release)
    ensures Do(s, Publish(c, s, release, true, e))
            == if AutomaticallyTried(c, s, release, e) then
                 Moved(s, Forward(c, s, s.active.value, release), NewKeys(c, release, s.pointer.value) - s.remote, e)
               else s
  {
    QuietRecovery(c, s, true);
    var ws := Supersede(c, s, release, true, e);
    assert [] + ws == ws;
    if s.current == Some(release) && release in s.local {
      AutomaticPlan(c, s, release, e);
      if AutomaticallyTried(c, s, release, e) {
        MoveDoes(s, NewKeys(c, release, s.pointer.value), Forward(c, s, s.active.value, release), e);
      }
    }
  }

  lemma AutomaticPlan(c: Content, s: Site, release: Key, e: Choices)
    requires s.current == Some(release) && release in s.local
    ensures Planned(c, s, release, true, e)
            == if AutomaticallyTried(c, s, release, e) then
                 Some(Move(NewKeys(c, release, s.pointer.value), Forward(c, s, s.active.value, release)))
               else None
  {
    if GoesOnFrom(s, e) {
      PlannedDelta(c, s, release, true, e);
    }
  }

  // From a ledger that can be gone on from, both modes plan the same.
  lemma PlannedDelta(c: Content, s: Site, release: Key, incremental: bool, e: Choices)
    requires GoesOnFrom(s, e)
    ensures Planned(c, s, release, incremental, e)
            == if !(incremental && Rejected(s, release)) && NewKeys(c, release, s.pointer.value) <= s.local
                  && Fits(Forward(c, s, s.active.value, release))
               then Some(Move(NewKeys(c, release, s.pointer.value), Forward(c, s, s.active.value, release)))
               else None
  {
    assert ActiveFor(s, s.pointer.value) == s.active;
    assert DeltaLedger(c, s, s.active.value, release, NewKeys(c, release, s.pointer.value))
        == Forward(c, s, s.active.value, release);
  }

  // So the pointer becomes the release exactly when the live release can be gone on from, the new one is
  // current, was rolled back fewer than three times, has its new keys on disk and fits both limits, and
  // everything missing was copied.
  lemma AutomaticPublishMovesIff(c: Content, s: Site, release: Key, e: Choices)
    requires Quiet(s) && s.pointer != Some(release)
    ensures Do(s, Publish(c, s, release, true, e)).pointer == Some(release)
            <==> AutomaticallyTried(c, s, release, e)
                 && forall k | k in NewKeys(c, release, s.pointer.value) && k !in s.remote :: k in e.order
  {
    AutomaticPublish(c, s, release, e);
    if AutomaticallyTried(c, s, release, e) {
      var missing := NewKeys(c, release, s.pointer.value) - s.remote;
      assert missing <= (set k | k in e.order) <==> forall k | k in missing :: k in e.order;
    }
  }

  // ------------------------------------------------------------------ an explicit publish

  // The release it replaces, if its manifest could be read back before the upload or after it.
  function Replaced(s: Site, e: Choices): Option<Key> {
    if s.pointer.Some? && s.pointer.value in s.local && ((e.seen && s.pointer.value in s.remote) || e.seenLater)
    then s.pointer else None
  }

  // The ledger of a full upload: what is measured, what is missing, and the new pointer.
  ghost function Measured(c: Content, s: Site, release: Key, e: Choices): Ledger {
    Ledger(release, Replaced(s, e), Weight(c, s.remote) + Weight(c, s.local - s.remote) + c.size(release),
           |s.remote| + |s.local - s.remote| + 1)
  }

  // An explicit publish of a release that is not live needs all of its objects on disk. It goes on from
  // the live release like an automatic one, or uploads everything and measures; either way both limits
  // decide, and the pointer moves exactly when everything missing was copied.
  lemma ExplicitPublish(c: Content, s: Site, release: Key, e: Choices)
    requires Quiet(s) && s.pointer != Some(release)
    ensures Do(s, Publish(c, s, release, false, e))
            == if !(Whole(c, release) <= s.local) then s
               else if GoesOnFrom(s, e) then
                 if NewKeys(c, release, s.pointer.value) <= s.local && Fits(Forward(c, s, s.active.value, release)) then
                   Moved(s, Forward(c, s, s.active.value, release), NewKeys(c, release, s.pointer.value) - s.remote, e)
                 else s
               else if Fits(Measured(c, s, release, e)) then
                 Moved(s, Measured(c, s, release, e), s.local - s.remote, e)
               else s
  {
    QuietRecovery(c, s, false);
    var ws := Supersede(c, s, release, false, e);
    assert [] + ws == ws;
    if Whole(c, release) <= s.local {
      if GoesOnFrom(s, e) {
        ExplicitDelta(c, s, release, e);
      } else {
        ExplicitFull(c, s, release, e);
      }
    }
  }

  lemma ExplicitDelta(c: Content, s: Site, release: Key, e: Choices)
    requires Quiet(s) && GoesOnFrom(s, e)
    ensures Do(s, Supersede(c, s, release, false, e))
            == if NewKeys(c, release, s.pointer.value) <= s.local && Fits(Forward(c, s, s.active.value, release)) then
                 Moved(s, Forward(c, s, s.active.value, release), NewKeys(c, release, s.pointer.value) - s.remote, e)
               else s
  {
    PlannedDelta(c, s, release, false, e);
    MoveDoes(s, NewKeys(c, release, s.pointer.value), Forward(c, s, s.active.value, release), e);
  }

  lemma ExplicitFull(c: Content, s: Site, release: Key, e: Choices)
    requires Quiet(s) && !GoesOnFrom(s, e)
    ensures Do(s, Supersede(c, s, release, false, e))
            == if Fits(Measured(c, s, release, e)) then Moved(s, Measured(c, s, release, e), s.local - s.remote, e) else s
  {
    FullIsMeasured(c, s, release, e);
    MoveDoes(s, s.local, Measured(c, s, release, e), e);
  }

  lemma FullIsMeasured(c: Content, s: Site, release: Key, e: Choices)
    requires !GoesOnFrom(s, e)
    ensures Planned(c, s, release, false, e)
            == if Fits(Measured(c, s, release, e)) then Some(Move(s.local, Measured(c, s, release, e))) else None
  {
    var previous := Predecessor(s, e.seen);
    assert previous.Some? ==> ActiveFor(s, previous.value).None?;
    assert FullLedger(c, s, release, Replaced(s, e)) == Measured(c, s, release, e);
    assert Replaced(s, e) == if previous.Some? then previous
                             else Predecessor(s.(remote := s.remote + s.local), e.seenLater);
  }

  // ------------------------------------------------------------------ any recovered site

  // Publishing what is live changes nothing, but that an explicit publish may measure the bucket for a
  // ledger it misses.
  lemma LivePublish(c: Content, s: Site, release: Key, incremental: bool, e: Choices)
    requires Quiet(s) && s.pointer == Some(release)
    ensures var named := s.active.Some? && s.active.value.release == release && s.active.value.bytes >= 0
                         && s.active.value.objects >= 0;
            Do(s, Publish(c, s, release, incremental, e))
            == if !incremental && Whole(c, release) <= s.local && !named && e.measured then
                 s.(active := Some(Ledger(release, None, Weight(c, s.remote) + c.size(release), |s.remote| + 1)))
               else s
  {
    QuietRecovery(c, s, incremental);
    var ws := AlreadyLive(c, s, release, incremental, e);
    assert [] + ws == ws;
    if ws != [] {
      DoOne(s, ws[0]);
      assert ws == [ws[0]];
    }
  }

  // Every site of a run: after recovery it waits for a live attempt's smoke, and the pointer stays, or it
  // is quiet, and the publish does what it does there.
  lemma PublishAfterRecovery(c: Content, s: Site, release: Key, incremental: bool, e: Choices)
    requires Inv(c, s) && Recovery(c, s, incremental).goesOn
    requires if incremental then s.current == Some(release) && release in s.local else Whole(c, release) <= s.local
    ensures var u := Do(s, Recovery(c, s, incremental).writes);
            var t := Do(s, Publish(c, s, release, incremental, e));
            if u.marker.Some? then t.pointer == s.pointer && t.remote == s.remote && t.marker == s.marker
            else Quiet(u) && t == Do(u, Publish(c, u, release, incremental, e))
  {
    var r := Recovery(c, s, incremental);
    RecoveryKeeps(c, s, incremental);
    AlongEnd(c, s, r.writes);
    var u := Do(s, r.writes);
    DoJoin(s, r.writes, Advance(c, u, release, incremental, e));
    if u.marker.Some? {
      MarkedStays(c, u, release, incremental, e);
    } else {
      AllReadable(c, u);
      QuietRecovery(c, u, incremental);
      assert [] + Advance(c, u, release, incremental, e) == Advance(c, u, release, incremental, e);
    }
  }

  lemma MarkedStays(c: Content, s: Site, release: Key, incremental: bool, e: Choices)
    requires Names(s.marker, s.pointer)
    ensures var t := Do(s, Advance(c, s, release, incremental, e)); t == s.(active := t.active)
  {
    var ws := Advance(c, s, release, incremental, e);
    if ws != [] {
      assert ws == [ws[0]] && ws[0].PutActive?;
      DoOne(s, ws[0]);
    }
  }

  // Recovery itself goes on unless there is a record and no pointer to compare it with; a first publish
  // that was cut is the exception.
  lemma RecoveryGoesOnIff(c: Content, s: Site, incremental: bool)
    requires Inv(c, s)
    ensures Recovery(c, s, incremental).goesOn
            <==> s.pending.None? || s.pointer.Some?
                 || (s.pending.value.previous.None? && s.active.None? && s.marker.None?)
  {
    AllReadable(c, s);
    RecoverPendingKeeps(c, s, incremental);
    var p := RecoverPending(s, incremental);
    if p.goesOn {
      AlongEnd(c, s, p.writes);
      RecoveryStops(c, s, incremental);
      RolledBackGoesOn(c, s, incremental);
    }
  }

  lemma RolledBackGoesOn(c: Content, s: Site, incremental: bool)
    requires Inv(c, s) && RecoverPending(s, incremental).goesOn
    ensures Recovery(c, s, incremental).goesOn
  {
    var p := RecoverPending(s, incremental).writes;
    RecoverPendingKeeps(c, s, incremental);
    AlongEnd(c, s, p);
    var t := Do(s, p);
    RecoverRolledBackKeeps(c, t);
    AlongEnd(c, t, RecoverRolledBack(c, t));
    DoJoin(s, p, RecoverRolledBack(c, t));
    CheckMarkerKeeps(c, Do(t, RecoverRolledBack(c, t)), incremental);
  }

  // Reconciling succeeds exactly when the pointer is one of the marker's pair, or there is neither pointer
  // nor any record but the first attempt's.
  lemma ReconcileSucceedsIff(c: Content, s: Site)
    requires Inv(c, s) && s.marker.Some?
    ensures Reconcile(c, s).goesOn
            <==> if s.pointer.None? then s.marker.value.previous.None? && s.active.None?
                                         && (s.pending.None? || s.pending == s.marker)
                 else s.pointer == Some(s.marker.value.release) || s.pointer == s.marker.value.previous
  {
    AllReadable(c, s);
    if Names(s.marker, s.pointer) {
      RecoverPendingKeeps(c, s, true);
    }
  }
}
