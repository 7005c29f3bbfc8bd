// What recovery makes of a crashed publish, and what a publish that is refused leaves alone.
module PublishingRecovery {
  import opened Wrappers
  import opened Publishing
  import opened PublishingSafety
  import opened PublishingRuns
  import opened PublishingBudget
  import opened PublishingBooks

  ghost predicate Settled(s: Site) {
    s.pending.None? && s.marker.None? && Names(s.active, s.pointer)
  }

  // A publish of `release` from the settled site `s0`, wherever it was cut: before the pointer moved
  // the active ledger is the old one; afterwards a record names the release and is exact.
  ghost predicate Underway(c: Content, s0: Site, release: Key, s: Site) {
    if s.pointer == s0.pointer then
      && s.active == s0.active && s0.remote <= s.remote
      && (s.pending.Some? ==> s.pending.value.release == release && release in s.local)
    else
      && s.pointer == Some(release) && release in s.local
      && (if s.pending.Some? then Names(s.pending, s.pointer) && Exact(c, s.pending, s.remote)
          else Names(s.active, s.pointer) && Exact(c, s.active, s.remote))
  }

  ghost function UnderwayFrom(c: Content, s0: Site, release: Key): Site -> bool {
    s => Underway(c, s0, release, s)
  }

  lemma FinishUnderway(c: Content, s0: Site, s: Site, l: Ledger, ledgerFails: bool)
    requires Underway(c, s0, l.release, s) && s.pointer == s0.pointer && s.pointer != Some(l.release)
    requires Exact(c, Some(l), s.remote) && l.release in s.local
    ensures Always(UnderwayFrom(c, s0, l.release), s, Finish(l, ledgerFails))
  {
    var p := UnderwayFrom(c, s0, l.release);
    var tail := if ledgerFails then [] else [PutActive(l), DropPending];
    var s3 := Apply(Apply(Apply(s, PutPending(l)), PutMarker(l)), Flip(l.release));
    assert Always(p, s3, tail) by {
      if !ledgerFails {
        assert tail[1..] == [DropPending] && [DropPending][1..] == [];
        assert Always(p, Apply(Apply(s3, PutActive(l)), DropPending), []);
      }
    }
    var ws := Finish(l, ledgerFails);
    assert ws[1..][1..][1..] == tail;
    assert ws[0] == PutPending(l) && ws[1..][0] == PutMarker(l) && ws[1..][1..][0] == Flip(l.release);
  }

  lemma {:induction false} UploadsUnderway(c: Content, s0: Site, s: Site, release: Key, order: seq<Key>,
                                           wanted: set<Key>)
    requires Underway(c, s0, release, s) && s.pointer == s0.pointer
    ensures Always(UnderwayFrom(c, s0, release), s, Uploads(order, wanted))
    decreases |order|
  {
    if order != [] {
      if order[0] in wanted {
        UploadsUnderway(c, s0, Apply(s, Upload(order[0])), release, order[1..], wanted);
        assert Uploads(order, wanted)[1..] == Uploads(order[1..], wanted);
      } else {
        UploadsUnderway(c, s0, s, release, order[1..], wanted);
        assert Uploads(order, wanted) == Uploads(order[1..], wanted);
      }
    }
  }

  lemma PublishIsUnderway(c: Content, s: Site, release: Key, incremental: bool, e: Choices)
    requires Inv(c, s) && AllExact(c, s) && Settled(s)
    ensures Always(UnderwayFrom(c, s, release), s, Publish(c, s, release, incremental, e))
  {
    SettledRecovery(c, s, incremental);
    AllReadable(c, s);
    if Valid(c, s, release, incremental) && s.pointer != Some(release) {
      SettledPublish(c, s, release, incremental, e);
      SupersedeIsUnderway(c, s, release, incremental, e);
    }
  }

  lemma SupersedeIsUnderway(c: Content, s: Site, release: Key, incremental: bool, e: Choices)
    requires Inv(c, s) && AllExact(c, s) && Settled(s) && s.pointer != Some(release)
    requires Valid(c, s, release, incremental)
    ensures Always(UnderwayFrom(c, s, release), s, Supersede(c, s, release, incremental, e))
  {
    var move := Planned(c, s, release, incremental, e);
    if move.Some? {
      PlannedFollows(c, s, release, incremental, e);
      PlannedCompletes(c, s, release, incremental, e);
      PlannedIsBacked(c, s, release, incremental, e);
      UploadAndFinishUnderway(c, s, move.value.keys, move.value.ledger, e);
    }
  }

  lemma UploadAndFinishUnderway(c: Content, s: Site, keys: set<Key>, l: Ledger, e: Choices)
    requires Inv(c, s) && s.pending.None? && s.pointer != Some(l.release) && l.release in s.local
    requires Exact(c, Some(l), s.remote + keys)
    ensures Always(UnderwayFrom(c, s, l.release), s, UploadAndFinish(s, keys, l, e))
  {
    var ups := Uploads(e.order, keys - s.remote);
    UploadsUnderway(c, s, s, l.release, e.order, keys - s.remote);
    if keys <= s.remote + Copied(e.order) {
      UploadsArrive(c, s, keys, e.order);
      FinishUnderway(c, s, Do(s, ups), l, e.ledgerFails);
      AlwaysJoin(UnderwayFrom(c, s, l.release), s, ups, Finish(l, e.ledgerFails));
    } else {
      assert UploadAndFinish(s, keys, l, e) == ups + [] == ups;
    }
  }

  // After a crash anywhere in a publish of a settled site with exact books, recovery always goes on,
  // leaves no pending ledger, and makes the active ledger name the remote pointer. That ledger is
  // exact exactly when the crash did not fall between a new upload and the pointer.
  lemma CrashedPublishRecovers(c: Content, s: Site, release: Key, incremental: bool, e: Choices, cut: nat,
                               later: bool)
    requires Inv(c, s) && AllExact(c, s) && Settled(s)
    requires cut <= |Publish(c, s, release, incremental, e)|
    ensures var t := Do(s, Publish(c, s, release, incremental, e)[..cut]);
            var p := RecoverPending(t, later);
            var u := Do(t, p.writes);
            && (t.pointer == s.pointer || t.pointer == Some(release))
            && p.goesOn && u.pending.None? && Names(u.active, u.pointer)
            && (Exact(c, u.active, u.remote) <==> t.remote == s.remote || t.pointer == Some(release))
  {
    PublishIsUnderway(c, s, release, incremental, e);
    AlwaysCut(UnderwayFrom(c, s, release), s, Publish(c, s, release, incremental, e), cut);
    SettledNeverForgets(c, s, release, incremental, e);
    PublishKeeps(c, s, release, incremental, e);
    AlongCut(c, s, Publish(c, s, release, incremental, e), cut);
    var t := Do(s, Publish(c, s, release, incremental, e)[..cut]);
    AllReadable(c, t);
    RecoverPendingKeeps(c, t, later);
    if t.pointer == s.pointer {
      WeightGrows(c, s.remote, t.remote);
      if s.pointer == Some(release) {
        SettledRecovery(c, s, incremental);
        AllReadable(c, s);
        assert Publish(c, s, release, incremental, e) == [];
        assert t == s;
      }
    }
  }

  lemma SettledNeverForgets(c: Content, s: Site, release: Key, incremental: bool, e: Choices)
    requires s.marker.None?
    ensures !ForgetsPredecessor(c, s, release, incremental, e)
  {
  }

  // A first publish that crashed before there was a pointer leaves nothing behind once it is
  // reconciled, but the objects it uploaded.
  lemma FirstPublishIsUndone(c: Content, s: Site, release: Key, incremental: bool, e: Choices, cut: nat)
    requires Inv(c, s) && s.pointer.None? && s.active.None? && s.pending.None? && s.marker.None?
    requires cut <= |Publish(c, s, release, incremental, e)|
    ensures var t := Do(s, Publish(c, s, release, incremental, e)[..cut]);
            t.pointer.None? ==>
              var r := Reconcile(c, t);
              var p := RecoverPending(Do(t, r.writes), true);
              r.goesOn && p.goesOn && Do(Do(t, r.writes), p.writes) == s.(remote := t.remote)
  {
    var ws := Publish(c, s, release, incremental, e);
    SettledNeverForgets(c, s, release, incremental, e);
    PublishKeeps(c, s, release, incremental, e);
    AlongCut(c, s, ws, cut);
    var t := Do(s, ws[..cut]);
    FirstPublishCut(c, s, release, incremental, e, cut);
    if t.pointer.None? {
      UnpointedIsUndone(c, t);
    }
  }

  // A site without a pointer whose records are at most one and the same first ledger.
  predicate Unpointed(s: Site) {
    && s.pointer.None? && s.active.None?
    && (s.marker.Some? ==> s.pending == s.marker) && (s.pending.Some? ==> s.pending.value.previous.None?)
  }

  lemma UnpointedIsUndone(c: Content, s: Site)
    requires Inv(c, s) && Unpointed(s)
    ensures var r := Reconcile(c, s);
            var p := RecoverPending(Do(s, r.writes), true);
            r.goesOn && p.goesOn && Do(Do(s, r.writes), p.writes) == s.(pending := None, marker := None)
  {
    AllReadable(c, s);
    if s.marker.Some? {
      assert Reconcile(c, s) == Stage([DropPending, DropMarker], true);
      DoTwo(s, DropPending, DropMarker);
    } else if s.pending.Some? {
      assert RecoverPending(s, true) == Stage([DropPending], true);
      DoOne(s, DropPending);
    }
  }

  // Until there is a pointer it has uploaded objects, and put the same ledger in one record or both.
  lemma FirstPublishCut(c: Content, s: Site, release: Key, incremental: bool, e: Choices, cut: nat)
    requires Inv(c, s) && s.pointer.None? && s.active.None? && s.pending.None? && s.marker.None?
    requires cut <= |Publish(c, s, release, incremental, e)|
    ensures var t := Do(s, Publish(c, s, release, incremental, e)[..cut]);
            t.pointer.None? ==> Unpointed(t) && t == s.(remote := t.remote, pending := t.pending, marker := t.marker)
  {
    var ws := Publish(c, s, release, incremental, e);
    var move := Planned(c, s, release, incremental, e);
    if Valid(c, s, release, incremental) && move.Some? {
      SettledPublish(c, s, release, incremental, e);
      PlannedFollows(c, s, release, incremental, e);
      FirstMoveCut(c, s, move.value.keys, move.value.ledger, e, cut);
    } else {
      SettledRecovery(c, s, incremental);
      assert ws == [] && ws[..cut] == [];
    }
  }

  lemma FirstMoveCut(c: Content, s: Site, keys: set<Key>, l: Ledger, e: Choices, k: nat)
    requires Inv(c, s) && s.pointer.None? && s.active.None? && s.pending.None? && s.marker.None?
    requires l.previous.None? && k <= |UploadAndFinish(s, keys, l, e)|
    ensures var t := Do(s, UploadAndFinish(s, keys, l, e)[..k]);
            t.pointer.None? ==> Unpointed(t) && t == s.(remote := t.remote, pending := t.pending, marker := t.marker)
  {
    MoveCut(c, s, keys, l, e, k);
  }

  // A move, cut anywhere.
  lemma MoveCut(c: Content, s: Site, keys: set<Key>, l: Ledger, e: Choices, k: nat)
    requires Inv(c, s) && k <= |UploadAndFinish(s, keys, l, e)|
    ensures var t := Do(s, UploadAndFinish(s, keys, l, e)[..k]);
            var j := k - |Uploads(e.order, keys - s.remote)|;
            t == if j <= 0 then s.(remote := t.remote) else FinishAt(s.(remote := t.remote), l, j)
  {
    var ups := Uploads(e.order, keys - s.remote);
    if keys <= s.remote + Copied(e.order) {
      DoCut(s, ups, Finish(l, e.ledgerFails), k);
      UploadsArrive(c, s, keys, e.order);
      if k > |ups| {
        FinishCut(Do(s, ups), l, e.ledgerFails, k - |ups|);
      }
    } else {
      assert ups + [] == ups;
    }
    if k <= |ups| {
      assert UploadAndFinish(s, keys, l, e)[..k] == ups[..k];
      UploadsAre(e.order, keys - s.remote);
      UploadsAdd(s, ups[..k], keys - s.remote);
    }
  }

  // ------------------------------------------------------------------ refusals

  // What the bucket of a recovered site holds, bytes and objects, beyond what the ledger a publish goes
  // on from says. A publish that cannot see its predecessor measures the bucket.
  ghost function Unseen(c: Content, s: Site, e: Choices): (int, int) {
    if e.seen && Names(s.active, s.pointer) then Beyond(c, s.active.value, s.remote) else (0, 0)
  }

  // What a publish makes live fits the limits by its ledger, and what it uploads stays within them up to
  // what the ledger did not see: a projection over either limit stops it before its first upload. The
  // true size differs from that ledger by exactly what was unseen before, nothing if the books were
  // exact, so it fits the limits exactly when the ledger and that do.
  lemma PublishStaysWithinBudget(c: Content, s: Site, release: Key, incremental: bool, e: Choices)
    requires Inv(c, s)
    ensures var t := Do(s, Publish(c, s, release, incremental, e));
            var unseen := Unseen(c, Do(s, Recovery(c, s, incremental).writes), e);
            && (t.remote != s.remote ==>
                  Weight(c, t.remote) <= MAX_R2_BYTES + unseen.0 && |t.remote| < MAX_R2_OBJECTS + unseen.1)
            && (t.pointer != s.pointer ==>
                  && Names(t.marker, t.pointer) && !OverBudget(t.marker.value)
                  && TrueBytes(c, t) == t.marker.value.bytes + unseen.0
                  && TrueObjects(t) == t.marker.value.objects + unseen.1)
            && (AllExact(c, s) ==> unseen == (0, 0))
  {
    var r := Recovery(c, s, incremental);
    var u := Do(s, r.writes);
    ExactSeesAll(c, s, incremental, e);
    RecoveryKeeps(c, s, incremental);
    RecoveryStops(c, s, incremental);
    if Valid(c, s, release, incremental) && r.goesOn {
      AlongEnd(c, s, r.writes);
      DoJoin(s, r.writes, Advance(c, u, release, incremental, e));
      AdvanceFits(c, u, release, incremental, e);
    }
  }

  lemma ExactSeesAll(c: Content, s: Site, incremental: bool, e: Choices)
    ensures AllExact(c, s) ==> Unseen(c, Do(s, Recovery(c, s, incremental).writes), e) == (0, 0)
  {
    var r := Recovery(c, s, incremental);
    RecoveryEchoes(c, s, incremental);
    EchoesKeep(c, s, r.writes);
    if AllExact(c, s) {
      AlwaysEnd(Exactly(c), s, r.writes);
    }
  }

  lemma AdvanceFits(c: Content, s: Site, release: Key, incremental: bool, e: Choices)
    requires Inv(c, s) && Recovered(s) && Valid(c, s, release, incremental)
    ensures var t := Do(s, Advance(c, s, release, incremental, e));
            var unseen := Unseen(c, s, e);
            && (t.remote != s.remote ==>
                  Weight(c, t.remote) <= MAX_R2_BYTES + unseen.0 && |t.remote| < MAX_R2_OBJECTS + unseen.1)
            && (t.pointer != s.pointer ==>
                  && Names(t.marker, t.pointer) && !OverBudget(t.marker.value)
                  && TrueBytes(c, t) == t.marker.value.bytes + unseen.0
                  && TrueObjects(t) == t.marker.value.objects + unseen.1)
  {
    if s.marker.Some? && s.marker.value.release != release {
    } else if s.pointer == Some(release) {
      var ws := AlreadyLive(c, s, release, incremental, e);
      if ws != [] {
        assert ws[1..] == [];
        assert Do(s, ws) == Do(Apply(s, ws[0]), []) == Apply(s, ws[0]);
      }
    } else if Planned(c, s, release, incremental, e).Some? {
      var move := Planned(c, s, release, incremental, e).value;
      PlannedFollows(c, s, release, incremental, e);
      PlannedCompletes(c, s, release, incremental, e);
      PlannedUnseen(c, s, release, incremental, e);
      UploadAndFinishEnds(c, s, move.keys, move.ledger, e);
      Uploaded(c, s, move.keys, move.ledger, e);
      WeightGrows(c, s.remote + Copied(e.order) * (move.keys - s.remote), s.remote + move.keys);
    }
  }

  // The planned ledger carries what is unseen along.
  lemma PlannedUnseen(c: Content, s: Site, release: Key, incremental: bool, e: Choices)
    requires Inv(c, s) && Recovered(s) && s.marker.None? && Planned(c, s, release, incremental, e).Some?
    ensures var move := Planned(c, s, release, incremental, e).value;
            && Weight(c, s.remote + move.keys) == move.ledger.bytes - c.size(release) + Unseen(c, s, e).0
            && |s.remote + move.keys| == move.ledger.objects - 1 + Unseen(c, s, e).1
  {
    AllReadable(c, s);
    var move := Planned(c, s, release, incremental, e).value;
    assert s.remote + move.keys == s.remote + (move.keys - s.remote);
    WeightUnion(c, s.remote, move.keys - s.remote);
  }

  // A release rolled back three times is not published automatically again, whatever the site: such a
  // publish recovers, and neither uploads nor moves the pointer.
  lemma RejectedReleaseStaysOut(c: Content, s: Site, release: Key, e: Choices)
    requires Inv(c, s) && Rollbacks(s, release) >= MAX_SMOKE_ROLLBACKS
    ensures var t := Do(s, Publish(c, s, release, true, e));
            t.remote == s.remote && t.pointer == s.pointer && t.rollbacks == s.rollbacks
  {
    var r := Recovery(c, s, true);
    RecoveryKeeps(c, s, true);
    RecoveryStops(c, s, true);
    if Valid(c, s, release, true) && r.goesOn {
      assert Advance(c, Do(s, r.writes), release, true, e) == [];
      assert r.writes + [] == r.writes;
    }
  }

  // Every rollback through a marker counts.
  lemma RollbackCounts(c: Content, s: Site, target: Key, expected: Key, e: Choices)
    requires Inv(c, s) && s.marker.Some? && MayActivate(s, target, expected) && !e.countFails
    ensures var t := Do(s, Activate(c, s, target, expected, e));
            Rollbacks(t, expected) == Rollbacks(s, expected) + 1
  {
    AllReadable(c, s);
    var attempt := Attempt(s, target);
    if attempt.Some? {
      var l := Back(c, attempt.value, target);
      var head := [PutPending(l), Flip(target)];
      var tail := if e.ledgerFails then [] else [PutActive(l), DropPending];
      assert Activate(c, s, target, expected, e) == head + [CountRollback(expected)] + tail;
      CountOnce(s, head, expected, tail);
    } else {
      var after := s.(pointer := Some(target));
      var tail := if e.measured then [PutActive(Ledger(target, None, TrueBytes(c, after), TrueObjects(after)))] else [];
      assert Activate(c, s, target, expected, e) == [Flip(target)] + [CountRollback(expected)] + tail;
      CountOnce(s, [Flip(target)], expected, tail);
    }
  }

  lemma CountOnce(s: Site, head: seq<Write>, release: Key, tail: seq<Write>)
    requires forall w | w in head + tail :: !w.CountRollback?
    ensures Rollbacks(Do(s, head + [CountRollback(release)] + tail), release) == Rollbacks(s, release) + 1
  {
    assert forall w | w in head :: w in head + tail;
    assert forall w | w in tail :: w in head + tail;
    DoJoin(s, head + [CountRollback(release)], tail);
    DoJoin(s, head, [CountRollback(release)]);
    NoCount(s, head);
    var t := Do(s, head);
    assert [CountRollback(release)][1..] == [];
    assert Do(t, [CountRollback(release)]) == Do(Apply(t, CountRollback(release)), []) == Apply(t, CountRollback(release));
    NoCount(Apply(t, CountRollback(release)), tail);
  }

  lemma {:induction false} NoCount(s: Site, ws: seq<Write>)
    requires forall w | w in ws :: !w.CountRollback?
    ensures Do(s, ws).rollbacks == s.rollbacks
    decreases |ws|
  {
    if ws != [] {
      assert ws[0] in ws;
      NoCount(Apply(s, ws[0]), ws[1..]);
    }
  }
}
