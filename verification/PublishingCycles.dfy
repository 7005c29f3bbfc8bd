// What a smoke, a rollback, a whole cycle of the runner and a collection must do, spelled out on the site
// before.
module PublishingCycles {
  import opened Wrappers
  import opened Publishing
  import opened PublishingSafety
  import opened PublishingRuns
  import opened PublishingBudget
  import opened PublishingCollecting
  import opened PublishingOutcome

  // ------------------------------------------------------------------ going back

  // A rollback or activation is made exactly when the target is on disk and in the bucket, the pointer is
  // the expected release or already the target, and a smoke marker, if there is one, is of that attempt.
  predicate MayGoBack(s: Site, target: Key, expected: Key) {
    && target in s.local && target in s.remote && expected in s.local
    && (s.pointer == Some(expected) || s.pointer == Some(target))
    && (s.marker.Some? ==>
          && s.marker.value.release == expected && s.marker.value.previous == Some(target) && expected != target
          && s.marker.value.bytes >= 0 && s.marker.value.objects >= 0)
  }

  lemma {:induction false} NoFlipNoMove(s: Site, ws: seq<Write>)
    requires forall w | w in ws :: w.PutActive? || w.PutPending? || w.DropPending? || w.CountRollback?
    ensures var t := Do(s, ws);
            t == s.(active := t.active, pending := t.pending, rollbacks := t.rollbacks)
    decreases |ws|
  {
    if ws != [] {
      assert ws[0] in ws;
      NoFlipNoMove(Apply(s, ws[0]), ws[1..]);
    }
  }

  lemma FlipMoves(s: Site, head: seq<Write>, target: Key, tail: seq<Write>)
    requires forall w | w in head + tail :: w.PutActive? || w.PutPending? || w.DropPending? || w.CountRollback?
    ensures var t := Do(s, head + [Flip(target)] + tail);
            t == s.(pointer := Some(target), active := t.active, pending := t.pending, rollbacks := t.rollbacks)
  {
    assert forall w | w in head :: w in head + tail;
    assert forall w | w in tail :: w in head + tail;
    DoJoin(s, head + [Flip(target)], tail);
    DoSnoc(s, head, Flip(target));
    NoFlipNoMove(s, head);
    NoFlipNoMove(Apply(Do(s, head), Flip(target)), tail);
  }

  // Then the pointer is the target, and only the ledgers and the count change with it; otherwise nothing
  // does.
  lemma ActivationIff(c: Content, s: Site, target: Key, expected: Key, e: Choices)
    ensures var t := Do(s, Activate(c, s, target, expected, e));
            if MayGoBack(s, target, expected) then
              t == s.(pointer := Some(target), active := t.active, pending := t.pending, rollbacks := t.rollbacks)
              && Activate(c, s, target, expected, e) != []
            else t == s && Activate(c, s, target, expected, e) == []
  {
    var ws := Activate(c, s, target, expected, e);
    assert MayGoBack(s, target, expected) <==> MayActivate(s, target, expected);
    if MayGoBack(s, target, expected) {
      var attempt := Attempt(s, target);
      var head := if attempt.Some? then [PutPending(Back(c, attempt.value, target))] else [];
      var tail := ws[|head| + 1..];
      assert ws[..|head|] == head && ws[|head|] == Flip(target);
      assert ws == head + [Flip(target)] + tail;
      FlipMoves(s, head, target, tail);
    }
  }

  // ------------------------------------------------------------------ the smoke of a live attempt

  lemma ConfirmDoes(s: Site, release: Key)
    ensures Do(s, Confirm(s, release))
            == if s.marker.Some? && s.marker.value.release == release && release in s.local && Readable(s.marker.value)
               then s.(marker := None) else s
  {
    if Confirm(s, release) != [] {
      DoOne(s, DropMarker);
    }
  }

  // A passed smoke marks the release as verified and ends the attempt: its marker is dropped.
  lemma ConfirmedDoes(c: Content, s: Site, release: Key)
    requires Inv(c, s)
    ensures Do(s, Confirmed(s, release)) == s.(verified := s.verified + {release}, marker := None)
  {
    AllReadable(c, s);
    var t := Apply(s, SmokePassed(release));
    if s.marker.Some? {
      var drop := Confirm(s, s.marker.value.release);
      assert drop == [DropMarker];
      assert Confirmed(s, release) == [SmokePassed(release), DropMarker];
      DoTwo(s, SmokePassed(release), DropMarker);
    } else {
      assert Confirmed(s, release) == [SmokePassed(release)];
      DoOne(s, SmokePassed(release));
    }
  }

  // The smoke of a live attempt decides everything: without an answer the site stays as it is; a pass
  // ends the attempt; a failure goes back to the recorded predecessor, if there is one, and the marker
  // goes once that one has passed.
  lemma SmokeDecides(c: Content, s: Site, y: Cycle)
    requires Inv(c, s) && Names(s.marker, s.pointer)
    ensures var m := s.marker.value;
            var t := Do(s, AfterSmoke(c, s, m.release, m.previous, y));
            match y.smoke
            case Unavailable => t == s
            case Pass => t == s.(verified := s.verified + {m.release}, marker := None)
            case Fail =>
              if m.previous.None? then t == s
              else
                && t.pointer == m.previous && t.remote == s.remote && t.local == s.local
                && (if y.rollbackSmoke.Pass? then t.marker.None? && t.verified == s.verified + {m.previous.value}
                    else t.marker == s.marker && t.verified == s.verified)
  {
    var m := s.marker.value;
    AllReadable(c, s);
    if y.smoke.Pass? {
      ConfirmedDoes(c, s, m.release);
    } else if y.smoke.Fail? && m.previous.Some? {
      FailureGoesBack(c, s, m, y);
    }
  }

  lemma FailureGoesBack(c: Content, s: Site, m: Ledger, y: Cycle)
    requires Inv(c, s) && s.marker == Some(m) && s.pointer == Some(m.release) && m.previous.Some? && y.smoke.Fail?
    ensures var t := Do(s, AfterSmoke(c, s, m.release, m.previous, y));
            && t.pointer == m.previous && t.remote == s.remote && t.local == s.local
            && (if y.rollbackSmoke.Pass? then t.marker.None? && t.verified == s.verified + {m.previous.value}
                else t.marker == s.marker && t.verified == s.verified)
  {
    AllReadable(c, s);
    var p := m.previous.value;
    var back := Activate(c, s, p, m.release, y.rollback);
    ActivationIff(c, s, p, m.release, y.rollback);
    ActivateKeeps(c, s, p, m.release, y.rollback);
    AlongEnd(c, s, back);
    if y.rollbackSmoke.Pass? {
      DoJoin(s, back, Confirmed(Do(s, back), p));
      ConfirmedDoes(c, Do(s, back), p);
    } else {
      assert back + [] == back;
    }
  }

  // ------------------------------------------------------------------ the runner's cycles

  // A cycle that finds a marker and can reconcile it smokes what is live; a pass ends the attempt.
  lemma PassedRecoverySettles(c: Content, s: Site, y: Cycle)
    requires Inv(c, s) && s.marker.Some? && s.pointer.Some? && y.smoke.Pass?
    requires s.pointer == Some(s.marker.value.release) || s.pointer == s.marker.value.previous
    ensures var t := Do(s, RecoveryCycle(c, s, y));
            t.marker.None? && t.pointer == s.pointer && t.verified == s.verified + {s.pointer.value}
  {
    var r := Reconcile(c, s);
    ReconcileSucceedsIff(c, s);
    ReconcileKeeps(c, s);
    AlongEnd(c, s, r.writes);
    var t := Do(s, r.writes);
    ReconcileKeepsMarker(c, s);
    DoJoin(s, r.writes, Confirmed(t, t.pointer.value));
    ConfirmedDoes(c, t, t.pointer.value);
  }

  lemma ReconcileKeepsMarker(c: Content, s: Site)
    requires Inv(c, s) && s.marker.Some? && s.pointer.Some?
    ensures Do(s, Reconcile(c, s).writes).marker == s.marker
  {
    AllReadable(c, s);
    if Names(s.marker, s.pointer) {
      ReconcileLive(c, s);
    } else {
      ReconcileRolledBack(c, s);
    }
  }

  // A failure goes back to the predecessor, if the marker holds one and the bucket still shows it.
  lemma FailedRecoveryGoesBack(c: Content, s: Site, y: Cycle)
    requires Inv(c, s) && Names(s.marker, s.pointer) && s.marker.value.previous.Some? && y.smoke.Fail?
    ensures Do(s, RecoveryCycle(c, s, y)).pointer == if y.seen then s.marker.value.previous else s.pointer
  {
    var r := Reconcile(c, s);
    var t := Do(s, r.writes);
    ReconcileSucceedsIff(c, s);
    ReconcileLive(c, s);
    AlongEnd(c, s, r.writes);
    var target := RecoveryTarget(t, y.seen);
    assert target == if y.seen then t.marker.value.previous else None;
    DoJoin(s, r.writes, AfterSmoke(c, t, t.pointer.value, target, y));
    if y.seen {
      FailureGoesBack(c, t, t.marker.value, y);
    } else {
      assert AfterSmoke(c, t, t.pointer.value, target, y) == [];
    }
  }

  // The ordinary cycle: a new current release that can be tried, all of whose missing objects arrive, goes
  // live; a pass verifies it, and a failure takes the pointer back.
  lemma OrdinaryCycle(c: Content, s: Site, y: Cycle)
    requires Inv(c, s) && Quiet(s) && s.current.Some? && s.pointer != s.current
    requires AutomaticallyTried(c, s, s.current.value, y.publish)
    requires NewKeys(c, s.current.value, s.pointer.value) - s.remote <= (set k | k in y.publish.order)
    ensures var release := s.current.value;
            var t := Do(s, PublishCycle(c, s, y));
            match y.smoke
            case Unavailable => t.pointer == Some(release) && Names(t.marker, t.pointer) && t.marker.value.previous == s.pointer
            case Pass => t.pointer == Some(release) && t.marker.None? && t.verified == s.verified + {release}
            case Fail => t.pointer == s.pointer && (t.marker.None? <==> y.rollbackSmoke.Pass?)
  {
    var release := s.current.value;
    var l := Forward(c, s, s.active.value, release);
    var ws := Publish(c, s, release, true, y.publish);
    var t := Do(s, ws);
    AutomaticPublish(c, s, release, y.publish);
    PublishKeeps(c, s, release, true, y.publish);
    AlongEnd(c, s, ws);
    AllReadable(c, t);
    assert t.marker == Some(l) && t.pointer == Some(release);
    assert RollbackTarget(c, s, t) == l.previous;
    var rest := AfterSmoke(c, t, release, l.previous, y);
    assert PublishCycle(c, s, y) == ws + rest;
    DoJoin(s, ws, rest);
    SmokeDecides(c, t, y);
  }

  // ------------------------------------------------------------------ garbage collection

  // A release the collector must keep: the current one, the active ledger's and its predecessor, and the
  // recent ones.
  predicate MustKeep(s: Site, recent: set<Key>, release: Key) {
    || release in recent || s.current == Some(release)
    || (s.active.Some? && (s.active.value.release == release || s.active.value.previous == Some(release)))
  }

  // No record is pending, there is a current release, and every file to go is on disk and belongs to no
  // kept release that is.
  ghost predicate MayCollect(c: Content, s: Site, recent: set<Key>, garbage: seq<Key>) {
    && s.marker.None? && s.pending.None? && s.current.Some?
    && forall k | k in garbage ::
         k in s.local && forall r | MustKeep(s, recent, r) && r in s.local :: k !in Whole(c, r)
  }

  // A collection deletes its garbage, from the bucket and from disk, exactly when it may, and rewrites the
  // active ledger with what is left. Otherwise nothing changes.
  lemma CollectionIff(c: Content, s: Site, recent: set<Key>, garbage: seq<Key>)
    requires Inv(c, s)
    ensures var t := Do(s, Collect(c, s, recent, garbage));
            if MayCollect(c, s, recent, garbage) && garbage != [] then
              && t.remote == s.remote - (set k | k in garbage) && t.local == s.local - (set k | k in garbage)
              && t == s.(remote := t.remote, local := t.local, active := t.active)
              && (s.active.Some? ==>
                    t.active == Some(s.active.value.(
                      bytes := Weight(c, t.remote) + (if s.pointer.Some? then c.size(s.pointer.value) else 0),
                      objects := |t.remote| + if s.pointer.Some? then 1 else 0)))
            else t == s
  {
    CollectsIff(c, s, recent, garbage);
    if Collect(c, s, recent, garbage) != [] {
      CollectionDoes(c, s, recent, garbage);
    }
  }

  lemma CollectsIff(c: Content, s: Site, recent: set<Key>, garbage: seq<Key>)
    requires Inv(c, s)
    ensures Collect(c, s, recent, garbage) != [] <==> MayCollect(c, s, recent, garbage) && garbage != []
  {
    AllReadable(c, s);
    forall r ensures r in KeptReleases(s, recent) <==> MustKeep(s, recent, r) {
    }
    SparesIff(c, s, recent, garbage);
    DeletionsCut(garbage, |garbage|);
  }

  lemma CollectionDoes(c: Content, s: Site, recent: set<Key>, garbage: seq<Key>)
    requires Inv(c, s) && Collect(c, s, recent, garbage) != []
    ensures var t := Do(s, Collect(c, s, recent, garbage));
            && t.remote == s.remote - (set k | k in garbage) && t.local == s.local - (set k | k in garbage)
            && t == s.(remote := t.remote, local := t.local, active := t.active)
            && (s.active.Some? ==>
                  t.active == Some(s.active.value.(
                    bytes := Weight(c, t.remote) + (if s.pointer.Some? then c.size(s.pointer.value) else 0),
                    objects := |t.remote| + if s.pointer.Some? then 1 else 0)))
  {
    AllReadable(c, s);
    DeletionsKeep(c, s, recent, garbage);
    var deletions := DeleteRemotes(garbage) + DeleteLocals(garbage);
    var after := Do(s, deletions);
    if s.active.Some? {
      DoSnoc(s, deletions, PutActive(s.active.value.(bytes := TrueBytes(c, after), objects := TrueObjects(after))));
    } else {
      assert deletions + [] == deletions;
    }
  }

  lemma SparesIff(c: Content, s: Site, recent: set<Key>, garbage: seq<Key>)
    requires forall r :: r in KeptReleases(s, recent) <==> MustKeep(s, recent, r)
    ensures IsGarbage(c, s, recent, garbage)
            <==> forall k | k in garbage ::
                   k in s.local && forall r | MustKeep(s, recent, r) && r in s.local :: k !in Whole(c, r)
  {
    forall k ensures k in Referenced(c, s, recent) <==> exists r :: MustKeep(s, recent, r) && r in s.local && k in Whole(c, r) {
      if r :| MustKeep(s, recent, r) && r in s.local && k in Whole(c, r) {
        assert r in KeptReleases(s, recent) && k in Objects(c, r);
      }
      if k in Referenced(c, s, recent) {
        var r :| r in KeptReleases(s, recent) && r in s.local && k in Objects(c, r);
        assert k in Whole(c, r);
      }
    }
  }
}
