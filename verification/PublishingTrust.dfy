// Which releases are live and which are gone back to: only verified ones are superseded or used as a
// rollback target, except in one branch of the runner, whose exact condition is given.
module PublishingTrust {
  import opened Wrappers
  import opened Publishing
  import opened PublishingSafety
  import opened PublishingRuns

  // Without a smoke marker the live release is verified. With one, its predecessor is verified, and
  // the pointer is the attempt or still (or again) the verified release it started from.
  ghost predicate Trusted(s: Site) {
    match s.marker
    case None => s.pointer.Some? ==> s.pointer.value in s.verified
    case Some(m) =>
      && (m.previous.Some? ==> m.previous.value in s.verified)
      && (s.pointer == Some(m.release) || s.pointer.None?
          || (s.pointer.value in s.verified && (m.previous.Some? ==> s.pointer == m.previous)))
      && (s.pointer.None? ==> m.previous.None?)
  }

  ghost function Trustedly(): Site -> bool {
    s => Trusted(s)
  }

  ghost predicate TrustAlong(s: Site, ws: seq<Write>) {
    Always(Trustedly(), s, ws)
  }

  lemma TrustJoin(s: Site, a: seq<Write>, b: seq<Write>)
    requires TrustAlong(s, a) && TrustAlong(Do(s, a), b)
    ensures TrustAlong(s, a + b)
  {
    AlwaysJoin(Trustedly(), s, a, b);
  }

  lemma TrustEnd(s: Site, ws: seq<Write>)
    requires TrustAlong(s, ws)
    ensures Trusted(Do(s, ws))
  {
    assert ws[..|ws|] == ws;
    TrustCut(s, ws, |ws|);
  }

  lemma TrustCut(s: Site, ws: seq<Write>, cut: nat)
    requires TrustAlong(s, ws) && cut <= |ws|
    ensures Trusted(Do(s, ws[..cut]))
  {
    AlwaysCut(Trustedly(), s, ws, cut);
  }

  // Writes that leave the pointer, the marker and the history alone.
  predicate Quiet(w: Write) {
    !w.Flip? && !w.PutMarker? && !w.DropMarker? && !w.SmokePassed?
  }

  lemma {:induction false} QuietWrites(s: Site, ws: seq<Write>)
    requires Trusted(s) && forall w | w in ws :: Quiet(w)
    ensures TrustAlong(s, ws)
    ensures var t := Do(s, ws); t.pointer == s.pointer && t.marker == s.marker && t.verified == s.verified
    decreases |ws|
  {
    if ws != [] {
      assert ws[0] in ws;
      QuietWrites(Apply(s, ws[0]), ws[1..]);
    }
  }

  lemma {:induction false} UploadsAreQuiet(order: seq<Key>, wanted: set<Key>)
    ensures forall w | w in Uploads(order, wanted) :: Quiet(w)
    decreases |order|
  {
    if order != [] { UploadsAreQuiet(order[1..], wanted); }
  }

  lemma {:induction false} DeletesAreQuiet(keys: seq<Key>)
    ensures forall w | w in DeleteRemotes(keys) + DeleteLocals(keys) + AddLocals(keys) :: Quiet(w)
    decreases |keys|
  {
    if keys != [] { DeletesAreQuiet(keys[1..]); }
  }

  // ------------------------------------------------------------------ stages

  lemma RecoveryTrust(c: Content, s: Site, incremental: bool)
    requires Inv(c, s) && Trusted(s)
    ensures TrustAlong(s, Recovery(c, s, incremental).writes)
  {
    AllReadable(c, s);
    var p := RecoverPending(s, incremental);
    RecoverPendingKeeps(c, s, incremental);
    QuietWrites(s, p.writes);
    if p.goesOn {
      AlongEnd(c, s, p.writes);
      var t := Do(s, p.writes);
      var rolled := RecoverRolledBack(c, t);
      RecoverRolledBackKeeps(c, t);
      QuietWrites(t, rolled);
      TrustJoin(s, p.writes, rolled);
      DoJoin(s, p.writes, rolled);
      AlongEnd(c, t, rolled);
      DropLeftMarker(c, Do(s, p.writes + rolled), incremental);
      TrustJoin(s, p.writes + rolled, CheckMarker(Do(s, p.writes + rolled), incremental).writes);
    }
  }

  lemma DropLeftMarker(c: Content, s: Site, incremental: bool)
    requires Inv(c, s) && Trusted(s)
    ensures TrustAlong(s, CheckMarker(s, incremental).writes)
  {
    AllReadable(c, s);
    var ws := CheckMarker(s, incremental).writes;
    if ws != [] {
      assert ws == [DropMarker] && ws[1..] == [];
      assert TrustAlong(Apply(s, DropMarker), []);
    }
  }

  lemma FinishTrust(s: Site, l: Ledger, ledgerFails: bool)
    requires Trusted(s) && s.marker.None? && (l.previous.Some? ==> l.previous == s.pointer)
    ensures TrustAlong(s, Finish(l, ledgerFails))
  {
    var tail := if ledgerFails then [] else [PutActive(l), DropPending];
    var s2 := Apply(Apply(s, PutPending(l)), PutMarker(l));
    var s3 := Apply(s2, Flip(l.release));
    QuietWrites(s3, tail);
    assert TrustAlong(s2, [Flip(l.release)] + tail) by {
      assert ([Flip(l.release)] + tail)[1..] == tail;
    }
    assert Finish(l, ledgerFails) == [PutPending(l), PutMarker(l)] + ([Flip(l.release)] + tail);
    assert TrustAlong(s, [PutPending(l), PutMarker(l)]) by {
      assert [PutPending(l), PutMarker(l)][1..] == [PutMarker(l)];
      assert TrustAlong(s2, []);
      assert [PutMarker(l)][1..] == [];
    }
    assert Do(s, [PutPending(l), PutMarker(l)]) == s2 by {
      assert [PutPending(l), PutMarker(l)][1..] == [PutMarker(l)] && [PutMarker(l)][1..] == [];
      assert Do(s2, []) == s2;
    }
    TrustJoin(s, [PutPending(l), PutMarker(l)], [Flip(l.release)] + tail);
  }

  lemma UploadAndFinishTrust(s: Site, keys: set<Key>, l: Ledger, e: Choices)
    requires Trusted(s) && s.marker.None? && (l.previous.Some? ==> l.previous == s.pointer)
    ensures TrustAlong(s, UploadAndFinish(s, keys, l, e))
  {
    var ups := Uploads(e.order, keys - s.remote);
    UploadsAreQuiet(e.order, keys - s.remote);
    QuietWrites(s, ups);
    if keys <= s.remote + Copied(e.order) {
      FinishTrust(Do(s, ups), l, e.ledgerFails);
      TrustJoin(s, ups, Finish(l, e.ledgerFails));
    } else {
      assert UploadAndFinish(s, keys, l, e) == ups + [] == ups;
    }
  }

  lemma AdvanceTrust(c: Content, s: Site, release: Key, incremental: bool, e: Choices)
    requires Trusted(s) && Recovered(s)
    ensures TrustAlong(s, Advance(c, s, release, incremental, e))
  {
    if s.marker.Some? && s.marker.value.release != release {
    } else if s.pointer == Some(release) {
      QuietWrites(s, AlreadyLive(c, s, release, incremental, e));
    } else if Planned(c, s, release, incremental, e).Some? {
      var move := Planned(c, s, release, incremental, e).value;
      PlannedFollows(c, s, release, incremental, e);
      UploadAndFinishTrust(s, move.keys, move.ledger, e);
    }
  }

  lemma PublishTrust(c: Content, s: Site, release: Key, incremental: bool, e: Choices)
    requires Inv(c, s) && Trusted(s)
    ensures TrustAlong(s, Publish(c, s, release, incremental, e))
  {
    if Valid(c, s, release, incremental) {
      RecoveryTrust(c, s, incremental);
      RecoveryKeeps(c, s, incremental);
      var r := Recovery(c, s, incremental);
      if r.goesOn {
        TrustEnd(s, r.writes);
        AdvanceTrust(c, Do(s, r.writes), release, incremental, e);
        TrustJoin(s, r.writes, Advance(c, Do(s, r.writes), release, incremental, e));
      }
    }
  }

  // Going back is trusted after every write with a marker, and without one exactly when its target is
  // verified.
  lemma ActivateTrust(c: Content, s: Site, target: Key, expected: Key, e: Choices)
    requires Inv(c, s) && Trusted(s) && Recorded(s, target, expected)
    ensures TrustAlong(s, Activate(c, s, target, expected, e))
            <==> Activate(c, s, target, expected, e) == [] || s.marker.Some? || target in s.verified
    ensures Activate(c, s, target, expected, e) != [] ==>
              var t := Do(s, Activate(c, s, target, expected, e));
              t.pointer == Some(target) && t.marker == s.marker && t.verified == s.verified
  {
    AllReadable(c, s);
    var ws := Activate(c, s, target, expected, e);
    if MayActivate(s, target, expected) {
      var attempt := Attempt(s, target);
      var head := if attempt.Some? then [PutPending(Back(c, attempt.value, target))] else [];
      var after := s.(pointer := Some(target));
      var count := if s.marker.Some? && !e.countFails then [CountRollback(s.marker.value.release)] else [];
      var tail := if attempt.Some? then
                    if e.ledgerFails then [] else [PutActive(Back(c, attempt.value, target)), DropPending]
                  else if e.measured then [PutActive(Ledger(target, None, TrueBytes(c, after), TrueObjects(after)))]
                  else [];
      assert ws == head + ([Flip(target)] + (count + tail));
      FlipBetween(s, head, target, count + tail);
    }
  }

  lemma FlipBetween(s: Site, head: seq<Write>, target: Key, tail: seq<Write>)
    requires Trusted(s) && (forall w | w in head + tail :: Quiet(w))
    requires s.marker.Some? ==> s.marker.value.previous == Some(target)
    ensures TrustAlong(s, head + ([Flip(target)] + tail)) <==> s.marker.Some? || target in s.verified
    ensures var t := Do(s, head + ([Flip(target)] + tail));
            t.pointer == Some(target) && t.marker == s.marker && t.verified == s.verified
  {
    assert forall w | w in head :: w in head + tail;
    assert forall w | w in tail :: w in head + tail;
    QuietWrites(s, head);
    var t := Do(s, head);
    var u := Apply(t, Flip(target));
    DoJoin(s, head, [Flip(target)] + tail);
    assert ([Flip(target)] + tail)[1..] == tail;
    QuietDo(u, tail);
    AlwaysJoin(Trustedly(), s, head, [Flip(target)] + tail);
    if s.marker.Some? || target in s.verified {
      QuietWrites(u, tail);
    } else {
      assert !Trusted(u);
    }
  }

  lemma {:induction false} QuietDo(s: Site, ws: seq<Write>)
    requires forall w | w in ws :: Quiet(w)
    ensures var t := Do(s, ws); t.pointer == s.pointer && t.marker == s.marker && t.verified == s.verified
    decreases |ws|
  {
    if ws != [] {
      assert ws[0] in ws;
      QuietDo(Apply(s, ws[0]), ws[1..]);
    }
  }

  lemma ReconcileTrust(c: Content, s: Site)
    requires Inv(c, s) && Trusted(s)
    ensures TrustAlong(s, Reconcile(c, s).writes)
  {
    AllReadable(c, s);
    var ws := Reconcile(c, s).writes;
    if ws == [DropPending, DropMarker] {
      var t := Apply(s, DropPending);
      assert ws[1..] == [DropMarker] && [DropMarker][1..] == [];
      assert TrustAlong(Apply(t, DropMarker), []);
    } else {
      QuietWrites(s, ws);
    }
  }

  lemma ConfirmedTrust(s: Site, release: Key)
    requires Trusted(s) && s.pointer == Some(release)
    ensures TrustAlong(s, Confirmed(s, release))
  {
    var t := Apply(s, SmokePassed(release));
    var drop := if s.marker.Some? then Confirm(s, s.marker.value.release) else [];
    assert TrustAlong(t, drop) by {
      if drop != [] {
        assert drop == [DropMarker] && drop[1..] == [];
        assert TrustAlong(Apply(t, DropMarker), []);
      }
    }
    assert ([SmokePassed(release)] + drop)[1..] == drop;
  }

  // ------------------------------------------------------------------ the runner, exactly

  // The runner's one untrusted step: the current release is live already, its ledger is still pending
  // with an unverified predecessor, and its smoke fails. The publish moves nothing but recovers that
  // ledger, and the runner goes back to its predecessor without a marker.
  predicate BlindRollback(s: Site, y: Cycle) {
    && s.marker.None? && s.current.Some? && s.pointer == s.current && y.smoke.Fail?
    && Names(s.pending, s.pointer) && s.pending.value.previous.Some?
    && s.pending.value.previous.value !in s.verified
  }

  // Without a marker, a ledger is recovered exactly when the pending one names the pointer.
  lemma RecoversPendingIff(c: Content, s: Site)
    requires Inv(c, s) && s.marker.None?
    ensures RecoversLedger(c, s) <==> Names(s.pending, s.pointer)
    ensures Names(s.pending, s.pointer) ==>
              Do(s, Recovery(c, s, true).writes) == s.(active := s.pending, pending := None)
  {
    AllReadable(c, s);
    var p := RecoverPending(s, true);
    RecoverPendingKeeps(c, s, true);
    if p.goesOn {
      var t := Do(s, p.writes);
      AlongEnd(c, s, p.writes);
      assert RecoverRolledBack(c, t) == [] && CheckMarker(t, true).writes == [];
      assert p.writes + [] == p.writes && p.writes + [] + [] == p.writes;
    }
  }

  lemma RepublishRecovers(c: Content, s: Site, release: Key, e: Choices)
    requires Inv(c, s) && s.marker.None? && Names(s.pending, s.pointer)
    requires s.current == s.pointer == Some(release)
    ensures Do(s, Publish(c, s, release, true, e)) == s.(active := s.pending, pending := None)
  {
    RecoversPendingIff(c, s);
    RecoveryStops(c, s, true);
    var r := Recovery(c, s, true);
    assert Advance(c, Do(s, r.writes), release, true, e) == [];
    assert r.writes + [] == r.writes;
  }

  // What a publish that reports success offers as a rollback target, when it left no marker.
  lemma UnmarkedTarget(c: Content, s: Site, release: Key, e: Choices)
    requires Inv(c, s) && s.marker.None? && s.current == Some(release) && Valid(c, s, release, true)
    ensures var t := Do(s, Publish(c, s, release, true, e));
            t.pointer == Some(release) && (ActiveFor(t, release).Some? || Names(t.pending, t.pointer)) ==>
              && (t.marker.None? ==> t.verified == s.verified && t.pointer == s.pointer)
              && (t.marker.None? && Names(s.pending, s.pointer) ==>
                    RollbackTarget(c, s, t) == s.pending.value.previous)
              && (t.marker.None? && !Names(s.pending, s.pointer) ==> RollbackTarget(c, s, t).None?)
  {
    PublishEnds(c, s, release, e);
    RecoversPendingIff(c, s);
    RecoveryKeeps(c, s, true);
    RecoveryStops(c, s, true);
  }

  lemma AfterSmokeTrust(c: Content, s: Site, release: Key, previous: Option<Key>, y: Cycle)
    requires Inv(c, s) && Trusted(s) && s.pointer == Some(release)
    requires previous.Some? ==> Recorded(s, previous.value, release)
    requires previous.Some? && s.marker.None? ==> previous.value in s.verified
    ensures TrustAlong(s, AfterSmoke(c, s, release, previous, y))
  {
    match y.smoke {
      case Unavailable =>
      case Pass => ConfirmedTrust(s, release);
      case Fail =>
        if previous.Some? {
          var back := Activate(c, s, previous.value, release, y.rollback);
          ActivateTrust(c, s, previous.value, release, y.rollback);
          TrustEnd(s, back);
          if back != [] && y.rollbackSmoke.Pass? {
            ConfirmedTrust(Do(s, back), previous.value);
            TrustJoin(s, back, Confirmed(Do(s, back), previous.value));
          } else {
            assert back + [] == back;
          }
        }
    }
  }

  lemma RecoveryCycleTrust(c: Content, s: Site, y: Cycle)
    requires Inv(c, s) && Trusted(s)
    ensures TrustAlong(s, RecoveryCycle(c, s, y))
  {
    var r := Reconcile(c, s);
    var t := Do(s, r.writes);
    ReconcileKeeps(c, s);
    AlongEnd(c, s, r.writes);
    ReconcileTrust(c, s);
    TrustEnd(s, r.writes);
    if r.goesOn && t.marker.Some? && t.pointer.Some? {
      var previous := RecoveryTarget(t, y.seen);
      AfterSmokeTrust(c, t, t.pointer.value, previous, y);
      TrustJoin(s, r.writes, AfterSmoke(c, t, t.pointer.value, previous, y));
    }
  }

  // Going back without a marker passes through a live release that is not verified.
  lemma BlindBreaks(c: Content, s: Site, release: Key, target: Key, y: Cycle)
    requires Inv(c, s) && Trusted(s) && s.marker.None? && s.pointer == Some(release) && y.smoke.Fail?
    requires Recorded(s, target, release) && target !in s.verified
    ensures !TrustAlong(s, AfterSmoke(c, s, release, Some(target), y))
  {
    AllReadable(c, s);
    var back := Activate(c, s, target, release, y.rollback);
    assert MayActivate(s, target, release) && back != [];
    ActivateTrust(c, s, target, release, y.rollback);
    var ws := AfterSmoke(c, s, release, Some(target), y);
    assert ws[..|back|] == back;
    if TrustAlong(s, ws) {
      AlwaysCut(Trustedly(), s, ws, |back|);
    }
  }

  // A runner's publish cycle is trusted after every write exactly when it is not that step.
  lemma PublishCycleTrustIff(c: Content, s: Site, y: Cycle)
    requires Inv(c, s) && Trusted(s)
    ensures TrustAlong(s, PublishCycle(c, s, y)) <==> !BlindRollback(s, y)
  {
    if s.marker.None? && s.current.Some? {
      var release := s.current.value;
      var ws := Publish(c, s, release, true, y.publish);
      PublishTrust(c, s, release, true, y.publish);
      var t := Do(s, ws);
      if t.pointer == Some(release) && Valid(c, s, release, true)
         && (ActiveFor(t, release).Some? || Names(t.pending, t.pointer)) {
        SmokedTrustIff(c, s, release, y);
      } else if BlindRollback(s, y) {
        RepublishRecovers(c, s, release, y.publish);
        AllReadable(c, s);
      }
    }
  }

  // The same for a cycle whose publish reports success.
  lemma SmokedTrustIff(c: Content, s: Site, release: Key, y: Cycle)
    requires Inv(c, s) && Trusted(s) && s.marker.None? && s.current == Some(release) && Valid(c, s, release, true)
    requires var t := Do(s, Publish(c, s, release, true, y.publish));
             t.pointer == Some(release) && (ActiveFor(t, release).Some? || Names(t.pending, t.pointer))
    ensures TrustAlong(s, PublishCycle(c, s, y)) <==> !BlindRollback(s, y)
  {
    var ws := Publish(c, s, release, true, y.publish);
    var t := Do(s, ws);
    PublishKeeps(c, s, release, true, y.publish);
    AlongEnd(c, s, ws);
    PublishTrust(c, s, release, true, y.publish);
    TrustEnd(s, ws);
    PublishEnds(c, s, release, y.publish);
    var target := RollbackTarget(c, s, t);
    var rest := AfterSmoke(c, t, release, target, y);
    UnmarkedTarget(c, s, release, y.publish);
    AlwaysJoin(Trustedly(), s, ws, rest);
    if BlindRollback(s, y) {
      RepublishRecovers(c, s, release, y.publish);
      BlindBreaks(c, t, release, target.value, y);
    } else {
      var needed := if y.smoke.Fail? then target else None;
      AfterSmokeTrust(c, t, release, needed, y);
      assert rest == AfterSmoke(c, t, release, needed, y);
    }
  }

  // ------------------------------------------------------------------ runs

  lemma EventTrust(c: Content, s: Site, ev: Event)
    requires Inv(c, s) && Trusted(s)
    requires ev.RunnerPublish? ==> !BlindRollback(s, ev.y)
    ensures TrustAlong(s, Writes(c, s, ev))
  {
    match ev {
      case Exporting(release, staged) =>
        DeletesAreQuiet(staged);
        assert forall w | w in Export(c, s, release, staged) :: Quiet(w);
        QuietWrites(s, Export(c, s, release, staged));
      case ExplicitPublish(release, e) => PublishTrust(c, s, release, false, e);
      case RunnerPublish(y) => PublishCycleTrustIff(c, s, y);
      case RunnerRecovery(y) => RecoveryCycleTrust(c, s, y);
      case Rollback(e) =>
        if s.marker.Some? && s.marker.value.previous.Some? {
          ActivateTrust(c, s, s.marker.value.previous.value, s.marker.value.release, e);
        }
      case Collecting(recent, garbage) =>
        DeletesAreQuiet(garbage);
        assert forall w | w in Collect(c, s, recent, garbage) :: Quiet(w);
        QuietWrites(s, Collect(c, s, recent, garbage));
    }
  }

  // A pointer that moves leaves a verified release or goes to one, and where it goes is verified or the
  // attempt its marker holds.
  ghost predicate FairMove(s: Site, t: Site) {
    s.pointer.Some? && t.pointer != s.pointer ==>
      && t.pointer.Some?
      && (s.pointer.value in s.verified || t.pointer.value in t.verified)
      && (t.pointer.value in t.verified || Names(t.marker, t.pointer))
  }

  // So does every single pointer move of such an event: no unverified release is superseded, and none is
  // gone back to.
  lemma MovesAreFair(c: Content, s: Site, ev: Event, cut: nat)
    requires Inv(c, s) && Trusted(s) && cut < |Writes(c, s, ev)|
    requires ev.RunnerPublish? ==> !BlindRollback(s, ev.y)
    ensures FairMove(Do(s, Writes(c, s, ev)[..cut]), Do(s, Writes(c, s, ev)[..cut + 1]))
  {
    var ws := Writes(c, s, ev);
    EventTrust(c, s, ev);
    FairFrom(s, ws, cut);
  }

  lemma FairFrom(s: Site, ws: seq<Write>, cut: nat)
    requires TrustAlong(s, ws) && cut < |ws|
    ensures FairMove(Do(s, ws[..cut]), Do(s, ws[..cut + 1]))
  {
    TrustCut(s, ws, cut);
    TrustCut(s, ws, cut + 1);
    assert ws[..cut + 1] == ws[..cut] + [ws[cut]];
    DoSnoc(s, ws[..cut], ws[cut]);
    FairWrite(Do(s, ws[..cut]), ws[cut]);
  }

  lemma FairWrite(s: Site, w: Write)
    requires Trusted(s) && Trusted(Apply(s, w))
    ensures FairMove(s, Apply(s, w))
  {
  }

  ghost predicate NeverBlind(c: Content, s: Site, events: seq<Attempted>)
    decreases |events|
  {
    events == [] ||
    ((events[0].ev.RunnerPublish? ==> !BlindRollback(s, events[0].ev.y))
     && NeverBlind(c, Step(c, s, events[0]), events[1..]))
  }

  // Over every run without such a step, from a verified pointer: only verified releases are
  // superseded or gone back to, and the pointer is the attempt a marker holds, its predecessor, or
  // verified.
  lemma {:induction false} RunsStayTrusted(c: Content, s: Site, events: seq<Attempted>)
    requires Inv(c, s) && Trusted(s) && NeverForgets(c, s, events) && NeverBlind(c, s, events)
    ensures Trusted(Run(c, s, events))
    decreases |events|
  {
    if events != [] {
      var ws := Writes(c, s, events[0].ev);
      EventKeeps(c, s, events[0].ev);
      AlongEnd(c, s, ws);
      EventTrust(c, s, events[0].ev);
      TrustEnd(s, ws);
      if events[0].cut < |ws| {
        AlongCut(c, s, ws, events[0].cut);
        TrustCut(s, ws, events[0].cut);
      }
      RunsStayTrusted(c, Step(c, s, events[0]), events[1..]);
    }
  }
}
