// Whole runs of publication: the runner's cycles of scripts/control_runner.py, explicit publishes,
// rollbacks, garbage collection and exports, each cut after any write.
module PublishingRuns {
  import opened Wrappers
  import opened Publishing
  import opened PublishingSafety

  // ------------------------------------------------------------------ the runner's cycles

  datatype Smoke = Unavailable | Pass | Fail

  datatype Cycle = Cycle(publish: Choices, smoke: Smoke, seen: bool, rollback: Choices, rollbackSmoke: Smoke)

  // The smoke of the live release and what follows: confirm it, or roll back to the predecessor the
  // report names and confirm that.
  ghost function AfterSmoke(c: Content, s: Site, release: Key, previous: Option<Key>, y: Cycle): seq<Write> {
    match y.smoke
    case Unavailable => []
    case Pass => Confirmed(s, release)
    case Fail =>
      if previous.None? then []
      else
        var back := Activate(c, s, previous.value, release, y.rollback);
        back + if back != [] && y.rollbackSmoke.Pass? then Confirmed(Do(s, back), previous.value) else []
  }

  // A passed smoke, and the confirmation of its marker if there is one.
  function Confirmed(s: Site, release: Key): seq<Write> {
    [SmokePassed(release)] + if s.marker.Some? then Confirm(s, s.marker.value.release) else []
  }

  // A cycle that finds a smoke marker reconciles it and smokes what is live.
  ghost function RecoveryCycle(c: Content, s: Site, y: Cycle): seq<Write> {
    var r := Reconcile(c, s);
    var t := Do(s, r.writes);
    if !r.goesOn || t.marker.None? || t.pointer.None? then r.writes
    else r.writes + AfterSmoke(c, t, t.pointer.value, RecoveryTarget(t, y.seen), y)
  }

  // The predecessor a recovery cycle may go back to: the one its live attempt's marker holds, if the
  // bucket still shows it.
  function RecoveryTarget(s: Site, seen: bool): Option<Key> {
    if Names(s.marker, s.pointer) && s.marker.value.previous.Some? && seen
       && s.marker.value.previous.value in s.local && s.marker.value.previous.value in s.remote
    then s.marker.value.previous else None
  }

  // The predecessor a publish reports as a rollback target: its own after moving the pointer, and the
  // active ledger's after a no-op that recovered a ledger.
  predicate RecoversLedger(c: Content, s: Site) {
    || (RecoverPending(s, true).goesOn && Names(Read(s.pending), s.pointer))
    || RecoverRolledBack(c, Do(s, RecoverPending(s, true).writes)) != []
  }

  function RollbackTarget(c: Content, s: Site, t: Site): Option<Key> {
    if t.marker.Some? then t.marker.value.previous
    else if RecoversLedger(c, s) && t.active.Some? then t.active.value.previous
    else None
  }

  // Otherwise it publishes the current release and smokes it. The publish reports success once the
  // pointer is the release and a record names it.
  ghost function PublishCycle(c: Content, s: Site, y: Cycle): seq<Write> {
    if s.marker.Some? || s.current.None? then []
    else
      var release := s.current.value;
      var ws := Publish(c, s, release, true, y.publish);
      var t := Do(s, ws);
      if t.pointer != Some(release) || !Valid(c, s, release, true)
         || (ActiveFor(t, release).None? && !Names(t.pending, t.pointer)) then ws
      else ws + AfterSmoke(c, t, release, RollbackTarget(c, s, t), y)
  }

  // ------------------------------------------------------------------ runs

  datatype Event =
    | Exporting(release: Key, staged: seq<Key>)
    | ExplicitPublish(release: Key, e: Choices)
    | RunnerPublish(y: Cycle)
    | RunnerRecovery(y: Cycle)
    | Rollback(e: Choices)                            // an operator's --activate of the marker's predecessor
    | Collecting(recent: set<Key>, garbage: seq<Key>)

  ghost function Writes(c: Content, s: Site, ev: Event): seq<Write> {
    match ev
    case Exporting(release, staged) => Export(c, s, release, staged)
    case ExplicitPublish(release, e) => Publish(c, s, release, false, e)
    case RunnerPublish(y) => PublishCycle(c, s, y)
    case RunnerRecovery(y) => if s.marker.Some? then RecoveryCycle(c, s, y) else []
    case Rollback(e) =>
      if s.marker.Some? && s.marker.value.previous.Some?
      then Activate(c, s, s.marker.value.previous.value, s.marker.value.release, e) else []
    case Collecting(recent, garbage) => Collect(c, s, recent, garbage)
  }

  // An event that crashes or is refused after `cut` of its writes.
  datatype Attempted = Attempted(ev: Event, cut: nat)

  function Cut(ws: seq<Write>, cut: nat): seq<Write> {
    if cut < |ws| then ws[..cut] else ws
  }

  lemma DoCut(s: Site, a: seq<Write>, b: seq<Write>, k: nat)
    requires k <= |a + b|
    ensures Do(s, (a + b)[..k]) == if k <= |a| then Do(s, a[..k]) else Do(Do(s, a), b[..k - |a|])
  {
    if k <= |a| {
      assert (a + b)[..k] == a[..k];
    } else {
      assert (a + b)[..k] == a + b[..k - |a|];
      DoJoin(s, a, b[..k - |a|]);
    }
  }

  lemma CutAfter(s: Site, a: seq<Write>, b: seq<Write>, cut: nat)
    requires cut >= |a|
    ensures Do(s, Cut(a + b, cut)) == Do(Do(s, a), Cut(b, cut - |a|))
  {
    assert Cut(a + b, cut) == a + Cut(b, cut - |a|);
    DoJoin(s, a, Cut(b, cut - |a|));
  }

  lemma CutBefore(a: seq<Write>, ws: seq<Write>, cut: nat)
    requires a <= ws && cut <= |a|
    ensures Cut(ws, cut) == Cut(a, cut)
  {
  }

  ghost function Step(c: Content, s: Site, a: Attempted): Site {
    Do(s, Cut(Writes(c, s, a.ev), a.cut))
  }

  ghost predicate Forgets(c: Content, s: Site, ev: Event) {
    ev.ExplicitPublish? && ForgetsPredecessor(c, s, ev.release, false, ev.e)
  }

  ghost function Run(c: Content, s: Site, events: seq<Attempted>): Site
    decreases |events|
  {
    if events == [] then s else Run(c, Step(c, s, events[0]), events[1..])
  }

  ghost predicate NeverForgets(c: Content, s: Site, events: seq<Attempted>)
    decreases |events|
  {
    events == [] || (!Forgets(c, s, events[0].ev) && NeverForgets(c, Step(c, s, events[0]), events[1..]))
  }

  lemma ConfirmedKeeps(c: Content, s: Site, release: Key)
    requires Inv(c, s) && (ActiveIsCurrent(s) || Names(s.pending, s.pointer))
    ensures Along(c, s, Confirmed(s, release))
  {
    SmokeKeeps(c, s, release);
    var t := Apply(s, SmokePassed(release));
    AlongEnd(c, s, [SmokePassed(release)]);
    if s.marker.Some? {
      ConfirmKeeps(c, t, s.marker.value.release);
      assert Confirm(t, s.marker.value.release) == Confirm(s, s.marker.value.release);
      AlongJoin(c, s, [SmokePassed(release)], Confirm(s, s.marker.value.release));
    } else {
      assert Confirmed(s, release) == [SmokePassed(release)];
    }
  }

  lemma AfterSmokeKeeps(c: Content, s: Site, release: Key, previous: Option<Key>, y: Cycle)
    requires Inv(c, s) && (ActiveIsCurrent(s) || Names(s.pending, s.pointer)) && s.pointer == Some(release)
    requires previous.Some? ==> Recorded(s, previous.value, release)
    ensures Along(c, s, AfterSmoke(c, s, release, previous, y))
  {
    match y.smoke {
      case Unavailable =>
      case Pass => ConfirmedKeeps(c, s, release);
      case Fail =>
        if previous.Some? {
          var back := Activate(c, s, previous.value, release, y.rollback);
          ActivateKeeps(c, s, previous.value, release, y.rollback);
          AlongEnd(c, s, back);
          if back != [] && y.rollbackSmoke.Pass? {
            ConfirmedKeeps(c, Do(s, back), previous.value);
            AlongJoin(c, s, back, Confirmed(Do(s, back), previous.value));
          } else {
            assert back + [] == back;
          }
        }
    }
  }

  lemma RecoveryCycleKeeps(c: Content, s: Site, y: Cycle)
    requires Inv(c, s)
    ensures Along(c, s, RecoveryCycle(c, s, y))
  {
    var r := Reconcile(c, s);
    var t := Do(s, r.writes);
    ReconcileKeeps(c, s);
    AlongEnd(c, s, r.writes);
    if r.goesOn && t.marker.Some? && t.pointer.Some? {
      var previous := RecoveryTarget(t, y.seen);
      AfterSmokeKeeps(c, t, t.pointer.value, previous, y);
      AlongJoin(c, s, r.writes, AfterSmoke(c, t, t.pointer.value, previous, y));
    }
  }

  // A runner's publish of a site without a marker ends with a fresh marker and a record naming the
  // release, or with a settled site.
  lemma PublishEnds(c: Content, s: Site, release: Key, e: Choices)
    requires Inv(c, s) && s.marker.None? && Valid(c, s, release, true)
    ensures var t := Do(s, Publish(c, s, release, true, e));
            t.pointer == Some(release) && (ActiveFor(t, release).Some? || Names(t.pending, t.pointer)) ==>
              && (ActiveIsCurrent(t) || Names(t.pending, t.pointer))
              && (t.marker.None? ==> t.pending.None? && ActiveIsCurrent(t) && t == Do(s, Recovery(c, s, true).writes))
              && (t.marker.Some? ==> t.marker.value.release == release && Trusts(s, t.marker.value))
  {
    PublishKeeps(c, s, release, true, e);
    AlongEnd(c, s, Publish(c, s, release, true, e));
    RecoveryKeeps(c, s, true);
    RecoveryStops(c, s, true);
    var r := Recovery(c, s, true);
    AlongEnd(c, s, r.writes);
    if r.goesOn {
      var u := Do(s, r.writes);
      DoJoin(s, r.writes, Advance(c, u, release, true, e));
      AllReadable(c, u);
      if u.pointer == Some(release) {
        assert Advance(c, u, release, true, e) == [];
        assert r.writes + [] == r.writes;
      } else {
        SupersedeEnds(c, u, release, true, e);
      }
    }
  }

  // Recovery raises only when there is no pointer to recover to.
  lemma RecoveryStops(c: Content, s: Site, incremental: bool)
    requires Inv(c, s)
    ensures var r := Recovery(c, s, incremental);
            !r.goesOn ==> s.pointer.None? && r.writes == []
  {
    AllReadable(c, s);
    var p := RecoverPending(s, incremental);
    if p.goesOn {
      RecoverPendingKeeps(c, s, incremental);
      AlongEnd(c, s, p.writes);
      var t := Do(s, p.writes);
      var rolled := RecoverRolledBack(c, t);
      RecoverRolledBackKeeps(c, t);
      AlongEnd(c, t, rolled);
      DoJoin(s, p.writes, rolled);
      CheckMarkerKeeps(c, Do(s, p.writes + rolled), incremental);
    }
  }

  predicate Trusts(s: Site, marker: Ledger) {
    marker.previous.Some? ==> marker.previous == s.pointer
  }

  lemma SupersedeEnds(c: Content, s: Site, release: Key, incremental: bool, e: Choices)
    requires Inv(c, s) && Recovered(s) && s.marker.None? && s.pointer != Some(release)
    requires Valid(c, s, release, incremental)
    ensures var t := Do(s, Supersede(c, s, release, incremental, e));
            if t.pointer == Some(release)
            then t.marker.Some? && t.marker.value.release == release && Trusts(s, t.marker.value)
                 && (ActiveIsCurrent(t) || Names(t.pending, t.pointer))
            else t.pointer == s.pointer && t.marker.None?
  {
    var move := Planned(c, s, release, incremental, e);
    if move.Some? {
      PlannedFollows(c, s, release, incremental, e);
      PlannedCompletes(c, s, release, incremental, e);
      UploadAndFinishEnds(c, s, move.value.keys, move.value.ledger, e);
    }
  }

  lemma UploadAndFinishEnds(c: Content, s: Site, keys: set<Key>, l: Ledger, e: Choices)
    requires Inv(c, s) && s.pending.None? && s.marker.None?
    requires Objects(c, l.release) <= s.remote + keys && l.release in s.local
    requires l.previous.Some? ==> l.previous == s.pointer
    requires NonNegative(c, Some(l)) && s.pointer != Some(l.release)
    ensures var t := Do(s, UploadAndFinish(s, keys, l, e));
            if t.pointer == Some(l.release)
            then t.marker == Some(l) && (if e.ledgerFails then t.pending == Some(l) else t.active == Some(l))
                 && t.remote == s.remote + keys && (e.ledgerFails ==> t.active == s.active)
            else t == s.(remote := t.remote)
  {
    var ups := Uploads(e.order, keys - s.remote);
    UploadsKeep(c, s, e.order, keys - s.remote);
    AlongEnd(c, s, ups);
    if keys <= s.remote + Copied(e.order) {
      var t := Do(s, ups);
      assert keys <= t.remote && t.remote == s.remote + keys;
      FinishKeeps(c, t, l, e.ledgerFails);
      DoJoin(s, ups, Finish(l, e.ledgerFails));
    } else {
      assert ups + [] == ups;
    }
  }

  lemma PublishCycleKeeps(c: Content, s: Site, y: Cycle)
    requires Inv(c, s)
    ensures Along(c, s, PublishCycle(c, s, y))
  {
    if s.marker.None? && s.current.Some? {
      var release := s.current.value;
      var ws := Publish(c, s, release, true, y.publish);
      PublishKeeps(c, s, release, true, y.publish);
      AlongEnd(c, s, ws);
      var t := Do(s, ws);
      if t.pointer == Some(release) && Valid(c, s, release, true)
         && (ActiveFor(t, release).Some? || Names(t.pending, t.pointer)) {
        PublishEnds(c, s, release, y.publish);
        AfterSmokeKeeps(c, t, release, RollbackTarget(c, s, t), y);
        AlongJoin(c, s, ws, AfterSmoke(c, t, release, RollbackTarget(c, s, t), y));
      }
    }
  }

  lemma EventKeeps(c: Content, s: Site, ev: Event)
    requires Inv(c, s) && !Forgets(c, s, ev)
    ensures Along(c, s, Writes(c, s, ev))
  {
    match ev {
      case Exporting(release, staged) => ExportKeeps(c, s, release, staged);
      case ExplicitPublish(release, e) => PublishKeeps(c, s, release, false, e);
      case RunnerPublish(y) => PublishCycleKeeps(c, s, y);
      case RunnerRecovery(y) => RecoveryCycleKeeps(c, s, y);
      case Rollback(e) =>
        if s.marker.Some? && s.marker.value.previous.Some? {
          ActivateKeeps(c, s, s.marker.value.previous.value, s.marker.value.release, e);
        }
      case Collecting(recent, garbage) => CollectKeeps(c, s, recent, garbage);
    }
  }

  lemma {:induction false} RunKeeps(c: Content, s: Site, events: seq<Attempted>)
    requires Inv(c, s) && NeverForgets(c, s, events)
    ensures Inv(c, Run(c, s, events))
    decreases |events|
  {
    if events != [] {
      var ws := Writes(c, s, events[0].ev);
      EventKeeps(c, s, events[0].ev);
      AlongEnd(c, s, ws);
      if events[0].cut < |ws| {
        AlongCut(c, s, ws, events[0].cut);
      }
      RunKeeps(c, Step(c, s, events[0]), events[1..]);
    }
  }

  // The main result: whatever crashes between two writes of any run, every object of
  // the live release is in the bucket, and so is every object of a recorded rollback predecessor.
  lemma PointerIsAlwaysComplete(c: Content, s: Site, events: seq<Attempted>)
    requires Inv(c, s) && NeverForgets(c, s, events)
    ensures var t := Run(c, s, events);
            && (t.pointer.Some? ==> Objects(c, t.pointer.value) <= t.remote)
            && (forall l | Some(l) in {t.active, t.pending, t.marker} && l.previous.Some? ::
                  Objects(c, l.previous.value) <= t.remote)
  {
    RunKeeps(c, s, events);
  }
}
