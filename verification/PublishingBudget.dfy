// The R2 budget: what the local ledgers say about the bucket, over runs with aborted uploads.
module PublishingBudget {
  import opened Wrappers
  import opened Publishing
  import opened PublishingSafety
  import opened PublishingRuns

  // ------------------------------------------------------------------ weights of sets

  lemma {:induction false} WeightUnion(c: Content, a: set<Key>, b: set<Key>)
    requires a !! b
    ensures Weight(c, a + b) == Weight(c, a) + Weight(c, b)
    ensures |a + b| == |a| + |b|
    decreases |a|
  {
    if a == {} {
      assert a + b == b;
    } else {
      var k :| k in a;
      WeightUnion(c, a - {k}, b);
      assert a + b - {k} == (a - {k}) + b;
      WeightWithout(c, a, k);
      WeightWithout(c, a + b, k);
    }
  }

  lemma WeightGrows(c: Content, a: set<Key>, b: set<Key>)
    requires a <= b
    ensures Weight(c, a) <= Weight(c, b) && |a| <= |b|
    ensures |a| == |b| ==> a == b
  {
    assert b == a + (b - a);
    WeightUnion(c, a, b - a);
    if b != a {
      assert b - a != {};
    }
  }

  // ------------------------------------------------------------------ what a ledger claims

  // A ledger counts the objects of the bucket, and the pointer at the body of its own release.
  ghost predicate Within(c: Content, file: Option<Ledger>, remote: set<Key>) {
    file.Some? ==>
      && file.value.bytes - c.size(file.value.release) <= Weight(c, remote)
      && file.value.objects - 1 <= |remote|
  }

  ghost predicate Exact(c: Content, file: Option<Ledger>, remote: set<Key>) {
    file.Some? ==>
      && file.value.bytes - c.size(file.value.release) == Weight(c, remote)
      && file.value.objects - 1 == |remote|
  }

  // What the bucket holds, bytes and objects, beyond what a ledger says.
  ghost function Beyond(c: Content, l: Ledger, remote: set<Key>): (int, int) {
    (Weight(c, remote) - (l.bytes - c.size(l.release)), |remote| - (l.objects - 1))
  }

  // No record claims more than the bucket holds.
  ghost predicate Under(c: Content, s: Site) {
    Within(c, s.active, s.remote) && Within(c, s.pending, s.remote) && Within(c, s.marker, s.remote)
  }

  ghost predicate AllExact(c: Content, s: Site) {
    Exact(c, s.active, s.remote) && Exact(c, s.pending, s.remote) && Exact(c, s.marker, s.remote)
  }

  // For the ledger of the live release this is the size rclone would measure.
  lemma ExactIsTrue(c: Content, s: Site)
    requires Names(s.active, s.pointer)
    ensures Exact(c, s.active, s.remote) <==>
              s.active.value.bytes == TrueBytes(c, s) && s.active.value.objects == TrueObjects(s)
    ensures Within(c, s.active, s.remote) <==>
              s.active.value.bytes <= TrueBytes(c, s) && s.active.value.objects <= TrueObjects(s)
  {
  }

  ghost function Underly(c: Content): Site -> bool {
    s => Under(c, s)
  }

  ghost function Exactly(c: Content): Site -> bool {
    s => AllExact(c, s)
  }

  function Puts(w: Write): Option<Ledger> {
    match w
    case PutActive(l) => Some(l)
    case PutPending(l) => Some(l)
    case PutMarker(l) => Some(l)
    case _ => None
  }

  lemma AlwaysEnd(p: Site -> bool, s: Site, ws: seq<Write>)
    requires Always(p, s, ws)
    ensures p(Do(s, ws))
  {
    assert ws[..|ws|] == ws;
    AlwaysCut(p, s, ws, |ws|);
  }

  // Writes that remove nothing from the bucket and put only ledgers it backs.
  lemma {:induction false} BackedWrites(c: Content, s: Site, ws: seq<Write>)
    requires Under(c, s)
    requires forall w | w in ws :: !w.DeleteRemote? && Within(c, Puts(w), s.remote)
    ensures Always(Underly(c), s, ws)
    decreases |ws|
  {
    if ws != [] {
      assert ws[0] in ws;
      var t := Apply(s, ws[0]);
      BackedWrite(c, s, ws[0]);
      forall w | w in ws[1..] ensures !w.DeleteRemote? && Within(c, Puts(w), t.remote) {
        assert w in ws;
        WithinMore(c, Puts(w), s.remote, t.remote);
      }
      BackedWrites(c, t, ws[1..]);
    }
  }

  lemma BackedWrite(c: Content, s: Site, w: Write)
    requires Under(c, s) && !w.DeleteRemote? && Within(c, Puts(w), s.remote)
    ensures Under(c, Apply(s, w)) && s.remote <= Apply(s, w).remote
  {
    WeightGrows(c, s.remote, Apply(s, w).remote);
  }

  lemma WithinMore(c: Content, file: Option<Ledger>, remote: set<Key>, more: set<Key>)
    requires Within(c, file, remote) && remote <= more
    ensures Within(c, file, more)
  {
    WeightGrows(c, remote, more);
  }

  // Writes that leave the bucket alone and put only exact ledgers.
  lemma {:induction false} ExactWrites(c: Content, s: Site, ws: seq<Write>)
    requires AllExact(c, s)
    requires forall w | w in ws :: !w.DeleteRemote? && !w.Upload? && Exact(c, Puts(w), s.remote)
    ensures Always(Exactly(c), s, ws) && Do(s, ws).remote == s.remote
    decreases |ws|
  {
    if ws != [] {
      assert ws[0] in ws;
      forall w | w in ws[1..] ensures w in ws {
      }
      ExactWrites(c, Apply(s, ws[0]), ws[1..]);
    }
  }

  // ------------------------------------------------------------------ the ledgers a publish writes

  lemma DeltaIsWithin(c: Content, s: Site, l: Ledger, release: Key, keys: set<Key>)
    ensures Within(c, Some(l), s.remote) ==> Within(c, Some(DeltaLedger(c, s, l, release, keys)), s.remote + keys)
    ensures Exact(c, Some(l), s.remote) ==> Exact(c, Some(DeltaLedger(c, s, l, release, keys)), s.remote + keys)
  {
    assert s.remote + keys == s.remote + (keys - s.remote);
    WeightUnion(c, s.remote, keys - s.remote);
  }

  lemma FullIsExact(c: Content, s: Site, release: Key, previous: Option<Key>)
    ensures Exact(c, Some(FullLedger(c, s, release, previous)), s.remote + s.local)
  {
    assert s.remote + s.local == s.remote + (s.local - s.remote);
    WeightUnion(c, s.remote, s.local - s.remote);
  }

  lemma {:induction false} UploadsOnlyUpload(order: seq<Key>, wanted: set<Key>)
    ensures forall w | w in Uploads(order, wanted) :: w.Upload?
    decreases |order|
  {
    if order != [] { UploadsOnlyUpload(order[1..], wanted); }
  }

  lemma FinishUnder(c: Content, s: Site, l: Ledger, ledgerFails: bool)
    requires Under(c, s) && Within(c, Some(l), s.remote)
    ensures Always(Underly(c), s, Finish(l, ledgerFails))
  {
    BackedWrites(c, s, Finish(l, ledgerFails));
  }

  lemma UploadAndFinishUnder(c: Content, s: Site, keys: set<Key>, l: Ledger, e: Choices)
    requires Inv(c, s) && Under(c, s) && Within(c, Some(l), s.remote + keys)
    ensures Always(Underly(c), s, UploadAndFinish(s, keys, l, e))
  {
    var ups := Uploads(e.order, keys - s.remote);
    UploadsOnlyUpload(e.order, keys - s.remote);
    BackedWrites(c, s, ups);
    if keys <= s.remote + Copied(e.order) {
      UploadsArrive(c, s, keys, e.order);
      AlwaysEnd(Underly(c), s, ups);
      FinishUnder(c, Do(s, ups), l, e.ledgerFails);
      AlwaysJoin(Underly(c), s, ups, Finish(l, e.ledgerFails));
    } else {
      assert UploadAndFinish(s, keys, l, e) == ups + [] == ups;
    }
  }

  lemma AdvanceUnder(c: Content, s: Site, release: Key, incremental: bool, e: Choices)
    requires Inv(c, s) && Under(c, s)
    ensures Always(Underly(c), s, Advance(c, s, release, incremental, e))
  {
    if s.marker.Some? && s.marker.value.release != release {
    } else if s.pointer == Some(release) {
      BackedWrites(c, s, AlreadyLive(c, s, release, incremental, e));
    } else if Planned(c, s, release, incremental, e).Some? {
      var move := Planned(c, s, release, incremental, e).value;
      PlannedIsBacked(c, s, release, incremental, e);
      UploadAndFinishUnder(c, s, move.keys, move.ledger, e);
    }
  }

  // The ledger of a planned move is as good as the active one is now, once its objects are there.
  lemma PlannedIsBacked(c: Content, s: Site, release: Key, incremental: bool, e: Choices)
    requires Inv(c, s) && Planned(c, s, release, incremental, e).Some?
    ensures var move := Planned(c, s, release, incremental, e).value;
            && (Under(c, s) ==> Within(c, Some(move.ledger), s.remote + move.keys))
            && (AllExact(c, s) ==> Exact(c, Some(move.ledger), s.remote + move.keys))
  {
    AllReadable(c, s);
    var previous := Predecessor(s, e.seen);
    var l := if previous.Some? then ActiveFor(s, previous.value) else None;
    if l.Some? {
      DeltaIsWithin(c, s, l.value, release, Objects(c, release) - Objects(c, previous.value));
    } else {
      var later := if previous.Some? then previous
                   else Predecessor(s.(remote := s.remote + s.local), e.seenLater);
      FullIsExact(c, s, release, later);
    }
  }

  // ------------------------------------------------------------------ the other writes

  // Every ledger recovery writes says of the bucket what some recorded ledger says.
  ghost predicate Echoes(c: Content, s: Site, w: Write) {
    && !w.DeleteRemote? && !w.Upload?
    && (Puts(w).Some? ==>
          var net := Puts(w).value.bytes - c.size(Puts(w).value.release);
          var objects := Puts(w).value.objects;
          || (net == Weight(c, s.remote) && objects - 1 == |s.remote|)
          || EchoOf(c, s.active, net, objects) || EchoOf(c, s.pending, net, objects)
          || EchoOf(c, s.marker, net, objects))
  }

  ghost predicate EchoOf(c: Content, file: Option<Ledger>, net: int, objects: int) {
    file.Some? && file.value.bytes - c.size(file.value.release) == net && file.value.objects == objects
  }

  lemma EchoesKeep(c: Content, s: Site, ws: seq<Write>)
    requires forall w | w in ws :: Echoes(c, s, w)
    ensures Under(c, s) ==> Always(Underly(c), s, ws)
    ensures AllExact(c, s) ==> Always(Exactly(c), s, ws) && Do(s, ws).remote == s.remote
  {
    if Under(c, s) { BackedWrites(c, s, ws); }
    if AllExact(c, s) { ExactWrites(c, s, ws); }
  }

  lemma RecoveryEchoes(c: Content, s: Site, incremental: bool)
    ensures forall w | w in Recovery(c, s, incremental).writes :: Echoes(c, s, w)
  {
    var p := RecoverPending(s, incremental);
    assert forall w | w in p.writes :: Echoes(c, s, w);
    if p.goesOn {
      var t := Do(s, p.writes);
      RecoverPendingDo(s, incremental);
      var rolled := RecoverRolledBack(c, t);
      assert forall w | w in rolled :: Echoes(c, s, w);
      assert forall w | w in CheckMarker(Do(s, p.writes + rolled), incremental).writes :: Echoes(c, s, w);
    }
  }

  lemma RecoverPendingDo(s: Site, incremental: bool)
    ensures var t := Do(s, RecoverPending(s, incremental).writes);
            && t == s.(active := t.active, pending := t.pending)
            && (t.active == s.active || t.active == s.pending)
  {
    var ws := RecoverPending(s, incremental).writes;
    if s.pending.Some? && ws == [PutActive(s.pending.value), DropPending] {
      assert ws[1..] == [DropPending] && [DropPending][1..] == [];
      assert Do(Apply(Apply(s, ws[0]), DropPending), []) == Apply(Apply(s, ws[0]), DropPending);
    } else if ws == [DropPending] {
      assert ws[1..] == [];
      assert Do(Apply(s, DropPending), []) == Apply(s, DropPending);
    }
  }

  lemma ActivateEchoes(c: Content, s: Site, target: Key, expected: Key, e: Choices)
    ensures forall w | w in Activate(c, s, target, expected, e) :: Echoes(c, s, w)
  {
  }

  lemma ReconcileEchoes(c: Content, s: Site)
    ensures forall w | w in Reconcile(c, s).writes :: Echoes(c, s, w)
  {
    RecoverPendingDo(s, true);
    if s.marker.Some? && s.pointer == Some(s.marker.value.release) {
      ForwardEchoes(c, s);
    }
  }

  // The marker's release is in force: what is written is the pending ledger or the marker itself.
  lemma ForwardEchoes(c: Content, s: Site)
    requires s.marker.Some? && s.pointer == Some(s.marker.value.release)
    ensures forall w | w in Reconcile(c, s).writes :: Echoes(c, s, w)
  {
    var p := RecoverPending(s, true);
    assert forall w | w in p.writes :: w == DropPending || (s.pending.Some? && w == PutActive(s.pending.value));
    assert forall w | w in Reconcile(c, s).writes :: w in p.writes || w == PutActive(s.marker.value);
  }

  lemma PublishUnder(c: Content, s: Site, release: Key, incremental: bool, e: Choices)
    requires Inv(c, s) && Under(c, s)
    ensures Always(Underly(c), s, Publish(c, s, release, incremental, e))
  {
    if Valid(c, s, release, incremental) {
      var r := Recovery(c, s, incremental);
      RecoveryEchoes(c, s, incremental);
      EchoesKeep(c, s, r.writes);
      if r.goesOn {
        RecoveryKeeps(c, s, incremental);
        AlongEnd(c, s, r.writes);
        AlwaysEnd(Underly(c), s, r.writes);
        AdvanceUnder(c, Do(s, r.writes), release, incremental, e);
        AlwaysJoin(Underly(c), s, r.writes, Advance(c, Do(s, r.writes), release, incremental, e));
      }
    }
  }

  // What follows a smoke only echoes recorded ledgers.
  lemma AfterSmokeKeepsBooks(c: Content, s: Site, release: Key, previous: Option<Key>, y: Cycle)
    ensures Under(c, s) ==> Always(Underly(c), s, AfterSmoke(c, s, release, previous, y))
    ensures AllExact(c, s) ==> Always(Exactly(c), s, AfterSmoke(c, s, release, previous, y))
  {
    if y.smoke.Pass? {
      assert forall w | w in Confirmed(s, release) :: Echoes(c, s, w);
      EchoesKeep(c, s, Confirmed(s, release));
    } else if y.smoke.Fail? && previous.Some? {
      var back := Activate(c, s, previous.value, release, y.rollback);
      ActivateEchoes(c, s, previous.value, release, y.rollback);
      EchoesKeep(c, s, back);
      var t := Do(s, back);
      if back != [] && y.rollbackSmoke.Pass? {
        assert forall w | w in Confirmed(t, previous.value) :: Echoes(c, t, w);
        EchoesKeep(c, t, Confirmed(t, previous.value));
        if Under(c, s) {
          AlwaysEnd(Underly(c), s, back);
          AlwaysJoin(Underly(c), s, back, Confirmed(t, previous.value));
        }
        if AllExact(c, s) {
          AlwaysEnd(Exactly(c), s, back);
          AlwaysJoin(Exactly(c), s, back, Confirmed(t, previous.value));
        }
      } else {
        assert back + [] == back;
      }
    }
  }

  lemma RecoveryCycleKeepsBooks(c: Content, s: Site, y: Cycle)
    ensures Under(c, s) ==> Always(Underly(c), s, RecoveryCycle(c, s, y))
    ensures AllExact(c, s) ==> Always(Exactly(c), s, RecoveryCycle(c, s, y))
  {
    var r := Reconcile(c, s);
    var t := Do(s, r.writes);
    ReconcileEchoes(c, s);
    EchoesKeep(c, s, r.writes);
    if r.goesOn && t.marker.Some? && t.pointer.Some? {
      var previous := RecoveryTarget(t, y.seen);
      AfterSmokeKeepsBooks(c, t, t.pointer.value, previous, y);
      var rest := AfterSmoke(c, t, t.pointer.value, previous, y);
      if Under(c, s) {
        AlwaysEnd(Underly(c), s, r.writes);
        AlwaysJoin(Underly(c), s, r.writes, rest);
      }
      if AllExact(c, s) {
        AlwaysEnd(Exactly(c), s, r.writes);
        AlwaysJoin(Exactly(c), s, r.writes, rest);
      }
    }
  }

  lemma PublishCycleUnder(c: Content, s: Site, y: Cycle)
    requires Inv(c, s) && Under(c, s)
    ensures Always(Underly(c), s, PublishCycle(c, s, y))
  {
    if s.marker.None? && s.current.Some? {
      var release := s.current.value;
      var ws := Publish(c, s, release, true, y.publish);
      PublishUnder(c, s, release, true, y.publish);
      AlwaysEnd(Underly(c), s, ws);
      var t := Do(s, ws);
      AfterSmokeKeepsBooks(c, t, release, RollbackTarget(c, s, t), y);
      AlwaysJoin(Underly(c), s, ws, AfterSmoke(c, t, release, RollbackTarget(c, s, t), y));
    }
  }

  lemma {:induction false} OnlyLocals(keys: seq<Key>)
    ensures forall w | w in AddLocals(keys) :: w.AddLocal?
    decreases |keys|
  {
    if keys != [] { OnlyLocals(keys[1..]); }
  }

  // A collection that deletes anything and is not cut measures the bucket again: whatever the books said
  // before, they are exact.
  lemma CollectMeasures(c: Content, s: Site, recent: set<Key>, garbage: seq<Key>)
    requires Inv(c, s)
    ensures var t := Do(s, Collect(c, s, recent, garbage));
            if Collect(c, s, recent, garbage) == [] then t == s else AllExact(c, t)
  {
    AllReadable(c, s);
    if Collect(c, s, recent, garbage) != [] {
      DeletionsKeep(c, s, recent, garbage);
      var deletions := DeleteRemotes(garbage) + DeleteLocals(garbage);
      var after := Do(s, deletions);
      if s.active.Some? {
        assert ActiveIsCurrent(s);
        DoSnoc(s, deletions, PutActive(s.active.value.(bytes := TrueBytes(c, after), objects := TrueObjects(after))));
      } else {
        assert deletions + [] == deletions;
      }
    }
  }

  lemma EventUnder(c: Content, s: Site, ev: Event)
    requires Inv(c, s) && Under(c, s) && !ev.Collecting?
    ensures Always(Underly(c), s, Writes(c, s, ev))
  {
    match ev {
      case Exporting(release, staged) =>
        OnlyLocals(staged);
        assert forall w | w in Export(c, s, release, staged) :: Echoes(c, s, w);
        EchoesKeep(c, s, Export(c, s, release, staged));
      case ExplicitPublish(release, e) => PublishUnder(c, s, release, false, e);
      case RunnerPublish(y) => PublishCycleUnder(c, s, y);
      case RunnerRecovery(y) => RecoveryCycleKeepsBooks(c, s, y);
      case Rollback(e) =>
        if s.marker.Some? && s.marker.value.previous.Some? {
          ActivateEchoes(c, s, s.marker.value.previous.value, s.marker.value.release, e);
          EchoesKeep(c, s, Writes(c, s, ev));
        }
      case Collecting(_, _) =>
    }
  }

  // ------------------------------------------------------------------ settled sites

  // What a move has uploaded when it ends, and when it moved the pointer.
  lemma Uploaded(c: Content, s: Site, keys: set<Key>, l: Ledger, e: Choices)
    requires Inv(c, s) && s.pending.None? && s.marker.None?
    requires Objects(c, l.release) <= s.remote + keys && l.release in s.local
    requires l.previous.Some? ==> l.previous == s.pointer
    requires NonNegative(c, Some(l)) && s.pointer != Some(l.release)
    ensures var t := Do(s, UploadAndFinish(s, keys, l, e));
            && t.remote == s.remote + Copied(e.order) * (keys - s.remote)
            && (t.pointer == Some(l.release) <==> keys - s.remote <= Copied(e.order))
            && (t.pointer == Some(l.release) && !e.ledgerFails ==> t.pending.None?)
  {
    var ups := Uploads(e.order, keys - s.remote);
    UploadsKeep(c, s, e.order, keys - s.remote);
    AlongEnd(c, s, ups);
    if keys <= s.remote + Copied(e.order) {
      FinishKeeps(c, Do(s, ups), l, e.ledgerFails);
      DoJoin(s, ups, Finish(l, e.ledgerFails));
    } else {
      assert ups + [] == ups;
    }
  }

  // A settled site has nothing to recover.
  lemma SettledPublish(c: Content, s: Site, release: Key, incremental: bool, e: Choices)
    requires Inv(c, s) && s.marker.None? && s.pending.None? && s.pointer != Some(release)
    requires Valid(c, s, release, incremental)
    ensures Publish(c, s, release, incremental, e) == Supersede(c, s, release, incremental, e)
  {
    SettledRecovery(c, s, incremental);
    var ws := Supersede(c, s, release, incremental, e);
    assert [] + ws == ws;
  }

  lemma SettledRecovery(c: Content, s: Site, incremental: bool)
    requires Inv(c, s) && s.pending.None? && s.marker.None?
    ensures Recovery(c, s, incremental) == Stage([], true)
  {
    RecoverRolledBackKeeps(c, s);
    assert Do(s, []) == s;
    assert RecoverRolledBack(c, s) == [];
    assert Recovery(c, s, incremental) == Stage([] + [] + [], true);
  }
}
