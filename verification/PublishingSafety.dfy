// What every write of every publication step keeps: the pointer and every recorded release are
// complete in the bucket, and some local record names the pointer.
module PublishingSafety {
  import opened Wrappers
  import opened Publishing

  // All objects of the release are in the bucket, and its manifest is on disk.
  ghost predicate Complete(c: Content, s: Site, release: Key) {
    Objects(c, release) <= s.remote && release in s.local
  }

  ghost predicate RecordComplete(c: Content, s: Site, file: Option<Ledger>) {
    file.Some? ==>
      && file.value.previous != Some(file.value.release)
      && Complete(c, s, file.value.release)
      && (file.value.previous.Some? ==> Complete(c, s, file.value.previous.value))
  }

  predicate Names(file: Option<Ledger>, pointer: Option<Key>) {
    file.Some? && pointer == Some(file.value.release)
  }

  // The active ledger is the pointer's, or there is neither.
  predicate ActiveIsCurrent(s: Site) {
    if s.active.Some? then s.pointer == Some(s.active.value.release) else s.pointer.None?
  }

  ghost predicate AgreesWithMarker(file: Option<Ledger>, marker: Ledger) {
    file.Some? && file.value.release == marker.release ==> file.value.previous == marker.previous
  }

  ghost predicate Safe(c: Content, s: Site) {
    && (s.pointer.Some? ==> Complete(c, s, s.pointer.value))
    && RecordComplete(c, s, s.active) && RecordComplete(c, s, s.pending) && RecordComplete(c, s, s.marker)
    && (ActiveIsCurrent(s) || Names(s.pending, s.pointer) || Names(s.marker, s.pointer))
    && (s.marker.Some? ==>
          && AgreesWithMarker(s.active, s.marker.value) && AgreesWithMarker(s.pending, s.marker.value)
          // a live attempt whose ledger is not active can still go back to the release that is
          && (Names(s.marker, s.pointer) && !ActiveIsCurrent(s) ==>
                if s.marker.value.previous.Some?
                then s.active.Some? && s.active.value.release == s.marker.value.previous.value
                else Names(s.pending, s.pointer)))
  }

  // Every ledger's numbers are at least zero, so it is readable.
  ghost predicate NonNegative(c: Content, file: Option<Ledger>) {
    file.Some? ==> file.value.bytes >= c.size(file.value.release) && file.value.objects >= 1
  }

  ghost predicate Inv(c: Content, s: Site) {
    && Safe(c, s)
    && NonNegative(c, s.active) && NonNegative(c, s.pending) && NonNegative(c, s.marker)
  }

  ghost function Safely(c: Content): Site -> bool {
    s => Inv(c, s)
  }

  // The invariant holds after every prefix of the writes.
  ghost predicate Along(c: Content, s: Site, ws: seq<Write>) {
    Always(Safely(c), s, ws)
  }

  lemma AlongJoin(c: Content, s: Site, a: seq<Write>, b: seq<Write>)
    requires Along(c, s, a) && Along(c, Do(s, a), b)
    ensures Along(c, s, a + b)
  {
    AlwaysJoin(Safely(c), s, a, b);
  }

  lemma AlongEnd(c: Content, s: Site, ws: seq<Write>)
    requires Along(c, s, ws)
    ensures Inv(c, Do(s, ws))
  {
    assert ws[..|ws|] == ws;
    AlongCut(c, s, ws, |ws|);
  }

  lemma AlongCut(c: Content, s: Site, ws: seq<Write>, cut: nat)
    requires Along(c, s, ws) && cut <= |ws|
    ensures Along(c, s, ws[..cut]) && Inv(c, Do(s, ws[..cut]))
  {
    AlwaysCut(Safely(c), s, ws, cut);
  }

  // ------------------------------------------------------------------ stages

  lemma OneWrite(c: Content, s: Site, w: Write)
    requires Inv(c, s) && Inv(c, Apply(s, w))
    ensures Along(c, s, [w]) && Do(s, [w]) == Apply(s, w)
  {
    assert [w][1..] == [];
    assert Along(c, Apply(s, w), []);
    assert Do(Apply(s, w), []) == Apply(s, w);
  }

  lemma TwoWrites(c: Content, s: Site, v: Write, w: Write)
    requires Inv(c, s) && Inv(c, Apply(s, v)) && Inv(c, Apply(Apply(s, v), w))
    ensures Along(c, s, [v, w]) && Do(s, [v, w]) == Apply(Apply(s, v), w)
  {
    OneWrite(c, Apply(s, v), w);
    assert [v, w][1..] == [w];
  }

  lemma AllReadable(c: Content, s: Site)
    requires Inv(c, s)
    ensures Read(s.active) == s.active && Read(s.pending) == s.pending && Read(s.marker) == s.marker
  {
  }

  // After it, no pending ledger is left, and unless a live attempt is waiting for its smoke the
  // active ledger is the pointer's.
  lemma RecoverPendingKeeps(c: Content, s: Site, incremental: bool)
    requires Inv(c, s)
    ensures var p := RecoverPending(s, incremental);
            && Along(c, s, p.writes)
            && (p.goesOn ==>
                  var t := Do(s, p.writes);
                  && t.pending.None? && t == s.(active := t.active, pending := None)
                  && (ActiveIsCurrent(t) || Names(t.marker, t.pointer))
                  && (Names(s.pending, s.pointer) ==> t.active == s.pending)
                  && (!Names(s.pending, s.pointer) ==> t.active == s.active))
  {
    AllReadable(c, s);
    var p := RecoverPending(s, incremental);
    if p.writes == [DropPending] {
      OneWrite(c, s, DropPending);
    } else if s.pending.Some? && p.writes == [PutActive(s.pending.value), DropPending] {
      TwoWrites(c, s, PutActive(s.pending.value), DropPending);
    } else {
      assert p.writes == [];
    }
  }

  // The active ledger still holds the pointer's release as its predecessor.
  predicate FollowsPointer(s: Site) {
    s.pointer.Some? && s.active.Some? && s.active.value.previous == s.pointer
  }

  lemma RecoverRolledBackKeeps(c: Content, s: Site)
    requires Inv(c, s) && (s.pending.None? || !Names(s.marker, s.pointer))
    ensures var ws := RecoverRolledBack(c, s);
            && Along(c, s, ws)
            && Do(s, ws) == s.(active := Do(s, ws).active)
            && (ActiveIsCurrent(s) ==> Do(s, ws) == s)
            && (ws != [] ==> ActiveIsCurrent(Do(s, ws)))
            && (FollowsPointer(s) ==> ActiveIsCurrent(Do(s, ws)))
  {
    AllReadable(c, s);
    var ws := RecoverRolledBack(c, s);
    if ws != [] {
      OneWrite(c, s, PutActive(Back(c, s.active.value, s.pointer.value)));
    }
  }

  lemma CheckMarkerKeeps(c: Content, s: Site, incremental: bool)
    requires Inv(c, s) && s.pending.None?
    ensures var m := CheckMarker(s, incremental);
            && Along(c, s, m.writes) && m.goesOn
            && Do(s, m.writes) == s.(marker := Do(s, m.writes).marker)
            && (Do(s, m.writes).marker.Some? ==> Do(s, m.writes).marker == s.marker && Names(s.marker, s.pointer))
            && (Do(s, m.writes).marker.None? ==> ActiveIsCurrent(s))
  {
    AllReadable(c, s);
    if CheckMarker(s, incremental).writes != [] {
      OneWrite(c, s, DropMarker);
    }
  }

  // The recovered site: no pending ledger; either a live attempt with its marker, or a settled site.
  ghost predicate Recovered(s: Site) {
    && s.pending.None?
    && (if s.marker.Some? then Names(s.marker, s.pointer) else ActiveIsCurrent(s))
    && (FollowsPointer(s) ==> ActiveIsCurrent(s))
  }

  lemma RecoveryKeeps(c: Content, s: Site, incremental: bool)
    requires Inv(c, s)
    ensures var r := Recovery(c, s, incremental);
            && Along(c, s, r.writes)
            && (r.goesOn ==>
                  var t := Do(s, r.writes);
                  && Recovered(t)
                  && t == s.(active := t.active, pending := None, marker := t.marker)
                  && (t.marker.Some? ==> t.marker == s.marker)
                  && (ActiveIsCurrent(s) || Names(s.pending, s.pointer) || FollowsPointer(s) ==> ActiveIsCurrent(t)))
  {
    var p := RecoverPending(s, incremental);
    RecoverPendingKeeps(c, s, incremental);
    if p.goesOn {
      AlongEnd(c, s, p.writes);
      var t := Do(s, p.writes);
      var rolled := RecoverRolledBack(c, t);
      RecoverRolledBackKeeps(c, t);
      AlongJoin(c, s, p.writes, rolled);
      DoJoin(s, p.writes, rolled);
      AlongEnd(c, s, p.writes + rolled);
      var u := Do(s, p.writes + rolled);
      CheckMarkerKeeps(c, u, incremental);
      AlongJoin(c, s, p.writes + rolled, CheckMarker(u, incremental).writes);
      DoJoin(s, p.writes + rolled, CheckMarker(u, incremental).writes);
    }
  }

  lemma {:induction false} UploadsKeep(c: Content, s: Site, order: seq<Key>, wanted: set<Key>)
    requires Inv(c, s)
    ensures Along(c, s, Uploads(order, wanted))
    ensures Do(s, Uploads(order, wanted)) == s.(remote := s.remote + Copied(order) * wanted)
    decreases |order|
  {
    if order != [] {
      var rest := Uploads(order[1..], wanted);
      if order[0] in wanted {
        var t := Apply(s, Upload(order[0]));
        assert Inv(c, t);
        UploadsKeep(c, t, order[1..], wanted);
        assert Uploads(order, wanted)[1..] == rest;
        assert Copied(order) * wanted == {order[0]} + Copied(order[1..]) * wanted;
        assert s.remote + {order[0]} + Copied(order[1..]) * wanted == s.remote + Copied(order) * wanted;
      } else {
        UploadsKeep(c, s, order[1..], wanted);
        assert Uploads(order, wanted) == rest;
        assert Copied(order) * wanted == Copied(order[1..]) * wanted;
      }
    } else {
      assert Copied(order) * wanted == {};
      assert s.remote + {} == s.remote;
    }
  }

  lemma UploadsArrive(c: Content, s: Site, keys: set<Key>, order: seq<Key>)
    requires Inv(c, s) && keys <= s.remote + Copied(order)
    ensures Do(s, Uploads(order, keys - s.remote)) == s.(remote := s.remote + keys)
  {
    UploadsKeep(c, s, order, keys - s.remote);
    assert s.remote + Copied(order) * (keys - s.remote) == s.remote + keys;
  }

  // Publishing a complete release over the pointer's own predecessor.
  lemma FinishKeeps(c: Content, s: Site, l: Ledger, ledgerFails: bool)
    requires Inv(c, s) && s.pending.None? && s.marker.None?
    requires RecordComplete(c, s, Some(l)) && NonNegative(c, Some(l))
    requires s.pointer != Some(l.release) && (l.previous.Some? ==> l.previous == s.pointer)
    ensures Along(c, s, Finish(l, ledgerFails))
    ensures var t := Do(s, Finish(l, ledgerFails));
            && t.pointer == Some(l.release) && t.marker == Some(l)
            && (if ledgerFails then t.active == s.active && t.pending == Some(l)
                else t.active == Some(l) && t.pending.None?)
            && t == s.(pointer := t.pointer, marker := t.marker, active := t.active, pending := t.pending)
  {
    var head := [PutPending(l), PutMarker(l), Flip(l.release)];
    MoveKeeps(c, s, l);
    if ledgerFails {
      assert Finish(l, ledgerFails) == head;
    } else {
      var s3 := Do(s, head);
      LastLedgerKeeps(c, s3, l);
      AlongJoin(c, s, head, [PutActive(l), DropPending]);
      DoJoin(s, head, [PutActive(l), DropPending]);
      assert Finish(l, ledgerFails) == head + [PutActive(l), DropPending];
    }
  }

  // Both records, then the pointer.
  lemma MoveKeeps(c: Content, s: Site, l: Ledger)
    requires Inv(c, s) && s.pending.None? && s.marker.None?
    requires RecordComplete(c, s, Some(l)) && NonNegative(c, Some(l))
    requires s.pointer != Some(l.release) && (l.previous.Some? ==> l.previous == s.pointer)
    ensures Along(c, s, [PutPending(l), PutMarker(l), Flip(l.release)])
    ensures Do(s, [PutPending(l), PutMarker(l), Flip(l.release)])
            == s.(pending := Some(l), marker := Some(l), pointer := Some(l.release))
  {
    assert ActiveIsCurrent(s);
    var s2 := Apply(Apply(s, PutPending(l)), PutMarker(l));
    TwoWrites(c, s, PutPending(l), PutMarker(l));
    OneWrite(c, s2, Flip(l.release));
    AlongJoin(c, s, [PutPending(l), PutMarker(l)], [Flip(l.release)]);
    DoJoin(s, [PutPending(l), PutMarker(l)], [Flip(l.release)]);
    assert [PutPending(l), PutMarker(l)] + [Flip(l.release)] == [PutPending(l), PutMarker(l), Flip(l.release)];
  }

  // The active ledger, once every record and the pointer name the release.
  lemma LastLedgerKeeps(c: Content, s: Site, l: Ledger)
    requires Inv(c, s) && s.pending == Some(l) && s.marker == Some(l) && s.pointer == Some(l.release)
    ensures Along(c, s, [PutActive(l), DropPending])
    ensures Do(s, [PutActive(l), DropPending]) == s.(active := Some(l), pending := None)
  {
    TwoWrites(c, s, PutActive(l), DropPending);
  }

  lemma UploadAndFinishKeeps(c: Content, s: Site, keys: set<Key>, l: Ledger, e: Choices)
    requires Inv(c, s) && s.pending.None? && s.marker.None?
    requires Objects(c, l.release) <= s.remote + keys && l.release in s.local
    requires l.previous.Some? ==> l.previous == s.pointer
    requires NonNegative(c, Some(l)) && s.pointer != Some(l.release)
    ensures Along(c, s, UploadAndFinish(s, keys, l, e))
  {
    var ups := Uploads(e.order, keys - s.remote);
    UploadsKeep(c, s, e.order, keys - s.remote);
    AlongEnd(c, s, ups);
    if keys <= s.remote + Copied(e.order) {
      var t := Do(s, ups);
      assert keys <= t.remote;
      FinishKeeps(c, t, l, e.ledgerFails);
      AlongJoin(c, s, ups, Finish(l, e.ledgerFails));
    } else {
      assert UploadAndFinish(s, keys, l, e) == ups + [];
      assert ups + [] == ups;
    }
  }

  // A planned move goes on from the live release or records no predecessor, and fits the limits.
  lemma PlannedFollows(c: Content, s: Site, release: Key, incremental: bool, e: Choices)
    requires Planned(c, s, release, incremental, e).Some?
    ensures var l := Planned(c, s, release, incremental, e).value.ledger;
            l.release == release && !OverBudget(l) && (l.previous.Some? ==> l.previous == s.pointer)
  {
  }

  // Uploading what it names completes the release: a delta is enough because the predecessor, being
  // live, is complete.
  lemma PlannedCompletes(c: Content, s: Site, release: Key, incremental: bool, e: Choices)
    requires Inv(c, s) && Planned(c, s, release, incremental, e).Some? && Valid(c, s, release, incremental)
    ensures var move := Planned(c, s, release, incremental, e).value;
            Objects(c, release) <= s.remote + move.keys && release in s.local && NonNegative(c, Some(move.ledger))
  {
    AllReadable(c, s);
    var previous := Predecessor(s, e.seen);
    if previous.Some? {
      assert Objects(c, release) <= s.remote + (Objects(c, release) - Objects(c, previous.value));
    }
  }

  lemma SupersedeKeeps(c: Content, s: Site, release: Key, incremental: bool, e: Choices)
    requires Inv(c, s) && Recovered(s) && s.marker.None? && s.pointer != Some(release)
    requires Valid(c, s, release, incremental)
    ensures Along(c, s, Supersede(c, s, release, incremental, e))
  {
    var move := Planned(c, s, release, incremental, e);
    if move.Some? {
      PlannedFollows(c, s, release, incremental, e);
      PlannedCompletes(c, s, release, incremental, e);
      UploadAndFinishKeeps(c, s, move.value.keys, move.value.ledger, e);
    }
  }

  // ------------------------------------------------------------------ publish

  // The one publish the protocol does not survive: an explicit publish of a live attempt that no
  // ledger names writes a ledger without the predecessor its smoke marker still holds.
  ghost predicate ForgetsPredecessor(c: Content, s: Site, release: Key, incremental: bool, e: Choices) {
    && !incremental && e.measured && Valid(c, s, release, incremental)
    && s.marker.Some? && s.marker.value.release == release && s.marker.value.previous.Some?
    && s.pointer == Some(release)
    && !ActiveIsCurrent(s) && !FollowsPointer(s) && !Names(s.pending, s.pointer)
  }

  lemma AdvanceKeeps(c: Content, s: Site, release: Key, incremental: bool, e: Choices)
    requires Inv(c, s) && Recovered(s) && Valid(c, s, release, incremental)
    requires !ForgetsPredecessor(c, s, release, incremental, e)
    ensures Along(c, s, Advance(c, s, release, incremental, e))
  {
    AllReadable(c, s);
    if s.marker.Some? && s.marker.value.release != release {
    } else if s.pointer == Some(release) {
      if AlreadyLive(c, s, release, incremental, e) != [] {
        WeightHas(c, s.remote, release);
        OneWrite(c, s, PutActive(Ledger(release, None, TrueBytes(c, s), TrueObjects(s))));
      }
    } else {
      SupersedeKeeps(c, s, release, incremental, e);
    }
  }

  lemma WeightHas(c: Content, keys: set<Key>, k: Key)
    requires k in keys
    ensures |keys| >= 1
  {
    assert |keys - {k}| == |keys| - 1;
  }

  lemma PublishKeeps(c: Content, s: Site, release: Key, incremental: bool, e: Choices)
    requires Inv(c, s) && !ForgetsPredecessor(c, s, release, incremental, e)
    ensures Along(c, s, Publish(c, s, release, incremental, e))
  {
    if Valid(c, s, release, incremental) {
      var r := Recovery(c, s, incremental);
      RecoveryKeeps(c, s, incremental);
      if r.goesOn {
        AlongEnd(c, s, r.writes);
        var t := Do(s, r.writes);
        RecoveryForgets(c, s, release, incremental, e);
        AdvanceKeeps(c, t, release, incremental, e);
        AlongJoin(c, s, r.writes, Advance(c, t, release, incremental, e));
      }
    }
  }

  // Recovery makes a ledger the pending record names active, so only an unnamed attempt can be hurt.
  lemma RecoveryForgets(c: Content, s: Site, release: Key, incremental: bool, e: Choices)
    requires Inv(c, s) && Recovery(c, s, incremental).goesOn
    requires !ForgetsPredecessor(c, s, release, incremental, e) && Valid(c, s, release, incremental)
    ensures !ForgetsPredecessor(c, Do(s, Recovery(c, s, incremental).writes), release, incremental, e)
  {
    RecoveryKeeps(c, s, incremental);
  }

  // ------------------------------------------------------------------ activation

  // Going back through the recorded attempt: the pending record, the pointer, then the active ledger.
  ghost function BackWrites(l: Ledger, count: seq<Write>, ledgerFails: bool): seq<Write> {
    [PutPending(l), Flip(l.release)] + count + if ledgerFails then [] else [PutActive(l), DropPending]
  }

  predicate OnlyCounts(ws: seq<Write>) {
    ws == [] || (|ws| == 1 && ws[0].CountRollback?)
  }

  lemma CountKeeps(c: Content, s: Site, count: seq<Write>)
    requires Inv(c, s) && OnlyCounts(count)
    ensures Along(c, s, count) && Do(s, count) == s.(rollbacks := Do(s, count).rollbacks)
  {
    if count != [] {
      assert count == [count[0]];
      OneWrite(c, s, count[0]);
    }
  }

  lemma BackKeeps(c: Content, s: Site, l: Ledger, count: seq<Write>, ledgerFails: bool)
    requires Inv(c, s) && OnlyCounts(count)
    requires RecordComplete(c, s, Some(l)) && NonNegative(c, Some(l))
    requires l.previous == s.pointer && s.pointer.Some?
    requires if s.marker.Some? then Names(s.marker, s.pointer) && s.marker.value.previous == Some(l.release)
             else ActiveIsCurrent(s) && s.pending.None?
    ensures Along(c, s, BackWrites(l, count, ledgerFails))
    ensures var t := Do(s, BackWrites(l, count, ledgerFails));
            && t.pointer == Some(l.release)
            && (if ledgerFails then t.active == s.active && t.pending == Some(l)
                else t.active == Some(l) && t.pending.None?)
            && t == s.(pointer := t.pointer, active := t.active, pending := t.pending, rollbacks := t.rollbacks)
  {
    var head := [PutPending(l), Flip(l.release)];
    BackMoves(c, s, l);
    var s2 := Do(s, head);
    CountKeeps(c, s2, count);
    AlongJoin(c, s, head, count);
    DoJoin(s, head, count);
    if ledgerFails {
      assert BackWrites(l, count, ledgerFails) == head + count;
    } else {
      AlongEnd(c, s2, count);
      LastBackKeeps(c, Do(s2, count), l);
      AlongJoin(c, s, head + count, [PutActive(l), DropPending]);
      DoJoin(s, head + count, [PutActive(l), DropPending]);
      assert BackWrites(l, count, ledgerFails) == head + count + [PutActive(l), DropPending];
    }
  }

  // The pending record, then the pointer.
  lemma BackMoves(c: Content, s: Site, l: Ledger)
    requires Inv(c, s) && RecordComplete(c, s, Some(l)) && NonNegative(c, Some(l))
    requires l.previous == s.pointer && s.pointer.Some?
    requires if s.marker.Some? then Names(s.marker, s.pointer) && s.marker.value.previous == Some(l.release)
             else ActiveIsCurrent(s) && s.pending.None?
    ensures Along(c, s, [PutPending(l), Flip(l.release)])
    ensures Do(s, [PutPending(l), Flip(l.release)]) == s.(pending := Some(l), pointer := Some(l.release))
    ensures s.marker.Some? ==> s.marker.value.release != l.release
  {
    var s1 := Apply(s, PutPending(l));
    assert Inv(c, s1);
    assert Inv(c, Apply(s1, Flip(l.release)));
    TwoWrites(c, s, PutPending(l), Flip(l.release));
  }

  lemma LastBackKeeps(c: Content, s: Site, l: Ledger)
    requires Inv(c, s) && s.pending == Some(l) && s.pointer == Some(l.release)
    requires s.marker.Some? ==> s.marker.value.release != l.release
    ensures Along(c, s, [PutActive(l), DropPending])
    ensures Do(s, [PutActive(l), DropPending]) == s.(active := Some(l), pending := None)
  {
    assert Inv(c, Apply(s, PutActive(l)));
    TwoWrites(c, s, PutActive(l), DropPending);
  }

  // Going back without a recorded attempt: the pointer, then a measured ledger.
  lemma ForwardKeeps(c: Content, s: Site, target: Key, count: seq<Write>, measured: bool)
    requires Inv(c, s) && OnlyCounts(count) && Complete(c, s, target)
    requires s.marker.Some? && s.marker.value.previous == Some(target)
    requires s.pointer == Some(target) || (s.active.Some? && s.active.value.release == target)
    ensures var after := s.(pointer := Some(target));
            var ws := [Flip(target)] + count
                      + if measured then [PutActive(Ledger(target, None, TrueBytes(c, after), TrueObjects(after)))] else [];
            && Along(c, s, ws)
            && Do(s, ws).pointer == Some(target) && Do(s, ws).marker == s.marker && Do(s, ws).remote == s.remote
  {
    var after := Apply(s, Flip(target));
    assert Inv(c, after);
    OneWrite(c, s, Flip(target));
    CountKeeps(c, after, count);
    AlongJoin(c, s, [Flip(target)], count);
    DoJoin(s, [Flip(target)], count);
    var head := [Flip(target)] + count;
    if measured {
      var l := Ledger(target, None, TrueBytes(c, after), TrueObjects(after));
      AlongEnd(c, after, count);
      WeightHas(c, s.remote, target);
      OneWrite(c, Do(after, count), PutActive(l));
      AlongJoin(c, s, head, [PutActive(l)]);
      DoJoin(s, head, [PutActive(l)]);
    } else {
      assert head + [] == head;
    }
  }

  // A rollback of the attempt its smoke marker holds, or an activation of a settled site's recorded
  // predecessor, which is all the runner asks for.
  ghost predicate Recorded(s: Site, target: Key, expected: Key) {
    s.marker.None? ==> s.pending.None? && ActiveIsCurrent(s) && Names(s.active, Some(expected))
                       && s.active.value.previous == Some(target)
  }

  lemma ActivateKeeps(c: Content, s: Site, target: Key, expected: Key, e: Choices)
    requires Inv(c, s) && Recorded(s, target, expected)
    ensures Along(c, s, Activate(c, s, target, expected, e))
    ensures Activate(c, s, target, expected, e) != [] ==>
              var t := Do(s, Activate(c, s, target, expected, e));
              t.pointer == Some(target) && t.marker == s.marker && t.remote == s.remote
              && (ActiveIsCurrent(t) || Names(t.pending, t.pointer))
  {
    AllReadable(c, s);
    if MayActivate(s, target, expected) {
      var count := if s.marker.Some? && !e.countFails then [CountRollback(s.marker.value.release)] else [];
      var attempt := Attempt(s, target);
      if attempt.Some? {
        var l := Back(c, attempt.value, target);
        BackKeeps(c, s, l, count, e.ledgerFails);
        assert Activate(c, s, target, expected, e) == BackWrites(l, count, e.ledgerFails);
      } else {
        NoAttempt(c, s, target, expected);
        if s.marker.Some? {
          ForwardKeeps(c, s, target, count, e.measured);
          var ws := Activate(c, s, target, expected, e);
          AlongEnd(c, s, ws);
        }
      }
    }
  }

  // A site whose records hold no attempt to undo is already at the target, or its active ledger is.
  lemma NoAttempt(c: Content, s: Site, target: Key, expected: Key)
    requires Inv(c, s) && Recorded(s, target, expected)
    requires MayActivate(s, target, expected) && Attempt(s, target).None?
    ensures s.pointer == Some(target) || (s.active.Some? && s.active.value.release == target)
    ensures s.marker.None? ==> s.pointer == Some(target)
  {
    AllReadable(c, s);
  }

  // ------------------------------------------------------------------ reconcile and confirm

  lemma ReconcileKeeps(c: Content, s: Site)
    requires Inv(c, s)
    ensures var r := Reconcile(c, s);
            var t := Do(s, r.writes);
            && Along(c, s, r.writes)
            && t == s.(active := t.active, pending := t.pending, marker := t.marker)
            && (r.goesOn ==> ActiveIsCurrent(t) || (s.marker.None? && t == s))
            && (r.goesOn && t.marker.Some? ==> t.marker == s.marker)
  {
    AllReadable(c, s);
    var r := Reconcile(c, s);
    if s.marker.Some? && r.writes != [] {
      if s.pointer.None? {
        TwoWrites(c, s, DropPending, DropMarker);
      } else if s.pointer == Some(s.marker.value.release) {
        ReconcileLive(c, s);
      } else {
        ReconcileRolledBack(c, s);
      }
    }
  }

  lemma ReconcileLive(c: Content, s: Site)
    requires Inv(c, s) && Names(s.marker, s.pointer)
    ensures var r := Reconcile(c, s);
            var t := Do(s, r.writes);
            && Along(c, s, r.writes)
            && t == s.(active := t.active, pending := t.pending)
            && (r.goesOn ==> ActiveIsCurrent(t) && t.pending.None?)
  {
    AllReadable(c, s);
    var m := s.marker.value;
    var p := RecoverPending(s, true);
    RecoverPendingKeeps(c, s, true);
    var t := Do(s, p.writes);
    AlongEnd(c, s, p.writes);
    AllReadable(c, t);
    if p.goesOn && ActiveFor(t, m.release).None? {
      OneWrite(c, t, PutActive(m));
      AlongJoin(c, s, p.writes, [PutActive(m)]);
      DoJoin(s, p.writes, [PutActive(m)]);
    }
  }

  lemma ReconcileRolledBack(c: Content, s: Site)
    requires Inv(c, s) && s.marker.Some? && s.pointer.Some? && !Names(s.marker, s.pointer)
    ensures var r := Reconcile(c, s);
            var t := Do(s, r.writes);
            && Along(c, s, r.writes)
            && t == s.(active := t.active)
            && (r.goesOn ==> ActiveIsCurrent(t))
  {
    AllReadable(c, s);
    var m := s.marker.value;
    var r := Reconcile(c, s);
    if m.previous == s.pointer {
      var rolled := RecoverRolledBack(c, s);
      RecoverRolledBackKeeps(c, s);
      var t := Do(s, rolled);
      AlongEnd(c, s, rolled);
      AllReadable(c, t);
      if ActiveFor(t, s.pointer.value).None? {
        var back := Back(c, m, s.pointer.value);
        OneWrite(c, t, PutActive(back));
        AlongJoin(c, s, rolled, [PutActive(back)]);
        DoJoin(s, rolled, [PutActive(back)]);
      }
    }
  }

  // The runner confirms only what a ledger names: right after a reconcile or a publish.
  lemma ConfirmKeeps(c: Content, s: Site, release: Key)
    requires Inv(c, s) && (ActiveIsCurrent(s) || Names(s.pending, s.pointer))
    ensures Along(c, s, Confirm(s, release))
    ensures Do(s, Confirm(s, release)) == s.(marker := Do(s, Confirm(s, release)).marker)
  {
    if Confirm(s, release) != [] {
      OneWrite(c, s, DropMarker);
    }
  }

  lemma SmokeKeeps(c: Content, s: Site, release: Key)
    requires Inv(c, s)
    ensures Along(c, s, [SmokePassed(release)])
    ensures Do(s, [SmokePassed(release)]) == s.(verified := s.verified + {release})
  {
    OneWrite(c, s, SmokePassed(release));
  }

  // ------------------------------------------------------------------ garbage collection and export

  lemma {:induction false} DeleteRemotesKeep(c: Content, s: Site, keys: seq<Key>, keep: set<Key>)
    requires Inv(c, s) && Guarded(c, s, keep) && forall k | k in keys :: k !in keep
    ensures Along(c, s, DeleteRemotes(keys))
    ensures Do(s, DeleteRemotes(keys)) == s.(remote := s.remote - Copied(keys))
    decreases |keys|
  {
    if keys != [] {
      var t := Apply(s, DeleteRemote(keys[0]));
      assert Inv(c, t) && Guarded(c, t, keep);
      DeleteRemotesKeep(c, t, keys[1..], keep);
      assert DeleteRemotes(keys)[1..] == DeleteRemotes(keys[1..]);
      assert s.remote - {keys[0]} - Copied(keys[1..]) == s.remote - Copied(keys);
    } else {
      assert s.remote - Copied(keys) == s.remote;
    }
  }

  lemma {:induction false} DeleteLocalsKeep(c: Content, s: Site, keys: seq<Key>, keep: set<Key>)
    requires Inv(c, s) && Guarded(c, s, keep) && forall k | k in keys :: k !in keep
    ensures Along(c, s, DeleteLocals(keys))
    ensures Do(s, DeleteLocals(keys)) == s.(local := s.local - Copied(keys))
    decreases |keys|
  {
    if keys != [] {
      var t := Apply(s, DeleteLocal(keys[0]));
      assert Inv(c, t) && Guarded(c, t, keep);
      DeleteLocalsKeep(c, t, keys[1..], keep);
      assert DeleteLocals(keys)[1..] == DeleteLocals(keys[1..]);
      assert s.local - {keys[0]} - Copied(keys[1..]) == s.local - Copied(keys);
    } else {
      assert s.local - Copied(keys) == s.local;
    }
  }

  // The collector runs only on a settled site, and keeps everything its ledger refers to.
  ghost predicate Guarded(c: Content, s: Site, keep: set<Key>) {
    && s.pending.None? && s.marker.None?
    && (s.active.Some? ==>
          && Objects(c, s.active.value.release) <= keep
          && (s.active.value.previous.Some? ==> Objects(c, s.active.value.previous.value) <= keep))
  }

  // After the deletions the ledger is rewritten with what is left.
  lemma RemeasureKeeps(c: Content, s: Site, deletions: seq<Write>, keep: set<Key>)
    requires Along(c, s, deletions) && Inv(c, s) && s.active.Some? && Guarded(c, s, keep)
    requires var t := Do(s, deletions); t == s.(remote := t.remote, local := t.local)
    ensures var after := Do(s, deletions);
            var l := s.active.value.(bytes := TrueBytes(c, after), objects := TrueObjects(after));
            Along(c, s, deletions + [PutActive(l)])
  {
    var after := Do(s, deletions);
    AlongEnd(c, s, deletions);
    var l := s.active.value.(bytes := TrueBytes(c, after), objects := TrueObjects(after));
    WeightHas(c, after.remote, s.active.value.release);
    OneWrite(c, after, PutActive(l));
    AlongJoin(c, s, deletions, [PutActive(l)]);
  }

  // What a collection deletes, before it measures what is left.
  lemma DeletionsKeep(c: Content, s: Site, recent: set<Key>, garbage: seq<Key>)
    requires Inv(c, s) && Collect(c, s, recent, garbage) != []
    ensures Guarded(c, s, Referenced(c, s, recent))
    ensures var deletions := DeleteRemotes(garbage) + DeleteLocals(garbage);
            && Along(c, s, deletions)
            && Do(s, deletions) == s.(remote := s.remote - Copied(garbage), local := s.local - Copied(garbage))
  {
    AllReadable(c, s);
    var keep := Referenced(c, s, recent);
    assert Guarded(c, s, keep);
    DeleteRemotesKeep(c, s, garbage, keep);
    AlongEnd(c, s, DeleteRemotes(garbage));
    var t := Do(s, DeleteRemotes(garbage));
    DeleteLocalsKeep(c, t, garbage, keep);
    AlongJoin(c, s, DeleteRemotes(garbage), DeleteLocals(garbage));
    DoJoin(s, DeleteRemotes(garbage), DeleteLocals(garbage));
  }

  lemma CollectKeeps(c: Content, s: Site, recent: set<Key>, garbage: seq<Key>)
    requires Inv(c, s)
    ensures Along(c, s, Collect(c, s, recent, garbage))
  {
    AllReadable(c, s);
    if Collect(c, s, recent, garbage) != [] {
      DeletionsKeep(c, s, recent, garbage);
      var deletions := DeleteRemotes(garbage) + DeleteLocals(garbage);
      if s.active.Some? {
        RemeasureKeeps(c, s, deletions, Referenced(c, s, recent));
      } else {
        assert deletions + [] == deletions;
      }
    }
  }

  lemma {:induction false} AddLocalsKeep(c: Content, s: Site, keys: seq<Key>)
    requires Inv(c, s)
    ensures Along(c, s, AddLocals(keys))
    ensures Do(s, AddLocals(keys)) == s.(local := s.local + Copied(keys))
    decreases |keys|
  {
    if keys != [] {
      var t := Apply(s, AddLocal(keys[0]));
      assert Inv(c, t);
      AddLocalsKeep(c, t, keys[1..]);
      assert AddLocals(keys)[1..] == AddLocals(keys[1..]);
      assert s.local + {keys[0]} + Copied(keys[1..]) == s.local + Copied(keys);
    } else {
      assert s.local + Copied(keys) == s.local;
    }
  }

  lemma ExportKeeps(c: Content, s: Site, release: Key, staged: seq<Key>)
    requires Inv(c, s)
    ensures Along(c, s, Export(c, s, release, staged))
  {
    AddLocalsKeep(c, s, staged);
    AlongEnd(c, s, AddLocals(staged));
    if Objects(c, release) <= s.local + Copied(staged) {
      OneWrite(c, Do(s, AddLocals(staged)), SetCurrent(release));
      AlongJoin(c, s, AddLocals(staged), [SetCurrent(release)]);
    } else {
      assert AddLocals(staged) + [] == AddLocals(staged);
    }
  }
}
