// The functions of scripts/publish_static.py as they run: they rewrite and unlink local files and
// change the bucket one write at a time. Each is proved to make exactly the writes of its plan in
// Publishing, in that order, so everything proved about prefixes of the plans holds wherever a call is
// cut.
module Publisher {
  import opened Wrappers
  import opened Publishing

  class Publisher {
    const c: Content
    var local: set<Key>
    var current: Option<Key>
    var remote: set<Key>
    var pointer: Option<Key>
    var active: Option<Ledger>
    var pending: Option<Ledger>
    var marker: Option<Ledger>
    var rollbacks: Option<(Key, nat)>
    ghost var verified: set<Key>
    ghost var log: seq<Write>

    ghost function View(): Site
      reads this
    {
      Site(local, current, remote, pointer, active, pending, marker, rollbacks, verified)
    }

    constructor (c: Content)
      ensures this.c == c && log == []
      ensures View() == Site({}, None, {}, None, None, None, None, None, {})
    {
      this.c := c;
      local, remote, verified, log := {}, {}, {}, [];
      current, pointer, active, pending, marker, rollbacks := None, None, None, None, None, None;
    }

    // ---------------------------------------------------------------- single writes

    method WriteActive(l: Ledger)
      modifies this
      ensures log == old(log) + [PutActive(l)]
      ensures View() == Do(old(View()), [PutActive(l)])
    {
      active, log := Some(l), log + [PutActive(l)];
      assert [PutActive(l)][1..] == [];
    }

    method WritePending(l: Ledger)
      modifies this
      ensures log == old(log) + [PutPending(l)]
      ensures View() == Do(old(View()), [PutPending(l)])
    {
      pending, log := Some(l), log + [PutPending(l)];
      assert [PutPending(l)][1..] == [];
    }

    method WriteMarker(l: Ledger)
      modifies this
      ensures log == old(log) + [PutMarker(l)]
      ensures View() == Do(old(View()), [PutMarker(l)])
    {
      marker, log := Some(l), log + [PutMarker(l)];
      assert [PutMarker(l)][1..] == [];
    }

    method UnlinkPending()
      modifies this
      ensures log == old(log) + [DropPending]
      ensures View() == Do(old(View()), [DropPending])
    {
      pending, log := None, log + [DropPending];
      assert [DropPending][1..] == [];
    }

    method UnlinkMarker()
      modifies this
      ensures log == old(log) + [DropMarker]
      ensures View() == Do(old(View()), [DropMarker])
    {
      marker, log := None, log + [DropMarker];
      assert [DropMarker][1..] == [];
    }

    method CopyPointer(release: Key)
      modifies this
      ensures log == old(log) + [Flip(release)]
      ensures View() == Do(old(View()), [Flip(release)])
    {
      pointer, log := Some(release), log + [Flip(release)];
      assert [Flip(release)][1..] == [];
    }

    method RecordRollback(release: Key)
      modifies this
      ensures log == old(log) + [CountRollback(release)]
      ensures View() == Do(old(View()), [CountRollback(release)])
    {
      var count := if rollbacks.Some? && rollbacks.value.0 == release then rollbacks.value.1 else 0;
      rollbacks, log := Some((release, count + 1)), log + [CountRollback(release)];
      assert [CountRollback(release)][1..] == [];
    }

    method UploadObject(key: Key)
      modifies this
      ensures log == old(log) + [Upload(key)]
      ensures View() == Do(old(View()), [Upload(key)])
    {
      remote, log := remote + {key}, log + [Upload(key)];
      assert [Upload(key)][1..] == [];
    }

    // ---------------------------------------------------------------- measuring and copying

    method SizeOf(keys: set<Key>) returns (bytes: nat)
      ensures bytes == Weight(c, keys)
    {
      var left := keys;
      bytes := 0;
      while left != {}
        invariant left <= keys && bytes + Weight(c, left) == Weight(c, keys)
        decreases |left|
      {
        var k :| k in left;
        WeightWithout(c, left, k);
        bytes, left := bytes + c.size(k), left - {k};
      }
    }

    // rclone size
    method RemoteSize() returns (bytes: int, objects: int)
      ensures bytes == TrueBytes(c, View()) && objects == TrueObjects(View())
    {
      bytes := SizeOf(remote);
      objects := |remote|;
      if pointer.Some? {
        bytes, objects := bytes + c.size(pointer.value), objects + 1;
      }
    }

    // rclone copy: uploads wanted objects one after the other, until it stops.
    method Copy(order: seq<Key>, wanted: set<Key>)
      modifies this
      ensures log == old(log) + Uploads(order, wanted)
      ensures View() == Do(old(View()), Uploads(order, wanted))
    {
      var i := 0;
      assert order[..0] == [];
      while i < |order|
        invariant 0 <= i <= |order|
        invariant log == old(log) + Uploads(order[..i], wanted)
        invariant View() == Do(old(View()), Uploads(order[..i], wanted))
      {
        ghost var sofar := Uploads(order[..i], wanted);
        UploadsSnoc(order[..i], order[i], wanted);
        assert order[..i + 1] == order[..i] + [order[i]];
        if order[i] in wanted {
          DoJoin(old(View()), sofar, [Upload(order[i])]);
          UploadObject(order[i]);
        } else {
          assert sofar + [] == sofar;
        }
        i := i + 1;
      }
      assert order[..i] == order;
    }

    // ---------------------------------------------------------------- recovery

    method RecoverPendingLedger(incremental: bool) returns (goesOn: bool)
      modifies this
      ensures log == old(log) + RecoverPending(old(View()), incremental).writes
      ensures View() == Do(old(View()), RecoverPending(old(View()), incremental).writes)
      ensures goesOn == RecoverPending(old(View()), incremental).goesOn
    {
      var l := Read(pending);
      goesOn := true;
      if pending.None? {
      } else if l.None? || l.value.release !in local {
        if incremental {
          goesOn := false;
        } else {
          UnlinkPending();
        }
      } else if pointer.None? {
        if l.value.previous.None? && Read(active).None? && marker.None? {
          UnlinkPending();
        } else {
          goesOn := false;
        }
      } else if pointer != Some(l.value.release) {
        UnlinkPending();
      } else {
        WriteActive(l.value);
        UnlinkPending();
        Joined(old(View()), old(log), [PutActive(l.value)], [DropPending]);
        assert [PutActive(l.value)] + [DropPending] == [PutActive(l.value), DropPending];
      }
    }

    method RecoverRolledBackLedger()
      modifies this
      ensures log == old(log) + RecoverRolledBack(c, old(View()))
      ensures View() == Do(old(View()), RecoverRolledBack(c, old(View())))
    {
      if pointer.None? {
        return;
      }
      var l := Read(active);
      if l.None? || l.value.release == pointer.value || l.value.previous != pointer
         || pointer.value !in local || l.value.release !in local {
        return;
      }
      var bytes := l.value.bytes + c.size(pointer.value) - c.size(l.value.release);
      if bytes < 0 {
        return;
      }
      WriteActive(Ledger(pointer.value, Some(l.value.release), bytes, l.value.objects));
    }

    method PendingSmokeLedger(incremental: bool) returns (goesOn: bool)
      modifies this
      ensures log == old(log) + CheckMarker(old(View()), incremental).writes
      ensures View() == Do(old(View()), CheckMarker(old(View()), incremental).writes)
      ensures goesOn == CheckMarker(old(View()), incremental).goesOn
    {
      if marker.None? {
        return true;
      }
      var m := Read(marker);
      if m.None? || m.value.release !in local {
        if incremental {
          return false;
        }
        UnlinkMarker();
        return true;
      }
      if pointer != Some(m.value.release) {
        UnlinkMarker();
      }
      return true;
    }

    method Recover(incremental: bool) returns (goesOn: bool)
      modifies this
      ensures log == old(log) + Recovery(c, old(View()), incremental).writes
      ensures View() == Do(old(View()), Recovery(c, old(View()), incremental).writes)
      ensures goesOn == Recovery(c, old(View()), incremental).goesOn
    {
      ghost var s := View();
      goesOn := RecoverPendingLedger(incremental);
      if !goesOn {
        return;
      }
      ghost var p := RecoverPending(s, incremental).writes;
      ghost var rolled := RecoverRolledBack(c, View());
      RecoverRolledBackLedger();
      Joined(old(View()), old(log), p, rolled);
      ghost var m := CheckMarker(View(), incremental).writes;
      goesOn := PendingSmokeLedger(incremental);
      Joined(old(View()), old(log), p + rolled, m);
    }

    // ---------------------------------------------------------------- publish

    // The pointer goes last, between the records that let a crash be recovered and the active ledger.
    method FinishPublish(l: Ledger, ledgerFails: bool)
      modifies this
      ensures log == old(log) + Finish(l, ledgerFails)
      ensures View() == Do(old(View()), Finish(l, ledgerFails))
    {
      WritePending(l);
      WriteMarker(l);
      Joined(old(View()), old(log), [PutPending(l)], [PutMarker(l)]);
      CopyPointer(l.release);
      Joined(old(View()), old(log), [PutPending(l)] + [PutMarker(l)], [Flip(l.release)]);
      ghost var head := [PutPending(l)] + [PutMarker(l)] + [Flip(l.release)];
      assert head == [PutPending(l), PutMarker(l), Flip(l.release)];
      if !ledgerFails {
        WriteActive(l);
        Joined(old(View()), old(log), head, [PutActive(l)]);
        UnlinkPending();
        Joined(old(View()), old(log), head + [PutActive(l)], [DropPending]);
        assert Finish(l, ledgerFails) == head + [PutActive(l)] + [DropPending];
      } else {
        assert Finish(l, ledgerFails) == head + [] == head;
      }
    }

    method UploadThenFinish(keys: set<Key>, l: Ledger, e: Choices)
      modifies this
      ensures log == old(log) + UploadAndFinish(old(View()), keys, l, e)
      ensures View() == Do(old(View()), UploadAndFinish(old(View()), keys, l, e))
    {
      ghost var s := View();
      ghost var ups := Uploads(e.order, keys - remote);
      var complete := keys <= remote + Copied(e.order);
      Copy(e.order, keys - remote);
      if complete {
        FinishPublish(l, e.ledgerFails);
        Joined(old(View()), old(log), ups, Finish(l, e.ledgerFails));
      } else {
        assert UploadAndFinish(s, keys, l, e) == ups + [] == ups;
      }
    }

    method MovePointer(release: Key, incremental: bool, e: Choices)
      modifies this
      ensures log == old(log) + Supersede(c, old(View()), release, incremental, e)
      ensures View() == Do(old(View()), Supersede(c, old(View()), release, incremental, e))
    {
      var count := if rollbacks.Some? && rollbacks.value.0 == release then rollbacks.value.1 else 0;
      if incremental && count >= MAX_SMOKE_ROLLBACKS {
        return;
      }
      var previous := if pointer.Some? && e.seen && pointer.value in local && pointer.value in remote
                      then pointer else None;
      if incremental && pointer.Some? && previous.None? {
        return;
      }
      var l := if previous.Some? then Read(active) else None;
      if l.Some? && l.value.release == previous.value {
        DeltaPublish(release, l.value, e);
      } else if !incremental {
        FullPublish(release, previous, e);
      }
    }

    method DeltaPublish(release: Key, l: Ledger, e: Choices)
      modifies this
      ensures log == old(log) + DeltaWrites(c, old(View()), release, l, e)
      ensures View() == Do(old(View()), DeltaWrites(c, old(View()), release, l, e))
    {
      ghost var s := View();
      var keys := Objects(c, release) - Objects(c, l.release);
      var missing := keys - remote;
      var added := SizeOf(missing);
      var next := Ledger(release, Some(l.release), l.bytes + added + c.size(release) - c.size(l.release),
                         l.objects + |missing|);
      assert next == DeltaLedger(c, s, l, release, keys);
      if OverBudget(next) || !(keys <= local) {
        return;
      }
      UploadThenFinish(keys, next, e);
    }

    method FullPublish(release: Key, previous: Option<Key>, e: Choices)
      requires previous == Predecessor(View(), e.seen)
      modifies this
      ensures log == old(log) + FullWrites(c, old(View()), release, previous, e)
      ensures View() == Do(old(View()), FullWrites(c, old(View()), release, previous, e))
    {
      ghost var s := View();
      var bytes, objects := RemoteSize();
      var missing := local - remote;
      var added := SizeOf(missing);
      var replaced := if pointer.Some? then c.size(pointer.value) else 0;
      var later := previous;
      if previous.None? && pointer.Some? && e.seenLater && pointer.value in local
         && pointer.value in remote + local {
        later := pointer;
      }
      var next := Ledger(release, later, bytes + added + c.size(release) - replaced,
                         objects + |missing| + if pointer.None? then 1 else 0);
      assert next == FullLedger(c, s, release, later);
      if OverBudget(next) {
        return;
      }
      UploadThenFinish(local, next, e);
    }

    method PublishStatic(release: Key, incremental: bool, e: Choices)
      modifies this
      ensures log == old(log) + Publish(c, old(View()), release, incremental, e)
      ensures View() == Do(old(View()), Publish(c, old(View()), release, incremental, e))
    {
      ghost var s := View();
      var valid := if incremental then current == Some(release) && release in local
                   else Objects(c, release) <= local;
      if !valid {
        return;
      }
      var goesOn := Recover(incremental);
      if !goesOn {
        return;
      }
      ghost var r := Recovery(c, s, incremental).writes;
      ghost var t := View();
      if marker.Some? && marker.value.release != release {
        assert r + [] == r;
        return;
      }
      if pointer == Some(release) {
        var l := Read(active);
        if (l.None? || l.value.release != release) && !incremental && e.measured {
          var bytes, objects := RemoteSize();
          WriteActive(Ledger(release, None, bytes, objects));
        }
      } else {
        MovePointer(release, incremental, e);
      }
      Joined(old(View()), old(log), r, Advance(c, t, release, incremental, e));
    }

    // ---------------------------------------------------------------- activation and smoke

    method ActivateRemoteRelease(target: Key, expected: Key, e: Choices)
      modifies this
      ensures log == old(log) + Activate(c, old(View()), target, expected, e)
      ensures View() == Do(old(View()), Activate(c, old(View()), target, expected, e))
    {
      if target !in local || expected !in local || target !in remote
         || (pointer != Some(expected) && pointer != Some(target)) {
        return;
      }
      var m := Read(marker);
      if marker.Some? && (m.None? || m.value.release !in local || expected != m.value.release
                          || m.value.previous != Some(target)) {
        return;
      }
      var attempt: Option<Ledger> := None;
      if Undoable(pending, target) {
        attempt := pending;
      } else if Undoable(active, target) {
        attempt := active;
      }
      if attempt.Some? {
        GoBack(Ledger(target, Some(attempt.value.release),
                      attempt.value.bytes + c.size(target) - c.size(attempt.value.release), attempt.value.objects), e);
      } else {
        GoTo(target, e);
      }
    }

    method GoBack(l: Ledger, e: Choices)
      modifies this
      ensures var s := old(View());
              var ws := [PutPending(l), Flip(l.release)] + Counts(s, e.countFails) + LastWrites(l, true, e.ledgerFails);
              log == old(log) + ws && View() == Do(s, ws)
    {
      ghost var count := Counts(View(), e.countFails);
      WritePending(l);
      CopyPointer(l.release);
      Joined(old(View()), old(log), [PutPending(l)], [Flip(l.release)]);
      ghost var head := [PutPending(l)] + [Flip(l.release)];
      assert head == [PutPending(l), Flip(l.release)];
      Count(e.countFails);
      Joined(old(View()), old(log), head, count);
      LastLedger(l, true, e.ledgerFails);
      Joined(old(View()), old(log), head + count, LastWrites(l, true, e.ledgerFails));
    }

    method GoTo(target: Key, e: Choices)
      modifies this
      ensures var s := old(View());
              var after := s.(pointer := Some(target));
              var l := Ledger(target, None, TrueBytes(c, after), TrueObjects(after));
              var ws := [Flip(target)] + Counts(s, e.countFails) + LastWrites(l, false, !e.measured);
              log == old(log) + ws && View() == Do(s, ws)
    {
      ghost var count := Counts(View(), e.countFails);
      CopyPointer(target);
      Count(e.countFails);
      Joined(old(View()), old(log), [Flip(target)], count);
      MeasuredAfter(c, old(View()), count, target);
      var bytes, objects := RemoteSize();
      var l := Ledger(target, None, bytes, objects);
      LastLedger(l, false, !e.measured);
      Joined(old(View()), old(log), [Flip(target)] + count, LastWrites(l, false, !e.measured));
    }

    predicate Undoable(file: Option<Ledger>, target: Key)
      reads this
    {
      var l := Read(file);
      l.Some? && l.value.previous == Some(target) && l.value.release in local && pointer == Some(l.value.release)
    }

    method Count(fails: bool)
      modifies this
      ensures log == old(log) + Counts(old(View()), fails) && View() == Do(old(View()), Counts(old(View()), fails))
    {
      if marker.Some? && !fails {
        RecordRollback(marker.value.release);
      }
    }

    method LastLedger(l: Ledger, recorded: bool, fails: bool)
      modifies this
      ensures log == old(log) + LastWrites(l, recorded, fails)
      ensures View() == Do(old(View()), LastWrites(l, recorded, fails))
    {
      if !fails {
        WriteActive(l);
        if recorded {
          UnlinkPending();
          Joined(old(View()), old(log), [PutActive(l)], [DropPending]);
          assert [PutActive(l)] + [DropPending] == [PutActive(l), DropPending];
        }
      }
    }

    method ReconcilePendingSmoke() returns (goesOn: bool)
      modifies this
      ensures log == old(log) + Reconcile(c, old(View())).writes
      ensures View() == Do(old(View()), Reconcile(c, old(View())).writes)
      ensures goesOn == Reconcile(c, old(View())).goesOn
    {
      ghost var s := View();
      var m := Read(marker);
      goesOn := true;
      if marker.None? {
      } else if m.None? || m.value.release !in local {
        goesOn := false;
      } else if pointer.None? {
        goesOn := m.value.previous.None? && (Read(pending).None? || pending == marker) && Read(active).None?;
        if goesOn {
          UnlinkPending();
          UnlinkMarker();
          Joined(old(View()), old(log), [DropPending], [DropMarker]);
          assert [DropPending] + [DropMarker] == [DropPending, DropMarker];
        }
      } else if pointer == Some(m.value.release) {
        goesOn := RecoverPendingLedger(true);
        if goesOn {
          ghost var p := RecoverPending(s, true).writes;
          var l := Read(active);
          if l.None? || l.value.release != m.value.release {
            WriteActive(m.value);
            Joined(old(View()), old(log), p, [PutActive(m.value)]);
          }
        }
      } else if m.value.previous != pointer || pointer.value !in local {
        goesOn := false;
      } else {
        goesOn := RecoverBack(m.value);
      }
    }

    method RecoverBack(m: Ledger) returns (goesOn: bool)
      requires pointer.Some?
      modifies this
      ensures var s := old(View());
              var back := Back(c, m, s.pointer.value);
              var rolled := RecoverRolledBack(c, s);
              var named := ActiveFor(Do(s, rolled), s.pointer.value).Some?;
              var ws := rolled + if named || back.bytes < 0 then [] else [PutActive(back)];
              && log == old(log) + ws && View() == Do(s, ws) && goesOn == (named || back.bytes >= 0)
    {
      ghost var rolled := RecoverRolledBack(c, View());
      RecoverRolledBackLedger();
      var l := Read(active);
      var bytes := m.bytes + c.size(pointer.value) - c.size(m.release);
      goesOn := true;
      if l.None? || l.value.release != pointer.value {
        if bytes < 0 {
          goesOn := false;
        } else {
          var back := Ledger(pointer.value, Some(m.release), bytes, m.objects);
          WriteActive(back);
          Joined(old(View()), old(log), rolled, [PutActive(back)]);
        }
      }
      assert rolled + [] == rolled;
    }

    method ConfirmPublishSmoke(release: Key) returns (ok: bool)
      modifies this
      ensures log == old(log) + Confirm(old(View()), release)
      ensures View() == Do(old(View()), Confirm(old(View()), release))
      ensures ok <==> Confirm(old(View()), release) != []
      ensures ok <==> old(marker).Some? && old(marker).value.release == release && release in local
                      && Readable(old(marker).value)
      ensures marker == if ok then None else old(marker)
    {
      var m := Read(marker);
      ok := m.Some? && m.value.release == release && release in local;
      if ok {
        UnlinkMarker();
      }
    }

    // ---------------------------------------------------------------- garbage collection

    method CollectStaticGarbage(recent: set<Key>, garbage: seq<Key>)
      requires IsGarbage(c, View(), recent, garbage)
      modifies this
      ensures log == old(log) + Collect(c, old(View()), recent, garbage)
      ensures View() == Do(old(View()), Collect(c, old(View()), recent, garbage))
    {
      if marker.Some? || pending.Some? || current.None? || garbage == [] {
        return;
      }
      var l := Read(active);
      DeleteFrom(garbage, true);
      DeleteFrom(garbage, false);
      ghost var deletions := DeleteRemotes(garbage) + DeleteLocals(garbage);
      Joined(old(View()), old(log), DeleteRemotes(garbage), DeleteLocals(garbage));
      if l.Some? {
        var bytes, objects := RemoteSize();
        var measured := l.value.(bytes := bytes, objects := objects);
        WriteActive(measured);
        Joined(old(View()), old(log), deletions, [PutActive(measured)]);
      } else {
        assert deletions + [] == deletions;
      }
    }

    method DeleteFrom(keys: seq<Key>, bucket: bool)
      modifies this
      ensures log == old(log) + if bucket then DeleteRemotes(keys) else DeleteLocals(keys)
      ensures View() == Do(old(View()), if bucket then DeleteRemotes(keys) else DeleteLocals(keys))
    {
      var i := 0;
      while i < |keys|
        invariant 0 <= i <= |keys|
        invariant log == old(log) + if bucket then DeleteRemotes(keys[..i]) else DeleteLocals(keys[..i])
        invariant View() == Do(old(View()), if bucket then DeleteRemotes(keys[..i]) else DeleteLocals(keys[..i]))
      {
        DeletesSnoc(keys[..i], keys[i]);
        assert keys[..i + 1] == keys[..i] + [keys[i]];
        if bucket {
          DeleteObject(keys[i]);
          Joined(old(View()), old(log), DeleteRemotes(keys[..i]), [DeleteRemote(keys[i])]);
        } else {
          DeleteFile(keys[i]);
          Joined(old(View()), old(log), DeleteLocals(keys[..i]), [DeleteLocal(keys[i])]);
        }
        i := i + 1;
      }
      assert keys[..i] == keys;
    }

    method DeleteObject(key: Key)
      modifies this
      ensures log == old(log) + [DeleteRemote(key)]
      ensures View() == Do(old(View()), [DeleteRemote(key)])
    {
      remote, log := remote - {key}, log + [DeleteRemote(key)];
      assert [DeleteRemote(key)][1..] == [];
    }

    method DeleteFile(key: Key)
      modifies this
      ensures log == old(log) + [DeleteLocal(key)]
      ensures View() == Do(old(View()), [DeleteLocal(key)])
    {
      local, log := local - {key}, log + [DeleteLocal(key)];
      assert [DeleteLocal(key)][1..] == [];
    }
  }

  function LastWrites(l: Ledger, recorded: bool, fails: bool): seq<Write> {
    if fails then [] else if recorded then [PutActive(l), DropPending] else [PutActive(l)]
  }

  function Counts(s: Site, fails: bool): seq<Write> {
    if s.marker.Some? && !fails then [CountRollback(s.marker.value.release)] else []
  }

  lemma MeasuredAfter(c: Content, s: Site, count: seq<Write>, target: Key)
    requires count == [] || exists release :: count == [CountRollback(release)]
    ensures var after := s.(pointer := Some(target));
            var t := Do(Do(s, [Flip(target)]), count);
            TrueBytes(c, t) == TrueBytes(c, after) && TrueObjects(t) == TrueObjects(after)
  {
    assert [Flip(target)][1..] == [];
    var t := Apply(s, Flip(target));
    assert Do(s, [Flip(target)]) == Do(t, []) == t;
    if count != [] {
      assert count[1..] == [];
      assert Do(t, count) == Do(Apply(t, count[0]), []);
    }
  }

  lemma {:induction false} DeletesSnoc(keys: seq<Key>, k: Key)
    ensures DeleteRemotes(keys + [k]) == DeleteRemotes(keys) + [DeleteRemote(k)]
    ensures DeleteLocals(keys + [k]) == DeleteLocals(keys) + [DeleteLocal(k)]
    decreases |keys|
  {
    if keys == [] {
      assert keys + [k] == [k] && [k][1..] == [];
    } else {
      assert (keys + [k])[1..] == keys[1..] + [k] && (keys + [k])[0] == keys[0];
      DeletesSnoc(keys[1..], k);
    }
  }

  // The publish of Supersede from its predecessor's ledger.
  ghost function DeltaWrites(c: Content, s: Site, release: Key, l: Ledger, e: Choices): seq<Write> {
    var keys := Objects(c, release) - Objects(c, l.release);
    var next := DeltaLedger(c, s, l, release, keys);
    if OverBudget(next) || !(keys <= s.local) then [] else UploadAndFinish(s, keys, next, e)
  }

  // The explicit publish of Supersede, without a predecessor's ledger.
  ghost function FullWrites(c: Content, s: Site, release: Key, previous: Option<Key>, e: Choices): seq<Write> {
    var later := if previous.Some? then previous
                 else Predecessor(s.(remote := s.remote + s.local), e.seenLater);
    var next := FullLedger(c, s, release, later);
    if OverBudget(next) then [] else UploadAndFinish(s, s.local, next, e)
  }

  lemma Joined(s: Site, log: seq<Write>, a: seq<Write>, b: seq<Write>)
    ensures Do(s, a + b) == Do(Do(s, a), b)
    ensures log + (a + b) == log + a + b
  {
    DoJoin(s, a, b);
  }

  lemma {:induction false} UploadsSnoc(order: seq<Key>, k: Key, wanted: set<Key>)
    ensures Uploads(order + [k], wanted) == Uploads(order, wanted) + if k in wanted then [Upload(k)] else []
    decreases |order|
  {
    if order == [] {
      assert order + [k] == [k] && [k][1..] == [];
    } else {
      UploadsSnoc(order[1..], k, wanted);
      FirstUpload(order, wanted);
      FirstUpload(order + [k], wanted);
      assert (order + [k])[1..] == order[1..] + [k] && (order + [k])[0] == order[0];
    }
  }

  lemma FirstUpload(order: seq<Key>, wanted: set<Key>)
    requires order != []
    ensures Uploads(order, wanted)
            == (if order[0] in wanted then [Upload(order[0])] else []) + Uploads(order[1..], wanted)
  {
  }
}
