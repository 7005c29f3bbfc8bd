// What the ledgers say about the bucket over whole runs, each event cut anywhere: exactly which cuts
// keep the books right, and which keep them from claiming too much.
module PublishingBooks {
  import opened Wrappers
  import opened Publishing
  import opened PublishingSafety
  import opened PublishingRuns
  import opened PublishingBudget
  import opened PublishingCollecting

  // The pending ledger names the live release and is exact: recovery makes it the active one, whatever
  // that says now. This is where a publish or a rollback is between its pointer and its last ledger.
  ghost predicate Landed(c: Content, s: Site) {
    Names(s.pending, s.pointer) && Exact(c, s.pending, s.remote) && Exact(c, s.marker, s.remote)
  }

  // The books are right: every record is exact, or the one recovery goes by is.
  ghost predicate Booked(c: Content, s: Site) {
    AllExact(c, s) || Landed(c, s)
  }

  ghost function Bookedly(c: Content): Site -> bool {
    s => Booked(c, s)
  }

  lemma {:induction false} ExactIsBooked(c: Content, s: Site, ws: seq<Write>)
    requires Always(Exactly(c), s, ws)
    ensures Always(Bookedly(c), s, ws)
    decreases |ws|
  {
    if ws != [] {
      ExactIsBooked(c, Apply(s, ws[0]), ws[1..]);
    }
  }

  lemma CutBooked(c: Content, s: Site, ws: seq<Write>, cut: nat)
    requires Always(Bookedly(c), s, ws)
    ensures Booked(c, Do(s, Cut(ws, cut)))
  {
    if cut < |ws| {
      AlwaysCut(Bookedly(c), s, ws, cut);
    } else {
      AlwaysEnd(Bookedly(c), s, ws);
    }
  }

  // Writes that leave the pointer, the pending record and the bucket alone.
  predicate Aside(s: Site, w: Write) {
    || w.AddLocal? || w.SetCurrent? || w.PutActive? || w.CountRollback? || w.SmokePassed? || w.DropMarker?
    || (w.Flip? && s.pointer == Some(w.release))
  }

  lemma {:induction false} StaysLanded(c: Content, s: Site, ws: seq<Write>)
    requires Landed(c, s) && forall w | w in ws :: Aside(s, w)
    ensures Always(Bookedly(c), s, ws) && Landed(c, Do(s, ws))
    decreases |ws|
  {
    if ws != [] {
      assert ws[0] in ws;
      forall w | w in ws[1..] ensures Aside(Apply(s, ws[0]), w) {
        assert w in ws;
      }
      StaysLanded(c, Apply(s, ws[0]), ws[1..]);
    }
  }

  // Making the pending ledger active puts everything right.
  lemma LandedFirst(c: Content, s: Site, ws: seq<Write>)
    requires Landed(c, s) && ws != [] && ws[0] == PutActive(s.pending.value)
    requires forall w | w in ws[1..] :: w.DropPending? || w.DropMarker?
    ensures Always(Bookedly(c), s, ws) && AllExact(c, Do(s, ws))
  {
    var t := Apply(s, ws[0]);
    ExactWrites(c, t, ws[1..]);
    ExactIsBooked(c, t, ws[1..]);
    AlwaysEnd(Exactly(c), t, ws[1..]);
  }

  // ------------------------------------------------------------------ recovery

  lemma RecoveryBooked(c: Content, s: Site, incremental: bool)
    requires Inv(c, s) && Booked(c, s)
    ensures var r := Recovery(c, s, incremental);
            Always(Bookedly(c), s, r.writes) && (r.goesOn ==> AllExact(c, Do(s, r.writes)))
    ensures AllExact(c, s) ==> Always(Exactly(c), s, Recovery(c, s, incremental).writes)
  {
    var r := Recovery(c, s, incremental);
    RecoveryStops(c, s, incremental);
    if AllExact(c, s) {
      RecoveryEchoes(c, s, incremental);
      EchoesKeep(c, s, r.writes);
      ExactIsBooked(c, s, r.writes);
      AlwaysEnd(Exactly(c), s, r.writes);
    } else {
      LandedRecovery(c, s, incremental);
      LandedFirst(c, s, r.writes);
    }
  }

  lemma LandedRecovery(c: Content, s: Site, incremental: bool)
    requires Inv(c, s) && Landed(c, s)
    ensures var ws := Recovery(c, s, incremental).writes;
            ws != [] && ws[0] == PutActive(s.pending.value) && forall w | w in ws[1..] :: w.DropPending? || w.DropMarker?
  {
    AllReadable(c, s);
    RecoverPendingKeeps(c, s, incremental);
    var p := RecoverPending(s, incremental).writes;
    assert p == [PutActive(s.pending.value), DropPending];
    var t := Do(s, p);
    AlongEnd(c, s, p);
    AllReadable(c, t);
    assert RecoverRolledBack(c, t) == [] && p + [] == p;
    var m := CheckMarker(t, incremental).writes;
    assert Recovery(c, s, incremental).writes == p + m;
  }

  // ------------------------------------------------------------------ a move, cut

  // The site `j` writes into the end of a move.
  function FinishAt(s: Site, l: Ledger, j: nat): Site {
    s.(pending := if j == 0 then s.pending else if j < 5 then Some(l) else None,
       marker := if j < 2 then s.marker else Some(l),
       pointer := if j < 3 then s.pointer else Some(l.release),
       active := if j < 4 then s.active else Some(l))
  }

  lemma {:induction false} FinishCut(s: Site, l: Ledger, ledgerFails: bool, j: nat)
    requires j <= |Finish(l, ledgerFails)|
    ensures Do(s, Finish(l, ledgerFails)[..j]) == FinishAt(s, l, j)
    decreases j
  {
    var ws := Finish(l, ledgerFails);
    if j == 0 {
      assert ws[..0] == [];
    } else {
      FinishCut(s, l, ledgerFails, j - 1);
      assert ws[..j] == ws[..j - 1] + [ws[j - 1]];
      DoSnoc(s, ws[..j - 1], ws[j - 1]);
    }
  }

  lemma {:induction false} UploadsAre(order: seq<Key>, wanted: set<Key>)
    ensures forall w | w in Uploads(order, wanted) :: w.Upload? && w.key in wanted
    ensures Uploads(order, wanted) == [] <==> wanted !! Copied(order)
    decreases |order|
  {
    if order != [] {
      UploadsAre(order[1..], wanted);
      assert order[0] in Copied(order);
      assert forall k :: k in Copied(order) <==> k == order[0] || k in Copied(order[1..]);
    }
  }

  lemma {:induction false} UploadsAdd(s: Site, ws: seq<Write>, wanted: set<Key>)
    requires forall w | w in ws :: w.Upload? && w.key in wanted
    ensures var t := Do(s, ws);
            && t == s.(remote := t.remote) && s.remote <= t.remote <= s.remote + wanted
            && forall w | w in ws :: w.key in t.remote
    decreases |ws|
  {
    if ws != [] {
      assert ws[0] in ws;
      UploadsAdd(Apply(s, ws[0]), ws[1..], wanted);
    }
  }

  // Cut among its uploads, a move leaves the records as they were.
  lemma UploadsCut(c: Content, s: Site, order: seq<Key>, wanted: set<Key>, k: nat)
    requires AllExact(c, s) && s.pending.None? && s.marker.None? && wanted !! s.remote
    requires k <= |Uploads(order, wanted)|
    ensures var t := Do(s, Uploads(order, wanted)[..k]);
            && (AllExact(c, t) <==> k == 0 || s.active.None?)
            && t.pending.None? && t == s.(remote := t.remote)
  {
    var ws := Uploads(order, wanted)[..k];
    UploadsAre(order, wanted);
    UploadsAdd(s, ws, wanted);
    var t := Do(s, ws);
    WeightGrows(c, s.remote, t.remote);
    if k > 0 {
      assert ws[0] in ws && ws[0].key !in s.remote;
    } else {
      assert ws == [];
    }
  }

  // A move from a settled site with exact books, cut anywhere, has exact books before its first upload
  // and from its active ledger on, and right books also from its pointer on; and throughout if nothing
  // new was copied, or there was no pointer.
  lemma MoveBooksIff(c: Content, s: Site, keys: set<Key>, l: Ledger, e: Choices, k: nat)
    requires Inv(c, s) && AllExact(c, s) && Recovered(s) && s.marker.None? && s.pointer != Some(l.release)
    requires Exact(c, Some(l), s.remote + keys) && k <= |UploadAndFinish(s, keys, l, e)|
    ensures var t, missing := Do(s, UploadAndFinish(s, keys, l, e)[..k]), keys - s.remote;
            && (AllExact(c, t) <==> s.pointer.None? || MovesWell(missing, e.order, k, 4))
            && (Booked(c, t) <==> s.pointer.None? || MovesWell(missing, e.order, k, 3))
  {
    var missing := keys - s.remote;
    var ups, ws := Uploads(e.order, missing), UploadAndFinish(s, keys, l, e);
    UploadsAre(e.order, missing);
    if k <= |ups| {
      assert ws[..k] == ups[..k];
      UploadsCut(c, s, e.order, missing, k);
    } else {
      var j := k - |ups|;
      UploadsArrive(c, s, keys, e.order);
      assert ws[..k] == ups + Finish(l, e.ledgerFails)[..j];
      DoJoin(s, ups, Finish(l, e.ledgerFails)[..j]);
      FinishCut(s.(remote := s.remote + keys), l, e.ledgerFails, j);
      FinishBooksIff(c, s, keys, l, j);
      assert missing == {} <==> missing !! Copied(e.order);
    }
  }

  lemma FinishBooksIff(c: Content, s: Site, keys: set<Key>, l: Ledger, j: nat)
    requires AllExact(c, s) && s.pending.None? && s.marker.None? && s.pointer != Some(l.release)
    requires ActiveIsCurrent(s) && Exact(c, Some(l), s.remote + keys) && 0 < j <= 5
    ensures var t := FinishAt(s.(remote := s.remote + keys), l, j);
            && (AllExact(c, t) <==> s.pointer.None? || keys - s.remote == {} || j >= 4)
            && (Booked(c, t) <==> s.pointer.None? || keys - s.remote == {} || j >= 3)
  {
    WeightGrows(c, s.remote, s.remote + keys);
    if keys - s.remote == {} {
      assert s.remote + keys == s.remote + (keys - s.remote) == s.remote;
    } else {
      var k :| k in keys - s.remote;
      assert k in s.remote + keys;
    }
  }

  // ------------------------------------------------------------------ a publish, cut

  // What a publish of a recovered site still has to upload; nothing if it is refused or moves nothing.
  ghost function Missing(c: Content, s: Site, release: Key, incremental: bool, e: Choices): set<Key> {
    if (s.marker.Some? && s.marker.value.release != release) || s.pointer == Some(release) then {}
    else
      match Planned(c, s, release, incremental, e)
      case None => {}
      case Some(move) => move.keys - s.remote
  }

  // The copy brings nothing that is missing, or the cut does not fall between the first upload and the
  // last of the `last` writes after them: 3 for the pointer, 4 for the active ledger.
  predicate MovesWell(missing: set<Key>, order: seq<Key>, k: nat, last: nat) {
    k == 0 || missing !! Copied(order) || k >= |Uploads(order, missing)| + last
  }

  // A publish whose move is cut like that. Before the first publish there is no ledger to be wrong.
  ghost predicate CutWell(c: Content, s: Site, release: Key, incremental: bool, e: Choices, cut: nat, last: nat) {
    var r := Recovery(c, s, incremental);
    Valid(c, s, release, incremental) && r.goesOn && s.pointer.Some? && cut > |r.writes| ==>
      MovesWell(Missing(c, Do(s, r.writes), release, incremental, e), e.order, cut - |r.writes|, last)
  }

  lemma AdvanceBooksIff(c: Content, s: Site, release: Key, incremental: bool, e: Choices, k: nat)
    requires Inv(c, s) && AllExact(c, s) && Recovered(s) && Valid(c, s, release, incremental)
    requires k <= |Advance(c, s, release, incremental, e)|
    ensures var t, missing := Do(s, Advance(c, s, release, incremental, e)[..k]), Missing(c, s, release, incremental, e);
            && (AllExact(c, t) <==> s.pointer.None? || MovesWell(missing, e.order, k, 4))
            && (Booked(c, t) <==> s.pointer.None? || MovesWell(missing, e.order, k, 3))
  {
    var ws := Advance(c, s, release, incremental, e);
    if s.marker.Some? && s.marker.value.release != release {
      assert ws[..k] == [];
    } else if s.pointer == Some(release) {
      ExactWrites(c, s, ws);
      AlwaysCut(Exactly(c), s, ws, k);
    } else if Planned(c, s, release, incremental, e).Some? {
      var move := Planned(c, s, release, incremental, e).value;
      PlannedFollows(c, s, release, incremental, e);
      PlannedIsBacked(c, s, release, incremental, e);
      MoveBooksIff(c, s, move.keys, move.ledger, e, k);
    } else {
      assert ws[..k] == [];
    }
  }

  // Wherever a publish of any site with right books is cut, it leaves right books exactly if it is cut
  // well; and from exact ones, exact ones exactly if its last ledger counts as the end of the move.
  lemma PublishBooksIff(c: Content, s: Site, release: Key, incremental: bool, e: Choices, cut: nat)
    requires Inv(c, s) && Booked(c, s) && cut <= |Publish(c, s, release, incremental, e)|
    ensures var t := Do(s, Publish(c, s, release, incremental, e)[..cut]);
            && (Booked(c, t) <==> CutWell(c, s, release, incremental, e, cut, 3))
            && (AllExact(c, s) ==> (AllExact(c, t) <==> CutWell(c, s, release, incremental, e, cut, 4)))
  {
    if cut <= |Recovery(c, s, incremental).writes| {
      PublishCutEarly(c, s, release, incremental, e, cut);
    } else {
      PublishCutLate(c, s, release, incremental, e, cut);
      RecoveredBooked(c, s, incremental);
      var r := Recovery(c, s, incremental).writes;
      AdvanceBooksIff(c, Do(s, r), release, incremental, e, cut - |r|);
    }
  }

  lemma RecoveredBooked(c: Content, s: Site, incremental: bool)
    requires Inv(c, s) && Booked(c, s) && Recovery(c, s, incremental).goesOn
    ensures var u := Do(s, Recovery(c, s, incremental).writes);
            && Inv(c, u) && AllExact(c, u) && Recovered(u)
            && u.pointer == s.pointer && u.local == s.local && u.current == s.current
  {
    RecoveryBooked(c, s, incremental);
    RecoveryKeeps(c, s, incremental);
    AlongEnd(c, s, Recovery(c, s, incremental).writes);
  }

  lemma PublishCutEarly(c: Content, s: Site, release: Key, incremental: bool, e: Choices, cut: nat)
    requires Inv(c, s) && Booked(c, s) && cut <= |Publish(c, s, release, incremental, e)|
    requires cut <= |Recovery(c, s, incremental).writes|
    ensures var t := Do(s, Publish(c, s, release, incremental, e)[..cut]);
            Booked(c, t) && (AllExact(c, s) ==> AllExact(c, t))
  {
    var r, ws := Recovery(c, s, incremental).writes, Publish(c, s, release, incremental, e);
    RecoveryBooked(c, s, incremental);
    if ws == [] {
      assert ws[..cut] == [];
    } else {
      assert ws[..cut] == r[..cut];
      AlwaysCut(Bookedly(c), s, r, cut);
      if AllExact(c, s) {
        AlwaysCut(Exactly(c), s, r, cut);
      }
    }
  }

  lemma PublishCutLate(c: Content, s: Site, release: Key, incremental: bool, e: Choices, cut: nat)
    requires |Recovery(c, s, incremental).writes| < cut <= |Publish(c, s, release, incremental, e)|
    ensures var r := Recovery(c, s, incremental);
            var u := Do(s, r.writes);
            && Valid(c, s, release, incremental) && r.goesOn
            && cut - |r.writes| <= |Advance(c, u, release, incremental, e)|
            && Do(s, Publish(c, s, release, incremental, e)[..cut])
               == Do(u, Advance(c, u, release, incremental, e)[..cut - |r.writes|])
  {
    var r := Recovery(c, s, incremental);
    var rest := Advance(c, Do(s, r.writes), release, incremental, e);
    assert Publish(c, s, release, incremental, e)[..cut] == r.writes + rest[..cut - |r.writes|];
    DoJoin(s, r.writes, rest[..cut - |r.writes|]);
  }

  // ------------------------------------------------------------------ rollbacks and smokes, cut

  // A rollback leaves right books wherever it is cut, but for one place: right after its pending record,
  // when the ledger that record replaced was the only right one.
  lemma ActivateBooksIff(c: Content, s: Site, target: Key, expected: Key, e: Choices, k: nat)
    requires Inv(c, s) && Booked(c, s) && Recorded(s, target, expected)
    requires k <= |Activate(c, s, target, expected, e)|
    ensures Booked(c, Do(s, Activate(c, s, target, expected, e)[..k]))
            <==> AllExact(c, s) || k != 1 || s.pointer == Some(target)
  {
    var ws := Activate(c, s, target, expected, e);
    if AllExact(c, s) {
      ActivateEchoes(c, s, target, expected, e);
      EchoesKeep(c, s, ws);
      AlwaysCut(Exactly(c), s, ws, k);
    } else if ws == [] {
      assert ws[..k] == [];
    } else if s.pointer == Some(target) {
      AllReadable(c, s);
      StaysLanded(c, s, ws);
      AlwaysCut(Bookedly(c), s, ws, k);
    } else {
      BackBooksIff(c, s, target, expected, e, k);
    }
  }

  lemma BackBooksIff(c: Content, s: Site, target: Key, expected: Key, e: Choices, k: nat)
    requires Inv(c, s) && Landed(c, s) && !AllExact(c, s) && Recorded(s, target, expected)
    requires MayActivate(s, target, expected) && s.pointer != Some(target)
    requires k <= |Activate(c, s, target, expected, e)|
    ensures Booked(c, Do(s, Activate(c, s, target, expected, e)[..k])) <==> k != 1
  {
    AllReadable(c, s);
    var l := Back(c, s.pending.value, target);
    var count := if s.marker.Some? && !e.countFails then [CountRollback(s.marker.value.release)] else [];
    assert Attempt(s, target) == s.pending;
    var rest := count + if e.ledgerFails then [] else [PutActive(l), DropPending];
    var ws := Activate(c, s, target, expected, e);
    assert ws == [PutPending(l), Flip(target)] + rest;
    if k == 0 {
      assert ws[..k] == [];
    } else if k == 1 {
      assert ws[..k] == [PutPending(l)];
      DoOne(s, PutPending(l));
    } else {
      var t := Apply(Apply(s, PutPending(l)), Flip(target));
      assert ws[..k] == [PutPending(l), Flip(target)] + rest[..k - 2];
      DoTwo(s, PutPending(l), Flip(target));
      DoJoin(s, [PutPending(l), Flip(target)], rest[..k - 2]);
      LastBackBooked(c, t, l, count, e.ledgerFails);
      AlwaysCut(Bookedly(c), t, rest, k - 2);
    }
  }

  lemma LastBackBooked(c: Content, s: Site, l: Ledger, count: seq<Write>, ledgerFails: bool)
    requires Landed(c, s) && s.pending == Some(l) && forall w | w in count :: w.CountRollback?
    ensures Always(Bookedly(c), s, count + if ledgerFails then [] else [PutActive(l), DropPending])
  {
    StaysLanded(c, s, count);
    CountsKeepPending(s, count);
    if ledgerFails {
      assert count + [] == count;
    } else {
      LandedFirst(c, Do(s, count), [PutActive(l), DropPending]);
      AlwaysJoin(Bookedly(c), s, count, [PutActive(l), DropPending]);
    }
  }

  lemma {:induction false} CountsKeepPending(s: Site, ws: seq<Write>)
    requires forall w | w in ws :: w.CountRollback?
    ensures Do(s, ws).pending == s.pending
    decreases |ws|
  {
    if ws != [] {
      assert ws[0] in ws;
      CountsKeepPending(Apply(s, ws[0]), ws[1..]);
    }
  }

  lemma ConfirmedBooked(c: Content, s: Site, release: Key)
    requires Booked(c, s)
    ensures Always(Bookedly(c), s, Confirmed(s, release))
  {
    if AllExact(c, s) {
      ExactWrites(c, s, Confirmed(s, release));
      ExactIsBooked(c, s, Confirmed(s, release));
    } else {
      StaysLanded(c, s, Confirmed(s, release));
    }
  }

  lemma AfterSmokeBooksIff(c: Content, s: Site, release: Key, previous: Option<Key>, y: Cycle, k: nat)
    requires Inv(c, s) && Booked(c, s) && s.pointer == Some(release)
    requires previous.Some? ==> Recorded(s, previous.value, release)
    requires k <= |AfterSmoke(c, s, release, previous, y)|
    ensures Booked(c, Do(s, AfterSmoke(c, s, release, previous, y)[..k]))
            <==> AllExact(c, s) || k != 1 || !y.smoke.Fail?
  {
    var ws := AfterSmoke(c, s, release, previous, y);
    if y.smoke.Pass? {
      ConfirmedBooked(c, s, release);
      AlwaysCut(Bookedly(c), s, ws, k);
    } else if y.smoke.Fail? && previous.Some? && Activate(c, s, previous.value, release, y.rollback) != [] {
      FailedSmokeBooksIff(c, s, release, previous.value, y, k);
    } else {
      assert ws == [] && ws[..k] == [];
    }
  }

  lemma FailedSmokeBooksIff(c: Content, s: Site, release: Key, target: Key, y: Cycle, k: nat)
    requires Inv(c, s) && Booked(c, s) && s.pointer == Some(release) && Recorded(s, target, release)
    requires y.smoke.Fail? && Activate(c, s, target, release, y.rollback) != []
    requires k <= |AfterSmoke(c, s, release, Some(target), y)|
    ensures Booked(c, Do(s, AfterSmoke(c, s, release, Some(target), y)[..k])) <==> AllExact(c, s) || k != 1
  {
    var back := Activate(c, s, target, release, y.rollback);
    var rest := if y.rollbackSmoke.Pass? then Confirmed(Do(s, back), target) else [];
    DoCut(s, back, rest, k);
    if k <= |back| {
      RolledBackElsewhere(c, s, release, target, y.rollback);
      ActivateBooksIff(c, s, target, release, y.rollback, k);
    } else {
      RollbackEndsBooked(c, s, release, target, y.rollback);
      ConfirmedBooked(c, Do(s, back), target);
      AlwaysCut(Bookedly(c), Do(s, back), rest, k - |back|);
      if !AllExact(c, s) { RolledBackElsewhere(c, s, release, target, y.rollback); }
    }
  }

  lemma RollbackEndsBooked(c: Content, s: Site, release: Key, target: Key, e: Choices)
    requires Inv(c, s) && Booked(c, s) && s.pointer == Some(release) && Recorded(s, target, release)
    requires Activate(c, s, target, release, e) != []
    ensures Booked(c, Do(s, Activate(c, s, target, release, e)))
  {
    var back := Activate(c, s, target, release, e);
    RolledBackElsewhere(c, s, release, target, e);
    ActivateBooksIff(c, s, target, release, e, |back|);
    assert back[..|back|] == back;
  }

  // A rollback of the live release goes somewhere else, in at least two writes if its books are not
  // exact.
  lemma RolledBackElsewhere(c: Content, s: Site, release: Key, target: Key, e: Choices)
    requires Inv(c, s) && Booked(c, s) && s.pointer == Some(release) && Recorded(s, target, release)
    requires Activate(c, s, target, release, e) != []
    ensures s.pointer != Some(target)
    ensures !AllExact(c, s) ==> |Activate(c, s, target, release, e)| >= 2
  {
    AllReadable(c, s);
    if !AllExact(c, s) {
      assert Attempt(s, target) == s.pending;
    }
  }

  // ------------------------------------------------------------------ the runner's cycles, cut

  // Reconciling keeps the books right, and makes them exact if the marker's release is live.
  lemma ReconcileBooked(c: Content, s: Site)
    requires Inv(c, s) && Booked(c, s)
    ensures var r := Reconcile(c, s);
            var t := Do(s, r.writes);
            && Always(Bookedly(c), s, r.writes)
            && (Names(t.marker, t.pointer) ==> AllExact(c, t))
  {
    var r := Reconcile(c, s);
    if AllExact(c, s) {
      ReconcileEchoes(c, s);
      EchoesKeep(c, s, r.writes);
      ExactIsBooked(c, s, r.writes);
      AlwaysEnd(Exactly(c), s, r.writes);
    } else if Names(s.marker, s.pointer) {
      LandedReconcile(c, s);
      LandedFirst(c, s, r.writes);
    } else {
      ReconcileKeeps(c, s);
      assert forall w | w in r.writes :: w.PutActive? || (s.pointer.None? && w.DropPending?) || w.DropMarker?;
      StaysLanded(c, s, r.writes);
    }
  }

  lemma LandedReconcile(c: Content, s: Site)
    requires Inv(c, s) && Landed(c, s) && Names(s.marker, s.pointer)
    ensures Reconcile(c, s).writes == [PutActive(s.pending.value), DropPending]
  {
    AllReadable(c, s);
    RecoverPendingKeeps(c, s, true);
    var p := RecoverPending(s, true).writes;
    assert p == [PutActive(s.pending.value), DropPending];
    AlongEnd(c, s, p);
    AllReadable(c, Do(s, p));
  }

  lemma RecoveryCycleBooked(c: Content, s: Site, y: Cycle, cut: nat)
    requires Inv(c, s) && Booked(c, s)
    ensures Booked(c, Do(s, Cut(RecoveryCycle(c, s, y), cut)))
  {
    var r := Reconcile(c, s);
    var t := Do(s, r.writes);
    ReconcileBooked(c, s);
    ReconcileKeeps(c, s);
    AlongEnd(c, s, r.writes);
    if !r.goesOn || t.marker.None? || t.pointer.None? {
      CutBooked(c, s, r.writes, cut);
    } else {
      var rest := AfterSmoke(c, t, t.pointer.value, RecoveryTarget(t, y.seen), y);
      if cut <= |r.writes| {
        CutBefore(r.writes, r.writes + rest, cut);
        CutBooked(c, s, r.writes, cut);
      } else {
        var k := if cut - |r.writes| < |rest| then cut - |r.writes| else |rest|;
        CutAfter(s, r.writes, rest, cut);
        assert Cut(rest, cut - |r.writes|) == rest[..k];
        AlwaysEnd(Bookedly(c), s, r.writes);
        AfterSmokeBooksIff(c, t, t.pointer.value, RecoveryTarget(t, y.seen), y, k);
      }
    }
  }

  // The same for a cycle that publishes: its publish is cut well, and the rollback of a publish that lost
  // its last ledger is not cut right after its pending record.
  ghost predicate CycleCutWell(c: Content, s: Site, y: Cycle, cut: nat) {
    s.marker.None? && s.current.Some? ==>
      var ws := Publish(c, s, s.current.value, true, y.publish);
      && CutWell(c, s, s.current.value, true, y.publish, if cut < |ws| then cut else |ws|, 3)
      && (cut == |ws| + 1 && |PublishCycle(c, s, y)| > |ws| && y.smoke.Fail? ==> AllExact(c, Do(s, ws)))
  }

  lemma PublishCycleBooksIff(c: Content, s: Site, y: Cycle, cut: nat)
    requires Inv(c, s) && Booked(c, s)
    ensures Booked(c, Do(s, Cut(PublishCycle(c, s, y), cut))) <==> CycleCutWell(c, s, y, cut)
  {
    if s.marker.None? && s.current.Some? {
      var release := s.current.value;
      var ws := Publish(c, s, release, true, y.publish);
      PublishBooksIff(c, s, release, true, y.publish, if cut < |ws| then cut else |ws|);
      assert ws[..|ws|] == ws;
      if PublishCycle(c, s, y) != ws {
        SmokedBooksIff(c, s, release, y, cut);
      }
    }
  }

  lemma SmokedBooksIff(c: Content, s: Site, release: Key, y: Cycle, cut: nat)
    requires Inv(c, s) && Booked(c, s) && s.marker.None? && s.current == Some(release)
    requires var ws := Publish(c, s, release, true, y.publish);
             PublishCycle(c, s, y) != ws
             && (Booked(c, Do(s, Cut(ws, cut)))
                 <==> CutWell(c, s, release, true, y.publish, if cut < |ws| then cut else |ws|, 3))
    ensures Booked(c, Do(s, Cut(PublishCycle(c, s, y), cut))) <==> CycleCutWell(c, s, y, cut)
  {
    var ws := Publish(c, s, release, true, y.publish);
    var t := Do(s, ws);
    PublishKeeps(c, s, release, true, y.publish);
    AlongEnd(c, s, ws);
    PublishEnds(c, s, release, y.publish);
    PublishedIsBooked(c, s, release, true, y.publish);
    var rest := AfterSmoke(c, t, release, RollbackTarget(c, s, t), y);
    assert PublishCycle(c, s, y) == ws + rest;
    if cut <= |ws| {
      CutBefore(ws, ws + rest, cut);
    } else {
      var k := if cut - |ws| < |rest| then cut - |ws| else |rest|;
      CutAfter(s, ws, rest, cut);
      assert Cut(rest, cut - |ws|) == rest[..k];
      AfterSmokeBooksIff(c, t, release, RollbackTarget(c, s, t), y, k);
      assert rest != [];
    }
  }

  // A publish after which its release is live ends with right books.
  lemma PublishedIsBooked(c: Content, s: Site, release: Key, incremental: bool, e: Choices)
    requires Inv(c, s) && Booked(c, s) && Valid(c, s, release, incremental)
    requires Do(s, Publish(c, s, release, incremental, e)).pointer == Some(release)
    ensures Booked(c, Do(s, Publish(c, s, release, incremental, e)))
  {
    var r, ws := Recovery(c, s, incremental), Publish(c, s, release, incremental, e);
    PublishBooksIff(c, s, release, incremental, e, |ws|);
    assert ws[..|ws|] == ws;
    if r.goesOn {
      RecoveredBooked(c, s, incremental);
      var u := Do(s, r.writes);
      DoJoin(s, r.writes, Advance(c, u, release, incremental, e));
      if u.pointer != Some(release) {
        MovedToTheEnd(c, u, release, incremental, e);
      }
    } else {
      RecoveryStops(c, s, incremental);
    }
  }

  lemma MovedToTheEnd(c: Content, s: Site, release: Key, incremental: bool, e: Choices)
    requires Inv(c, s) && s.pointer != Some(release)
    requires Do(s, Advance(c, s, release, incremental, e)).pointer == Some(release)
    ensures MovesWell(Missing(c, s, release, incremental, e), e.order, |Advance(c, s, release, incremental, e)|, 3)
  {
    if Planned(c, s, release, incremental, e).Some? {
      var move := Planned(c, s, release, incremental, e).value;
      var ups := Uploads(e.order, move.keys - s.remote);
      UploadsKeep(c, s, e.order, move.keys - s.remote);
      assert ups + [] == ups;
    }
  }

  // ------------------------------------------------------------------ runs

  // Where the cut of an event leaves right books.
  ghost predicate KeepsBooks(c: Content, s: Site, a: Attempted) {
    var ws := Writes(c, s, a.ev);
    match a.ev
    case ExplicitPublish(release, e) => CutWell(c, s, release, false, e, if a.cut < |ws| then a.cut else |ws|, 3)
    case RunnerPublish(y) => CycleCutWell(c, s, y, a.cut)
    case Rollback(_) =>
      ws != [] && a.cut == 1 ==> AllExact(c, s) || s.pointer == s.marker.value.previous
    case Collecting(_, garbage) => a.cut >= |ws| || s.active.None? || Deleted(garbage, a.cut) !! s.remote
    case _ => true
  }

  // From right books, an event leaves right books exactly if it is cut like that.
  lemma EventBooksIff(c: Content, s: Site, a: Attempted)
    requires Inv(c, s) && Booked(c, s)
    ensures Booked(c, Step(c, s, a)) <==> KeepsBooks(c, s, a)
  {
    var ws := Writes(c, s, a.ev);
    var k := if a.cut < |ws| then a.cut else |ws|;
    assert Cut(ws, a.cut) == ws[..k];
    match a.ev {
      case Exporting(release, staged) => ExportBooked(c, s, release, staged, a.cut);
      case ExplicitPublish(release, e) => PublishBooksIff(c, s, release, false, e, k);
      case RunnerPublish(y) => PublishCycleBooksIff(c, s, y, a.cut);
      case RunnerRecovery(y) =>
        if s.marker.Some? { RecoveryCycleBooked(c, s, y, a.cut); }
      case Rollback(e) =>
        if ws != [] {
          ActivateBooksIff(c, s, s.marker.value.previous.value, s.marker.value.release, e, k);
          RollbackNeedsTwo(c, s, e);
        }
      case Collecting(recent, garbage) => CollectBooksIff(c, s, recent, garbage, k);
    }
  }

  // A rollback that is more than a measured repair has more than one write.
  lemma RollbackNeedsTwo(c: Content, s: Site, e: Choices)
    requires Inv(c, s) && Booked(c, s) && Writes(c, s, Rollback(e)) != []
    ensures |Writes(c, s, Rollback(e))| == 1 ==> AllExact(c, s) || s.pointer == s.marker.value.previous
  {
    AllReadable(c, s);
    if !AllExact(c, s) && s.pointer != s.marker.value.previous {
      assert Attempt(s, s.marker.value.previous.value) == s.pending;
    }
  }

  lemma ExportBooked(c: Content, s: Site, release: Key, staged: seq<Key>, cut: nat)
    requires Booked(c, s)
    ensures Booked(c, Do(s, Cut(Export(c, s, release, staged), cut)))
  {
    var ws := Export(c, s, release, staged);
    OnlyLocals(staged);
    if AllExact(c, s) {
      ExactWrites(c, s, ws);
      ExactIsBooked(c, s, ws);
    } else {
      StaysLanded(c, s, ws);
    }
    CutBooked(c, s, ws, cut);
  }

  lemma CollectBooksIff(c: Content, s: Site, recent: set<Key>, garbage: seq<Key>, k: nat)
    requires Inv(c, s) && Booked(c, s) && k <= |Collect(c, s, recent, garbage)|
    ensures Booked(c, Do(s, Collect(c, s, recent, garbage)[..k]))
            <==> k == |Collect(c, s, recent, garbage)| || s.active.None? || Deleted(garbage, k) !! s.remote
  {
    var ws := Collect(c, s, recent, garbage);
    assert ws[..|ws|] == ws;
    if ws != [] {
      if s.active.Some? {
        CollectCutExactIff(c, s, recent, garbage, k);
      }
      CollectMeasures(c, s, recent, garbage);
      CollectLeavesNoRecord(c, s, recent, garbage, k);
    }
  }

  lemma CollectLeavesNoRecord(c: Content, s: Site, recent: set<Key>, garbage: seq<Key>, k: nat)
    requires Inv(c, s) && Collect(c, s, recent, garbage) != [] && k <= |Collect(c, s, recent, garbage)|
    ensures var t := Do(s, Collect(c, s, recent, garbage)[..k]);
            t.pending.None? && t.marker.None? && (s.active.None? ==> t.active.None?)
  {
    var ws := Collect(c, s, recent, garbage);
    CollectSize(c, s, recent, garbage);
    if k <= 2 * |garbage| {
      CollectCut(c, s, recent, garbage, k);
    } else {
      CollectCut(c, s, recent, garbage, 2 * |garbage|);
      assert ws[..k] == ws[..k - 1] + [ws[k - 1]];
      DoSnoc(s, ws[..k - 1], ws[k - 1]);
    }
  }

  ghost predicate AlwaysKeepsBooks(c: Content, s: Site, events: seq<Attempted>)
    decreases |events|
  {
    events == [] || (KeepsBooks(c, s, events[0]) && AlwaysKeepsBooks(c, Step(c, s, events[0]), events[1..]))
  }

  // The ledger that counts: the one recovery goes by.
  function InForce(s: Site): Option<Ledger> {
    if Names(s.pending, s.pointer) then s.pending else s.active
  }

  // Conservation: from right books, over every run of exports, publishes, smokes, recoveries, rollbacks
  // and collections cut like that, the ledger in force says exactly what the bucket holds, and the next
  // recovery leaves every record exact.
  lemma {:induction false} BooksStayRight(c: Content, s: Site, events: seq<Attempted>)
    requires Inv(c, s) && Booked(c, s) && NeverForgets(c, s, events) && AlwaysKeepsBooks(c, s, events)
    ensures var t := Run(c, s, events);
            && Booked(c, t)
            && (Names(InForce(t), t.pointer) ==>
                  InForce(t).value.bytes == TrueBytes(c, t) && InForce(t).value.objects == TrueObjects(t))
            && forall incremental | Recovery(c, t, incremental).goesOn ::
                 AllExact(c, Do(t, Recovery(c, t, incremental).writes))
    decreases |events|
  {
    if events != [] {
      StepKeepsInv(c, s, events[0]);
      EventBooksIff(c, s, events[0]);
      BooksStayRight(c, Step(c, s, events[0]), events[1..]);
    } else {
      forall incremental | Recovery(c, s, incremental).goesOn
        ensures AllExact(c, Do(s, Recovery(c, s, incremental).writes))
      {
        RecoveryBooked(c, s, incremental);
      }
    }
  }

  lemma StepKeepsInv(c: Content, s: Site, a: Attempted)
    requires Inv(c, s) && !Forgets(c, s, a.ev)
    ensures Inv(c, Step(c, s, a))
  {
    var ws := Writes(c, s, a.ev);
    EventKeeps(c, s, a.ev);
    AlongEnd(c, s, ws);
    if a.cut < |ws| {
      AlongCut(c, s, ws, a.cut);
    }
  }

  // ------------------------------------------------------------------ never too much

  // Only a collection that is cut after it deleted what no ledger misses can leave one that claims too
  // much.
  ghost predicate CollectsHarmlessly(c: Content, s: Site, events: seq<Attempted>)
    decreases |events|
  {
    events == [] ||
    ((events[0].ev.Collecting? ==>
        HarmlessCut(c, s, events[0].ev.recent, events[0].ev.garbage, events[0].cut))
     && CollectsHarmlessly(c, Step(c, s, events[0]), events[1..]))
  }

  // From ledgers within the bucket an event leaves them so, unless it is such a collection.
  lemma EventUnderIff(c: Content, s: Site, a: Attempted)
    requires Inv(c, s) && Under(c, s)
    ensures Under(c, Step(c, s, a))
            <==> (a.ev.Collecting? ==> HarmlessCut(c, s, a.ev.recent, a.ev.garbage, a.cut))
  {
    var ws := Writes(c, s, a.ev);
    if a.ev.Collecting? {
      var k := if a.cut < |ws| then a.cut else |ws|;
      assert Cut(ws, a.cut) == ws[..k];
      CollectCutIff(c, s, a.ev.recent, a.ev.garbage, k);
    } else {
      EventUnder(c, s, a.ev);
      if a.cut < |ws| {
        AlwaysCut(Underly(c), s, ws, a.cut);
      } else {
        AlwaysEnd(Underly(c), s, ws);
      }
    }
  }

  // Over every run without one, aborted uploads and cut publishes included, no ledger claims more than
  // the bucket holds.
  lemma {:induction false} LedgersNeverOverclaim(c: Content, s: Site, events: seq<Attempted>)
    requires Inv(c, s) && Under(c, s) && NeverForgets(c, s, events) && CollectsHarmlessly(c, s, events)
    ensures Under(c, Run(c, s, events))
    decreases |events|
  {
    if events != [] {
      StepKeepsInv(c, s, events[0]);
      EventUnderIff(c, s, events[0]);
      LedgersNeverOverclaim(c, Step(c, s, events[0]), events[1..]);
    }
  }
}
