// Release publication to R2: scripts/publish_static.py and the publish tail of
// scripts/control_runner.py. The bucket, its pointer and the local files are one state; every upload,
// deletion, file replacement, unlink and pointer copy is one write. An operation is the sequence of
// writes it makes, so a crash, or a command that fails, leaves the effect of a prefix.
module Publishing {
  import opened Wrappers

  const MAX_R2_BYTES: int := 20_000_000_000
  const MAX_R2_OBJECTS: int := 800_000
  const MAX_SMOKE_ROLLBACKS: nat := 3

  // Objects are named by the hash of their content, so a key fixes what it refers to and its size.
  // A release is named by the key of its manifest.
  type Key = string

  datatype Content = Content(refs: Key -> set<Key>, size: Key -> nat)

  function Objects(c: Content, release: Key): set<Key> {
    {release} + c.refs(release)
  }

  // The bytes of a set of objects.
  ghost function Weight(c: Content, keys: set<Key>): nat {
    if keys == {} then 0
    else
      var k :| k in keys;
      c.size(k) + Weight(c, keys - {k})
  }

  // The order in which they are weighed does not matter.
  lemma {:induction false} WeightWithout(c: Content, keys: set<Key>, k: Key)
    requires k in keys
    ensures Weight(c, keys) == c.size(k) + Weight(c, keys - {k})
    decreases |keys|
  {
    var x :| x in keys && Weight(c, keys) == c.size(x) + Weight(c, keys - {x});
    if x != k {
      WeightWithout(c, keys - {x}, k);
      WeightWithout(c, keys - {k}, x);
      assert keys - {x} - {k} == keys - {k} - {x};
    }
  }

  datatype Ledger = Ledger(release: Key, previous: Option<Key>, bytes: int, objects: int)

  // `verified` is history: the releases whose smoke has passed while they were live.
  datatype Site = Site(local: set<Key>, current: Option<Key>, remote: set<Key>, pointer: Option<Key>,
                       active: Option<Ledger>, pending: Option<Ledger>, marker: Option<Ledger>,
                       rollbacks: Option<(Key, nat)>, verified: set<Key>)

  datatype Write =
    | Upload(key: Key)
    | DeleteRemote(key: Key)
    | AddLocal(key: Key)
    | DeleteLocal(key: Key)
    | SetCurrent(release: Key)      // the local release.json
    | Flip(release: Key)            // the remote release.json
    | PutActive(ledger: Ledger)     // .publish-ledger.json
    | PutPending(ledger: Ledger)    // .publish-ledger.pending.json
    | PutMarker(ledger: Ledger)     // .publish-smoke.pending.json
    | DropPending
    | DropMarker
    | CountRollback(release: Key)   // .publish-smoke-rollbacks.json
    | SmokePassed(release: Key)     // history only

  function Apply(s: Site, w: Write): Site {
    match w
    case Upload(key) => s.(remote := s.remote + {key})
    case DeleteRemote(key) => s.(remote := s.remote - {key})
    case AddLocal(key) => s.(local := s.local + {key})
    case DeleteLocal(key) => s.(local := s.local - {key})
    case SetCurrent(release) => s.(current := Some(release))
    case Flip(release) => s.(pointer := Some(release))
    case PutActive(ledger) => s.(active := Some(ledger))
    case PutPending(ledger) => s.(pending := Some(ledger))
    case PutMarker(ledger) => s.(marker := Some(ledger))
    case DropPending => s.(pending := None)
    case DropMarker => s.(marker := None)
    case CountRollback(release) => s.(rollbacks := Some((release, Rollbacks(s, release) + 1)))
    case SmokePassed(release) => s.(verified := s.verified + {release})
  }

  function Do(s: Site, ws: seq<Write>): Site
    decreases |ws|
  {
    if ws == [] then s else Do(Apply(s, ws[0]), ws[1..])
  }

  // A property of the site before the first write and after every one, and so wherever a crash falls.
  ghost predicate Always(p: Site -> bool, s: Site, ws: seq<Write>)
    decreases |ws|
  {
    p(s) && (ws == [] || Always(p, Apply(s, ws[0]), ws[1..]))
  }

  lemma {:induction false} AlwaysJoin(p: Site -> bool, s: Site, a: seq<Write>, b: seq<Write>)
    requires Always(p, s, a)
    ensures Always(p, s, a + b) <==> Always(p, Do(s, a), b)
    decreases |a|
  {
    if a == [] {
      assert a + b == b;
    } else {
      assert (a + b)[1..] == a[1..] + b && (a + b)[0] == a[0];
      AlwaysJoin(p, Apply(s, a[0]), a[1..], b);
    }
  }

  lemma {:induction false} AlwaysCut(p: Site -> bool, s: Site, ws: seq<Write>, cut: nat)
    requires Always(p, s, ws) && cut <= |ws|
    ensures Always(p, s, ws[..cut]) && p(Do(s, ws[..cut]))
    decreases |ws|
  {
    if cut > 0 {
      assert ws[..cut][1..] == ws[1..][..cut - 1] && ws[..cut][0] == ws[0];
      AlwaysCut(p, Apply(s, ws[0]), ws[1..], cut - 1);
    }
  }

  lemma {:induction false} DoJoin(s: Site, a: seq<Write>, b: seq<Write>)
    ensures Do(s, a + b) == Do(Do(s, a), b)
    decreases |a|
  {
    if a == [] {
      assert a + b == b;
    } else {
      assert (a + b)[1..] == a[1..] + b && (a + b)[0] == a[0];
      DoJoin(Apply(s, a[0]), a[1..], b);
    }
  }

  lemma DoOne(s: Site, w: Write)
    ensures Do(s, [w]) == Apply(s, w)
  {
    assert [w][1..] == [];
    assert Do(Apply(s, w), []) == Apply(s, w);
  }

  lemma DoSnoc(s: Site, ws: seq<Write>, w: Write)
    ensures Do(s, ws + [w]) == Apply(Do(s, ws), w)
  {
    DoJoin(s, ws, [w]);
    DoOne(Do(s, ws), w);
  }

  lemma DoTwoMore(s: Site, ws: seq<Write>, v: Write, w: Write)
    ensures Do(s, ws + [v] + [w]) == Apply(Apply(Do(s, ws), v), w)
  {
    DoSnoc(s, ws, v);
    DoSnoc(s, ws + [v], w);
  }

  lemma DoTwo(s: Site, v: Write, w: Write)
    ensures Do(s, [v, w]) == Apply(Apply(s, v), w)
  {
    DoOne(s, v);
    DoSnoc(s, [v], w);
    assert [v] + [w] == [v, w];
  }

  function Rollbacks(s: Site, release: Key): nat {
    if s.rollbacks.Some? && s.rollbacks.value.0 == release then s.rollbacks.value.1 else 0
  }

  // _read_ledger_state: a file that does not hold a valid ledger reads as none.
  predicate Readable(l: Ledger) {
    l.previous != Some(l.release) && l.bytes >= 0 && l.objects >= 0
  }

  function Read(file: Option<Ledger>): Option<Ledger> {
    if file.Some? && Readable(file.value) then file else None
  }

  // _read_ledger: the active ledger, if it is the one of this release.
  function ActiveFor(s: Site, release: Key): Option<Ledger> {
    var l := Read(s.active);
    if l.Some? && l.value.release == release then l else None
  }

  ghost function TrueBytes(c: Content, s: Site): int {
    Weight(c, s.remote) + if s.pointer.Some? then c.size(s.pointer.value) else 0
  }

  function TrueObjects(s: Site): int {
    |s.remote| + if s.pointer.Some? then 1 else 0
  }

  // ------------------------------------------------------------------ recovery

  // A stage's writes, and whether the operation goes on or raises.
  datatype Stage = Stage(writes: seq<Write>, goesOn: bool)

  // _recover_pending_ledger
  function RecoverPending(s: Site, incremental: bool): Stage {
    if s.pending.None? then Stage([], true)
    else
      var l := Read(s.pending);
      if l.None? || l.value.release !in s.local then
        if incremental then Stage([], false) else Stage([DropPending], true)
      else if s.pointer.None? then
        if l.value.previous.None? && Read(s.active).None? && s.marker.None?
        then Stage([DropPending], true) else Stage([], false)
      else if s.pointer != Some(l.value.release) then Stage([DropPending], true)
      else Stage([PutActive(l.value), DropPending], true)
  }

  // The ledger of going back from `l` to its predecessor: the objects stay, the pointer body changes.
  function Back(c: Content, l: Ledger, to: Key): Ledger {
    Ledger(to, Some(l.release), l.bytes + c.size(to) - c.size(l.release), l.objects)
  }

  // _recover_rolled_back_ledger
  function RecoverRolledBack(c: Content, s: Site): seq<Write> {
    var l := Read(s.active);
    if s.pointer.None? || l.None? || l.value.release == s.pointer.value || l.value.previous != s.pointer
       || s.pointer.value !in s.local || l.value.release !in s.local
       || Back(c, l.value, s.pointer.value).bytes < 0
    then []
    else [PutActive(Back(c, l.value, s.pointer.value))]
  }

  // _pending_smoke_ledger: drops a marker the pointer has left.
  function CheckMarker(s: Site, incremental: bool): Stage {
    if s.marker.None? then Stage([], true)
    else
      var m := Read(s.marker);
      if m.None? || m.value.release !in s.local then
        if incremental then Stage([], false) else Stage([DropMarker], true)
      else if s.pointer != Some(m.value.release) then Stage([DropMarker], true)
      else Stage([], true)
  }

  // ------------------------------------------------------------------ publish

  // What the environment decides during a publish: whether the predecessor's manifest could be read
  // back before and after the upload, the order rclone copies objects in (it may stop early), whether
  // the bucket could be measured, and whether the rollback count or the last ledger writes fail.
  datatype Choices = Choices(seen: bool, seenLater: bool, order: seq<Key>, measured: bool, countFails: bool,
                             ledgerFails: bool)

  function Uploads(order: seq<Key>, wanted: set<Key>): seq<Write> {
    if order == [] then []
    else (if order[0] in wanted then [Upload(order[0])] else []) + Uploads(order[1..], wanted)
  }

  function Copied(order: seq<Key>): set<Key> {
    set k | k in order
  }

  // _verified_previous_release
  function Predecessor(s: Site, seen: bool): Option<Key> {
    if s.pointer.Some? && seen && s.pointer.value in s.local && s.pointer.value in s.remote then s.pointer else None
  }

  // The projected ledger of _delta_plan, and of _r2_budget_preflight.
  ghost function DeltaLedger(c: Content, s: Site, l: Ledger, release: Key, keys: set<Key>): Ledger {
    Ledger(release, Some(l.release),
           l.bytes + Weight(c, keys - s.remote) + c.size(release) - c.size(l.release),
           l.objects + |keys - s.remote|)
  }

  ghost function FullLedger(c: Content, s: Site, release: Key, previous: Option<Key>): Ledger {
    Ledger(release, previous,
           TrueBytes(c, s) + Weight(c, s.local - s.remote) + c.size(release)
           - (if s.pointer.Some? then c.size(s.pointer.value) else 0),
           TrueObjects(s) + |s.local - s.remote| + if s.pointer.None? then 1 else 0)
  }

  predicate OverBudget(l: Ledger) {
    l.bytes > MAX_R2_BYTES || l.objects > MAX_R2_OBJECTS
  }

  // Pointer last: both local records, the pointer, then the active ledger.
  function Finish(l: Ledger, ledgerFails: bool): seq<Write> {
    [PutPending(l), PutMarker(l), Flip(l.release)] + if ledgerFails then [] else [PutActive(l), DropPending]
  }

  // Upload everything missing, then finish. `rclone check` lets only a complete upload pass.
  ghost function UploadAndFinish(s: Site, keys: set<Key>, l: Ledger, e: Choices): seq<Write> {
    Uploads(e.order, keys - s.remote)
    + if keys <= s.remote + Copied(e.order) then Finish(l, e.ledgerFails) else []
  }

  // What a publish that moves the pointer has to have in the bucket, and the ledger it then writes.
  datatype Move = Move(keys: set<Key>, ledger: Ledger)

  // The move from the active release to another one, unless it is refused: the objects its predecessor
  // does not have and the predecessor's ledger brought forward, or, for an explicit publish, everything
  // that is on disk and a measured ledger.
  ghost function Planned(c: Content, s: Site, release: Key, incremental: bool, e: Choices): Option<Move> {
    var previous := Predecessor(s, e.seen);
    if incremental && (Rollbacks(s, release) >= MAX_SMOKE_ROLLBACKS || (s.pointer.Some? && previous.None?)) then None
    else
      var l := if previous.Some? then ActiveFor(s, previous.value) else None;
      if l.Some? then
        var keys := Objects(c, release) - Objects(c, previous.value);
        var next := DeltaLedger(c, s, l.value, release, keys);
        if OverBudget(next) || !(keys <= s.local) then None else Some(Move(keys, next))
      else if incremental then None
      else
        var later := if previous.Some? then previous
                     else Predecessor(s.(remote := s.remote + s.local), e.seenLater);
        var next := FullLedger(c, s, release, later);
        if OverBudget(next) then None else Some(Move(s.local, next))
  }

  ghost function Supersede(c: Content, s: Site, release: Key, incremental: bool, e: Choices): seq<Write> {
    match Planned(c, s, release, incremental, e)
    case None => []
    case Some(move) => UploadAndFinish(s, move.keys, move.ledger, e)
  }

  // The active release is the one to publish: nothing moves, but an explicit publish may measure a
  // missing ledger.
  ghost function AlreadyLive(c: Content, s: Site, release: Key, incremental: bool, e: Choices): seq<Write> {
    if ActiveFor(s, release).None? && !incremental && e.measured
    then [PutActive(Ledger(release, None, TrueBytes(c, s), TrueObjects(s)))] else []
  }

  // validate_incremental_release accepts the current release only; validate_release reads every
  // object of the release.
  predicate Valid(c: Content, s: Site, release: Key, incremental: bool) {
    if incremental then s.current == Some(release) && release in s.local else Objects(c, release) <= s.local
  }

  // The stages of a publish before it decides what to do.
  function Recovery(c: Content, s: Site, incremental: bool): Stage {
    var p := RecoverPending(s, incremental);
    if !p.goesOn then p
    else
      var rolled := RecoverRolledBack(c, Do(s, p.writes));
      var m := CheckMarker(Do(s, p.writes + rolled), incremental);
      Stage(p.writes + rolled + m.writes, m.goesOn)
  }

  // What a recovered site publishes.
  ghost function Advance(c: Content, s: Site, release: Key, incremental: bool, e: Choices): seq<Write> {
    if s.marker.Some? && s.marker.value.release != release then []  // the release is deferred
    else if s.pointer == Some(release) then AlreadyLive(c, s, release, incremental, e)
    else Supersede(c, s, release, incremental, e)
  }

  // _publish_static_locked
  ghost function Publish(c: Content, s: Site, release: Key, incremental: bool, e: Choices): seq<Write> {
    if !Valid(c, s, release, incremental) then []
    else
      var r := Recovery(c, s, incremental);
      if !r.goesOn then r.writes
      else r.writes + Advance(c, Do(s, r.writes), release, incremental, e)
  }

  // ------------------------------------------------------------------ activation and smoke

  // The ledger whose publication an activation of `target` undoes.
  function Attempt(s: Site, target: Key): Option<Ledger> {
    if Undoes(s, Read(s.pending), target) then s.pending
    else if Undoes(s, Read(s.active), target) then s.active
    else None
  }

  predicate Undoes(s: Site, l: Option<Ledger>, target: Key) {
    l.Some? && l.value.previous == Some(target) && l.value.release in s.local && s.pointer == Some(l.value.release)
  }

  // With a smoke marker only the rollback of its own release is accepted.
  predicate MayActivate(s: Site, target: Key, expected: Key) {
    && target in s.local && target in s.remote && expected in s.local
    && (s.pointer == Some(expected) || s.pointer == Some(target))
    && (s.marker.Some? ==>
          && Read(s.marker).Some? && s.marker.value.release in s.local
          && expected == s.marker.value.release && s.marker.value.previous == Some(target))
  }

  // _activate_remote_release_locked with an expected current release
  ghost function Activate(c: Content, s: Site, target: Key, expected: Key, e: Choices): seq<Write> {
    if !MayActivate(s, target, expected) then []
    else
      var count := if s.marker.Some? && !e.countFails then [CountRollback(s.marker.value.release)] else [];
      var attempt := Attempt(s, target);
      if attempt.Some? then
        var l := Back(c, attempt.value, target);
        [PutPending(l), Flip(target)] + count + if e.ledgerFails then [] else [PutActive(l), DropPending]
      else
        var after := s.(pointer := Some(target));
        [Flip(target)] + count
        + if e.measured then [PutActive(Ledger(target, None, TrueBytes(c, after), TrueObjects(after)))] else []
  }

  // _reconcile_pending_smoke_locked
  function Reconcile(c: Content, s: Site): Stage {
    if s.marker.None? then Stage([], true)
    else
      var m := Read(s.marker);
      if m.None? || m.value.release !in s.local then Stage([], false)
      else if s.pointer.None? then
        if m.value.previous.None? && (Read(s.pending).None? || s.pending == s.marker) && Read(s.active).None?
        then Stage([DropPending, DropMarker], true) else Stage([], false)
      else if s.pointer == Some(m.value.release) then
        var p := RecoverPending(s, true);
        if !p.goesOn then p
        else if ActiveFor(Do(s, p.writes), m.value.release).Some? then p
        else Stage(p.writes + [PutActive(m.value)], true)
      else if m.value.previous != s.pointer || s.pointer.value !in s.local then Stage([], false)
      else
        var back := Back(c, m.value, s.pointer.value);
        var rolled := RecoverRolledBack(c, s);
        if ActiveFor(Do(s, rolled), s.pointer.value).Some? then Stage(rolled, true)
        else if back.bytes < 0 then Stage(rolled, false)
        else Stage(rolled + [PutActive(back)], true)
  }

  // _confirm_publish_smoke_locked
  function Confirm(s: Site, release: Key): seq<Write> {
    if Read(s.marker).Some? && s.marker.value.release == release && release in s.local then [DropMarker] else []
  }

  // ------------------------------------------------------------------ garbage collection

  // _collect_static_garbage_locked. The newest and recent releases it keeps besides, and the files old
  // enough to go, are the environment's choice.
  function KeptReleases(s: Site, recent: set<Key>): set<Key> {
    recent
    + (if s.current.Some? then {s.current.value} else {})
    + (if Read(s.active).Some? then
         {s.active.value.release} + (if s.active.value.previous.Some? then {s.active.value.previous.value} else {})
       else {})
  }

  function Referenced(c: Content, s: Site, recent: set<Key>): set<Key> {
    set r, k | r in KeptReleases(s, recent) && r in s.local && k in Objects(c, r) :: k
  }

  function DeleteRemotes(keys: seq<Key>): seq<Write> {
    if keys == [] then [] else [DeleteRemote(keys[0])] + DeleteRemotes(keys[1..])
  }

  function DeleteLocals(keys: seq<Key>): seq<Write> {
    if keys == [] then [] else [DeleteLocal(keys[0])] + DeleteLocals(keys[1..])
  }

  predicate IsGarbage(c: Content, s: Site, recent: set<Key>, garbage: seq<Key>) {
    forall k | k in garbage :: k in s.local && k !in Referenced(c, s, recent)
  }

  ghost function Collect(c: Content, s: Site, recent: set<Key>, garbage: seq<Key>): seq<Write> {
    if s.marker.Some? || s.pending.Some? || s.current.None? || garbage == [] || !IsGarbage(c, s, recent, garbage) then []
    else
      var deletions := DeleteRemotes(garbage) + DeleteLocals(garbage);
      var after := Do(s, deletions);
      var l := Read(s.active);
      deletions
      + if l.Some? then [PutActive(l.value.(bytes := TrueBytes(c, after), objects := TrueObjects(after)))] else []
  }

  // ------------------------------------------------------------------ export

  function AddLocals(keys: seq<Key>): seq<Write> {
    if keys == [] then [] else [AddLocal(keys[0])] + AddLocals(keys[1..])
  }

  // A new release is staged locally, its own pointer last.
  function Export(c: Content, s: Site, release: Key, staged: seq<Key>): seq<Write> {
    AddLocals(staged) + if Objects(c, release) <= s.local + Copied(staged) then [SetCurrent(release)] else []
  }
}
