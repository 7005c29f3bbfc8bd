// The bounded report outbox of scripts/control_store.py.
// The table is modelled by its rows in id order. One transaction is one method call.
module Outbox {
  import opened Wrappers

  const PROTECTED_PRIORITY: nat := 100
  const MAX_PAYLOAD_BYTES: nat := 64 * 1024

  datatype Kind =
    | EventBatch
    | BoardStatus(board: Option<string>)
    | FrontierFailures
    | Heartbeat
    | RunStart
    | RunFinish
    | CommandFinish

  function Priority(kind: Kind): nat {
    match kind
    case EventBatch => 50
    case BoardStatus(_) => 60
    case FrontierFailures => 60
    case Heartbeat => 80
    case RunStart => 100
    case RunFinish => 100
    case CommandFinish => 100
  }

  function DedupeKey(kind: Kind): Option<string> {
    match kind
    case Heartbeat => Some("heartbeat")
    case BoardStatus(Some(board)) => Some("board:" + board)
    case _ => None
  }

  // One call of enqueue. `report` stands for the payload; `wellFormed` is the outcome of the
  // route, key and forbidden-field checks, which are regular expressions.
  datatype Request = Request(kind: Kind, key: string, bytes: nat, batch: nat, report: nat, wellFormed: bool) {
    function Events(): nat {
      if kind.EventBatch? then batch else 1
    }

    predicate Admissible() {
      wellFormed && Events() >= 1 && bytes <= MAX_PAYLOAD_BYTES
    }
  }

  datatype Item = Item(id: nat, key: string, dedupe: Option<string>, bytes: nat, events: nat,
                       priority: nat, report: nat, attempts: nat, next: Option<int>)

  datatype Limits = Limits(bytes: nat, events: nat)

  datatype Failure = Invalid | Full

  function Bytes(rows: seq<Item>): nat {
    if rows == [] then 0 else rows[0].bytes + Bytes(rows[1..])
  }

  function Events(rows: seq<Item>): nat {
    if rows == [] then 0 else rows[0].events + Events(rows[1..])
  }

  predicate Fits(rows: seq<Item>, req: Request, limits: Limits) {
    Bytes(rows) + req.bytes <= limits.bytes && Events(rows) + req.Events() <= limits.events
  }

  ghost predicate Ordered(rows: seq<Item>) {
    forall i, j | 0 <= i < j < |rows| :: rows[i].id < rows[j].id
  }

  // Rows without the given ids: what a DELETE leaves behind.
  function Without(rows: seq<Item>, ids: set<nat>): (kept: seq<Item>)
    ensures forall x :: x in kept <==> x in rows && x.id !in ids
    ensures |kept| <= |rows|
  {
    if rows == [] then []
    else if rows[0].id in ids then Without(rows[1..], ids)
    else [rows[0]] + Without(rows[1..], ids)
  }

  predicate Evictable(x: Item, req: Request) {
    x.priority < PROTECTED_PRIORITY && x.priority <= Priority(req.kind)
  }

  predicate Before(x: Item, y: Item) {
    x.priority < y.priority || (x.priority == y.priority && x.id < y.id)
  }

  // ORDER BY priority, id LIMIT 1 among the evictable rows; rows are in id order.
  function Victim(rows: seq<Item>, req: Request): (v: Option<Item>)
    ensures v.Some? ==> v.value in rows && Evictable(v.value, req)
    ensures v.None? ==> forall x | x in rows :: !Evictable(x, req)
    ensures v.Some? && Ordered(rows) ==>
              forall x | x in rows && Evictable(x, req) && x != v.value :: Before(v.value, x)
  {
    if rows == [] then None
    else
      var rest := Victim(rows[1..], req);
      if !Evictable(rows[0], req) then rest
      else if rest.Some? && rest.value.priority < rows[0].priority then rest
      else Some(rows[0])
  }

  // The eviction loop of _make_room.
  function RoomFor(rows: seq<Item>, req: Request, limits: Limits): (r: Option<seq<Item>>)
    ensures r.Some? ==> Fits(r.value, req, limits)
    decreases |rows|
  {
    if Fits(rows, req, limits) then Some(rows)
    else
      match Victim(rows, req)
      case None => None
      case Some(v) =>
        WithoutShrinks(rows, v);
        RoomFor(Without(rows, {v.id}), req, limits)
  }

  lemma WithoutShrinks(rows: seq<Item>, v: Item)
    requires v in rows
    ensures |Without(rows, {v.id})| < |rows|
  {
    if rows[0].id != v.id {
      WithoutShrinks(rows[1..], v);
    }
  }

  lemma {:induction false} WithoutOrdered(rows: seq<Item>, ids: set<nat>)
    requires Ordered(rows)
    ensures Ordered(Without(rows, ids))
  {
    if rows != [] {
      WithoutOrdered(rows[1..], ids);
      var kept := Without(rows[1..], ids);
      assert forall i | 0 <= i < |kept| :: kept[i] in rows[1..];
    }
  }

  lemma {:induction false} WithoutTwice(rows: seq<Item>, a: set<nat>, b: set<nat>)
    ensures Without(Without(rows, a), b) == Without(rows, a + b)
  {
    if rows != [] {
      WithoutTwice(rows[1..], a, b);
    }
  }

  lemma {:induction false} WithoutNothing(rows: seq<Item>, ids: set<nat>)
    requires forall x | x in rows :: x.id !in ids
    ensures Without(rows, ids) == rows
  {
    if rows != [] {
      WithoutNothing(rows[1..], ids);
    }
  }

  lemma {:induction false} WithoutIsLighter(rows: seq<Item>, ids: set<nat>)
    ensures Bytes(Without(rows, ids)) <= Bytes(rows) && Events(Without(rows, ids)) <= Events(rows)
  {
    if rows != [] {
      WithoutIsLighter(rows[1..], ids);
    }
  }

  // ------------------------------------------------------------------ eviction, declaratively

  // An eviction takes unprotected rows of no higher priority, lowest priority and oldest first.
  ghost predicate LowestFirst(rows: seq<Item>, req: Request, evicted: set<nat>) {
    forall x, y | x in rows && y in rows && x.id in evicted && y.id !in evicted && Evictable(y, req) ::
      Before(x, y)
  }

  ghost predicate IsLast(rows: seq<Item>, evicted: set<nat>, last: Item) {
    && last in rows && last.id in evicted
    && forall x | x in rows && x.id in evicted :: x == last || Before(x, last)
  }

  // It takes no more than needed: without its last row there would still be no room.
  ghost predicate NoMoreThanNeeded(rows: seq<Item>, req: Request, limits: Limits, evicted: set<nat>) {
    forall last | IsLast(rows, evicted, last) :: !Fits(Without(rows, evicted - {last.id}), req, limits)
  }

  ghost predicate JustEnough(rows: seq<Item>, req: Request, limits: Limits, evicted: set<nat>) {
    && evicted <= EvictableIds(rows, req)
    && LowestFirst(rows, req, evicted)
    && Fits(Without(rows, evicted), req, limits)
    && NoMoreThanNeeded(rows, req, limits, evicted)
  }

  ghost function EvictableIds(rows: seq<Item>, req: Request): set<nat> {
    set x | x in rows && Evictable(x, req) :: x.id
  }

  lemma SameId(rows: seq<Item>, x: Item, y: Item)
    requires Ordered(rows) && x in rows && y in rows && x.id == y.id
    ensures x == y
  {
    var i :| 0 <= i < |rows| && rows[i] == x;
    var j :| 0 <= j < |rows| && rows[j] == y;
    if i < j {
      assert false;
    } else if j < i {
      assert false;
    }
  }

  lemma RowOf(rows: seq<Item>, req: Request, id: nat) returns (x: Item)
    requires id in EvictableIds(rows, req)
    ensures x in rows && Evictable(x, req) && x.id == id
  {
    x :| x in rows && Evictable(x, req) && x.id == id;
  }

  // The loop succeeds with exactly such an eviction.
  lemma {:induction false} EvictionIsJustEnough(rows: seq<Item>, req: Request, limits: Limits)
      returns (evicted: set<nat>)
    requires Ordered(rows) && RoomFor(rows, req, limits).Some?
    ensures RoomFor(rows, req, limits).value == Without(rows, evicted)
    ensures JustEnough(rows, req, limits, evicted)
    decreases |rows|
  {
    if Fits(rows, req, limits) {
      evicted := {};
      WithoutNothing(rows, {});
    } else {
      var v := Victim(rows, req).value;
      WithoutShrinks(rows, v);
      WithoutOrdered(rows, {v.id});
      var more := EvictionIsJustEnough(Without(rows, {v.id}), req, limits);
      evicted := {v.id} + more;
      WithoutTwice(rows, {v.id}, more);
      VictimFirst(rows, req, v, more);
      VictimNeeded(rows, req, limits, v, more);
    }
  }

  lemma VictimFirst(rows: seq<Item>, req: Request, v: Item, more: set<nat>)
    requires Ordered(rows) && Victim(rows, req) == Some(v)
    requires more <= EvictableIds(Without(rows, {v.id}), req)
    requires LowestFirst(Without(rows, {v.id}), req, more)
    ensures {v.id} + more <= EvictableIds(rows, req)
    ensures LowestFirst(rows, req, {v.id} + more)
  {
    forall x, y | x in rows && y in rows && x.id in {v.id} + more && y.id !in {v.id} + more && Evictable(y, req)
      ensures Before(x, y)
    {
      if x.id == v.id { SameId(rows, x, v); }
    }
  }

  lemma VictimNeeded(rows: seq<Item>, req: Request, limits: Limits, v: Item, more: set<nat>)
    requires Ordered(rows) && Victim(rows, req) == Some(v) && !Fits(rows, req, limits)
    requires more <= EvictableIds(Without(rows, {v.id}), req)
    requires NoMoreThanNeeded(Without(rows, {v.id}), req, limits, more)
    ensures NoMoreThanNeeded(rows, req, limits, {v.id} + more)
  {
    forall last | IsLast(rows, {v.id} + more, last)
      ensures !Fits(Without(rows, {v.id} + more - {last.id}), req, limits)
    {
      if more == {} {
        assert {v.id} + more - {last.id} == {};
        WithoutNothing(rows, {});
      } else {
        LastAfterVictim(rows, req, v, more, last);
        Regroup(rows, v.id, more, last.id);
      }
    }
  }

  lemma Regroup(rows: seq<Item>, v: nat, more: set<nat>, last: nat)
    requires last != v
    ensures Without(rows, {v} + more - {last}) == Without(Without(rows, {v}), more - {last})
  {
    assert {v} + more - {last} == {v} + (more - {last});
    WithoutTwice(rows, {v}, more - {last});
  }

  lemma LastAfterVictim(rows: seq<Item>, req: Request, v: Item, more: set<nat>, last: Item)
    requires Ordered(rows) && Victim(rows, req) == Some(v)
    requires more != {} && more <= EvictableIds(Without(rows, {v.id}), req)
    requires IsLast(rows, {v.id} + more, last)
    ensures last.id != v.id && IsLast(Without(rows, {v.id}), more, last)
  {
    var m :| m in more;
    var y := RowOf(Without(rows, {v.id}), req, m);
    assert Before(v, y);
    if last.id == v.id {
      SameId(rows, last, v);
      assert false;
    }
  }

  // The loop gives up exactly when removing every row it may remove would not make room.
  lemma {:induction false} RoomIff(rows: seq<Item>, req: Request, limits: Limits)
    requires Ordered(rows)
    ensures RoomFor(rows, req, limits).Some? <==>
              Fits(Without(rows, EvictableIds(rows, req)), req, limits)
    decreases |rows|
  {
    var all := EvictableIds(rows, req);
    if Fits(rows, req, limits) {
      WithoutIsLighter(rows, all);
    } else if Victim(rows, req).None? {
      assert all == {};
      WithoutNothing(rows, {});
    } else {
      var v := Victim(rows, req).value;
      var left := Without(rows, {v.id});
      WithoutShrinks(rows, v);
      WithoutOrdered(rows, {v.id});
      RoomIff(left, req, limits);
      assert all == {v.id} + EvictableIds(left, req) by {
        forall x | x in rows && Evictable(x, req)
          ensures x.id == v.id || x.id in EvictableIds(left, req)
        {
          if x.id != v.id { assert x in left; }
        }
      }
      WithoutTwice(rows, {v.id}, EvictableIds(left, req));
    }
  }

  // Two evictions that keep the promise remove the same rows: the promise leaves no choice.
  lemma EvictionIsUnique(rows: seq<Item>, req: Request, limits: Limits, a: set<nat>, b: set<nat>)
    requires Ordered(rows)
    requires JustEnough(rows, req, limits, a) && JustEnough(rows, req, limits, b)
    ensures a == b
  {
    if b < a {
      NoneToSpare(rows, req, limits, b, a);
    } else if a < b {
      NoneToSpare(rows, req, limits, a, b);
    } else if a != b {
      NotCrossed(rows, req, a, b);
    }
  }

  lemma NotCrossed(rows: seq<Item>, req: Request, a: set<nat>, b: set<nat>)
    requires a <= EvictableIds(rows, req) && b <= EvictableIds(rows, req)
    requires LowestFirst(rows, req, a) && LowestFirst(rows, req, b)
    ensures a <= b || b <= a
  {
    if i :| i in a && i !in b {
      var x := RowOf(rows, req, i);
      forall j | j in b ensures j in a {
        var y := RowOf(rows, req, j);
      }
    }
  }

  lemma NoneToSpare(rows: seq<Item>, req: Request, limits: Limits, a: set<nat>, b: set<nat>)
    requires Ordered(rows) && a < b && b <= EvictableIds(rows, req)
    requires LowestFirst(rows, req, a) && Fits(Without(rows, a), req, limits)
    ensures !NoMoreThanNeeded(rows, req, limits, b)
  {
    var last := LastOf(rows, req, b);
    LastIsSpared(rows, req, a, b, last);
    var extra := (b - {last.id}) - a;
    assert a + extra == b - {last.id};
    WithoutTwice(rows, a, extra);
    WithoutIsLighter(Without(rows, a), extra);
  }

  lemma LastIsSpared(rows: seq<Item>, req: Request, a: set<nat>, b: set<nat>, last: Item)
    requires a < b && b <= EvictableIds(rows, req)
    requires LowestFirst(rows, req, a) && IsLast(rows, b, last)
    ensures last.id !in a
  {
    assert !(b <= a);
    var i :| i in b && i !in a;
    var x := RowOf(rows, req, i);
    assert x == last || Before(x, last);
  }

  lemma {:induction false} LastOf(rows: seq<Item>, req: Request, ids: set<nat>) returns (last: Item)
    requires Ordered(rows) && ids != {} && ids <= EvictableIds(rows, req)
    ensures IsLast(rows, ids, last)
    decreases |ids|
  {
    var i :| i in ids;
    var x := RowOf(rows, req, i);
    if ids == {i} {
      last := x;
      forall y | y in rows && y.id in ids ensures y == x { SameId(rows, y, x); }
    } else {
      var rest := ids - {i};
      assert rest < ids;
      var m := LastOf(rows, req, rest);
      last := if Before(m, x) then x else m;
      forall y | y in rows && y.id in ids ensures y == last || Before(y, last) {
        if y.id == i { SameId(rows, y, x); }
      }
    }
  }

  // ------------------------------------------------------------------ enqueue

  ghost predicate KeysUnique(rows: seq<Item>) {
    forall x, y | x in rows && y in rows && x.key == y.key :: x == y
  }

  ghost predicate DedupesUnique(rows: seq<Item>) {
    forall x, y | x in rows && y in rows && x.dedupe.Some? && x.dedupe == y.dedupe :: x == y
  }

  ghost predicate ValidRows(rows: seq<Item>, nextId: nat, limits: Limits) {
    && Ordered(rows)
    && (forall x | x in rows :: x.id < nextId)
    && KeysUnique(rows)
    && DedupesUnique(rows)
    && Bytes(rows) <= limits.bytes && Events(rows) <= limits.events
  }

  function Holding(rows: seq<Item>, key: string): (x: Option<Item>)
    ensures x.Some? ==> x.value in rows && x.value.key == key
    ensures x.None? ==> forall y | y in rows :: y.key != key
  {
    if rows == [] then None
    else if rows[0].key == key then Some(rows[0])
    else Holding(rows[1..], key)
  }

  // The rows a request with this dedupe key replaces.
  function Replaced(rows: seq<Item>, kind: Kind): set<nat> {
    set x | x in rows && x.dedupe.Some? && x.dedupe == DedupeKey(kind) :: x.id
  }

  function NewItem(id: nat, req: Request): Item {
    Item(id, req.key, DedupeKey(req.kind), req.bytes, req.Events(), Priority(req.kind), req.report, 0, None)
  }

  datatype Placed = Placed(rows: seq<Item>, nextId: nat, id: nat)

  function Enqueued(rows: seq<Item>, nextId: nat, req: Request, limits: Limits): Result<Placed, Failure> {
    if !req.Admissible() then Err(Invalid)
    else
      match Holding(rows, req.key)
      case Some(x) => Ok(Placed(rows, nextId, x.id))
      case None =>
        if req.bytes > limits.bytes || req.Events() > limits.events then Err(Full)
        else
          match RoomFor(Without(rows, Replaced(rows, req.kind)), req, limits)
          case None => Err(Full)
          case Some(room) => Ok(Placed(room + [NewItem(nextId, req)], nextId + 1, nextId))
  }

  lemma {:induction false} SumsAppend(rows: seq<Item>, x: Item)
    ensures Bytes(rows + [x]) == Bytes(rows) + x.bytes
    ensures Events(rows + [x]) == Events(rows) + x.events
  {
    if rows != [] {
      SumsAppend(rows[1..], x);
      assert (rows + [x])[1..] == rows[1..] + [x];
    } else {
      assert rows + [x] == [x];
      assert [x][1..] == [];
    }
  }

  ghost predicate Queued(rows: seq<Item>, id: nat, key: string) {
    exists x :: x in rows && x.id == id && x.key == key
  }

  // What a successful enqueue does: a report already queued is left alone; otherwise the new item
  // comes last, and the rows before it are the old ones less the replaced report and one eviction
  // that is just enough. Everything it kept keeps its place, and both limits hold again.
  lemma EnqueueKeepsBounds(rows: seq<Item>, nextId: nat, req: Request, limits: Limits)
      returns (evicted: set<nat>)
    requires ValidRows(rows, nextId, limits) && Enqueued(rows, nextId, req, limits).Ok?
    ensures var p := Enqueued(rows, nextId, req, limits).value;
            && ValidRows(p.rows, p.nextId, limits)
            && Queued(p.rows, p.id, req.key)
            && (Holding(rows, req.key).Some? ==> p.rows == rows && p.nextId == nextId)
            && (Holding(rows, req.key).None? ==>
                  var rest := Without(rows, Replaced(rows, req.kind));
                  && p.rows == Without(rest, evicted) + [NewItem(nextId, req)]
                  && JustEnough(rest, req, limits, evicted))
  {
    var p := Enqueued(rows, nextId, req, limits).value;
    if Holding(rows, req.key).Some? {
      evicted := {};
      assert Holding(rows, req.key).value in p.rows;
    } else {
      var rest := Without(rows, Replaced(rows, req.kind));
      WithoutOrdered(rows, Replaced(rows, req.kind));
      evicted := EvictionIsJustEnough(rest, req, limits);
      var room := Without(rest, evicted);
      WithoutOrdered(rest, evicted);
      AppendKeepsValid(rows, nextId, req, limits, room);
      assert p.rows[|room|] == NewItem(nextId, req);
    }
  }

  lemma EnqueuedIsValid(rows: seq<Item>, nextId: nat, req: Request, limits: Limits)
    requires ValidRows(rows, nextId, limits)
    ensures match Enqueued(rows, nextId, req, limits)
            case Err(_) => true
            case Ok(p) => ValidRows(p.rows, p.nextId, limits) && Queued(p.rows, p.id, req.key)
  {
    if Enqueued(rows, nextId, req, limits).Ok? {
      var _ := EnqueueKeepsBounds(rows, nextId, req, limits);
    }
  }

  lemma AppendKeepsValid(rows: seq<Item>, nextId: nat, req: Request, limits: Limits, room: seq<Item>)
    requires ValidRows(rows, nextId, limits) && Holding(rows, req.key).None?
    requires Ordered(room) && Fits(room, req, limits)
    requires forall x | x in room :: x in rows && x.id !in Replaced(rows, req.kind)
    ensures ValidRows(room + [NewItem(nextId, req)], nextId + 1, limits)
  {
    var x := NewItem(nextId, req);
    SumsAppend(room, x);
    AppendKeepsKeys(room, x);
    assert Ordered(room + [x]) by {
      assert forall i | 0 <= i < |room| :: room[i] in room;
    }
  }

  lemma AppendKeepsKeys(room: seq<Item>, x: Item)
    requires KeysUnique(room) && DedupesUnique(room)
    requires forall y | y in room :: y.key != x.key && (x.dedupe.Some? ==> y.dedupe != x.dedupe)
    ensures KeysUnique(room + [x]) && DedupesUnique(room + [x])
  {
  }

  // It raises Full exactly when even removing every row it may remove leaves too little room.
  lemma EnqueueFullIff(rows: seq<Item>, nextId: nat, req: Request, limits: Limits)
    requires ValidRows(rows, nextId, limits) && req.Admissible() && Holding(rows, req.key).None?
    ensures Enqueued(rows, nextId, req, limits) == Err(Full) <==>
              var rest := Without(rows, Replaced(rows, req.kind));
              !Fits(Without(rest, EvictableIds(rest, req)), req, limits)
  {
    WithoutOrdered(rows, Replaced(rows, req.kind));
    RoomIff(Without(rows, Replaced(rows, req.kind)), req, limits);
  }

  // Terminal reports are protected: no enqueue of another key ever drops one.
  lemma ProtectedSurvive(rows: seq<Item>, nextId: nat, req: Request, limits: Limits, x: Item)
    requires ValidRows(rows, nextId, limits) && Enqueued(rows, nextId, req, limits).Ok?
    requires x in rows && x.priority >= PROTECTED_PRIORITY && x.dedupe.None?
    ensures x in Enqueued(rows, nextId, req, limits).value.rows
  {
    var evicted := EnqueueKeepsBounds(rows, nextId, req, limits);
    if Holding(rows, req.key).None? {
      var rest := Without(rows, Replaced(rows, req.kind));
      forall y | y in rows && y.id == x.id ensures y == x { SameId(rows, y, x); }
      assert x in rest;
      assert x.id !in EvictableIds(rest, req);
      assert x in Without(rest, evicted);
    }
  }

  // In words: the starts and ends of runs and the ends of commands outlive every later enqueue.
  lemma TerminalReportsSurvive(rows: seq<Item>, nextId: nat, req: Request, limits: Limits, x: Item, kind: Kind)
    requires ValidRows(rows, nextId, limits) && Enqueued(rows, nextId, req, limits).Ok?
    requires x in rows && x.priority == Priority(kind) && x.dedupe == DedupeKey(kind)
    requires kind.RunStart? || kind.RunFinish? || kind.CommandFinish?
    ensures x in Enqueued(rows, nextId, req, limits).value.rows
  {
    ProtectedSurvive(rows, nextId, req, limits, x);
  }

  // A heartbeat takes the place of every queued heartbeat, and a board's status of that board's.
  lemma OneOfItsKind(rows: seq<Item>, nextId: nat, req: Request, limits: Limits, x: Item)
    requires ValidRows(rows, nextId, limits) && Enqueued(rows, nextId, req, limits).Ok?
    requires forall y | y in rows :: y.key != req.key
    requires x in Enqueued(rows, nextId, req, limits).value.rows
    ensures req.kind.Heartbeat? && x.dedupe == Some("heartbeat") ==> x.id == nextId && x.report == req.report
    ensures req.kind.BoardStatus? && req.kind.board.Some? && x.dedupe == Some("board:" + req.kind.board.value) ==>
              x.id == nextId && x.report == req.report
    ensures x.id != nextId ==> x in rows
  {
    var evicted := EnqueueKeepsBounds(rows, nextId, req, limits);
    assert Holding(rows, req.key).None?;
    var rest := Without(rows, Replaced(rows, req.kind));
    if x in Without(rest, evicted) {
      assert x in rows && x.id !in Replaced(rows, req.kind);
    }
  }

  // What an enqueue evicts: rows below 100 and not above the new report, and of those no row is left
  // that has a lower priority than an evicted one, or the same and is older.
  lemma EvictsLowestAndOldest(rows: seq<Item>, nextId: nat, req: Request, limits: Limits, x: Item, y: Item)
    requires ValidRows(rows, nextId, limits) && Enqueued(rows, nextId, req, limits).Ok?
    requires x in rows && x !in Enqueued(rows, nextId, req, limits).value.rows
    requires x.dedupe.None? || x.dedupe != DedupeKey(req.kind)
    requires y in rows && y in Enqueued(rows, nextId, req, limits).value.rows
    requires y.priority < 100 && y.priority <= Priority(req.kind)
    ensures x.priority < 100 && x.priority <= Priority(req.kind)
    ensures x.priority < y.priority || (x.priority == y.priority && x.id < y.id)
  {
    var evicted := EnqueueKeepsBounds(rows, nextId, req, limits);
    if Holding(rows, req.key).None? {
      var rest := Without(rows, Replaced(rows, req.kind));
      NotReplaced(rows, req.kind, x);
      GoneRow(rows, nextId, req, rest, evicted, x);
      KeptRow(rows, nextId, req, rest, evicted, y);
      LowestIs(rest, req, evicted, x, y);
    }
  }

  lemma GoneRow(rows: seq<Item>, nextId: nat, req: Request, rest: seq<Item>, evicted: set<nat>, x: Item)
    requires Ordered(rows) && rest == Without(rows, Replaced(rows, req.kind)) && evicted <= EvictableIds(rest, req)
    requires x in rows && x.id !in Replaced(rows, req.kind) && x !in Without(rest, evicted) + [NewItem(nextId, req)]
    ensures x in rest && x.id in evicted && Evictable(x, req)
  {
    var z := RowOf(rest, req, x.id);
    SameId(rows, x, z);
  }

  lemma LowestIs(rest: seq<Item>, req: Request, evicted: set<nat>, x: Item, y: Item)
    requires LowestFirst(rest, req, evicted) && x in rest && x.id in evicted && y in rest && y.id !in evicted
    requires Evictable(y, req)
    ensures x.priority < y.priority || (x.priority == y.priority && x.id < y.id)
  {
  }

  lemma NotReplaced(rows: seq<Item>, kind: Kind, x: Item)
    requires Ordered(rows) && x in rows && (x.dedupe.None? || x.dedupe != DedupeKey(kind))
    ensures x.id !in Replaced(rows, kind)
  {
    if x.id in Replaced(rows, kind) {
      var y :| y in rows && y.dedupe.Some? && y.dedupe == DedupeKey(kind) && y.id == x.id;
      SameId(rows, x, y);
      assert false;
    }
  }

  lemma KeptRow(rows: seq<Item>, nextId: nat, req: Request, rest: seq<Item>, evicted: set<nat>, y: Item)
    requires forall x | x in rows :: x.id < nextId
    requires rest == Without(rows, Replaced(rows, req.kind)) && y in rows
    requires y in Without(rest, evicted) + [NewItem(nextId, req)]
    ensures y in rest && y.id !in evicted
  {
  }

  // ------------------------------------------------------------------ pending and defer

  // The head of the queue while it is due: a deferred row holds back everything behind it.
  function DuePrefix(rows: seq<Item>, limit: nat, due: int): (items: seq<Item>)
    ensures items <= rows && |items| <= limit
    ensures forall x | x in items :: x.next.None? || x.next.value <= due
    ensures |items| < |rows| && |items| < limit ==>
              rows[|items|].next.Some? && rows[|items|].next.value > due
  {
    if rows == [] || limit == 0 || (rows[0].next.Some? && rows[0].next.value > due) then []
    else [rows[0]] + DuePrefix(rows[1..], limit - 1, due)
  }

  function Deferred(rows: seq<Item>, id: nat, next: int): (r: seq<Item>)
    ensures |r| == |rows|
    ensures forall i | 0 <= i < |rows| ::
              r[i] == if rows[i].id == id then rows[i].(attempts := rows[i].attempts + 1, next := Some(next))
                      else rows[i]
  {
    if rows == [] then []
    else [if rows[0].id == id then rows[0].(attempts := rows[0].attempts + 1, next := Some(next)) else rows[0]]
         + Deferred(rows[1..], id, next)
  }

  lemma WithoutHead(rows: seq<Item>)
    requires Ordered(rows) && rows != []
    ensures Without(rows, {rows[0].id}) == rows[1..]
  {
    WithoutNothing(rows[1..], {rows[0].id});
  }

  lemma {:induction false} DeferredWeight(rows: seq<Item>, id: nat, next: int)
    ensures Bytes(Deferred(rows, id, next)) == Bytes(rows)
    ensures Events(Deferred(rows, id, next)) == Events(rows)
  {
    if rows != [] {
      DeferredWeight(rows[1..], id, next);
    }
  }

  lemma DeferKeepsValid(rows: seq<Item>, nextId: nat, limits: Limits, id: nat, next: int)
    requires ValidRows(rows, nextId, limits)
    ensures ValidRows(Deferred(rows, id, next), nextId, limits)
  {
    DeferredWeight(rows, id, next);
    DeferKeepsKeys(rows, id, next);
    forall x | x in Deferred(rows, id, next) ensures x.id < nextId {
      var y := DeferredFrom(rows, id, next, x);
    }
  }

  lemma DeferredFrom(rows: seq<Item>, id: nat, next: int, x: Item) returns (y: Item)
    requires x in Deferred(rows, id, next)
    ensures y in rows && x == if y.id == id then y.(attempts := y.attempts + 1, next := Some(next)) else y
  {
    var i :| 0 <= i < |rows| && Deferred(rows, id, next)[i] == x;
    y := rows[i];
  }

  lemma DeferKeepsKeys(rows: seq<Item>, id: nat, next: int)
    requires KeysUnique(rows) && DedupesUnique(rows)
    ensures KeysUnique(Deferred(rows, id, next)) && DedupesUnique(Deferred(rows, id, next))
  {
    var r := Deferred(rows, id, next);
    forall x, y | x in r && y in r && x.key == y.key ensures x == y {
      SameOrigin(rows, id, next, x, y);
    }
    forall x, y | x in r && y in r && x.dedupe.Some? && x.dedupe == y.dedupe ensures x == y {
      SameOrigin(rows, id, next, x, y);
    }
  }

  lemma SameOrigin(rows: seq<Item>, id: nat, next: int, x: Item, y: Item)
    requires KeysUnique(rows) && DedupesUnique(rows)
    requires x in Deferred(rows, id, next) && y in Deferred(rows, id, next)
    requires x.key == y.key || (x.dedupe.Some? && x.dedupe == y.dedupe)
    ensures x == y
  {
    var x0 := DeferredFrom(rows, id, next, x);
    var y0 := DeferredFrom(rows, id, next, y);
    assert x0 == y0;
  }

  lemma RemovalKeepsValid(rows: seq<Item>, nextId: nat, limits: Limits, ids: set<nat>)
    requires ValidRows(rows, nextId, limits)
    ensures ValidRows(Without(rows, ids), nextId, limits)
  {
    WithoutOrdered(rows, ids);
    WithoutIsLighter(rows, ids);
  }

  // ------------------------------------------------------------------ the store itself

  class ControlStore {
    const limits: Limits
    var rows: seq<Item>
    var nextId: nat
    var rejections: nat

    ghost predicate Valid()
      reads this
    {
      ValidRows(rows, nextId, limits)
    }

    constructor (limits: Limits)
      ensures Valid() && rows == [] && nextId == 1 && rejections == 0 && this.limits == limits
    {
      this.limits := limits;
      rows, nextId, rejections := [], 1, 0;
    }

    // The loop of _make_room, deleting one row per round inside the caller's transaction.
    method MakeRoom(req: Request) returns (ok: bool)
      modifies this`rows
      ensures ok == RoomFor(old(rows), req, limits).Some?
      ensures ok ==> rows == RoomFor(old(rows), req, limits).value
    {
      while !Fits(rows, req, limits)
        invariant RoomFor(rows, req, limits) == RoomFor(old(rows), req, limits)
        decreases |rows|
      {
        var candidate := Victim(rows, req);
        if candidate.None? {
          return false;
        }
        WithoutShrinks(rows, candidate.value);
        rows := Without(rows, {candidate.value.id});
      }
      ok := true;
    }

    // Raises and changes nothing (the replaced report included), or ends within both limits with
    // the report queued.
    method Enqueue(req: Request) returns (r: Result<nat, Failure>)
      requires Valid()
      modifies this`rows, this`nextId
      ensures Valid()
      ensures match Enqueued(old(rows), old(nextId), req, limits)
              case Err(e) => r == Err(e) && rows == old(rows) && nextId == old(nextId)
              case Ok(p) => r == Ok(p.id) && rows == p.rows && nextId == p.nextId
    {
      if !req.Admissible() {
        return Err(Invalid);
      }
      var duplicate := Holding(rows, req.key);
      if duplicate.Some? {
        return Ok(duplicate.value.id);
      }
      EnqueuedIsValid(rows, nextId, req, limits);
      r := Insert(req);
    }

    // The write transaction of enqueue once the key is known to be new; an exception rolls it back.
    method Insert(req: Request) returns (r: Result<nat, Failure>)
      requires req.Admissible() && Holding(rows, req.key).None?
      modifies this`rows, this`nextId
      ensures match Enqueued(old(rows), old(nextId), req, limits)
              case Err(e) => r == Err(e) && rows == old(rows) && nextId == old(nextId)
              case Ok(p) => r == Ok(p.id) && rows == p.rows && nextId == p.nextId
    {
      var before := rows;
      ghost var result := Enqueued(rows, nextId, req, limits);
      rows := Without(rows, Replaced(rows, req.kind));
      var ok := false;
      if req.bytes <= limits.bytes && req.Events() <= limits.events {
        ok := MakeRoom(req);
      }
      if ok {
        rows := rows + [NewItem(nextId, req)];
        nextId := nextId + 1;
        r := Ok(nextId - 1);
        assert result == Ok(Placed(rows, nextId, nextId - 1));
      } else {
        rows := before;
        r := Err(Full);
        assert result == Err(Full);
      }
    }

    method Pending(limit: nat, due: int) returns (items: Option<seq<Item>>)
      ensures items.Some? <==> 1 <= limit <= 50
      ensures items.Some? ==> items.value == DuePrefix(rows, limit, due)
    {
      if limit < 1 || limit > 50 {
        return None;
      }
      var page := if |rows| <= limit then rows else rows[..limit];
      var out: seq<Item> := [];
      var i := 0;
      while i < |page| && !(page[i].next.Some? && page[i].next.value > due)
        invariant 0 <= i <= |page| && out == page[..i]
        invariant forall k | 0 <= k < i :: page[k].next.None? || page[k].next.value <= due
      {
        out := out + [page[i]];
        i := i + 1;
      }
      DuePrefixIs(rows, limit, due, i);
      return Some(out);
    }

    // The next four keep Valid(), by RemovalKeepsValid and DeferKeepsValid.
    method Acknowledge(id: nat)
      modifies this`rows
      ensures rows == Without(old(rows), {id})
    {
      rows := Without(rows, {id});
    }

    method Reject(id: nat) returns (ok: bool)
      modifies this`rows, this`rejections
      ensures rows == Without(old(rows), {id})
      ensures ok <==> exists x :: x in old(rows) && x.id == id
      ensures rejections == old(rejections) + if ok then 1 else 0
    {
      ok := exists x :: x in rows && x.id == id;
      if !ok {
        WithoutNothing(rows, {id});
        return;
      }
      rows := Without(rows, {id});
      rejections := rejections + 1;
    }

    method RecordRejection()
      modifies this`rejections
      ensures rejections == old(rejections) + 1
    {
      rejections := rejections + 1;
    }

    method Defer(id: nat, next: int)
      modifies this`rows
      ensures rows == Deferred(old(rows), id, next)
    {
      rows := Deferred(rows, id, next);
    }
  }

  lemma {:induction false} DuePrefixIs(rows: seq<Item>, limit: nat, due: int, n: nat)
    requires n <= |rows| && n <= limit
    requires forall k | 0 <= k < n :: rows[k].next.None? || rows[k].next.value <= due
    requires n < |rows| && n < limit ==> rows[n].next.Some? && rows[n].next.value > due
    ensures DuePrefix(rows, limit, due) == rows[..n]
  {
    if n == 0 {
    } else {
      DuePrefixIs(rows[1..], limit - 1, due, n - 1);
    }
  }
}
