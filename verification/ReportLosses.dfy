// When a report leaves the outbox of scripts/control_client.py. The limits are written out here and the
// laws name none of the functions that decide: a row is lost in a flush only under its answer and its
// attempts, and over every run each submitted report is recorded, queued, or ended for a stated reason.
module ReportLosses {
  import opened Wrappers
  import opened Outbox
  import opened ReportOrder

  // The time, and the last delivery seen, after some exchanges.
  function Watch(clock: int, delivered: Option<int>, turn: nat, net: Net, k: nat): (int, Option<int>)
    decreases k
  {
    if k == 0 then (clock, delivered)
    else
      var now := clock + net(turn).elapsed;
      Watch(now, if net(turn).answer.Delivered? then Some(now) else delivered, turn + 1, net, k - 1)
  }

  function Clock(c: Client, k: nat, net: Net): int {
    Watch(c.clock, c.delivered, c.turn, net, k).0
  }

  function LastDelivery(c: Client, k: nat, net: Net): Option<int> {
    Watch(c.clock, c.delivered, c.turn, net, k).1
  }

  // An answer that ends a report that was not delivered: a rejection, the tenth unavailable answer or a
  // later one within ten minutes of a delivery, or the third unreadable one or a later one.
  predicate EndsReport(answer: Answer, attempts: nat, clock: int, delivered: Option<int>) {
    || answer.Rejected?
    || (answer.Unavailable? && attempts + 1 >= 10 && delivered.Some? && clock - delivered.value < 600)
    || (answer.Unreadable? && attempts + 1 >= 3)
  }

  // Row i is given up at its try in a flush from c; it leaves the queue then or when it is delivered.
  predicate GivenUp(c: Client, i: nat, net: Net)
    requires i < |c.rows|
  {
    EndsReport(net(c.turn + i).answer, c.rows[i].attempts, Clock(c, i + 1, net), LastDelivery(c, i + 1, net))
  }

  predicate Leaves(c: Client, i: nat, net: Net)
    requires i < |c.rows|
  {
    net(c.turn + i).answer.Delivered? || GivenUp(c, i, net)
  }

  function Again(x: Item, clock: int): Item {
    x.(attempts := x.attempts + 1,
       next := Some(clock + if x.attempts == 0 then 2 else if x.attempts == 1 then 5 else 15))
  }

  // A flush stopped at row i: the row stays in place with one attempt more and a later time, or as it
  // was when the process died; only an unavailable Worker starts a cooldown.
  ghost predicate StoppedAt(c: Client, d: Client, i: nat, net: Net)
    requires i < |c.rows|
  {
    var answer := net(c.turn + i).answer;
    && d.rows == [if answer.Died? then c.rows[i] else Again(c.rows[i], d.clock)] + c.rows[i + 1..]
    && (answer.Unavailable? ==> d.until == d.clock + 60)
    && (!answer.Unavailable? ==> d.until == 0 || d.until == c.until)
  }

  // A flush from c that tried n rows from the head and left d.
  ghost predicate FlushOutcome(c: Client, d: Client, n: nat, net: Net) {
    && n <= |c.rows| && d.turn == c.turn + n
    && (d.clock, d.delivered) == Watch(c.clock, c.delivered, c.turn, net, n)
    && (forall i | 0 <= i < n - 1 :: Leaves(c, i, net))
    && (forall i | 0 <= i < n && net(c.turn + i).answer.Delivered? :: c.rows[i].key in d.accepted)
    && c.accepted <= d.accepted
    && if n == 0 || Leaves(c, n - 1, net) then d.rows == c.rows[n..] && (d.until == 0 || d.until == c.until)
       else StoppedAt(c, d, n - 1, net)
  }

  // Whether the try of its last row stopped the flush.
  predicate Stopped(c: Client, n: nat, net: Net) {
    0 < n <= |c.rows| && !Leaves(c, n - 1, net)
  }

  // One row tried and gone.
  ghost predicate HeadGone(c: Client, d: Client, net: Net)
    requires c.rows != []
  {
    && Leaves(c, 0, net) && d.rows == c.rows[1..] && d.turn == c.turn + 1
    && (d.clock, d.delivered) == Watch(c.clock, c.delivered, c.turn, net, 1)
    && (d.until == 0 || d.until == c.until) && c.accepted <= d.accepted
    && (net(c.turn).answer.Delivered? ==> c.rows[0].key in d.accepted)
  }

  lemma HeadAnswer(c: Client, net: Net)
    requires c.rows != []
    ensures var x := c.rows[0];
            var p := Posted(c, x.key, x.report, net);
            && GoesOn(p, x, net(c.turn).answer) == Leaves(c, 0, net)
            && Watch(c.clock, c.delivered, c.turn, net, 1) == (p.clock, p.delivered)
  {
    var p := Posted(c, c.rows[0].key, c.rows[0].report, net);
    assert Watch(c.clock, c.delivered, c.turn, net, 1) == Watch(p.clock, p.delivered, p.turn, net, 0);
  }

  lemma HeadLeaves(c: Client, p: Client, net: Net)
    requires c.rows != [] && Ordered(c.rows) && Leaves(c, 0, net)
    requires p == Posted(c, c.rows[0].key, c.rows[0].report, net)
    ensures HeadGone(c, Settle(p, c.rows[0], net(c.turn).answer), net)
  {
    HeadAnswer(c, net);
    SettleIs(p, c.rows[0], net(c.turn).answer);
    WithoutHead(c.rows);
  }

  lemma Postponed(p: Client, x: Item, next: int, until: int)
    requires Ordered(p.rows) && p.rows != [] && x == p.rows[0]
    ensures var d := Postpone(p, x.id, next, until);
            && d.rows == [x.(attempts := x.attempts + 1, next := Some(next))] + p.rows[1..]
            && d.until == until && Settled(p, d)
  {
    DeferredHead(p.rows, next);
  }

  lemma HeadStays(c: Client, p: Client, net: Net)
    requires c.rows != [] && Ordered(c.rows) && !Leaves(c, 0, net)
    requires p == Posted(c, c.rows[0].key, c.rows[0].report, net)
    ensures StoppedAt(c, Settle(p, c.rows[0], net(c.turn).answer), 0, net)
    ensures Settled(p, Settle(p, c.rows[0], net(c.turn).answer))
  {
    HeadAnswer(c, net);
    var x := c.rows[0];
    var answer := net(c.turn).answer;
    SettleIs(p, x, answer);
    if answer.Died? {
      assert c.rows == [x] + c.rows[1..];
    } else {
      Postponed(p, x, p.clock + RetryDelay(x.attempts), DelayedUntil(p, answer));
    }
  }

  // Settling touches rows and cooldown only.
  predicate Settled(p: Client, d: Client) {
    d == p.(rows := d.rows, until := d.until)
  }

  lemma HeadStops(c: Client, limits: Limits, net: Net)
    requires Inv(c, limits) && c.rows != [] && !Leaves(c, 0, net)
    ensures FlushOutcome(c, Settle(Posted(c, c.rows[0].key, c.rows[0].report, net), c.rows[0], net(c.turn).answer), 1, net)
  {
    HeadAnswer(c, net);
    HeadStays(c, Posted(c, c.rows[0].key, c.rows[0].report, net), net);
  }

  lemma DeferredHead(rows: seq<Item>, next: int)
    requires Ordered(rows) && rows != []
    ensures Deferred(rows, rows[0].id, next) == [rows[0].(attempts := rows[0].attempts + 1, next := Some(next))] + rows[1..]
  {
  }

  lemma WatchOneMore(c: Client, d: Client, net: Net, k: nat)
    requires c.rows != [] && HeadGone(c, d, net)
    ensures Watch(c.clock, c.delivered, c.turn, net, k + 1) == Watch(d.clock, d.delivered, d.turn, net, k)
  {
    assert Watch(c.clock, c.delivered, c.turn, net, 1)
        == Watch(c.clock + net(c.turn).elapsed,
                 if net(c.turn).answer.Delivered? then Some(c.clock + net(c.turn).elapsed) else c.delivered,
                 c.turn + 1, net, 0);
  }

  lemma LeavesOneMore(c: Client, d: Client, net: Net, i: nat)
    requires c.rows != [] && HeadGone(c, d, net) && i < |d.rows|
    ensures Leaves(c, i + 1, net) == Leaves(d, i, net)
  {
    WatchOneMore(c, d, net, i + 1);
    assert c.rows[i + 1] == d.rows[i];
  }

  lemma OneMore(c: Client, d: Client, e: Client, m: nat, net: Net)
    requires c.rows != [] && HeadGone(c, d, net) && FlushOutcome(d, e, m, net)
    ensures FlushOutcome(c, e, m + 1, net) && (Stopped(d, m, net) ==> Stopped(c, m + 1, net))
  {
    WatchOneMore(c, d, net, m);
    forall i | 0 <= i < m ensures Leaves(c, i + 1, net) == Leaves(d, i, net) { LeavesOneMore(c, d, net, i); }
    forall i | 0 <= i < m ensures Leaves(c, i, net) {
      if i > 0 { assert Leaves(c, i - 1 + 1, net) == Leaves(d, i - 1, net); }
    }
    forall i | 0 <= i < m + 1 && net(c.turn + i).answer.Delivered? ensures c.rows[i].key in e.accepted {
      if i > 0 { assert net(d.turn + (i - 1)).answer.Delivered? && c.rows[i] == d.rows[i - 1]; }
    }
    if m > 0 {
      assert Leaves(c, m, net) == Leaves(d, m - 1, net);
      assert d.rows[m..] == c.rows[m + 1..] && d.rows[m - 1] == c.rows[m];
    }
  }

  lemma {:induction false} FlushItemsEnd(c: Client, items: seq<Item>, limits: Limits, net: Net) returns (n: nat)
    requires Inv(c, limits) && items <= c.rows
    ensures n <= |items| && FlushOutcome(c, FlushItems(c, items, net), n, net)
    ensures n < |items| ==> Stopped(c, n, net)
    decreases |items|
  {
    n := 0;
    if items != [] {
      var x := items[0];
      assert x == c.rows[0];
      var p := Posted(c, x.key, x.report, net);
      var d := Settle(p, x, net(c.turn).answer);
      HeadAnswer(c, net);
      if Leaves(c, 0, net) {
        HeadTried(c, items, limits, net);
        HeadLeaves(c, p, net);
        var m := FlushItemsEnd(d, items[1..], limits, net);
        OneMore(c, d, FlushItems(d, items[1..], net), m, net);
        n := m + 1;
      } else {
        HeadStops(c, limits, net);
        n := 1;
      }
    }
  }

  // The whole law of a flush. Nothing happens in a cooldown. Otherwise rows are tried from the head:
  // all but the last leave the queue, each delivered or given up; the rest stays as it was; and the
  // flush ends at a row that had to wait, at the page of 50, at the end, or at a row not due yet.
  lemma FlushLaw(c: Client, retryDeferred: bool, limits: Limits, net: Net) returns (n: nat)
    requires Inv(c, limits)
    ensures FlushOutcome(c, Flushed(c, retryDeferred, net), n, net)
    ensures c.clock < c.until ==> n == 0 && Flushed(c, retryDeferred, net) == c
    ensures c.clock >= c.until && !Stopped(c, n, net) ==>
              n == 50 || n == |c.rows| || !Due(c.rows[n], retryDeferred, c.clock)
    ensures n <= 50 && forall i | 0 <= i < n :: Due(c.rows[i], retryDeferred, c.clock)
  {
    n := 0;
    if c.clock >= c.until {
      var items := DuePrefix(c.rows, 50, if retryDeferred then FOREVER else c.clock);
      n := FlushItemsEnd(c, items, limits, net);
      forall i | 0 <= i < n ensures Due(c.rows[i], retryDeferred, c.clock) {
        assert c.rows[i] == items[i] && items[i] in items;
      }
    }
  }

  // Due now; asked for deferred rows too, anything dated before the year 10000 is due.
  predicate Due(x: Item, retryDeferred: bool, clock: int) {
    x.next.None? || x.next.value <= (if retryDeferred then 0x1_0000_0000_0000 else clock)
  }

  // ------------------------------------------------------------------ sending

  // A report sent with an empty queue outside a cooldown: delivered or rejected it is not queued; an
  // unavailable or unreadable answer queues it as a fresh row whenever it is well formed and fits the
  // limits alone, and an unavailable one starts the cooldown.
  lemma DirectSendFallsBack(c: Client, req: Request, limits: Limits, net: Net)
    requires c.rows == [] && c.clock >= c.until
    ensures var d := SentNow(c, req, limits, net);
            var answer := net(c.turn).answer;
            && d.turn == c.turn + 1 && d.clock == c.clock + net(c.turn).elapsed
            && (answer.Delivered? ==> d.rows == [] && req.key in d.accepted && d.until == 0)
            && (answer.Rejected? || answer.Died? ==> d.rows == [] && d.until == c.until)
            && (answer.Unavailable? ==> d.until == d.clock + 60)
            && (answer.Unavailable? || answer.Unreadable? ==>
                  d.rows == if req.Admissible() && req.bytes <= limits.bytes && req.Events() <= limits.events
                            then [Item(c.nextId, req.key, DedupeKey(req.kind), req.bytes, req.Events(),
                                       Priority(req.kind), req.report, 0, None)]
                            else [])
  {
    assert Without([], Replaced([], req.kind)) == [];
    assert Bytes([]) == 0 && Events([]) == 0;
  }

  // In a cooldown nothing is tried.
  lemma CooldownTriesNothing(c: Client, req: Request, limits: Limits, net: Net)
    requires c.clock < c.until
    ensures Sent(c, req, limits, net).turn == c.turn && Sent(c, req, limits, net).tries == c.tries
    ensures Sent(c, req, limits, net).until == c.until && Sent(c, req, limits, net).clock == c.clock
  {
  }

  // ------------------------------------------------------------------ the fate of every report

  ghost predicate Waiting(c: Client, report: nat, key: string) {
    exists x :: x in c.rows && x.report == report && x.key == key
  }

  // The report was given up at a try of a flush from c to d.
  ghost predicate GivenUpBy(c: Client, d: Client, report: nat, net: Net) {
    exists i: nat :: i < d.turn - c.turn && GivenUpAs(c, i, report, net)
  }

  predicate GivenUpAs(c: Client, i: nat, report: nat, net: Net) {
    i < |c.rows| && c.rows[i].report == report && GivenUp(c, i, net)
  }

  // Queueing a request removed the row: the request replaces it, or there was no room with it and it was
  // one of those that may go.
  ghost predicate Displaced(c: Client, req: Request, limits: Limits, report: nat) {
    exists x :: x in c.rows && x.report == report && DisplacedAs(c, req, limits, x)
  }

  predicate DisplacedAs(c: Client, req: Request, limits: Limits, x: Item) {
    || (x.dedupe.Some? && x.dedupe == DedupeKey(req.kind))
    || (x.priority < 100 && x.priority <= Priority(req.kind)
        && !Fits(Without(c.rows, Replaced(c.rows, req.kind)), req, limits))
  }

  // It was refused: malformed, or too large for the room that evicting every row it may evict leaves.
  ghost predicate Refused(c: Client, req: Request, limits: Limits) {
    || !req.Admissible() || req.bytes > limits.bytes || req.Events() > limits.events
    || (var rest := Without(c.rows, Replaced(c.rows, req.kind));
        !Fits(Without(rest, EvictableIds(rest, req)), req, limits))
  }

  // The report just numbered was not taken over: refused, queued already under its key, or, sent directly,
  // rejected or cut off before its answer.
  ghost predicate NotTaken(c: Client, req: Request, limits: Limits, net: Net) {
    || Refused(c, req, limits)
    || (exists x :: x in c.rows && x.key == req.key)
    || (c.rows == [] && c.clock >= c.until && (net(c.turn).answer.Rejected? || net(c.turn).answer.Died?))
  }

  // The reasons for which sending a numbered request may end a report, queued before it or its own.
  ghost predicate SendEnds(c: Client, req: Request, report: nat, limits: Limits, net: Net) {
    || Displaced(c, req, limits, report)
    || (c.rows != [] && c.clock >= c.until
        && GivenUpBy(Enqueue(c, req, limits), SentNow(c, req, limits, net), report, net))
    || (report == req.report && NotTaken(c, req, limits, net))
  }

  // The reasons for which a call may end a report.
  ghost predicate Ends(c: Client, call: Call, report: nat, limits: Limits, net: Net) {
    match call
    case Drain(retryDeferred) => GivenUpBy(c, Flushed(c, retryDeferred, net), report, net)
    case Submit(req) =>
      SendEnds(c.(submitted := c.submitted + 1), req.(report := c.submitted), report, limits, net)
    case _ => false
  }

  // A flush keeps a waiting report, records it, or gives it up.
  lemma FlushFate(c: Client, retryDeferred: bool, report: nat, key: string, limits: Limits, net: Net)
    requires Inv(c, limits) && Waiting(c, report, key)
    ensures var d := Flushed(c, retryDeferred, net);
            Waiting(d, report, key) || key in d.accepted || GivenUpBy(c, d, report, net)
    ensures c.accepted <= Flushed(c, retryDeferred, net).accepted
  {
    var d := Flushed(c, retryDeferred, net);
    var n := FlushLaw(c, retryDeferred, limits, net);
    var x :| x in c.rows && x.report == report && x.key == key;
    var i :| 0 <= i < |c.rows| && c.rows[i] == x;
    RowFate(c, d, n, i, net);
  }

  lemma RowFate(c: Client, d: Client, n: nat, i: nat, net: Net)
    requires FlushOutcome(c, d, n, net) && i < |c.rows|
    ensures var x := c.rows[i];
            Waiting(d, x.report, x.key) || x.key in d.accepted || GivenUpBy(c, d, x.report, net)
  {
    var x := c.rows[i];
    if i >= n {
      StaysBehind(c, d, n, i, net);
    } else if Leaves(c, i, net) {
      if !net(c.turn + i).answer.Delivered? {
        assert GivenUpAs(c, i, x.report, net);
      }
    } else {
      assert StoppedAt(c, d, i, net);
      var y := d.rows[0];
      assert y in d.rows && y.report == x.report && y.key == x.key;
    }
  }

  lemma StaysBehind(c: Client, d: Client, n: nat, i: nat, net: Net)
    requires FlushOutcome(c, d, n, net) && n <= i < |c.rows|
    ensures c.rows[i] in d.rows
  {
    if n == 0 || Leaves(c, n - 1, net) {
      assert d.rows[i - n] == c.rows[i];
    } else {
      assert d.rows[i - n + 1] == c.rows[i];
    }
  }

  // Queueing a request keeps a waiting report or displaces it.
  lemma EnqueueFate(c: Client, req: Request, report: nat, key: string, limits: Limits)
    requires Inv(c, limits) && Waiting(c, report, key)
    ensures Waiting(Enqueue(c, req, limits), report, key) || Displaced(c, req, limits, report)
  {
    var x :| x in c.rows && x.report == report && x.key == key;
    if Enqueued(c.rows, c.nextId, req, limits).Ok? {
      var evicted := EnqueueKeepsBounds(c.rows, c.nextId, req, limits);
      if Holding(c.rows, req.key).None? {
        var rest := Without(c.rows, Replaced(c.rows, req.kind));
        if x.id in Replaced(c.rows, req.kind) {
          ReplacedRow(c, req, x, limits);
        } else if x.id in evicted {
          EvictedRow(c, req, x, evicted, limits);
        } else {
          assert x in rest && x in Without(rest, evicted);
          assert x in Enqueue(c, req, limits).rows;
        }
      }
    }
  }

  lemma ReplacedRow(c: Client, req: Request, x: Item, limits: Limits)
    requires Inv(c, limits) && x in c.rows && x.id in Replaced(c.rows, req.kind)
    ensures DisplacedAs(c, req, limits, x)
  {
    var y :| y in c.rows && y.dedupe.Some? && y.dedupe == DedupeKey(req.kind) && y.id == x.id;
    SameId(c.rows, x, y);
  }

  lemma EvictedRow(c: Client, req: Request, x: Item, evicted: set<nat>, limits: Limits)
    requires Inv(c, limits) && x in c.rows && x.id in evicted
    requires JustEnough(Without(c.rows, Replaced(c.rows, req.kind)), req, limits, evicted)
    ensures DisplacedAs(c, req, limits, x)
  {
    var rest := Without(c.rows, Replaced(c.rows, req.kind));
    var y := RowOf(rest, req, x.id);
    SameId(c.rows, x, y);
    if Fits(rest, req, limits) {
      WithoutOrdered(c.rows, Replaced(c.rows, req.kind));
      var last := LastOf(rest, req, evicted);
      WithoutIsLighter(rest, evicted - {last.id});
    }
  }

  // Queueing a request with a new key refuses it or makes it the last row.
  lemma QueuedOrRefused(c: Client, req: Request, limits: Limits)
    requires Inv(c, limits) && Holding(c.rows, req.key).None?
    ensures Waiting(Enqueue(c, req, limits), req.report, req.key) || Refused(c, req, limits)
  {
    if Enqueued(c.rows, c.nextId, req, limits).Ok? {
      var _ := EnqueueKeepsBounds(c.rows, c.nextId, req, limits);
      assert NewItem(c.nextId, req) in Enqueue(c, req, limits).rows;
    } else if req.Admissible() {
      EnqueueFullIff(c.rows, c.nextId, req, limits);
    }
  }

  lemma SameRows(c: Client, d: Client, report: nat, key: string)
    requires d.rows == c.rows && Waiting(c, report, key)
    ensures Waiting(d, report, key)
  {
  }

  lemma BehindFate(c: Client, req: Request, report: nat, key: string, limits: Limits, net: Net)
    requires Inv(c, limits) && Waiting(c, report, key) && Newest(c, req)
    ensures var d := QueuedThenFlushed(c, req, limits, net);
            || Waiting(d, report, key) || key in d.accepted || Displaced(c, req, limits, report)
            || GivenUpBy(Enqueue(c, req, limits), d, report, net)
  {
    EnqueueFate(c, req, report, key, limits);
    if Enqueued(c.rows, c.nextId, req, limits).Ok? && !Displaced(c, req, limits, report) {
      EnqueueKeepsInv(c, req, limits);
      FlushFate(Enqueue(c, req, limits), false, report, key, limits, net);
    }
  }

  // Sending keeps a waiting report, records it, or ends it for a stated reason.
  lemma SendFate(c: Client, req: Request, report: nat, key: string, limits: Limits, net: Net)
    requires Inv(c, limits) && Waiting(c, report, key) && Newest(c, req)
    ensures var d := SentNow(c, req, limits, net);
            Waiting(d, report, key) || key in d.accepted || SendEnds(c, req, report, limits, net)
  {
    if c.clock < c.until {
      EnqueueFate(c, req, report, key, limits);
    } else {
      BehindFate(c, req, report, key, limits, net);
    }
  }

  // The report sent is queued, recorded, or ended for a stated reason.
  lemma OwnFate(c: Client, req: Request, limits: Limits, net: Net)
    requires Inv(c, limits) && Newest(c, req)
    ensures var d := SentNow(c, req, limits, net);
            Waiting(d, req.report, req.key) || req.key in d.accepted || SendEnds(c, req, req.report, limits, net)
  {
    if !NotTaken(c, req, limits, net) {
      if c.clock < c.until {
        QueuedOrRefused(c, req, limits);
      } else if c.rows != [] {
        OwnBehindFate(c, req, limits, net);
      } else {
        DirectFate(c, req, limits, net);
      }
    }
  }

  lemma OwnBehindFate(c: Client, req: Request, limits: Limits, net: Net)
    requires Inv(c, limits) && Newest(c, req) && !NotTaken(c, req, limits, net)
    ensures var d := QueuedThenFlushed(c, req, limits, net);
            || Waiting(d, req.report, req.key) || req.key in d.accepted
            || GivenUpBy(Enqueue(c, req, limits), d, req.report, net)
  {
    QueuedOrRefused(c, req, limits);
    if Enqueued(c.rows, c.nextId, req, limits).Ok? {
      EnqueueKeepsInv(c, req, limits);
      FlushFate(Enqueue(c, req, limits), false, req.report, req.key, limits, net);
    } else {
      SameRows(Enqueue(c, req, limits), QueuedThenFlushed(c, req, limits, net), req.report, req.key);
    }
  }

  lemma DirectFate(c: Client, req: Request, limits: Limits, net: Net)
    requires c.rows == [] && c.clock >= c.until && !NotTaken(c, req, limits, net)
    ensures var d := SentNow(c, req, limits, net);
            Waiting(d, req.report, req.key) || req.key in d.accepted
  {
    DirectSendFallsBack(c, req, limits, net);
    var d := SentNow(c, req, limits, net);
    if net(c.turn).answer.Unavailable? || net(c.turn).answer.Unreadable? {
      assert d.rows[0] in d.rows;
    }
  }

  lemma EndsAs(c: Client, req0: Request, numbered: Client, req: Request, report: nat, limits: Limits, net: Net)
    requires numbered == c.(submitted := c.submitted + 1) && req == req0.(report := c.submitted)
    ensures Ends(c, Submit(req0), report, limits, net) == SendEnds(numbered, req, report, limits, net)
  {
  }

  lemma SubmitOthersFate(c: Client, req0: Request, report: nat, key: string, limits: Limits, net: Net)
    requires Inv(c, limits) && Waiting(c, report, key)
    ensures var d := Sent(c, req0, limits, net);
            Waiting(d, report, key) || key in d.accepted || Ends(c, Submit(req0), report, limits, net)
  {
    var req := req0.(report := c.submitted);
    var numbered := c.(submitted := c.submitted + 1);
    SubmitKeepsInv(c, req, limits);
    SameRows(c, numbered, report, key);
    SentAs(c, req0, numbered, req, limits, net);
    EndsAs(c, req0, numbered, req, report, limits, net);
    SendFate(numbered, req, report, key, limits, net);
  }

  // One call keeps a waiting report, records it, or ends it for a stated reason.
  lemma CallFate(c: Client, call: Call, report: nat, key: string, limits: Limits, net: Net)
    requires Inv(c, limits) && Waiting(c, report, key)
    ensures var d := Do(c, call, limits, net);
            Waiting(d, report, key) || key in d.accepted || Ends(c, call, report, limits, net)
  {
    match call
    case Submit(req) => SubmitOthersFate(c, req, report, key, limits, net);
    case Drain(retryDeferred) => FlushFate(c, retryDeferred, report, key, limits, net);
    case Beat => SameRows(c, SentLatest(c, net), report, key);
    case Restart => SameRows(c, c.(until := 0, delivered := None), report, key);
    case Wait(seconds) => SameRows(c, c.(clock := c.clock + seconds), report, key);
  }

  lemma SubmitFate(c: Client, req0: Request, limits: Limits, net: Net)
    requires Inv(c, limits)
    ensures var d := Do(c, Submit(req0), limits, net);
            || Waiting(d, c.submitted, req0.key) || req0.key in d.accepted
            || Ends(c, Submit(req0), c.submitted, limits, net)
  {
    var req := req0.(report := c.submitted);
    var numbered := c.(submitted := c.submitted + 1);
    SubmitKeepsInv(c, req, limits);
    SentAs(c, req0, numbered, req, limits, net);
    EndsAs(c, req0, numbered, req, c.submitted, limits, net);
    OwnFate(numbered, req, limits, net);
  }

  // ------------------------------------------------------------------ over runs

  lemma {:induction false} RunSnoc(c: Client, calls: seq<Call>, call: Call, limits: Limits, net: Net)
    ensures Run(c, calls + [call], limits, net) == Do(Run(c, calls, limits, net), call, limits, net)
    decreases |calls|
  {
    if calls == [] {
      assert calls + [call] == [call] && [call][1..] == [];
    } else {
      assert (calls + [call])[1..] == calls[1..] + [call];
      RunSnoc(Do(c, calls[0], limits, net), calls[1..], call, limits, net);
    }
  }

  // The client before call k.
  function Before(calls: seq<Call>, k: nat, limits: Limits, net: Net): Client
    requires k <= |calls|
  {
    Run(START, calls[..k], limits, net)
  }

  lemma OneCall(calls: seq<Call>, k: nat, limits: Limits, net: Net)
    requires k < |calls|
    ensures Before(calls, k + 1, limits, net) == Do(Before(calls, k, limits, net), calls[k], limits, net)
    ensures Inv(Before(calls, k, limits, net), limits)
  {
    assert calls[..k + 1] == calls[..k] + [calls[k]];
    RunSnoc(START, calls[..k], calls[k], limits, net);
    RunKeepsInv(START, calls[..k], limits, net);
  }

  // The Worker forgets no key it recorded.
  lemma FlushKeepsAccepted(c: Client, retryDeferred: bool, limits: Limits, net: Net)
    requires Inv(c, limits)
    ensures c.accepted <= Flushed(c, retryDeferred, net).accepted
  {
    var _ := FlushLaw(c, retryDeferred, limits, net);
  }

  lemma SendKeepsAccepted(c: Client, req: Request, limits: Limits, net: Net)
    requires Inv(c, limits) && Newest(c, req)
    ensures c.accepted <= SentNow(c, req, limits, net).accepted
  {
    if c.clock >= c.until && c.rows != [] {
      EnqueueKeepsInv(c, req, limits);
      FlushKeepsAccepted(Enqueue(c, req, limits), false, limits, net);
    }
  }

  lemma CallKeepsAccepted(c: Client, call: Call, limits: Limits, net: Net)
    requires Inv(c, limits)
    ensures c.accepted <= Do(c, call, limits, net).accepted
  {
    match call
    case Drain(retryDeferred) => FlushKeepsAccepted(c, retryDeferred, limits, net);
    case Submit(req0) =>
      var req := req0.(report := c.submitted);
      var numbered := c.(submitted := c.submitted + 1);
      SentAs(c, req0, numbered, req, limits, net);
      SubmitKeepsInv(c, req, limits);
      SendKeepsAccepted(numbered, req, limits, net);
    case _ =>
  }

  ghost predicate EndedIn(calls: seq<Call>, from: nat, to: nat, report: nat, limits: Limits, net: Net)
    requires to <= |calls|
  {
    exists k :: from <= k < to && Ends(Before(calls, k, limits, net), calls[k], report, limits, net)
  }

  // It is queued, or recorded, or some call ended it.
  ghost predicate AccountedFor(calls: seq<Call>, from: nat, to: nat, report: nat, key: string, limits: Limits, net: Net)
    requires to <= |calls|
  {
    var c := Before(calls, to, limits, net);
    Waiting(c, report, key) || key in c.accepted || EndedIn(calls, from, to, report, limits, net)
  }

  lemma StaysAccountedFor(calls: seq<Call>, from: nat, n: nat, report: nat, key: string, limits: Limits, net: Net)
    requires from <= n < |calls| && AccountedFor(calls, from, n, report, key, limits, net)
    ensures AccountedFor(calls, from, n + 1, report, key, limits, net)
  {
    var c := Before(calls, n, limits, net);
    OneCall(calls, n, limits, net);
    if Waiting(c, report, key) {
      CallFate(c, calls[n], report, key, limits, net);
    } else if key in c.accepted {
      CallKeepsAccepted(c, calls[n], limits, net);
    }
  }

  lemma FirstAccountedFor(calls: seq<Call>, j: nat, limits: Limits, net: Net)
    requires j < |calls| && calls[j].Submit?
    ensures AccountedFor(calls, j, j + 1, Before(calls, j, limits, net).submitted, calls[j].req.key, limits, net)
  {
    OneCall(calls, j, limits, net);
    SubmitFate(Before(calls, j, limits, net), calls[j].req, limits, net);
  }

  // Over every run: a submitted report is queued, or recorded by the Worker, or some call from its own on
  // ended it for one of the reasons above.
  lemma {:induction false} EveryReportIsAccountedFor(calls: seq<Call>, j: nat, n: nat, limits: Limits, net: Net)
    requires j < n <= |calls| && calls[j].Submit?
    ensures AccountedFor(calls, j, n, Before(calls, j, limits, net).submitted, calls[j].req.key, limits, net)
    decreases n
  {
    if n == j + 1 {
      FirstAccountedFor(calls, j, limits, net);
    } else {
      EveryReportIsAccountedFor(calls, j, n - 1, limits, net);
      StaysAccountedFor(calls, j, n - 1, Before(calls, j, limits, net).submitted, calls[j].req.key, limits, net);
    }
  }
}
