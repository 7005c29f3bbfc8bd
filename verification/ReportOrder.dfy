// The order in which reports reach the Worker: send_or_enqueue, flush and send_latest of
// scripts/control_client.py over the outbox. Every exchange with the Worker takes its answer from
// `net`, an arbitrary stream, so what is proved holds for every pattern of failures.
module ReportOrder {
  import opened Wrappers
  import opened Outbox

  const COOLDOWN_SECONDS: int := 60
  const REPEATED_UNAVAILABLE_ATTEMPTS: nat := 10
  const RECENT_DELIVERY_SECONDS: int := 600
  const PROTOCOL_ERROR_ATTEMPTS: nat := 3
  const FLUSH_LIMIT: nat := 50
  const FOREVER: int := 0x1_0000_0000_0000

  // Died: the process ends before it sees the answer.
  datatype Answer = Delivered | Rejected | Unavailable | Unreadable | Died

  // `taken` says that the Worker recorded the report although the answer was lost.
  datatype Exchange = Exchange(answer: Answer, taken: bool, elapsed: nat)

  type Net = nat -> Exchange

  // One attempt to send a report, with the rows queued at that moment.
  datatype Try = Try(report: nat, waiting: seq<Item>)

  // `accepted` are the idempotency keys the Worker has recorded, `log` the reports in the order in
  // which it first recorded them. Reports are numbered in submission order.
  datatype Client = Client(rows: seq<Item>, nextId: nat, until: int, delivered: Option<int>, clock: int,
                           turn: nat, submitted: nat, accepted: set<string>, log: seq<nat>, tries: seq<Try>)

  function RetryDelay(attempts: nat): (d: int)
    ensures 2 <= d <= 15
  {
    if attempts == 0 then 2 else if attempts == 1 then 5 else 15
  }

  function Posted(c: Client, key: string, report: nat, net: Net): Client {
    var e := net(c.turn);
    var takes := (e.taken || e.answer.Delivered?) && key !in c.accepted;
    var clock := c.clock + e.elapsed;
    c.(turn := c.turn + 1,
       clock := clock,
       accepted := if takes then c.accepted + {key} else c.accepted,
       log := if takes then c.log + [report] else c.log,
       tries := c.tries + [Try(report, c.rows)],
       delivered := if e.answer.Delivered? then Some(clock) else c.delivered,
       until := if e.answer.Delivered? then 0 else c.until)
  }

  function Enqueue(c: Client, req: Request, limits: Limits): Client {
    match Enqueued(c.rows, c.nextId, req, limits)
    case Err(_) => c
    case Ok(p) => c.(rows := p.rows, nextId := p.nextId)
  }

  function Drop(c: Client, x: Item): Client {
    c.(rows := Without(c.rows, {x.id}))
  }

  function Postpone(c: Client, id: nat, next: int, until: int): Client {
    c.(until := until, rows := Deferred(c.rows, id, next))
  }

  predicate SetAside(c: Client, x: Item) {
    && x.attempts + 1 >= REPEATED_UNAVAILABLE_ATTEMPTS
    && c.delivered.Some? && c.clock - c.delivered.value < RECENT_DELIVERY_SECONDS
  }

  // What flush does with the answer for the head item: drop it and go on, or delay it and stop.
  predicate GoesOn(d: Client, x: Item, answer: Answer) {
    match answer
    case Delivered => true
    case Rejected => true
    case Unavailable => SetAside(d, x)
    case Unreadable => x.attempts + 1 >= PROTOCOL_ERROR_ATTEMPTS
    case Died => false
  }

  function Settle(d: Client, x: Item, answer: Answer): Client {
    if GoesOn(d, x, answer) then Drop(d, x)
    else if answer.Died? then d
    else Postpone(d, x.id, d.clock + RetryDelay(x.attempts), DelayedUntil(d, answer))
  }

  // Only an unavailable Worker starts a cooldown.
  function DelayedUntil(d: Client, answer: Answer): int {
    if answer.Unavailable? then d.clock + COOLDOWN_SECONDS else d.until
  }

  // The loop of flush over the page it read.
  function FlushItems(c: Client, items: seq<Item>, net: Net): Client
    decreases |items|
  {
    if items == [] then c
    else
      var x := items[0];
      var answer := net(c.turn).answer;
      var d := Posted(c, x.key, x.report, net);
      if GoesOn(d, x, answer) then FlushItems(Settle(d, x, answer), items[1..], net)
      else Settle(d, x, answer)
  }

  function Flushed(c: Client, retryDeferred: bool, net: Net): Client {
    if c.clock < c.until then c
    else FlushItems(c, DuePrefix(c.rows, FLUSH_LIMIT, if retryDeferred then FOREVER else c.clock), net)
  }

  // send_or_enqueue: behind queued reports, directly when nothing is queued.
  function Sent(c0: Client, req0: Request, limits: Limits, net: Net): Client {
    SentNow(c0.(submitted := c0.submitted + 1), req0.(report := c0.submitted), limits, net)
  }

  // The report has its number: queue it during a cooldown or behind others, or try it at once.
  function SentNow(c: Client, req: Request, limits: Limits, net: Net): Client {
    if c.clock < c.until then Enqueue(c, req, limits)
    else if c.rows != [] then QueuedThenFlushed(c, req, limits, net)
    else SentDirectly(c, req, limits, net)
  }

  function QueuedThenFlushed(c: Client, req: Request, limits: Limits, net: Net): Client {
    if Enqueued(c.rows, c.nextId, req, limits).Err? then c
    else Flushed(Enqueue(c, req, limits), false, net)
  }

  function SentDirectly(c: Client, req: Request, limits: Limits, net: Net): Client {
    var d := Posted(c, req.key, req.report, net);
    match net(c.turn).answer
    case Delivered => d
    case Rejected => d
    case Unavailable => Enqueue(d.(until := d.clock + COOLDOWN_SECONDS), req, limits)
    case Unreadable => Enqueue(d, req, limits)
    case Died => d
  }

  // send_latest: heartbeats bypass the queue and only move the cooldown.
  function SentLatest(c: Client, net: Net): Client {
    if c.clock < c.until then c
    else
      var e := net(c.turn);
      var clock := c.clock + e.elapsed;
      var d := c.(turn := c.turn + 1, clock := clock);
      match e.answer
      case Delivered => d.(delivered := Some(clock), until := 0)
      case Unavailable => d.(until := clock + COOLDOWN_SECONDS)
      case _ => d
  }

  datatype Call =
    | Submit(req: Request)
    | Drain(retryDeferred: bool)
    | Beat
    | Restart
    | Wait(seconds: nat)

  function Do(c: Client, call: Call, limits: Limits, net: Net): Client {
    match call
    case Submit(req) => Sent(c, req, limits, net)
    case Drain(retryDeferred) => Flushed(c, retryDeferred, net)
    case Beat => SentLatest(c, net)
    case Restart => c.(until := 0, delivered := None)
    case Wait(seconds) => c.(clock := c.clock + seconds)
  }

  function Run(c: Client, calls: seq<Call>, limits: Limits, net: Net): Client
    decreases |calls|
  {
    if calls == [] then c else Run(Do(c, calls[0], limits, net), calls[1..], limits, net)
  }

  const START := Client([], 1, 0, None, 0, 0, 0, {}, [], [])

  // ------------------------------------------------------------------ the invariant

  ghost predicate Increasing(log: seq<nat>) {
    forall i, j | 0 <= i < j < |log| :: log[i] < log[j]
  }

  // Queue order is submission order.
  ghost predicate QueueInOrder(rows: seq<Item>, submitted: nat) {
    && (forall x | x in rows :: x.report < submitted)
    && (forall x, y | x in rows && y in rows && x.id < y.id :: x.report < y.report)
  }

  // Whatever is queued was submitted after everything the Worker recorded, except that a report
  // whose answer was lost may be both.
  ghost predicate QueueBehindLog(rows: seq<Item>, log: seq<nat>, accepted: set<string>) {
    forall x, l | x in rows && l in log :: l < x.report || (l == x.report && x.key in accepted)
  }

  // No report was tried while an earlier one was queued.
  ghost predicate HeadOfLine(tries: seq<Try>) {
    forall t, x | t in tries && x in t.waiting :: t.report <= x.report
  }

  ghost predicate Inv(c: Client, limits: Limits) {
    Sound(c.rows, c.nextId, c.submitted, c.log, c.accepted, c.tries, limits)
  }

  ghost predicate Sound(rows: seq<Item>, nextId: nat, submitted: nat, log: seq<nat>, accepted: set<string>,
                        tries: seq<Try>, limits: Limits) {
    && ValidRows(rows, nextId, limits)
    && QueueInOrder(rows, submitted)
    && QueueBehindLog(rows, log, accepted)
    && Increasing(log) && (forall l | l in log :: l < submitted)
    && HeadOfLine(tries)
  }

  // A try of a report that is not ahead of the queue's head, and not behind the Worker's log.
  lemma PostKeepsInv(c: Client, key: string, report: nat, limits: Limits, net: Net)
    requires Inv(c, limits) && report < c.submitted
    requires forall x | x in c.rows :: report < x.report || (report == x.report && x.key == key)
    requires forall l | l in c.log :: l < report || (l == report && key in c.accepted)
    ensures Inv(Posted(c, key, report, net), limits)
    ensures report in Posted(c, key, report, net).log ==> key in Posted(c, key, report, net).accepted
    ensures forall l | l in Posted(c, key, report, net).log :: l <= report
  {
    var d := Posted(c, key, report, net);
    assert forall i | 0 <= i < |c.log| :: c.log[i] in c.log;
    assert HeadOfLine(d.tries) by {
      assert forall t | t in d.tries :: t in c.tries || t == Try(report, c.rows);
    }
  }

  lemma DropKeepsInv(c: Client, x: Item, limits: Limits)
    requires Inv(c, limits)
    ensures Inv(Drop(c, x), limits)
  {
    RemovalKeepsValid(c.rows, c.nextId, limits, {x.id});
  }

  lemma DelayKeepsInv(c: Client, id: nat, next: int, until: int, limits: Limits)
    requires Inv(c, limits)
    ensures Inv(Postpone(c, id, next, until), limits)
  {
    DeferKeepsValid(c.rows, c.nextId, limits, id, next);
    DelayKeepsOrder(c, id, next);
    DelayStaysBehindLog(c, id, next);
  }

  lemma DelayKeepsOrder(c: Client, id: nat, next: int)
    requires QueueInOrder(c.rows, c.submitted)
    ensures QueueInOrder(Deferred(c.rows, id, next), c.submitted)
  {
    var rows := Deferred(c.rows, id, next);
    forall y | y in rows ensures y.report < c.submitted {
      var _ := DeferredFrom(c.rows, id, next, y);
    }
    forall y, z | y in rows && z in rows && y.id < z.id ensures y.report < z.report {
      var _ := DeferredFrom(c.rows, id, next, y);
      var _ := DeferredFrom(c.rows, id, next, z);
    }
  }

  lemma DelayStaysBehindLog(c: Client, id: nat, next: int)
    requires QueueBehindLog(c.rows, c.log, c.accepted)
    ensures QueueBehindLog(Deferred(c.rows, id, next), c.log, c.accepted)
  {
    forall y, l | y in Deferred(c.rows, id, next) && l in c.log
      ensures l < y.report || (l == y.report && y.key in c.accepted)
    {
      var _ := DeferredFrom(c.rows, id, next, y);
    }
  }

  lemma {:induction false} FlushKeepsInv(c: Client, items: seq<Item>, limits: Limits, net: Net)
    requires Inv(c, limits) && items <= c.rows
    ensures Inv(FlushItems(c, items, net), limits)
    decreases |items|
  {
    if items != [] {
      HeadTried(c, items, limits, net);
      var x := items[0];
      var answer := net(c.turn).answer;
      var d := Posted(c, x.key, x.report, net);
      if GoesOn(d, x, answer) {
        FlushKeepsInv(Settle(d, x, answer), items[1..], limits, net);
      }
    }
  }

  // Trying the head and settling its answer keeps the invariant; going on means the head is gone.
  lemma HeadTried(c: Client, items: seq<Item>, limits: Limits, net: Net)
    requires Inv(c, limits) && items != [] && items <= c.rows
    ensures var answer := net(c.turn).answer;
            var d := Posted(c, items[0].key, items[0].report, net);
            && Inv(Settle(d, items[0], answer), limits)
            && (GoesOn(d, items[0], answer) ==> items[1..] <= Settle(d, items[0], answer).rows)
  {
    var x := items[0];
    assert x == c.rows[0];
    HeadIsFirst(c, limits);
    PostKeepsInv(c, x.key, x.report, limits, net);
    WithoutHead(c.rows);
    SettleKeepsInv(Posted(c, x.key, x.report, net), x, net(c.turn).answer, limits);
  }

  lemma SettleKeepsInv(d: Client, x: Item, answer: Answer, limits: Limits)
    requires Inv(d, limits)
    ensures Inv(Settle(d, x, answer), limits)
  {
    SettleIs(d, x, answer);
    if GoesOn(d, x, answer) {
      DropKeepsInv(d, x, limits);
    } else if !answer.Died? {
      DelayKeepsInv(d, x.id, d.clock + RetryDelay(x.attempts), DelayedUntil(d, answer), limits);
    }
  }

  lemma SettleIs(d: Client, x: Item, answer: Answer)
    ensures Settle(d, x, answer)
            == if GoesOn(d, x, answer) then Drop(d, x)
               else if answer.Died? then d
               else Postpone(d, x.id, d.clock + RetryDelay(x.attempts), DelayedUntil(d, answer))
  {
  }

  lemma HeadIsFirst(c: Client, limits: Limits)
    requires Inv(c, limits) && c.rows != []
    ensures forall y | y in c.rows :: c.rows[0].report < y.report || c.rows[0] == y
  {
    forall y | y in c.rows ensures c.rows[0].report < y.report || c.rows[0] == y {
      var i :| 0 <= i < |c.rows| && c.rows[i] == y;
    }
  }

  // Queueing a report submitted after every other one keeps the queue in order.
  lemma EnqueueKeepsInv(c: Client, req: Request, limits: Limits)
    requires Inv(c, limits) && req.report < c.submitted
    requires forall x | x in c.rows :: x.report < req.report
    requires forall l | l in c.log :: l < req.report || (l == req.report && req.key in c.accepted)
    ensures Inv(Enqueue(c, req, limits), limits)
  {
    EnqueuedIsValid(c.rows, c.nextId, req, limits);
    EnqueuedRows(c, req, limits);
  }

  lemma EnqueuedRows(c: Client, req: Request, limits: Limits)
    requires Inv(c, limits)
    ensures forall x | x in Enqueue(c, req, limits).rows :: x in c.rows || x == NewItem(c.nextId, req)
  {
    if Enqueued(c.rows, c.nextId, req, limits).Ok? {
      var _ := EnqueueKeepsBounds(c.rows, c.nextId, req, limits);
    }
  }

  // The newest report, behind every queued or accepted one.
  ghost predicate Newest(c: Client, req: Request) {
    req.report < c.submitted && (forall x | x in c.rows :: x.report < req.report) && forall l | l in c.log :: l < req.report
  }

  // A new report is numbered behind every one that is queued or accepted.
  lemma SubmitKeepsInv(c: Client, req: Request, limits: Limits)
    requires Inv(c, limits) && req.report == c.submitted
    ensures Inv(c.(submitted := c.submitted + 1), limits) && Newest(c.(submitted := c.submitted + 1), req)
  {
  }

  lemma BeatKeepsInv(c: Client, limits: Limits, net: Net)
    requires Inv(c, limits)
    ensures Inv(SentLatest(c, net), limits)
  {
    var d := SentLatest(c, net);
    assert d.rows == c.rows && d.nextId == c.nextId && d.submitted == c.submitted && d.log == c.log
        && d.accepted == c.accepted && d.tries == c.tries;
  }

  lemma SendKeepsInv(c: Client, req0: Request, limits: Limits, net: Net)
    requires Inv(c, limits)
    ensures Inv(Sent(c, req0, limits, net), limits)
  {
    var req := req0.(report := c.submitted);
    var numbered := c.(submitted := c.submitted + 1);
    SubmitKeepsInv(c, req, limits);
    SendNowKeepsInv(numbered, req, limits, net);
    SentAs(c, req0, numbered, req, limits, net);
  }

  lemma SentAs(c: Client, req0: Request, numbered: Client, req: Request, limits: Limits, net: Net)
    requires numbered == c.(submitted := c.submitted + 1) && req == req0.(report := c.submitted)
    ensures Sent(c, req0, limits, net) == SentNow(numbered, req, limits, net)
  {
  }

  lemma SendNowKeepsInv(c: Client, req: Request, limits: Limits, net: Net)
    requires Inv(c, limits) && Newest(c, req)
    ensures Inv(SentNow(c, req, limits, net), limits)
  {
    if c.clock < c.until {
      EnqueueKeepsInv(c, req, limits);
    } else if c.rows != [] {
      QueueKeepsInv(c, req, limits, net);
    } else {
      DirectKeepsInv(c, req, limits, net);
    }
  }

  lemma QueueKeepsInv(c: Client, req: Request, limits: Limits, net: Net)
    requires Inv(c, limits) && Newest(c, req)
    ensures Inv(QueuedThenFlushed(c, req, limits, net), limits)
  {
    EnqueueKeepsInv(c, req, limits);
    FlushCallKeepsInv(Enqueue(c, req, limits), false, limits, net);
  }

  lemma DirectKeepsInv(c: Client, req: Request, limits: Limits, net: Net)
    requires Inv(c, limits) && c.rows == [] && Newest(c, req)
    ensures Inv(SentDirectly(c, req, limits, net), limits)
  {
    PostKeepsInv(c, req.key, req.report, limits, net);
    var d := Posted(c, req.key, req.report, net);
    if net(c.turn).answer.Unavailable? {
      EnqueueKeepsInv(d.(until := d.clock + COOLDOWN_SECONDS), req, limits);
    } else {
      EnqueueKeepsInv(d, req, limits);
    }
  }

  lemma FlushCallKeepsInv(c: Client, retryDeferred: bool, limits: Limits, net: Net)
    requires Inv(c, limits)
    ensures Inv(Flushed(c, retryDeferred, net), limits)
  {
    FlushKeepsInv(c, DuePrefix(c.rows, FLUSH_LIMIT, if retryDeferred then FOREVER else c.clock), limits, net);
  }

  lemma CallKeepsInv(c: Client, call: Call, limits: Limits, net: Net)
    requires Inv(c, limits)
    ensures Inv(Do(c, call, limits, net), limits)
  {
    if call.Submit? {
      SendKeepsInv(c, call.req, limits, net);
    } else {
      OtherCallKeepsInv(c, call, limits, net);
    }
  }

  lemma OtherCallKeepsInv(c: Client, call: Call, limits: Limits, net: Net)
    requires Inv(c, limits) && !call.Submit?
    ensures Inv(Do(c, call, limits, net), limits)
  {
    var d := Do(c, call, limits, net);
    match call
    case Drain(retryDeferred) =>
      FlushCallKeepsInv(c, retryDeferred, limits, net);
      assert d == Flushed(c, retryDeferred, net);
    case Beat =>
      BeatKeepsInv(c, limits, net);
      assert d == SentLatest(c, net);
    case Restart => SameParts(c, d, limits);
    case Wait(_) => SameParts(c, d, limits);
    case Submit(_) =>
  }

  lemma SameParts(c: Client, d: Client, limits: Limits)
    requires Inv(c, limits) && d.rows == c.rows && d.nextId == c.nextId && d.submitted == c.submitted
    requires d.log == c.log && d.accepted == c.accepted && d.tries == c.tries
    ensures Inv(d, limits)
  {
  }

  lemma {:induction false} RunKeepsInv(c: Client, calls: seq<Call>, limits: Limits, net: Net)
    requires Inv(c, limits)
    ensures Inv(Run(c, calls, limits, net), limits)
    decreases |calls|
  {
    if calls != [] {
      CallKeepsInv(c, calls[0], limits, net);
      RunKeepsInv(Do(c, calls[0], limits, net), calls[1..], limits, net);
    }
  }

  // The main result: over every run of calls, restarts and answers, the Worker first records
  // reports in submission order, and none is tried while an earlier one is still queued.
  lemma ReportsArriveInOrder(calls: seq<Call>, limits: Limits, net: Net)
    ensures var c := Run(START, calls, limits, net);
            && Increasing(c.log)
            && HeadOfLine(c.tries)
            && Bytes(c.rows) <= limits.bytes && Events(c.rows) <= limits.events
  {
    RunKeepsInv(START, calls, limits, net);
  }

  // ------------------------------------------------------------------ the client itself

  datatype Delivery = DELIVERED | RETRYABLE_QUEUED | PERMANENTLY_REJECTED

  // `accepted`, `log` and `tries` are what an observer of the Worker sees, hence ghost.
  class ControlClient {
    const net: Net
    const store: ControlStore
    var until: int
    var delivered: Option<int>
    var clock: int
    var turn: nat
    var submitted: nat
    ghost var accepted: set<string>
    ghost var log: seq<nat>
    ghost var tries: seq<Try>

    ghost function View(): Client
      reads this, store
    {
      Client(store.rows, store.nextId, until, delivered, clock, turn, submitted, accepted, log, tries)
    }

    ghost predicate Valid()
      reads this, store
    {
      Inv(View(), store.limits)
    }

    constructor (store: ControlStore, net: Net)
      requires store.Valid() && store.rows == [] && store.nextId == 1
      ensures Valid() && this.store == store && this.net == net && View() == START
    {
      this.store, this.net := store, net;
      until, delivered, clock, turn, submitted := 0, None, 0, 0, 0;
      accepted, log, tries := {}, [], [];
    }

    method Post(key: string, report: nat) returns (answer: Answer)
      modifies this
      ensures View() == Posted(old(View()), key, report, net)
      ensures answer == net(old(turn)).answer
      ensures answer.Delivered? ==> key in accepted
    {
      var e := net(turn);
      answer := e.answer;
      tries := tries + [Try(report, store.rows)];
      if (e.taken || answer.Delivered?) && key !in accepted {
        accepted, log := accepted + {key}, log + [report];
      }
      turn, clock := turn + 1, clock + e.elapsed;
      if answer.Delivered? {
        delivered, until := Some(clock), 0;
      }
    }

    // Sends the due head of the queue in order; stops at the first report that must wait.
    method Flush(retryDeferred: bool) returns (sent: nat)
      requires Valid()
      modifies this, store
      ensures Valid() && View() == Flushed(old(View()), retryDeferred, net)
    {
      sent := 0;
      if clock < until {
        return;
      }
      ghost var start := View();
      FlushCallKeepsInv(start, retryDeferred, store.limits, net);
      var due := if retryDeferred then FOREVER else clock;
      var page := store.Pending(FLUSH_LIMIT, due);
      var items := page.value;
      var i := 0;
      while i < |items|
        invariant 0 <= i <= |items|
        invariant Valid() && items[i..] <= store.rows
        invariant FlushItems(View(), items[i..], net) == FlushItems(start, items, net)
      {
        var x := items[i];
        assert items[i..][0] == x && items[i..][1..] == items[i + 1..];
        HeadTried(View(), items[i..], store.limits, net);
        var more := TryHead(x);
        if !more {
          return;
        }
        sent := sent + if net(turn - 1).answer.Delivered? then 1 else 0;
        i := i + 1;
      }
    }

    // One round of flush: post the head item, then drop or delay it by the answer.
    method TryHead(x: Item) returns (more: bool)
      modifies this, store
      ensures turn == old(turn) + 1
      ensures var d := Posted(old(View()), x.key, x.report, net);
              var answer := net(old(turn)).answer;
              && more == GoesOn(d, x, answer)
              && View() == Settle(d, x, answer)
    {
      var answer := Post(x.key, x.report);
      if answer.Delivered? {
        store.Acknowledge(x.id);
        more := true;
      } else {
        more := HandleFailure(x, answer);
      }
    }

    method HandleFailure(x: Item, answer: Answer) returns (more: bool)
      requires !answer.Delivered?
      modifies this`until, store
      ensures more == GoesOn(old(View()), x, answer)
      ensures View() == Settle(old(View()), x, answer)
    {
      var setAside := x.attempts + 1 >= REPEATED_UNAVAILABLE_ATTEMPTS
                      && delivered.Some? && clock - delivered.value < RECENT_DELIVERY_SECONDS;
      var dropped := x.attempts + 1 >= PROTOCOL_ERROR_ATTEMPTS;
      more := answer.Rejected? || (answer.Unavailable? && setAside) || (answer.Unreadable? && dropped);
      assert more == GoesOn(View(), x, answer);
      if more {
        GiveUp(x);
      } else if !answer.Died? {
        PutOff(x.id, clock + RetryDelay(x.attempts), answer);
      }
    }

    method GiveUp(x: Item)
      modifies store
      ensures View() == Drop(old(View()), x)
    {
      var _ := store.Reject(x.id);
    }

    method PutOff(id: nat, next: int, answer: Answer)
      modifies this`until, store
      ensures View() == Postpone(old(View()), id, next, DelayedUntil(old(View()), answer))
    {
      if answer.Unavailable? {
        until := clock + COOLDOWN_SECONDS;
      }
      store.Defer(id, next);
    }

    method SendOrEnqueue(req0: Request) returns (r: Result<Delivery, Failure>)
      requires Valid()
      modifies this, store
      ensures Valid() && View() == Sent(old(View()), req0, store.limits, net)
      ensures r == Ok(DELIVERED) ==> req0.key in accepted
    {
      var req := req0.(report := submitted);
      ghost var start := View();
      SubmitKeepsInv(start, req, store.limits);
      ghost var numbered := start.(submitted := submitted + 1);
      submitted := submitted + 1;
      assert View() == numbered;
      SentAs(start, req0, numbered, req, store.limits, net);
      r := SendNow(req);
    }

    method SendNow(req: Request) returns (r: Result<Delivery, Failure>)
      requires Valid() && Newest(View(), req)
      modifies this, store
      ensures Valid() && View() == SentNow(old(View()), req, store.limits, net)
      ensures r == Ok(DELIVERED) ==> req.key in accepted
    {
      SendNowKeepsInv(View(), req, store.limits, net);
      if clock < until {
        r := QueueOnly(req);
      } else if store.rows != [] {
        r := QueueThenFlush(req);
      } else {
        r := SendDirectly(req);
      }
    }

    // During the cooldown: queue and try nothing.
    method QueueOnly(req: Request) returns (r: Result<Delivery, Failure>)
      requires Valid()
      modifies store
      ensures View() == Enqueue(old(View()), req, store.limits)
      ensures r != Ok(DELIVERED)
    {
      var queued := store.Enqueue(req);
      r := if queued.Ok? then Ok(RETRYABLE_QUEUED) else Err(queued.error);
    }

    // Behind others: queue, then try from the head.
    method QueueThenFlush(req: Request) returns (r: Result<Delivery, Failure>)
      requires Valid() && Newest(View(), req)
      modifies this, store
      ensures View() == QueuedThenFlushed(old(View()), req, store.limits, net)
      ensures r != Ok(DELIVERED)
    {
      EnqueueKeepsInv(View(), req, store.limits);
      var queued := store.Enqueue(req);
      if queued.Err? {
        return Err(queued.error);
      }
      var _ := Flush(false);
      r := Ok(RETRYABLE_QUEUED);
    }

    method SendDirectly(req: Request) returns (r: Result<Delivery, Failure>)
      requires Valid() && store.rows == []
      modifies this, store
      ensures View() == SentDirectly(old(View()), req, store.limits, net)
      ensures r == Ok(DELIVERED) ==> req.key in accepted
    {
      assert store.Valid();
      var answer := Post(req.key, req.report);
      assert store.Valid();
      match answer {
        case Delivered =>
          r := Ok(DELIVERED);
        case Rejected =>
          store.RecordRejection();
          r := Ok(PERMANENTLY_REJECTED);
        case Unavailable =>
          until := clock + COOLDOWN_SECONDS;
          var queued := store.Enqueue(req);
          r := if queued.Ok? then Ok(RETRYABLE_QUEUED) else Err(queued.error);
        case Unreadable =>
          var queued := store.Enqueue(req);
          r := if queued.Ok? then Ok(RETRYABLE_QUEUED) else Err(queued.error);
        case Died =>
          r := Err(Invalid);  // nobody sees this result
      }
    }

    method SendLatest() returns (ok: bool)
      requires Valid()
      modifies this
      ensures Valid() && View() == SentLatest(old(View()), net)
    {
      BeatKeepsInv(View(), store.limits, net);
      ok := Beat();
    }

    method Beat() returns (ok: bool)
      modifies this`turn, this`clock, this`until, this`delivered
      ensures View() == SentLatest(old(View()), net)
    {
      if clock < until {
        return false;
      }
      var e := net(turn);
      turn, clock := turn + 1, clock + e.elapsed;
      match e.answer {
        case Delivered =>
          delivered, until := Some(clock), 0;
          ok := true;
        case Unavailable =>
          until := clock + COOLDOWN_SECONDS;
          ok := false;
        case _ =>
          ok := false;
      }
    }
  }
}
