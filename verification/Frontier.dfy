// The crawl frontier: the lease state machine of crawler/frontier.py and the retry rules of
// crawler/store.py. Times are whole seconds, boards are numbered in collation order, and one SQL
// transaction is one step.
module Frontier {
  import opened Wrappers

  const BACKOFF_BASE_SECONDS: nat := 120
  const BACKOFF_CAP_SECONDS: nat := 21600
  const MAX_ATTEMPTS: nat := 5
  const NETWORK_MAX_ATTEMPTS: nat := 24

  datatype Id = Id(board: nat, post: nat)

  datatype Code =
    | ParseDrift | StorageError | IncompleteComments
    | NetworkError | OriginUnresponsive | TimedOut | Other(text: string)
  {
    // REDSTM_CAPPED_RETRY_ERROR_CODES
    predicate Capped() { ParseDrift? || StorageError? || IncompleteComments? }
  }

  datatype State = Pending | Running | Retry | Done | Dead

  // `token` and `expires` are lease_token and lease_expires_at.
  datatype Row = Row(priority: int, expected: Option<nat>, state: State, attempts: nat, next: Option<int>,
                     code: Option<Code>, lastAttempt: Option<int>, token: Option<nat>, expires: Option<int>,
                     listing: Option<string>)

  type Rows = map<Id, Row>

  // FrontierLease
  datatype Lease = Lease(id: Id, attempts: nat, token: nat, expires: int, expected: Option<nat>)

  // ------------------------------------------------------------------ retry rules

  function Pow2(n: nat): (p: nat)
    ensures p >= 1
  {
    if n == 0 then 1 else 2 * Pow2(n - 1)
  }

  function Min(a: int, b: int): int { if a <= b then a else b }

  function Max(a: int, b: int): int { if a >= b then a else b }

  // retry_backoff, relative to now.
  function Backoff(attempts: nat): int
    requires attempts >= 1
  {
    Min(BACKOFF_BASE_SECONDS * Pow2(attempts - 1), BACKOFF_CAP_SECONDS)
  }

  // _dead_code
  function DeadCode(code: Option<Code>, attempts: nat): Option<Code> {
    if code.Some? && code.value.Capped() && attempts >= MAX_ATTEMPTS then code
    else if code == Some(NetworkError) && attempts >= NETWORK_MAX_ATTEMPTS then Some(OriginUnresponsive)
    else None
  }

  lemma {:induction false} Pow2Monotone(a: nat, b: nat)
    requires a <= b
    ensures Pow2(a) <= Pow2(b)
    decreases b
  {
    if a < b {
      Pow2Monotone(a, b - 1);
    }
  }

  lemma BackoffBounds(a: nat, b: nat)
    requires 1 <= a <= b
    ensures BACKOFF_BASE_SECONDS <= Backoff(a) <= Backoff(b) <= BACKOFF_CAP_SECONDS
  {
    Pow2Monotone(a - 1, b - 1);
  }

  // ------------------------------------------------------------------ steps

  // What a settled attempt asks of transition_lease or complete_lease.
  datatype Settlement =
    | Complete(stored: Option<nat>)                       // complete_lease
    | Close(state: State, closeCode: Option<Code>)              // transition to done or dead
    | Fail(code: Option<Code>, at: int, retryAfter: Option<int>)  // retry, or dead once the budget is used up

  datatype Step =
    | Seed(id: Id, priority: int, reopenDone: bool, expected: Option<nat>, captured: bool, listing: Option<string>)
    | Baseline(id: Id, baseline: string)                   // first fingerprint of a dead row
    | ClaimOne(id: Id, leaseSeconds: nat, now: int, token: nat)
    | ClaimBatch(picked: set<Id>, leaseSeconds: nat, now: int, token: nat)
    | Settle(lease: Lease, how: Settlement)
    | Sweep(board: Option<nat>, missingOnly: bool, now: int)       // first transaction of recovery_candidates
    | RequeueFull(posts: set<Id>, now: int)                // requeue_full_content
    | RequeueTruncated(posts: set<Id>)
    | RequeueStale(posts: set<Id>)
    | ReviveMissingDead(board: Option<nat>)
    | RequeueDead(posts: set<Id>, errorCode: Code)

  // Disabled boards and the posts that already have a stored body.
  datatype Env = Env(disabled: set<nat>, bodies: set<Id>)

  function FreshRow(s: Step): Row
    requires s.Seed?
  {
    Row(s.priority, s.expected, if s.captured then Done else Pending, 0, None, None, None, None, None, s.listing)
  }

  // The CASE condition of the upsert: an explicit reopening, or a listing change of a capped-dead row.
  predicate Reopens(s: Step, row: Row)
    requires s.Seed?
  {
    || (s.reopenDone && row.state.Done?)
    || (row.state.Dead? && row.code.Some? && (row.code.value.Capped() || row.code.value.OriginUnresponsive?)
        && row.listing.Some? && s.listing.Some? && s.listing != row.listing)
  }

  function Reseeded(s: Step, row: Row): Row
    requires s.Seed?
  {
    var reopens := Reopens(s, row);
    row.(priority := s.priority,
         expected := s.expected,
         state := if reopens then Pending else row.state,
         attempts := if reopens then 0 else row.attempts,
         next := if reopens then None else row.next,
         code := if reopens then None else row.code,
         listing := if s.listing.Some? then s.listing else row.listing)
  }

  predicate Enabled(id: Id, env: Env) { id.board !in env.disabled }

  predicate InScope(id: Id, board: Option<nat>) { board.None? || id.board == board.value }

  // state = 'running' AND lease_expires_at <= now
  predicate Expired(row: Row, now: int) {
    row.state.Running? && row.expires.Some? && row.expires.value <= now
  }

  function Reclaimed(row: Row, now: int): Row {
    row.(state := Retry, token := None, expires := None, next := Some(now))
  }

  // The expiry sweep every claim starts with.
  function Reclaim(rows: Rows, env: Env, now: int, scope: set<Id>): Rows {
    map id | id in rows ::
      if id in scope && Enabled(id, env) && Expired(rows[id], now) then Reclaimed(rows[id], now) else rows[id]
  }

  predicate Claimable(id: Id, row: Row, env: Env, now: int) {
    && (row.state.Pending? || row.state.Retry?)
    && Enabled(id, env)
    && (row.next.None? || row.next.value <= now)
  }

  function Claimed(row: Row, now: int, token: nat, leaseSeconds: nat): Row {
    row.(state := Running, attempts := row.attempts + 1, lastAttempt := Some(now), token := Some(token),
         expires := Some(now + leaseSeconds))
  }

  function ClaimAll(rows: Rows, picked: set<Id>, now: int, token: nat, leaseSeconds: nat): Rows {
    map id | id in rows :: if id in picked then Claimed(rows[id], now, token, leaseSeconds) else rows[id]
  }

  function Requeued(row: Row, state: State): Row {
    row.(state := state, attempts := 0, next := None, code := None, token := None, expires := None)
  }

  predicate Holds(rows: Rows, lease: Lease) {
    lease.id in rows && rows[lease.id].state.Running? && rows[lease.id].token == Some(lease.token)
  }

  function Settled(row: Row, lease: Lease, how: Settlement): Row
    requires lease.attempts >= 1
  {
    match how
    case Complete(stored) =>
      row.(state := Done, next := None, code := None, token := None, expires := None,
           expected := if stored.Some? then stored else row.expected)
    case Close(state, closeCode) =>
      row.(state := state, next := None, code := closeCode, token := None, expires := None)
    case Fail(code, at, retryAfter) =>
      var dead := DeadCode(code, lease.attempts);
      if dead.Some? then
        row.(state := Dead, next := None, code := dead, token := None, expires := None)
      else
        row.(state := Retry, next := Some(RetryAt(lease.attempts, at, retryAfter)), code := code,
             token := None, expires := None)
  }

  function RetryAt(attempts: nat, at: int, retryAfter: Option<int>): int
    requires attempts >= 1
  {
    if retryAfter.Some? then Max(at + Backoff(attempts), retryAfter.value) else at + Backoff(attempts)
  }

  predicate SweepsDead(id: Id, row: Row, s: Step, env: Env)
    requires s.Sweep?
  {
    && row.state.Dead? && Enabled(id, env) && InScope(id, s.board)
    && (row.code == Some(NetworkError) || row.code == Some(TimedOut))
    && (s.missingOnly ==> id !in env.bodies)
  }

  // What the source demands of the callers of each operation.
  predicate Allowed(rows: Rows, s: Step, env: Env) {
    match s
    case ClaimBatch(picked, _, now, _) =>
      var swept := Reclaim(rows, env, now, rows.Keys);
      picked <= rows.Keys && forall id | id in picked :: Claimable(id, swept[id], env, now)
    case Settle(lease, how) =>
      lease.attempts >= 1 && (how.Close? ==> how.state.Done? || how.state.Dead?)
    case RequeueStale(posts) => forall id | id in posts && id in rows :: rows[id].state.Done?
    case RequeueDead(posts, errorCode) =>
      && errorCode.Capped()
      && forall id | id in posts && id in rows :: rows[id].state.Dead? && rows[id].code == Some(errorCode)
    case _ => true
  }

  function Next(rows: Rows, s: Step, env: Env): Rows
    requires Allowed(rows, s, env)
  {
    match s
    case Seed(id, _, _, _, _, _) =>
      if id in rows then rows[id := Reseeded(s, rows[id])] else rows[id := FreshRow(s)]
    case Baseline(id, baseline) =>
      if id in rows && rows[id].state.Dead? && rows[id].listing.None?
      then rows[id := rows[id].(listing := Some(baseline))] else rows
    case ClaimOne(id, leaseSeconds, now, token) =>
      var swept := Reclaim(rows, env, now, {id});
      if id in swept && Claimable(id, swept[id], env, now)
      then swept[id := Claimed(swept[id], now, token, leaseSeconds)] else swept
    case ClaimBatch(picked, leaseSeconds, now, token) =>
      ClaimAll(Reclaim(rows, env, now, rows.Keys), picked, now, token, leaseSeconds)
    case Settle(lease, how) =>
      if Holds(rows, lease) then rows[lease.id := Settled(rows[lease.id], lease, how)] else rows
    case Sweep(board, _, now) =>
      map id | id in rows ::
        if SweepsDead(id, rows[id], s, env) then rows[id].(state := Retry, next := Some(now))
        else if Enabled(id, env) && InScope(id, board) && Expired(rows[id], now) then Reclaimed(rows[id], now)
        else rows[id]
    case RequeueFull(posts, now) =>
      var swept := Reclaim(rows, env, now, rows.Keys);
      map id | id in swept ::
        if id in posts && !swept[id].state.Running? && Enabled(id, env) then Requeued(swept[id], Pending) else swept[id]
    case RequeueTruncated(posts) =>
      map id | id in rows :: if id in posts && !rows[id].state.Running? then Requeued(rows[id], Pending) else rows[id]
    case RequeueStale(posts) =>
      map id | id in rows :: if id in posts then Requeued(rows[id], Pending) else rows[id]
    case ReviveMissingDead(board) =>
      map id | id in rows ::
        if rows[id].state.Dead? && Enabled(id, env) && rows[id].code.Some? && rows[id].code.value.Capped()
           && InScope(id, board) && id !in env.bodies
        then Requeued(rows[id], Retry) else rows[id]
    case RequeueDead(posts, _) =>
      map id | id in rows :: if id in posts then Requeued(rows[id], Retry) else rows[id]
  }

  // The settle call raises on a stale or missing lease.
  predicate Succeeds(rows: Rows, s: Step)
    requires s.Settle?
  {
    Holds(rows, s.lease)
  }

  // The clock reading a step works with, when it has one.
  function Now(s: Step): Option<int> {
    match s
    case ClaimOne(_, _, now, _) => Some(now)
    case ClaimBatch(_, _, now, _) => Some(now)
    case Sweep(_, _, now) => Some(now)
    case RequeueFull(_, now) => Some(now)
    case _ => None
  }

  predicate Before(s: Step, time: int) { Now(s).Some? ==> Now(s).value < time }

  predicate Uses(s: Step, token: nat) {
    (s.ClaimOne? || s.ClaimBatch?) && s.token == token
  }

  // A person's request to fetch the post again now.
  predicate RequeuesOnRequest(s: Step, id: Id) {
    (s.RequeueFull? && id in s.posts) || (s.RequeueTruncated? && id in s.posts)
  }

  // The ways back from the dead: a changed listing of a post that ran out of capped attempts or whose
  // origin stopped answering, a recovery sweep over network failures, and requests that name the row.
  lemma LeavesDeadIff(rows: Rows, s: Step, env: Env, id: Id)
    requires Allowed(rows, s, env) && id in rows && rows[id].state.Dead? && rows[id].token.None?
    ensures var row := rows[id];
            var capped := row.code == Some(ParseDrift) || row.code == Some(StorageError) || row.code == Some(IncompleteComments);
            !Next(rows, s, env)[id].state.Dead? <==>
              match s
              case Seed(seeded, _, _, _, _, listing) =>
                seeded == id && (capped || row.code == Some(OriginUnresponsive))
                && row.listing.Some? && listing.Some? && listing != row.listing
              case Sweep(board, missingOnly, _) =>
                (row.code == Some(NetworkError) || row.code == Some(TimedOut)) && id.board !in env.disabled
                && (board == None || board == Some(id.board)) && !(missingOnly && id in env.bodies)
              case RequeueFull(posts, _) => id in posts && id.board !in env.disabled
              case RequeueTruncated(posts) => id in posts
              case ReviveMissingDead(board) =>
                capped && id.board !in env.disabled && (board == None || board == Some(id.board)) && id !in env.bodies
              case RequeueDead(posts, _) => id in posts
              case _ => false
  {
  }

  // A done post is fetched again only when a seed reopens it or a request names it.
  lemma LeavesDoneIff(rows: Rows, s: Step, env: Env, id: Id)
    requires Allowed(rows, s, env) && id in rows && rows[id].state.Done? && rows[id].token.None?
    ensures !Next(rows, s, env)[id].state.Done? <==>
              match s
              case Seed(seeded, _, reopenDone, _, _, _) => seeded == id && reopenDone
              case RequeueFull(posts, _) => id in posts && id.board !in env.disabled
              case RequeueTruncated(posts) => id in posts
              case RequeueStale(posts) => id in posts
              case _ => false
  {
  }

  // A failed attempt under a live lease: dead at the fifth attempt of a capped code and at the
  // twenty-fourth of a network error, which dies as an unresponsive origin; otherwise in retry, after
  // 120 seconds doubled with every attempt up to six hours, and not before Retry-After.
  lemma FailedIs(rows: Rows, lease: Lease, code: Option<Code>, at: int, retryAfter: Option<int>, env: Env)
    requires Holds(rows, lease) && lease.attempts >= 1
    ensures var row := Next(rows, Settle(lease, Fail(code, at, retryAfter)), env)[lease.id];
            var capped := code == Some(ParseDrift) || code == Some(StorageError) || code == Some(IncompleteComments);
            var doubled := 120 * Pow2(lease.attempts - 1);
            var wait := if doubled <= 21600 then doubled else 21600;
            && row.token.None? && row.expires.None?
            && (row.state.Dead? <==> (capped && lease.attempts >= 5) || (code == Some(NetworkError) && lease.attempts >= 24))
            && (row.state.Dead? ==> row.next.None? && row.code == if capped then code else Some(OriginUnresponsive))
            && (!row.state.Dead? ==>
                  && row.state.Retry? && row.code == code
                  && row.next == Some(if retryAfter.Some? && retryAfter.value > at + wait then retryAfter.value else at + wait))
  {
  }

  // ------------------------------------------------------------------ leases and states

  // Running holds exactly when a lease is present.
  ghost predicate Sound(rows: Rows) {
    forall id | id in rows ::
      && (rows[id].state.Running? <==> rows[id].token.Some?)
      && (rows[id].state.Running? <==> rows[id].expires.Some?)
      && (rows[id].state.Running? ==> rows[id].attempts >= 1)
  }

  lemma StepKeepsSound(rows: Rows, s: Step, env: Env)
    requires Sound(rows) && Allowed(rows, s, env)
    ensures Sound(Next(rows, s, env))
    ensures rows.Keys <= Next(rows, s, env).Keys
  {
  }

  // No step but its own settle touches a running row before its lease expires.
  lemma LeaseIsExclusive(rows: Rows, s: Step, env: Env, id: Id)
    requires Sound(rows) && Allowed(rows, s, env)
    requires id in rows && rows[id].state.Running?
    requires Before(s, rows[id].expires.value)
    requires !(s.Settle? && s.lease.id == id && Some(s.lease.token) == rows[id].token)
    ensures var after := Next(rows, s, env)[id];
            && after.state == Running && after.token == rows[id].token && after.expires == rows[id].expires
            && after.attempts == rows[id].attempts && after.next == rows[id].next && after.code == rows[id].code
  {
  }

  // A step can give a row a token only by claiming it, and only a row that has no live lease.
  lemma TokensComeFromClaims(rows: Rows, s: Step, env: Env, id: Id, token: nat)
    requires Sound(rows) && Allowed(rows, s, env) && !Uses(s, token)
    requires id in rows ==> rows[id].token != Some(token)
    ensures id in Next(rows, s, env) ==> Next(rows, s, env)[id].token != Some(token)
  {
  }

  // ------------------------------------------------------------------ runs

  predicate AllowedRun(rows: Rows, steps: seq<Step>, env: Env)
    decreases |steps|
  {
    steps == [] || (Allowed(rows, steps[0], env) && AllowedRun(Next(rows, steps[0], env), steps[1..], env))
  }

  function Run(rows: Rows, steps: seq<Step>, env: Env): Rows
    requires AllowedRun(rows, steps, env)
    decreases |steps|
  {
    if steps == [] then rows else Run(Next(rows, steps[0], env), steps[1..], env)
  }

  lemma {:induction false} RunKeepsSound(rows: Rows, steps: seq<Step>, env: Env)
    requires Sound(rows) && AllowedRun(rows, steps, env)
    ensures Sound(Run(rows, steps, env)) && rows.Keys <= Run(rows, steps, env).Keys
    decreases |steps|
  {
    if steps != [] {
      StepKeepsSound(rows, steps[0], env);
      RunKeepsSound(Next(rows, steps[0], env), steps[1..], env);
    }
  }

  // From a claim until its own settle or its expiry, no run of frontier steps changes the row's
  // state, token, expiry or attempts.
  lemma {:induction false} LeaseHoldsOverRuns(rows: Rows, steps: seq<Step>, env: Env, id: Id)
    requires Sound(rows) && AllowedRun(rows, steps, env)
    requires id in rows && rows[id].state.Running?
    requires forall s | s in steps :: Before(s, rows[id].expires.value)
    requires forall s | s in steps :: !(s.Settle? && s.lease.id == id && Some(s.lease.token) == rows[id].token)
    ensures id in Run(rows, steps, env)
    ensures var after := Run(rows, steps, env)[id];
            && after.state == Running && after.token == rows[id].token && after.expires == rows[id].expires
            && after.attempts == rows[id].attempts
    decreases |steps|
  {
    if steps != [] {
      StepKeepsSound(rows, steps[0], env);
      LeaseIsExclusive(rows, steps[0], env, id);
      LeaseHoldsOverRuns(Next(rows, steps[0], env), steps[1..], env, id);
    }
  }

  // A token whose row was settled or reclaimed can never settle again, as tokens are fresh.
  lemma {:induction false} SpentTokenNeverSettles(rows: Rows, steps: seq<Step>, env: Env, lease: Lease, how: Settlement)
    requires Sound(rows) && AllowedRun(rows, steps, env) && !Holds(rows, lease)
    requires forall s | s in steps :: !Uses(s, lease.token)
    ensures !Succeeds(Run(rows, steps, env), Settle(lease, how))
    decreases |steps|
  {
    if steps != [] {
      StepKeepsSound(rows, steps[0], env);
      assert lease.id in rows ==> rows[lease.id].token != Some(lease.token);
      TokensComeFromClaims(rows, steps[0], env, lease.id, lease.token);
      SpentTokenNeverSettles(Next(rows, steps[0], env), steps[1..], env, lease, how);
    }
  }

  // Settling spends the token; so does the reclaim of an expired lease.
  lemma SettlingSpends(rows: Rows, env: Env, lease: Lease, how: Settlement)
    requires Sound(rows) && Allowed(rows, Settle(lease, how), env)
    ensures !Holds(Next(rows, Settle(lease, how), env), lease)
  {
  }

  lemma ReclaimingSpends(rows: Rows, s: Step, env: Env, lease: Lease)
    requires Sound(rows) && Allowed(rows, s, env) && Holds(rows, lease) && !Uses(s, lease.token)
    requires Next(rows, s, env)[lease.id] != rows[lease.id] && !s.Seed?
    ensures !Holds(Next(rows, s, env), lease)
  {
  }

  lemma RetryRowWaits(rows: Rows, s: Step, env: Env, id: Id, time: int)
    requires Sound(rows) && Allowed(rows, s, env)
    requires id in rows && rows[id].state.Retry? && rows[id].next == Some(time)
    requires Before(s, time) && !RequeuesOnRequest(s, id)
    ensures var after := Next(rows, s, env)[id];
            after.state == Retry && after.next == Some(time) && after.attempts == rows[id].attempts
  {
  }

  // A row in retry is not claimed, nor changed, before its time, unless a person asks for it.
  lemma {:induction false} NoClaimBeforeTime(rows: Rows, steps: seq<Step>, env: Env, id: Id, time: int)
    requires Sound(rows) && AllowedRun(rows, steps, env)
    requires id in rows && rows[id].state.Retry? && rows[id].next == Some(time)
    requires forall s | s in steps :: Before(s, time) && !RequeuesOnRequest(s, id)
    ensures id in Run(rows, steps, env)
    ensures var after := Run(rows, steps, env)[id];
            after.state == Retry && after.next == Some(time) && after.attempts == rows[id].attempts
    decreases |steps|
  {
    if steps != [] {
      StepKeepsSound(rows, steps[0], env);
      RetryRowWaits(rows, steps[0], env, id, time);
      NoClaimBeforeTime(Next(rows, steps[0], env), steps[1..], env, id, time);
    }
  }

  // So a failed attempt is retried no earlier than its backoff, and no earlier than Retry-After.
  lemma RetrySpacing(rows: Rows, env: Env, lease: Lease, code: Option<Code>, at: int, retryAfter: Option<int>,
                     steps: seq<Step>)
    requires Sound(rows) && Holds(rows, lease) && lease.attempts >= 1
    requires DeadCode(code, lease.attempts).None?
    requires var s := Settle(lease, Fail(code, at, retryAfter));
             AllowedRun(Next(rows, s, env), steps, env)
    requires forall s | s in steps :: !RequeuesOnRequest(s, lease.id)
    requires forall s | s in steps ::
               Before(s, at + Backoff(lease.attempts)) || (retryAfter.Some? && Before(s, retryAfter.value))
    ensures var s := Settle(lease, Fail(code, at, retryAfter));
            var after := Run(Next(rows, s, env), steps, env);
            lease.id in after && after[lease.id].state == Retry && after[lease.id].token.None?
  {
    var s := Settle(lease, Fail(code, at, retryAfter));
    StepKeepsSound(rows, s, env);
    RunKeepsSound(Next(rows, s, env), steps, env);
    NoClaimBeforeTime(Next(rows, s, env), steps, env, lease.id, RetryAt(lease.attempts, at, retryAfter));
  }
}
