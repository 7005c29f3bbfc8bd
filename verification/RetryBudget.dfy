// How many failures a post may have before it stops: the attempt budgets of crawler/store.py,
// counted over whole runs of the frontier.
module RetryBudget {
  import opened Wrappers
  import opened Frontier

  // Failures that left the row in retry since its attempts were last reset.
  datatype Tally = Tally(capped: nat, network: nat)

  const NO_FAILURES := Tally(0, 0)

  // The frontier with the leases handed out, the tokens used, and the tally of every row.
  datatype World = World(rows: Rows, issued: set<Lease>, tokens: set<nat>, tallies: map<Id, Tally>)

  function LeaseOf(id: Id, row: Row): Lease
    requires row.token.Some? && row.expires.Some?
  {
    Lease(id, row.attempts, row.token.value, row.expires.value, row.expected)
  }

  // The leases a claim returns: those of the rows it gave its token.
  function IssuedBy(rows: Rows, s: Step): set<Lease>
    requires Sound(rows)
  {
    set id | id in rows && rows[id].token.Some? && Uses(s, rows[id].token.value) :: LeaseOf(id, rows[id])
  }

  function TallyOf(w: World, id: Id): Tally {
    if id in w.tallies then w.tallies[id] else NO_FAILURES
  }

  function Counted(t: Tally, code: Option<Code>): Tally {
    if code.Some? && code.value.Capped() then t.(capped := t.capped + 1)
    else if code == Some(NetworkError) then t.(network := t.network + 1)
    else t
  }

  function NextTally(w: World, s: Step, after: Rows, id: Id): Tally
    requires id in after
  {
    if after[id].attempts == 0 then NO_FAILURES
    else if s.Settle? && s.how.Fail? && s.lease.id == id && Holds(w.rows, s.lease) && after[id].state.Retry?
    then Counted(TallyOf(w, id), s.how.code)
    else TallyOf(w, id)
  }

  // Tokens are fresh, and only a lease that was handed out settles.
  ghost predicate Possible(w: World, s: Step, env: Env) {
    && Allowed(w.rows, s, env)
    && (s.ClaimOne? || s.ClaimBatch? ==> s.token !in w.tokens)
    && (s.Settle? ==> s.lease in w.issued)
  }

  ghost function Advance(w: World, s: Step, env: Env): World
    requires Sound(w.rows) && Possible(w, s, env)
  {
    StepKeepsSound(w.rows, s, env);
    var after := Next(w.rows, s, env);
    World(after, w.issued + IssuedBy(after, s),
          if s.ClaimOne? || s.ClaimBatch? then w.tokens + {s.token} else w.tokens,
          map id | id in after :: NextTally(w, s, after, id))
  }

  ghost predicate WithinBudget(row: Row, t: Tally) {
    var tried := if row.state.Running? then row.attempts - 1 else row.attempts;
    && t.capped <= tried && t.capped < MAX_ATTEMPTS
    && t.network <= tried && t.network < NETWORK_MAX_ATTEMPTS
  }

  ghost predicate LeasesMatch(w: World) {
    && (forall l | l in w.issued :: l.token in w.tokens && l.attempts >= 1)
    && (forall l | l in w.issued && Holds(w.rows, l) :: w.rows[l.id].attempts == l.attempts)
    && (forall id | id in w.rows && w.rows[id].token.Some? :: w.rows[id].token.value in w.tokens)
  }

  ghost predicate Inv(w: World) {
    && Sound(w.rows)
    && LeasesMatch(w)
    && (forall id | id in w.rows :: WithinBudget(w.rows[id], TallyOf(w, id)))
  }

  lemma AttemptsMoveByOne(rows: Rows, s: Step, env: Env, id: Id)
    requires Sound(rows) && Allowed(rows, s, env) && id in rows
    ensures var before, after := rows[id], Next(rows, s, env)[id];
            || after.attempts == 0
            || (after.attempts == before.attempts && (after.state.Running? <==> before.state.Running?)
                && after.token == before.token)
            || (after.attempts == before.attempts && before.state.Running? && after.token.None?)
            || (after.attempts == before.attempts + 1 && after.state.Running?
                && after.token.Some? && Uses(s, after.token.value))
  {
  }

  lemma StepKeepsLeases(w: World, s: Step, env: Env)
    requires Sound(w.rows) && LeasesMatch(w) && Possible(w, s, env)
    ensures LeasesMatch(Advance(w, s, env))
  {
    StepKeepsSound(w.rows, s, env);
    var v := Advance(w, s, env);
    forall id | id in v.rows && v.rows[id].token.Some? ensures v.rows[id].token.value in v.tokens {
      if id in w.rows { AttemptsMoveByOne(w.rows, s, env, id); }
    }
    StepKeepsAttempts(w, s, env);
  }

  // A lease that still holds was issued with the attempts its row has.
  lemma StepKeepsAttempts(w: World, s: Step, env: Env)
    requires Sound(w.rows) && LeasesMatch(w) && Possible(w, s, env)
    ensures var v := Advance(w, s, env);
            forall l | l in v.issued && Holds(v.rows, l) :: v.rows[l.id].attempts == l.attempts
  {
    StepKeepsSound(w.rows, s, env);
    var v := Advance(w, s, env);
    forall l | l in v.issued && Holds(v.rows, l) ensures v.rows[l.id].attempts == l.attempts {
      if l in w.issued && l.id in w.rows { AttemptsMoveByOne(w.rows, s, env, l.id); }
    }
  }

  // A failure that leaves the row in retry is below its limit, and its attempt had not been
  // counted yet.
  lemma FailureCounts(w: World, s: Step, env: Env)
    requires Inv(w) && Possible(w, s, env)
    requires s.Settle? && s.how.Fail? && Holds(w.rows, s.lease)
    ensures var id := s.lease.id;
            var after := Next(w.rows, s, env);
            WithinBudget(after[id], NextTally(w, s, after, id))
  {
    assert w.rows[s.lease.id].attempts == s.lease.attempts;
  }

  lemma StepKeepsBudget(w: World, s: Step, env: Env)
    requires Inv(w) && Possible(w, s, env)
    ensures Inv(Advance(w, s, env))
  {
    StepKeepsSound(w.rows, s, env);
    StepKeepsLeases(w, s, env);
    var v := Advance(w, s, env);
    forall id | id in v.rows ensures WithinBudget(v.rows[id], TallyOf(v, id)) {
      if id in w.rows {
        AttemptsMoveByOne(w.rows, s, env, id);
        if s.Settle? && s.how.Fail? && s.lease.id == id && Holds(w.rows, s.lease) {
          FailureCounts(w, s, env);
        }
      }
    }
  }

  ghost predicate PossibleRun(w: World, steps: seq<Step>, env: Env)
    requires Sound(w.rows)
    decreases |steps|
  {
    steps == [] ||
    (Possible(w, steps[0], env)
     && (StepKeepsSound(w.rows, steps[0], env); PossibleRun(Advance(w, steps[0], env), steps[1..], env)))
  }

  ghost function RunWorld(w: World, steps: seq<Step>, env: Env): World
    requires Sound(w.rows) && PossibleRun(w, steps, env)
    decreases |steps|
  {
    if steps == [] then w
    else
      StepKeepsSound(w.rows, steps[0], env);
      RunWorld(Advance(w, steps[0], env), steps[1..], env)
  }

  const START := World(map[], {}, {}, map[])

  lemma {:induction false} RunKeepsBudget(w: World, steps: seq<Step>, env: Env)
    requires Inv(w) && PossibleRun(w, steps, env)
    ensures Inv(RunWorld(w, steps, env))
    decreases |steps|
  {
    if steps != [] {
      StepKeepsBudget(w, steps[0], env);
      RunKeepsBudget(Advance(w, steps[0], env), steps[1..], env);
    }
  }

  // Between two resets of its attempts, at most 4 capped failures and at most 23 network failures
  // leave a row in retry, over every run of frontier steps.
  lemma RetryBudgetHolds(steps: seq<Step>, env: Env, id: Id)
    requires PossibleRun(START, steps, env)
    ensures var w := RunWorld(START, steps, env);
            id in w.rows ==> TallyOf(w, id).capped <= 4 && TallyOf(w, id).network <= 23
  {
    RunKeepsBudget(START, steps, env);
  }

  // A failure settles as dead exactly when its code's attempt limit is reached; the row then keeps
  // no time and no lease. Every other failure stays in retry, at its backoff.
  lemma DeadAtTheLimit(rows: Rows, env: Env, lease: Lease, code: Option<Code>, at: int, retryAfter: Option<int>)
    requires Sound(rows) && Holds(rows, lease) && lease.attempts >= 1
    ensures var row := Next(rows, Settle(lease, Fail(code, at, retryAfter)), env)[lease.id];
            var spent := || (code.Some? && code.value.Capped() && lease.attempts >= 5)
                         || (code == Some(NetworkError) && lease.attempts >= 24);
            && (row.state == Dead <==> spent) && (row.state == Retry <==> !spent)
            && (spent ==> row.next.None? && row.token.None?
                          && row.code == if code == Some(NetworkError) then Some(OriginUnresponsive) else code)
            && (!spent ==> row.code == code && row.next.Some? && at + 120 <= row.next.value
                           && (retryAfter.None? ==> row.next.value <= at + 21600)
                           && (retryAfter.Some? ==> row.next.value >= retryAfter.value))
  {
    BackoffBounds(lease.attempts, lease.attempts);
  }
}
