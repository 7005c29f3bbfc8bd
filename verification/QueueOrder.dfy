// Which rows the frontier's queries take, said column by column: those of a batch claim and those of a
// full-content round.
module QueueOrder {
  import opened Wrappers
  import opened Ordering
  import opened Frontier

  // ------------------------------------------------------------------ lists of columns

  lemma Less2(a: int, b: int, c: int, d: int)
    ensures Less([a, b], [c, d]) <==> a < c || (a == c && b < d)
  {
    LessMore(a, [b], c, [d]);
    LessMore(b, [], d, []);
  }

  lemma LessMore(a: int, r: Key, b: int, s: Key)
    ensures Less([a] + r, [b] + s) <==> a < b || (a == b && Less(r, s))
  {
    assert ([a] + r)[1..] == r && ([b] + s)[1..] == s;
  }

  lemma Less3(a: Key, b: Key)
    requires |a| == |b| == 3
    ensures Less(a, b) <==> a[0] < b[0] || (a[0] == b[0] && (a[1] < b[1] || (a[1] == b[1] && a[2] < b[2])))
  {
    assert a == [a[0]] + [a[1], a[2]] && b == [b[0]] + [b[1], b[2]];
    LessMore(a[0], [a[1], a[2]], b[0], [b[1], b[2]]);
    Less2(a[1], a[2], b[1], b[2]);
  }

  lemma Less4(a: Key, b: Key)
    requires |a| == |b| == 4
    ensures Less(a, b)
       <==> a[0] < b[0] || (a[0] == b[0] && (a[1] < b[1] || (a[1] == b[1] && (a[2] < b[2] || (a[2] == b[2] && a[3] < b[3])))))
  {
    assert a == [a[0]] + a[1..] && b == [b[0]] + b[1..];
    LessMore(a[0], a[1..], b[0], b[1..]);
    Less3(a[1..], b[1..]);
  }

  lemma Less5(a: Key, b: Key)
    requires |a| == |b| == 5
    ensures Less(a, b)
       <==> || a[0] < b[0]
            || (a[0] == b[0] && (a[1] < b[1] || (a[1] == b[1] && (a[2] < b[2] || (a[2] == b[2]
                && (a[3] < b[3] || (a[3] == b[3] && a[4] < b[4])))))))
  {
    assert a == [a[0]] + a[1..] && b == [b[0]] + b[1..];
    LessMore(a[0], a[1..], b[0], b[1..]);
    Less4(a[1..], b[1..]);
  }

  // ------------------------------------------------------------------ the queries

  // ORDER BY priority DESC, board_id, external_post_id over the due rows
  function DueKeys(rows: Rows, env: Env, now: int): (keys: map<Id, Key>)
    ensures Distinct(keys)
  {
    map id | id in rows && Claimable(id, rows[id], env, now) :: [-rows[id].priority, id.board, id.post]
  }

  // The rows of a full-content round: of the first `oldest` rows those that no one holds, whose last
  // attempt is missing or before the round. ORDER BY last_attempt_at IS NOT NULL, last_attempt_at,
  // board_id, external_post_id
  function RequeueKeys(rows: Rows, env: Env, oldest: set<Id>, before: int, board: Option<nat>): (keys: map<Id, Key>)
    ensures Distinct(keys)
  {
    map id | id in rows && id in oldest && Enabled(id, env) && InScope(id, board) && !rows[id].state.Running?
             && (rows[id].lastAttempt.None? || rows[id].lastAttempt.value < before)
      :: if rows[id].lastAttempt.None? then [0, 0, id.board, id.post] else [1, rows[id].lastAttempt.value, id.board, id.post]
  }

  // ------------------------------------------------------------------ claims

  // Due: on a board that is not disabled, waiting without a time or with one that has come, or running
  // under a lease that has run out.
  predicate Due(rows: Rows, env: Env, now: int, id: Id) {
    && id in rows && id.board !in env.disabled
    && (|| ((rows[id].state.Pending? || rows[id].state.Retry?) && (rows[id].next.None? || rows[id].next.value <= now))
        || (rows[id].state.Running? && rows[id].expires.Some? && rows[id].expires.value <= now))
  }

  // Higher priority first, then board, then post.
  predicate Ahead(rows: Rows, x: Id, y: Id)
    requires x in rows && y in rows
  {
    || rows[x].priority > rows[y].priority
    || (rows[x].priority == rows[y].priority && (x.board < y.board || (x.board == y.board && x.post < y.post)))
  }

  // The due rows a batch claim takes: as many as there are up to the limit, in order, and none that is
  // left out is ahead of one that is taken.
  ghost predicate TakesTheBest(rows: Rows, env: Env, now: int, limit: nat, order: seq<Id>) {
    && |order| <= limit
    && (forall i | 0 <= i < |order| :: Due(rows, env, now, order[i]))
    && (forall i, j | 0 <= i < j < |order| :: Ahead(rows, order[i], order[j]))
    && (forall i, y | 0 <= i < |order| && Due(rows, env, now, y) && y !in order :: Ahead(rows, order[i], y))
    && (|order| < limit ==> forall y | Due(rows, env, now, y) :: y in order)
  }

  lemma DueIff(rows: Rows, env: Env, now: int, id: Id)
    ensures var swept := Reclaim(rows, env, now, rows.Keys);
            id in swept && Claimable(id, swept[id], env, now) <==> Due(rows, env, now, id)
  {
  }

  lemma AheadIff(rows: Rows, env: Env, now: int, x: Id, y: Id)
    requires var keys := DueKeys(Reclaim(rows, env, now, rows.Keys), env, now); x in keys && y in keys
    ensures x in rows && y in rows
    ensures var keys := DueKeys(Reclaim(rows, env, now, rows.Keys), env, now);
            Less(keys[x], keys[y]) <==> Ahead(rows, x, y)
  {
    var keys := DueKeys(Reclaim(rows, env, now, rows.Keys), env, now);
    Less3(keys[x], keys[y]);
  }

  lemma ClaimTakesTheBest(rows: Rows, env: Env, now: int, limit: nat, order: seq<Id>)
    requires Selects(DueKeys(Reclaim(rows, env, now, rows.Keys), env, now), limit, order)
    ensures TakesTheBest(rows, env, now, limit, order)
  {
    var keys := DueKeys(Reclaim(rows, env, now, rows.Keys), env, now);
    forall id ensures id in keys <==> Due(rows, env, now, id) { DueIff(rows, env, now, id); }
    forall x, y | x in keys && y in keys ensures Less(keys[x], keys[y]) <==> Ahead(rows, x, y) {
      AheadIff(rows, env, now, x, y);
    }
  }

  // ------------------------------------------------------------------ full-content rounds

  // In the round: among the first rows, on a board enabled and asked for, held by no live lease, and never
  // tried or last tried before the round.
  predicate InRound(rows: Rows, env: Env, oldest: set<Id>, before: int, board: Option<nat>, now: int, id: Id) {
    && id in rows && id in oldest && id.board !in env.disabled && (board.Some? ==> id.board == board.value)
    && (rows[id].state.Running? ==> rows[id].expires.Some? && rows[id].expires.value <= now)
    && (rows[id].lastAttempt.Some? ==> rows[id].lastAttempt.value < before)
  }

  // Never tried first, then the longest ago, then board and post.
  predicate LongerAgo(rows: Rows, x: Id, y: Id)
    requires x in rows && y in rows
  {
    var a, b := rows[x].lastAttempt, rows[y].lastAttempt;
    || (a.None? && b.Some?)
    || (a.Some? && b.Some? && a.value < b.value)
    || (a == b && (x.board < y.board || (x.board == y.board && x.post < y.post)))
  }

  ghost predicate TakesTheOldest(rows: Rows, env: Env, oldest: set<Id>, before: int, board: Option<nat>, now: int,
                                 limit: nat, order: seq<Id>) {
    && |order| <= limit
    && (forall i | 0 <= i < |order| :: InRound(rows, env, oldest, before, board, now, order[i]))
    && (forall i, j | 0 <= i < j < |order| :: LongerAgo(rows, order[i], order[j]))
    && (forall i, y | 0 <= i < |order| && InRound(rows, env, oldest, before, board, now, y) && y !in order ::
          LongerAgo(rows, order[i], y))
    && (|order| < limit ==> forall y | InRound(rows, env, oldest, before, board, now, y) :: y in order)
  }

  lemma InRoundIff(rows: Rows, env: Env, oldest: set<Id>, before: int, board: Option<nat>, now: int, id: Id)
    ensures id in RequeueKeys(Reclaim(rows, env, now, rows.Keys), env, oldest, before, board)
       <==> InRound(rows, env, oldest, before, board, now, id)
  {
  }

  lemma LongerAgoIff(rows: Rows, env: Env, oldest: set<Id>, before: int, board: Option<nat>, now: int, x: Id, y: Id)
    requires var keys := RequeueKeys(Reclaim(rows, env, now, rows.Keys), env, oldest, before, board); x in keys && y in keys
    ensures x in rows && y in rows
    ensures var keys := RequeueKeys(Reclaim(rows, env, now, rows.Keys), env, oldest, before, board);
            Less(keys[x], keys[y]) <==> LongerAgo(rows, x, y)
  {
    var keys := RequeueKeys(Reclaim(rows, env, now, rows.Keys), env, oldest, before, board);
    Less4(keys[x], keys[y]);
  }

  lemma RoundTakesTheOldest(rows: Rows, env: Env, oldest: set<Id>, before: int, board: Option<nat>, now: int,
                            limit: nat, order: seq<Id>)
    requires Selects(RequeueKeys(Reclaim(rows, env, now, rows.Keys), env, oldest, before, board), limit, order)
    ensures TakesTheOldest(rows, env, oldest, before, board, now, limit, order)
  {
    var keys := RequeueKeys(Reclaim(rows, env, now, rows.Keys), env, oldest, before, board);
    forall id ensures id in keys <==> InRound(rows, env, oldest, before, board, now, id) {
      InRoundIff(rows, env, oldest, before, board, now, id);
    }
    forall x, y | x in keys && y in keys ensures Less(keys[x], keys[y]) <==> LongerAgo(rows, x, y) {
      LongerAgoIff(rows, env, oldest, before, board, now, x, y);
    }
  }
}
