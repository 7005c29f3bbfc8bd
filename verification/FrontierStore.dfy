// The methods of FrontierStore in crawler/frontier.py, which rewrite rows in place, proved against
// the steps of Frontier.
module FrontierStore {
  import opened Wrappers
  import opened Frontier
  import opened Ordering
  import opened QueueOrder
  import opened RetryBudget

  // The rows picked, requeued, and the rest as the sweep left them.
  lemma RoundIs(rows: Rows, order: seq<Id>, env: Env, now: int, after: Rows)
    requires var swept := Reclaim(rows, env, now, rows.Keys);
             && (forall id | id in order :: id in swept && !swept[id].state.Running? && Enabled(id, env))
             && after.Keys == swept.Keys
             && forall id | id in swept ::
                  after[id] == if id in order && !swept[id].state.Running? then Requeued(swept[id], Pending) else swept[id]
    ensures after == Next(rows, RequeueFull(Members(order), now), env)
  {
  }

  function Members(order: seq<Id>): set<Id> {
    set id | id in order
  }

  // The leases handed out for the rows just marked running.
  function Leases(rows: Rows, order: seq<Id>): (leases: seq<Lease>)
    requires forall id | id in order :: id in rows && rows[id].token.Some? && rows[id].expires.Some?
    ensures |leases| == |order| && forall i | 0 <= i < |order| :: leases[i] == LeaseOf(order[i], rows[order[i]])
  {
    if order == [] then [] else [LeaseOf(order[0], rows[order[0]])] + Leases(rows, order[1..])
  }

  class Store {
    var rows: Rows
    var env: Env

    ghost predicate Valid()
      reads this
    {
      Sound(rows)
    }

    constructor (env: Env)
      ensures Valid() && rows == map[] && this.env == env
    {
      rows, this.env := map[], env;
    }

    method ClaimIdentity(id: Id, leaseSeconds: nat, now: int, token: nat) returns (lease: Option<Lease>)
      requires Valid() && leaseSeconds >= 1
      modifies this`rows
      ensures Valid() && rows == Next(old(rows), ClaimOne(id, leaseSeconds, now, token), env)
      ensures lease.Some? <==> var swept := Reclaim(old(rows), env, now, {id});
                               id in swept && Claimable(id, swept[id], env, now)
      ensures lease.Some? ==> id in rows && Holds(rows, lease.value) && lease.value.id == id
                              && lease.value.attempts == rows[id].attempts && lease.value.token == token
                              && lease.value.expires == now + leaseSeconds
    {
      StepKeepsSound(rows, ClaimOne(id, leaseSeconds, now, token), env);
      rows := Reclaim(rows, env, now, {id});
      if id !in rows || !Claimable(id, rows[id], env, now) {
        return None;
      }
      rows := rows[id := Claimed(rows[id], now, token, leaseSeconds)];
      return Some(LeaseOf(id, rows[id]));
    }

    // Leases the first `limit` due rows under one token.
    method Claim(limit: nat, leaseSeconds: nat, now: int, token: nat) returns (order: seq<Id>, leases: seq<Lease>)
      requires Valid() && limit >= 1 && leaseSeconds >= 1
      modifies this`rows
      ensures Valid()
      ensures TakesTheBest(old(rows), env, now, limit, order)
      ensures Allowed(old(rows), ClaimBatch(Members(order), leaseSeconds, now, token), env)
      ensures rows == Next(old(rows), ClaimBatch(Members(order), leaseSeconds, now, token), env)
      ensures forall id | id in order ::
                && id in rows && id in old(rows) && rows[id].state == Running && rows[id].token == Some(token)
                && rows[id].expires == Some(now + leaseSeconds) && rows[id].attempts == old(rows)[id].attempts + 1
                && rows[id].lastAttempt == Some(now)
      ensures leases == Leases(rows, order)
    {
      ghost var before := rows;
      rows := Reclaim(rows, env, now, rows.Keys);
      order := SelectFirst(DueKeys(rows, env, now), limit);
      SelectsOnce(DueKeys(rows, env, now), limit, order);
      ClaimTakesTheBest(before, env, now, limit, order);
      MarkRunning(order, leaseSeconds, now, token);
      StepKeepsSound(before, ClaimBatch(Members(order), leaseSeconds, now, token), env);
      leases := Leases(rows, order);
    }

    // One UPDATE per selected row.
    method MarkRunning(order: seq<Id>, leaseSeconds: nat, now: int, token: nat)
      requires forall i | 0 <= i < |order| :: order[i] in rows
      requires forall i, j | 0 <= i < j < |order| :: order[i] != order[j]
      modifies this`rows
      ensures rows == ClaimAll(old(rows), Members(order), now, token, leaseSeconds)
    {
      var i := 0;
      while i < |order|
        invariant 0 <= i <= |order|
        invariant rows == ClaimAll(old(rows), Members(order[..i]), now, token, leaseSeconds)
      {
        assert order[..i + 1] == order[..i] + [order[i]];
        assert order[i] !in order[..i];
        rows := rows[order[i] := Claimed(rows[order[i]], now, token, leaseSeconds)];
        i := i + 1;
      }
      assert order[..i] == order;
    }

    // transition_lease and complete_lease: raise on a stale or missing lease, changing nothing.
    method SettleLease(lease: Lease, how: Settlement) returns (ok: bool)
      requires Valid() && Allowed(rows, Settle(lease, how), env)
      modifies this`rows
      ensures Valid() && rows == Next(old(rows), Settle(lease, how), env)
      ensures ok <==> Holds(old(rows), lease)
      ensures !Holds(rows, lease)
    {
      StepKeepsSound(rows, Settle(lease, how), env);
      ok := Holds(rows, lease);
      if ok {
        rows := rows[lease.id := Settled(rows[lease.id], lease, how)];
      }
    }

    // requeue_full_content: the first rows of the round by last attempt go back to the queue. `oldest` are
    // the rows up to the row id given.
    method RequeueFullContent(limit: nat, oldest: set<Id>, before: int, board: Option<nat>, now: int)
      returns (order: seq<Id>)
      requires Valid() && limit >= 1
      modifies this`rows
      ensures Valid() && rows == Next(old(rows), RequeueFull(Members(order), now), env)
      ensures TakesTheOldest(old(rows), env, oldest, before, board, now, limit, order)
      ensures forall id | id in order :: id in rows && rows[id].state.Pending? && rows[id].attempts == 0
    {
      ghost var was := rows;
      rows := Reclaim(rows, env, now, rows.Keys);
      var keys := RequeueKeys(rows, env, oldest, before, board);
      order := SelectFirst(keys, limit);
      assert forall id | id in order :: id in keys;
      RoundTakesTheOldest(was, env, oldest, before, board, now, limit, order);
      StepKeepsSound(was, RequeueFull(Members(order), now), env);
      RequeueIdle(order);
      RoundIs(was, order, env, now, rows);
    }

    // The chosen posts that no one holds go back to the queue with a fresh budget.
    method RequeueIdle(posts: seq<Id>)
      requires forall id | id in posts :: id in rows
      modifies this`rows
      ensures rows.Keys == old(rows).Keys
      ensures forall id | id in rows ::
                rows[id] == if id in posts && !old(rows)[id].state.Running? then Requeued(old(rows)[id], Pending)
                            else old(rows)[id]
    {
      var i := 0;
      while i < |posts|
        invariant 0 <= i <= |posts| && rows.Keys == old(rows).Keys
        invariant forall id | id in rows ::
                    rows[id] == if id in posts[..i] && !old(rows)[id].state.Running?
                                then Requeued(old(rows)[id], Pending) else old(rows)[id]
      {
        assert posts[..i + 1] == posts[..i] + [posts[i]];
        if !rows[posts[i]].state.Running? {
          rows := rows[posts[i] := Requeued(rows[posts[i]], Pending)];
        }
        i := i + 1;
      }
      assert posts[..i] == posts;
    }
  }
}
