// Which posts a recovery run takes: the round-robin query of recovery_candidates in
// crawler/frontier.py and the batch of scripts/recover_queue.py.
module Recovery {
  import opened Wrappers
  import opened Ordering
  import opened Frontier
  import opened FrontierStore
  import opened QueueOrder

  const STALE_RESERVED_POSTS: nat := 1

  // What the query joins to the frontier: which posts have a body, the rank of each board's group
  // (0 to 3), and when each post was last collected.
  datatype Site = Site(env: Env, group: map<nat, nat>, collected: map<Id, int>)

  datatype Query = Query(limit: nat, now: int, board: Option<nat>, missingOnly: bool)

  function BodyRank(site: Site, id: Id): int {
    if id in site.env.bodies then 1 else 0
  }

  function StateRank(row: Row, q: Query): int {
    if row.state == (if q.missingOnly then Pending else Retry) then 0 else 1
  }

  function GroupRank(site: Site, id: Id): int {
    if id.board in site.group then site.group[id.board] else 3
  }

  predicate Candidate(rows: Rows, site: Site, q: Query, id: Id)
    requires id in rows
  {
    && Claimable(id, rows[id], site.env, q.now)
    && InScope(id, q.board)
    && (q.missingOnly ==> id !in site.env.bodies)
  }

  function Candidates(rows: Rows, site: Site, q: Query): set<Id> {
    set id | id in rows && Candidate(rows, site, q, id)
  }

  // ORDER BY of the window: the order of one board's candidates.
  function BoardKey(rows: Rows, site: Site, q: Query, id: Id): Key
    requires id in rows
  {
    [BodyRank(site, id), StateRank(rows[id], q), -rows[id].priority, rows[id].attempts, id.post]
  }

  // The candidates of the same board up to and including this one.
  function UpTo(rows: Rows, site: Site, q: Query, id: Id): set<Id>
    requires id in rows
  {
    set x | x in Candidates(rows, site, q) && x.board == id.board
            && (x == id || Less(BoardKey(rows, site, q, x), BoardKey(rows, site, q, id)))
  }

  // ROW_NUMBER() OVER (PARTITION BY board_id ORDER BY ...)
  function BoardRank(rows: Rows, site: Site, q: Query, id: Id): nat
    requires id in rows
  {
    |UpTo(rows, site, q, id)|
  }

  function Keys(rows: Rows, site: Site, q: Query): (keys: map<Id, Key>) {
    map id | id in Candidates(rows, site, q) ::
      [BodyRank(site, id), BoardRank(rows, site, q, id), StateRank(rows[id], q), GroupRank(site, id),
       -rows[id].priority, rows[id].attempts, id.board, id.post]
  }

  lemma KeysDistinct(rows: Rows, site: Site, q: Query)
    ensures Distinct(Keys(rows, site, q))
  {
    var keys := Keys(rows, site, q);
    forall x, y | x in keys && y in keys && keys[x] == keys[y] ensures x == y {
      assert keys[x][6] == x.board && keys[y][6] == y.board;
      assert keys[x][7] == x.post && keys[y][7] == y.post;
    }
  }

  // ------------------------------------------------------------------ fairness

  // The body-less candidates of one board, and those of them a batch took.
  ghost function Waiting(rows: Rows, site: Site, q: Query, board: nat): set<Id> {
    set id | id in Candidates(rows, site, q) && id.board == board && id !in site.env.bodies
  }

  ghost function Taken(rows: Rows, site: Site, q: Query, order: seq<Id>, board: nat): set<Id> {
    set id | id in order && id in Waiting(rows, site, q, board)
  }

  // A set of one board's candidates whose ranks are at most k has at most k members.
  lemma RanksCount(rows: Rows, site: Site, q: Query, ids: set<Id>, board: nat, k: nat)
    requires ids <= Candidates(rows, site, q)
    requires forall id | id in ids :: id.board == board && BoardRank(rows, site, q, id) <= k
    ensures |ids| <= k
  {
    if ids != {} {
      var last := LastOf(rows, site, q, ids, board);
      assert ids <= UpTo(rows, site, q, last);
      Subset(ids, UpTo(rows, site, q, last));
    }
  }

  lemma {:induction false} Subset(a: set<Id>, b: set<Id>)
    requires a <= b
    ensures |a| <= |b|
    decreases |a|
  {
    if a != {} {
      var x :| x in a;
      Subset(a - {x}, b - {x});
    }
  }

  lemma SameBoardTotal(rows: Rows, site: Site, q: Query, x: Id, y: Id)
    requires x in rows && y in rows && x.board == y.board && x != y
    ensures Less(BoardKey(rows, site, q, x), BoardKey(rows, site, q, y))
            || Less(BoardKey(rows, site, q, y), BoardKey(rows, site, q, x))
  {
    LessTotal(BoardKey(rows, site, q, x), BoardKey(rows, site, q, y));
    assert BoardKey(rows, site, q, x)[4] == x.post && BoardKey(rows, site, q, y)[4] == y.post;
  }

  lemma {:induction false} LastOf(rows: Rows, site: Site, q: Query, ids: set<Id>, board: nat) returns (last: Id)
    requires ids != {} && ids <= Candidates(rows, site, q) && forall id | id in ids :: id.board == board
    ensures last in ids
    ensures forall x | x in ids ::
              x == last || Less(BoardKey(rows, site, q, x), BoardKey(rows, site, q, last))
    decreases |ids|
  {
    var x :| x in ids;
    if ids == {x} {
      last := x;
    } else {
      assert ids - {x} < ids;
      var y := LastOf(rows, site, q, ids - {x}, board);
      SameBoardTotal(rows, site, q, x, y);
      if Less(BoardKey(rows, site, q, y), BoardKey(rows, site, q, x)) {
        last := x;
        forall z | z in ids - {x} && z != y
          ensures Less(BoardKey(rows, site, q, z), BoardKey(rows, site, q, x))
        {
          LessTransitive(BoardKey(rows, site, q, z), BoardKey(rows, site, q, y), BoardKey(rows, site, q, x));
        }
      } else {
        last := y;
      }
    }
  }

  lemma {:induction false} FirstOf(rows: Rows, site: Site, q: Query, ids: set<Id>, board: nat) returns (first: Id)
    requires ids != {} && ids <= Candidates(rows, site, q) && forall id | id in ids :: id.board == board
    ensures first in ids
    ensures forall x | x in ids ::
              x == first || Less(BoardKey(rows, site, q, first), BoardKey(rows, site, q, x))
    decreases |ids|
  {
    var x :| x in ids;
    if ids == {x} {
      first := x;
    } else {
      assert ids - {x} < ids;
      var y := FirstOf(rows, site, q, ids - {x}, board);
      SameBoardTotal(rows, site, q, x, y);
      if Less(BoardKey(rows, site, q, x), BoardKey(rows, site, q, y)) {
        first := x;
        forall z | z in ids - {x} && z != y
          ensures Less(BoardKey(rows, site, q, x), BoardKey(rows, site, q, z))
        {
          LessTransitive(BoardKey(rows, site, q, x), BoardKey(rows, site, q, y), BoardKey(rows, site, q, z));
        }
      } else {
        first := y;
      }
    }
  }

  // The first body-less row a board was not given has a rank of at most one more than the board took.
  lemma FirstUntakenRank(rows: Rows, site: Site, q: Query, order: seq<Id>, board: nat) returns (first: Id)
    requires Taken(rows, site, q, order, board) != Waiting(rows, site, q, board)
    ensures first in Waiting(rows, site, q, board) && first !in order
    ensures BoardRank(rows, site, q, first) <= |Taken(rows, site, q, order, board)| + 1
  {
    var left := Waiting(rows, site, q, board) - Taken(rows, site, q, order, board);
    assert left != {};
    first := FirstOf(rows, site, q, left, board);
    forall x | x in UpTo(rows, site, q, first) ensures x == first || x in Taken(rows, site, q, order, board) {
      if x != first {
        assert BoardKey(rows, site, q, x)[0] == BodyRank(site, x);
        assert BoardKey(rows, site, q, first)[0] == 0;
        assert x in Waiting(rows, site, q, board);
        LessTotal(BoardKey(rows, site, q, x), BoardKey(rows, site, q, first));
      }
    }
    Subset(UpTo(rows, site, q, first), Taken(rows, site, q, order, board) + {first});
  }

  // A body-less row that was taken has no higher rank than one that was not.
  lemma TakenRanksLower(rows: Rows, site: Site, q: Query, order: seq<Id>, x: Id, y: Id)
    requires Selects(Keys(rows, site, q), q.limit, order)
    requires x in order && x in Candidates(rows, site, q) && x !in site.env.bodies
    requires y in Candidates(rows, site, q) && y !in order && y !in site.env.bodies
    ensures BoardRank(rows, site, q, x) <= BoardRank(rows, site, q, y)
  {
    var keys := Keys(rows, site, q);
    var i :| 0 <= i < |order| && order[i] == x;
    assert Less(keys[x], keys[y]);
    assert keys[x][0] == 0 == keys[y][0];
    assert Less(keys[x][1..], keys[y][1..]);
    assert keys[x][1..][0] == BoardRank(rows, site, q, x) && keys[y][1..][0] == BoardRank(rows, site, q, y);
  }

  // Recovery is fair: of two boards, the one that took fewer body-less posts took at most one
  // fewer, unless it had no more to give.
  lemma RecoveryIsFair(rows: Rows, site: Site, q: Query, order: seq<Id>, a: nat, b: nat)
    requires Selects(Keys(rows, site, q), q.limit, order)
    requires Taken(rows, site, q, order, a) != Waiting(rows, site, q, a)
    ensures |Taken(rows, site, q, order, b)| <= |Taken(rows, site, q, order, a)| + 1
  {
    var first := FirstUntakenRank(rows, site, q, order, a);
    forall x | x in Taken(rows, site, q, order, b)
      ensures BoardRank(rows, site, q, x) <= |Taken(rows, site, q, order, a)| + 1
    {
      TakenRanksLower(rows, site, q, order, x, first);
    }
    RanksCount(rows, site, q, Taken(rows, site, q, order, b), b, |Taken(rows, site, q, order, a)| + 1);
  }

  // Posts without a body come before every post that has one.
  lemma BodylessFirst(rows: Rows, site: Site, q: Query, order: seq<Id>, x: Id, y: Id)
    requires Selects(Keys(rows, site, q), q.limit, order)
    requires x in order && x in site.env.bodies
    requires y in Candidates(rows, site, q) && y !in site.env.bodies
    ensures y in order
  {
    var keys := Keys(rows, site, q);
    var i :| 0 <= i < |order| && order[i] == x;
    assert keys[x][0] == 1 && keys[y][0] == 0;
    assert !Less(keys[x], keys[y]);
  }

  // ------------------------------------------------------------------ the turns of one board

  // The order of one board's turns between posts that both have a body or both have none: the state the
  // round is for, then priority, then fewer attempts, then the post number.
  predicate TurnBefore(rows: Rows, q: Query, x: Id, y: Id)
    requires x in rows && y in rows
  {
    var wanted := if q.missingOnly then Pending else Retry;
    var a, b := rows[x], rows[y];
    || (a.state == wanted && b.state != wanted)
    || ((a.state == wanted <==> b.state == wanted)
        && (|| a.priority > b.priority
            || (a.priority == b.priority && (a.attempts < b.attempts || (a.attempts == b.attempts && x.post < y.post)))))
  }

  lemma TurnIff(rows: Rows, site: Site, q: Query, x: Id, y: Id)
    requires x in rows && y in rows && (x in site.env.bodies <==> y in site.env.bodies)
    ensures Less(BoardKey(rows, site, q, x), BoardKey(rows, site, q, y)) <==> TurnBefore(rows, q, x, y)
  {
    Less5(BoardKey(rows, site, q, x), BoardKey(rows, site, q, y));
  }

  // A board's earlier turns have lower ranks.
  lemma RankIncreases(rows: Rows, site: Site, q: Query, x: Id, y: Id)
    requires x in Candidates(rows, site, q) && y in Candidates(rows, site, q) && x.board == y.board && x != y
    requires Less(BoardKey(rows, site, q, x), BoardKey(rows, site, q, y))
    ensures BoardRank(rows, site, q, x) < BoardRank(rows, site, q, y)
  {
    var a, b := UpTo(rows, site, q, x), UpTo(rows, site, q, y);
    forall z | z in a ensures z in b {
      if z != x {
        LessTransitive(BoardKey(rows, site, q, z), BoardKey(rows, site, q, x), BoardKey(rows, site, q, y));
      }
    }
    LessTotal(BoardKey(rows, site, q, x), BoardKey(rows, site, q, y));
    assert y !in a && y in b;
    Subset(a, b - {y});
  }

  // Of one board's posts with a body, or without, a round takes those whose turn comes first.
  lemma BoardsTakeTurns(rows: Rows, site: Site, q: Query, order: seq<Id>, x: Id, y: Id)
    requires Selects(Keys(rows, site, q), q.limit, order)
    requires x in order && y in Candidates(rows, site, q) && y !in order
    requires x.board == y.board && (x in site.env.bodies <==> y in site.env.bodies)
    ensures x in rows && TurnBefore(rows, q, x, y)
  {
    var keys := Keys(rows, site, q);
    var i :| 0 <= i < |order| && order[i] == x;
    assert x in keys && Less(keys[x], keys[y]);
    TurnIff(rows, site, q, x, y);
    SameBoardTotal(rows, site, q, x, y);
    if !Less(BoardKey(rows, site, q, x), BoardKey(rows, site, q, y)) {
      RankIncreases(rows, site, q, y, x);
      LowerRankFirst(keys[x], keys[y]);
    }
  }

  lemma LowerRankFirst(a: Key, b: Key)
    requires |a| > 1 && |b| > 1 && a[0] == b[0] && Less(a, b)
    ensures a[1] <= b[1]
  {
    assert Less(a[1..], b[1..]);
  }

  // ------------------------------------------------------------------ the batch

  // ORDER BY the last collection, board, post over the done rows that are old enough.
  function StaleKeys(rows: Rows, site: Site, board: Option<nat>, before: int): (keys: map<Id, Key>)
    ensures Distinct(keys)
  {
    map id | id in rows && rows[id].state.Done? && Enabled(id, site.env) && InScope(id, board)
             && id in site.collected && site.collected[id] <= before
      :: [site.collected[id], id.board, id.post]
  }

  function StaleLimit(limit: nat, due: nat): nat
    requires due <= limit
  {
    Max(Min(STALE_RESERVED_POSTS, limit), limit - due)
  }

  // _recovery_batch: due[: limit - len(revisited)] + revisited
  function Batch(limit: nat, due: seq<Id>, revisited: seq<Id>): seq<Id>
    requires |revisited| <= limit
  {
    (if limit - |revisited| <= |due| then due[..limit - |revisited|] else due) + revisited
  }

  ghost predicate NoDuplicates(ids: seq<Id>) {
    forall i, j | 0 <= i < j < |ids| :: ids[i] != ids[j]
  }

  // The batch never exceeds the limit, repeats nothing, keeps a slot for the stalest post while the
  // due queue is full, and drops a due post only for that reserved slot.
  lemma BatchIsSound(rows: Rows, site: Site, q: Query, due: seq<Id>, revisited: seq<Id>, before: int)
    requires q.limit >= 1
    requires Selects(Keys(rows, site, q), q.limit, due)
    requires Selects(StaleKeys(rows, site, q.board, before), StaleLimit(q.limit, |due|), revisited)
    ensures |revisited| <= q.limit
    ensures var batch := Batch(q.limit, due, revisited);
            && |batch| <= q.limit
            && NoDuplicates(batch)
            && (forall id | id in batch :: id in rows && (rows[id].state.Done? <==> id in revisited))
            && (|due| + |revisited| <= q.limit ==> batch == due + revisited)
            && |due| + |revisited| - |batch| <= STALE_RESERVED_POSTS
    ensures StaleKeys(rows, site, q.board, before) != map[] ==> revisited != []
  {
    var staleLimit := StaleLimit(q.limit, |due|);
    SelectsOnce(Keys(rows, site, q), q.limit, due);
    SelectsOnce(StaleKeys(rows, site, q.board, before), staleLimit, revisited);
    BatchLength(q.limit, due, revisited);
    DueAndStaleApart(rows, site, q, due, revisited, before);
    BatchJoins(rows, q.limit, due, revisited);
    StaleGoesOn(StaleKeys(rows, site, q.board, before), StaleLimit(q.limit, |due|), revisited);
  }

  lemma BatchLength(limit: nat, due: seq<Id>, revisited: seq<Id>)
    requires limit >= 1 && |due| <= limit && |revisited| <= StaleLimit(limit, |due|)
    ensures |revisited| <= limit && |Batch(limit, due, revisited)| <= limit
    ensures |due| + |revisited| <= limit ==> Batch(limit, due, revisited) == due + revisited
    ensures |due| + |revisited| - |Batch(limit, due, revisited)| <= STALE_RESERVED_POSTS
  {
  }

  lemma StaleGoesOn(keys: map<Id, Key>, limit: nat, revisited: seq<Id>)
    requires limit >= 1 && Selects(keys, limit, revisited)
    ensures keys != map[] ==> revisited != []
  {
  }

  lemma BatchJoins(rows: Rows, limit: nat, due: seq<Id>, revisited: seq<Id>)
    requires |due| <= limit && |revisited| <= limit && NoDuplicates(due) && NoDuplicates(revisited)
    requires forall id | id in due :: id in rows && !rows[id].state.Done?
    requires forall id | id in revisited :: id in rows && rows[id].state.Done?
    ensures NoDuplicates(Batch(limit, due, revisited))
    ensures forall id | id in Batch(limit, due, revisited) ::
              id in rows && (rows[id].state.Done? <==> id in revisited)
  {
    assert forall i | 0 <= i < |due| :: due[i] in due;
    assert forall i | 0 <= i < |revisited| :: revisited[i] in revisited;
  }

  lemma DueAndStaleApart(rows: Rows, site: Site, q: Query, due: seq<Id>, revisited: seq<Id>, before: int)
    requires Selects(Keys(rows, site, q), q.limit, due)
    requires exists limit :: Selects(StaleKeys(rows, site, q.board, before), limit, revisited)
    ensures forall id | id in due :: id in rows && (rows[id].state.Pending? || rows[id].state.Retry?)
    ensures forall id | id in revisited :: id in rows && rows[id].state.Done?
  {
  }

  // The revisited posts are the done ones collected longest ago.
  lemma RevisitsTheStalest(rows: Rows, site: Site, board: Option<nat>, before: int, limit: nat, revisited: seq<Id>, x: Id,
                           y: Id)
    requires Selects(StaleKeys(rows, site, board, before), limit, revisited)
    requires x in revisited && y !in revisited && y in rows && rows[y].state.Done? && y.board !in site.env.disabled
    requires (board.Some? ==> y.board == board.value) && y in site.collected && site.collected[y] <= before
    ensures x in rows && rows[x].state.Done? && x in site.collected && site.collected[x] <= site.collected[y]
    ensures |revisited| == limit
  {
    var keys := StaleKeys(rows, site, board, before);
    var i :| 0 <= i < |revisited| && revisited[i] == x;
    assert y in keys && Less(keys[x], keys[y]);
    Less3(keys[x], keys[y]);
  }

  // Over a store no other writer touches, as the run holds the sync lock: the expiry sweep, the
  // candidate query, and the requeue of the stalest done rows.
  method RecoveryBatch(store: Store, site: Site, q: Query, staleBefore: int)
    returns (batch: seq<Id>, revisited: seq<Id>)
    requires store.Valid() && store.env == site.env && q.limit >= 1
    modifies store`rows
    ensures store.Valid()
    ensures var swept := Next(old(store.rows), Sweep(q.board, q.missingOnly, q.now), site.env);
            && (q.missingOnly ==> revisited == [] && store.rows == swept)
            && (!q.missingOnly ==>
                  && Allowed(swept, RequeueStale(Members(revisited)), site.env)
                  && store.rows == Next(swept, RequeueStale(Members(revisited)), site.env))
            && (exists due :: Selects(Keys(swept, site, q), q.limit, due) && |revisited| <= q.limit
                              && batch == Batch(q.limit, due, revisited))
    ensures |batch| <= q.limit && NoDuplicates(batch)
  {
    StepKeepsSound(store.rows, Sweep(q.board, q.missingOnly, q.now), site.env);
    store.rows := Next(store.rows, Sweep(q.board, q.missingOnly, q.now), site.env);
    ghost var swept := store.rows;
    KeysDistinct(swept, site, q);
    var due := SelectFirst(Keys(store.rows, site, q), q.limit);
    SelectsOnce(Keys(swept, site, q), q.limit, due);
    if q.missingOnly {
      revisited := [];
    } else {
      revisited := SelectFirst(StaleKeys(store.rows, site, q.board, staleBefore), StaleLimit(q.limit, |due|));
      BatchIsSound(swept, site, q, due, revisited, staleBefore);
      DueAndStaleApart(swept, site, q, due, revisited, staleBefore);
      StepKeepsSound(swept, RequeueStale(Members(revisited)), site.env);
      store.rows := Next(store.rows, RequeueStale(Members(revisited)), site.env);
    }
    batch := Batch(q.limit, due, revisited);
  }
}
