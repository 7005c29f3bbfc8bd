// The collection index the writer builds passes validate_release exactly when every post is in at
// most one collection, and that collection is on the post's own board.
module ValidCollections {
  import opened Wrappers
  import opened StaticRelease
  import opened Validation
  import opened ValidBoards
  import I = Incremental

  // ---------------------------------------------------------------- the condition on the archive

  // The post an entry stands for.
  function EntryKey(db: Database, c: Collection, e: Entry): (string, nat) {
    var p := PostOf(db, e);
    if p.Some? then Identity(p.value) else (c.board, if e.sourceExt.Some? then e.sourceExt.value else 0)
  }

  function EntryKeys(db: Database, cs: seq<Collection>): seq<(string, nat)> {
    if cs == [] then []
    else seq(|cs[0].entries|, i requires 0 <= i < |cs[0].entries| => EntryKey(db, cs[0], cs[0].entries[i]))
         + EntryKeys(db, cs[1..])
  }

  ghost predicate OnOwnBoards(db: Database) {
    forall i, j | 0 <= i < |db.collections| && 0 <= j < |db.collections[i].entries| ::
      EntryKey(db, db.collections[i], db.collections[i].entries[j]).0 == db.collections[i].board
  }

  ghost predicate InOneCollection(db: Database) {
    Distinct(EntryKeys(db, db.collections))
  }

  // ---------------------------------------------------------------- what is staged

  predicate Staged(db: Database, refs: Refs, c: Collection, out: CollectionOut) {
    && out.id == c.id && out.board == c.board && out.kind == c.kind && out.title == c.title
    && |out.entries| == |c.entries|
    && forall j | 0 <= j < |c.entries| :: StagedEntry(db, refs, c, c.entries[j], out.entries[j], j + 1)
  }

  predicate StagedEntry(db: Database, refs: Refs, c: Collection, e: Entry, out: EntryOut, position: nat) {
    EntryFor(db, refs, c, e) == Ok(out) && out.position == position
  }

  lemma {:induction false} EntriesStaged(db: Database, refs: Refs, c: Collection, entries: seq<Entry>, at: nat)
    requires EntriesFor(db, refs, c, entries, at).Ok?
    ensures var out := EntriesFor(db, refs, c, entries, at).value;
            |out| == |entries| && forall j | 0 <= j < |entries| :: StagedEntry(db, refs, c, entries[j], out[j], at + j)
    decreases |entries|
  {
    if entries != [] {
      EntriesStaged(db, refs, c, entries[1..], at + 1);
      var out := EntriesFor(db, refs, c, entries, at).value;
      forall j | 0 <= j < |entries| ensures StagedEntry(db, refs, c, entries[j], out[j], at + j) {
        if j > 0 {
          assert StagedEntry(db, refs, c, entries[1..][j - 1], out[1..][j - 1], at + 1 + (j - 1));
        }
      }
    }
  }

  lemma {:induction false} CollectionsStaged(db: Database, refs: Refs, cs: seq<Collection>)
    requires CollectionsFor(db, refs, cs).Ok?
    ensures var out := CollectionsFor(db, refs, cs).value;
            |out| == |cs| && forall i | 0 <= i < |cs| :: Staged(db, refs, cs[i], out[i])
    decreases |cs|
  {
    if cs != [] {
      EntriesStaged(db, refs, cs[0], cs[0].entries, 1);
      CollectionsStaged(db, refs, cs[1..]);
    }
  }

  lemma {:induction false} ExpectedKeys(db: Database, refs: Refs, cs: seq<Collection>, out: seq<CollectionOut>)
    requires |out| == |cs| && forall i | 0 <= i < |cs| :: Staged(db, refs, cs[i], out[i])
    ensures Keys(Expected(out)) == EntryKeys(db, cs)
    decreases |cs|
  {
    if cs != [] {
      assert Staged(db, refs, cs[0], out[0]);
      forall i | 0 <= i < |cs| - 1 ensures Staged(db, refs, cs[1..][i], out[1..][i]) {
        assert Staged(db, refs, cs[i + 1], out[i + 1]);
      }
      ExpectedKeys(db, refs, cs[1..], out[1..]);
      var first := EntryPlacements(out[0]);
      assert Keys(first + Expected(out[1..])) == Keys(first) + Keys(Expected(out[1..]));
      forall j | 0 <= j < |cs[0].entries| ensures Keys(first)[j] == EntryKey(db, cs[0], cs[0].entries[j]) {
        assert StagedEntry(db, refs, cs[0], cs[0].entries[j], out[0].entries[j], j + 1);
      }
      assert Keys(first) == seq(|cs[0].entries|, j requires 0 <= j < |cs[0].entries| => EntryKey(db, cs[0], cs[0].entries[j]));
    }
  }

  // ---------------------------------------------------------------- collections as staged

  ghost predicate DistinctIds(cs: seq<CollectionOut>) {
    forall i, j | 0 <= i < j < |cs| :: cs[i].id != cs[j].id
  }

  // Every entry is on its collection's board.
  ghost predicate Homes(cs: seq<CollectionOut>) {
    forall c, i | c in cs && 0 <= i < |c.entries| :: c.entries[i].board == c.board
  }

  // The placement of the i-th entry of c, under this board.
  function At(board: string, c: CollectionOut, i: nat): Placement
    requires i < |c.entries|
  {
    Placement(board, c.entries[i].ext, c.id, c.entries[i].position)
  }

  lemma {:induction false} ExpectedMembers(rows: seq<CollectionOut>)
    ensures |Expected(rows)| == EntryTotal(rows)
    ensures forall x :: x in Expected(rows)
                        <==> exists c, i :: c in rows && 0 <= i < |c.entries| && x == At(c.entries[i].board, c, i)
    decreases |rows|
  {
    if rows != [] {
      ExpectedMembers(rows[1..]);
      var first := EntryPlacements(rows[0]);
      forall x ensures x in Expected(rows)
                       <==> exists c, i :: c in rows && 0 <= i < |c.entries| && x == At(c.entries[i].board, c, i)
      {
        assert x in Expected(rows) <==> x in first || x in Expected(rows[1..]);
        if x in first {
          var i :| 0 <= i < |first| && first[i] == x;
          assert rows[0] in rows && x == At(rows[0].entries[i].board, rows[0], i);
        }
        if c, i :| c in rows && 0 <= i < |c.entries| && x == At(c.entries[i].board, c, i) {
          if c == rows[0] {
            assert first[i] == x;
          } else {
            assert c in rows[1..];
          }
        }
      }
    }
  }

  // ---------------------------------------------------------------- shards

  function From(cs: seq<CollectionOut>, shard: nat): (r: seq<CollectionOut>)
    ensures forall c :: c in r <==> c in cs && c.id % SHARDS >= shard
  {
    if cs == [] then []
    else if cs[0].id % SHARDS >= shard then [cs[0]] + From(cs[1..], shard)
    else From(cs[1..], shard)
  }

  lemma {:induction false} EntryTotalJoin(a: seq<CollectionOut>, b: seq<CollectionOut>)
    ensures EntryTotal(a + b) == EntryTotal(a) + EntryTotal(b)
    decreases |a|
  {
    if a == [] {
      assert a + b == b;
    } else {
      assert (a + b)[1..] == a[1..] + b;
      EntryTotalJoin(a[1..], b);
    }
  }

  lemma {:induction false} OneShardLess(cs: seq<CollectionOut>, shard: nat)
    ensures |From(cs, shard)| == |InShard(cs, shard)| + |From(cs, shard + 1)|
    ensures EntryTotal(From(cs, shard)) == EntryTotal(InShard(cs, shard)) + EntryTotal(From(cs, shard + 1))
    decreases |cs|
  {
    if cs != [] {
      OneShardLess(cs[1..], shard);
      EntryTotalJoin([cs[0]], From(cs[1..], shard));
      EntryTotalJoin([cs[0]], InShard(cs[1..], shard));
      EntryTotalJoin([cs[0]], From(cs[1..], shard + 1));
    }
  }

  lemma {:induction false} FromEnds(cs: seq<CollectionOut>)
    ensures From(cs, 0) == cs && From(cs, SHARDS) == []
    decreases |cs|
  {
    if cs != [] {
      FromEnds(cs[1..]);
    }
  }

  // The shards hold every collection once.
  lemma {:induction false} ShardRows(cs: seq<CollectionOut>, shard: nat)
    requires shard <= SHARDS
    ensures var rows := Rows(ShardsFrom(cs, shard));
            && (forall c :: c in rows <==> c in cs && c.id % SHARDS >= shard)
            && |rows| == |From(cs, shard)| && EntryTotal(rows) == EntryTotal(From(cs, shard))
    decreases SHARDS - shard
  {
    if shard == SHARDS {
      FromEnds(cs);
    } else {
      ShardRows(cs, shard + 1);
      OneShardLess(cs, shard);
      var first, rest := InShard(cs, shard), Rows(ShardsFrom(cs, shard + 1));
      ShardRowsUnfold(cs, shard);
      EntryTotalJoin(first, rest);
    }
  }

  lemma ShardRowsUnfold(cs: seq<CollectionOut>, shard: nat)
    requires shard < SHARDS
    ensures Rows(ShardsFrom(cs, shard)) == InShard(cs, shard) + Rows(ShardsFrom(cs, shard + 1))
  {
    var first, rest := InShard(cs, shard), ShardsFrom(cs, shard + 1);
    if first != [] {
      assert ([Shard(shard, first)] + rest)[1..] == rest;
    }
  }

  lemma AllRows(cs: seq<CollectionOut>)
    ensures var rows := Rows(ShardsFrom(cs, 0));
            (forall c :: c in rows <==> c in cs) && |rows| == |cs| && EntryTotal(rows) == EntryTotal(cs)
  {
    ShardRows(cs, 0);
    FromEnds(cs);
  }

  lemma {:induction false} ShardNumbersDistinct(cs: seq<CollectionOut>, shard: nat)
    requires shard <= SHARDS
    ensures Distinct(ShardNumbers(ShardsFrom(cs, shard)))
    ensures forall i | 0 <= i < |ShardsFrom(cs, shard)| :: ShardsFrom(cs, shard)[i].shard >= shard
    decreases SHARDS - shard
  {
    if shard < SHARDS {
      ShardNumbersDistinct(cs, shard + 1);
      var rest := ShardsFrom(cs, shard + 1);
      if InShard(cs, shard) != [] {
        var all := ShardsFrom(cs, shard);
        forall i, j | 0 <= i < j < |all| ensures all[i].shard != all[j].shard {
          assert all[j] == rest[j - 1];
          if i > 0 {
            assert ShardNumbers(rest)[i - 1] != ShardNumbers(rest)[j - 1];
          }
        }
      }
    }
  }

  // The sharded rows are placed where the staged collections are, and repeat a post exactly when they do.
  lemma ShardsKeepPlacements(cs: seq<CollectionOut>)
    ensures var rows := Rows(ShardsFrom(cs, 0));
            && Elements(Expected(rows)) == Elements(Expected(cs))
            && (Distinct(Keys(Expected(rows))) <==> Distinct(Keys(Expected(cs))))
  {
    var rows := Rows(ShardsFrom(cs, 0));
    AllRows(cs);
    ExpectedMembers(rows);
    ExpectedMembers(cs);
    SameKeys(Expected(rows), Expected(cs));
    DistinctSame(Keys(Expected(rows)), Keys(Expected(cs)));
  }

  lemma SameKeys(a: seq<Placement>, b: seq<Placement>)
    requires forall x :: x in a <==> x in b
    ensures Elements(a) == Elements(b) && Elements(Keys(a)) == Elements(Keys(b))
  {
    KeysMembers(a);
    KeysMembers(b);
  }

  lemma KeysMembers(ps: seq<Placement>)
    ensures forall k :: k in Keys(ps) <==> exists x :: x in ps && KeyOfPlacement(x) == k
  {
    forall k ensures k in Keys(ps) <==> exists x :: x in ps && KeyOfPlacement(x) == k {
      if k in Keys(ps) {
        var i :| 0 <= i < |ps| && Keys(ps)[i] == k;
        assert ps[i] in ps;
      }
      if x :| x in ps && KeyOfPlacement(x) == k {
        var i :| 0 <= i < |ps| && ps[i] == x;
        assert Keys(ps)[i] == k;
      }
    }
  }
}
