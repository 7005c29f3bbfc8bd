// preview_collections of crawler/collections.py: posts are blocked by normalised base title and author,
// episodes whose order key repeats are dropped, and every block left with two posts is a group in
// order. How a title is parsed and normalised is given from outside.
module Grouping {
  import opened Wrappers
  import Ordering

  datatype Post = Post(id: nat, ext: nat, title: string, author: Option<string>, available: bool)

  datatype OrderKey = OrderKey(season: nat, volume: nat, rank: nat, start: real, end: real)

  datatype Parsed = Parsed(base: string, order: Option<OrderKey>)

  // parse_title, the normalisation of an author, whether an author is blank, and
  // display_collection_title.
  datatype Text = Text(parse: string -> Parsed, normal: string -> string, blank: string -> bool,
                       shown: seq<Post> -> string)

  predicate KeyLess(a: OrderKey, b: OrderKey) {
    || a.season < b.season
    || (a.season == b.season && (|| a.volume < b.volume
                                 || (a.volume == b.volume && (|| a.rank < b.rank
                                                              || (a.rank == b.rank
                                                                  && (a.start < b.start
                                                                      || (a.start == b.start && a.end < b.end)))))))
  }

  lemma KeyLessIsTotal(a: OrderKey, b: OrderKey, c: OrderKey)
    ensures a == b || KeyLess(a, b) || KeyLess(b, a)
    ensures !(KeyLess(a, b) && KeyLess(b, a))
    ensures KeyLess(a, b) && KeyLess(b, c) ==> KeyLess(a, c)
  {
  }

  function KeyOf(text: Text, p: Post): Option<OrderKey> {
    text.parse(p.title).order
  }

  function Letters(s: string): nat {
    if s == "" then 0 else (if s[0] == ' ' then 0 else 1) + Letters(s[1..])
  }

  datatype Block = Block(base: string, author: string)

  // The block a post goes to, if any: it must carry an episode, and its base title must say enough.
  function BlockOf(text: Text, p: Post): Option<Block> {
    var parsed := text.parse(p.title);
    if parsed.order.None? || Letters(parsed.base) < 4 then None
    else Some(Block(parsed.base, text.normal(if p.author.Some? then p.author.value else "")))
  }

  function InBlock(text: Text, posts: seq<Post>, b: Block): (r: seq<Post>)
    ensures forall p :: p in r <==> p in posts && BlockOf(text, p) == Some(b)
  {
    if posts == [] then []
    else if BlockOf(text, posts[0]) == Some(b) then [posts[0]] + InBlock(text, posts[1..], b)
    else InBlock(text, posts[1..], b)
  }

  function Count(text: Text, rows: seq<Post>, k: Option<OrderKey>): nat {
    if rows == [] then 0 else (if KeyOf(text, rows[0]) == k then 1 else 0) + Count(text, rows[1..], k)
  }

  // The rows of `rows` whose episode appears once in `all`.
  function Unique(text: Text, all: seq<Post>, rows: seq<Post>): (r: seq<Post>)
    ensures forall p :: p in r <==> p in rows && Count(text, all, KeyOf(text, p)) == 1
  {
    if rows == [] then []
    else if Count(text, all, KeyOf(text, rows[0])) == 1 then [rows[0]] + Unique(text, all, rows[1..])
    else Unique(text, all, rows[1..])
  }

  predicate Before(text: Text, a: Post, b: Post) {
    KeyOf(text, a).Some? && KeyOf(text, b).Some? && KeyLess(KeyOf(text, a).value, KeyOf(text, b).value)
  }

  function InsertPost(text: Text, p: Post, sorted: seq<Post>): (r: seq<Post>)
    ensures forall q :: q in r <==> q == p || q in sorted
    ensures |r| == |sorted| + 1
    decreases |sorted|
  {
    if sorted == [] then [p]
    else if Before(text, p, sorted[0]) then [p] + sorted
    else
      assert forall q :: q in sorted <==> q == sorted[0] || q in sorted[1..];
      [sorted[0]] + InsertPost(text, p, sorted[1..])
  }

  // sorted(unique, key=...): the order keys are distinct, so the later parts of the key never decide.
  function SortPosts(text: Text, rows: seq<Post>): (r: seq<Post>)
    ensures forall q :: q in r <==> q in rows
    ensures |r| == |rows|
    decreases |rows|
  {
    if rows == [] then []
    else
      assert forall q :: q in rows <==> q == rows[0] || q in rows[1..];
      InsertPost(text, rows[0], SortPosts(text, rows[1..]))
  }

  // ---------------------------------------------------------------- blocks in order

  function Codes(s: string): Ordering.Key {
    seq(|s|, i requires 0 <= i < |s| => s[i] as int)
  }

  predicate BlockLess(a: Block, b: Block) {
    if a.base != b.base then Ordering.Less(Codes(a.base), Codes(b.base))
    else Ordering.Less(Codes(a.author), Codes(b.author))
  }

  function InsertBlock(b: Block, sorted: seq<Block>): (r: seq<Block>)
    ensures forall c :: c in r <==> c == b || c in sorted
    decreases |sorted|
  {
    if sorted == [] then [b]
    else if b == sorted[0] then sorted
    else if BlockLess(b, sorted[0]) then [b] + sorted
    else
      assert forall q :: q in sorted <==> q == sorted[0] || q in sorted[1..];
      [sorted[0]] + InsertBlock(b, sorted[1..])
  }

  // sorted(blocks)
  function Blocks(text: Text, posts: seq<Post>): (r: seq<Block>)
    ensures forall b :: b in r <==> exists p :: p in posts && BlockOf(text, p) == Some(b)
    decreases |posts|
  {
    if posts == [] then []
    else
      var front, last := posts[..|posts| - 1], posts[|posts| - 1];
      assert forall p :: p in posts <==> p == last || p in front by {
        assert posts == front + [last];
      }
      var before := Blocks(text, front);
      if BlockOf(text, last).Some? then InsertBlock(BlockOf(text, last).value, before) else before
  }

  // One block's group, before the check that it has two posts.
  function GroupOf(text: Text, posts: seq<Post>, b: Block): seq<Post> {
    var rows := InBlock(text, posts, b);
    SortPosts(text, Unique(text, rows, rows))
  }

  function GroupsIn(text: Text, posts: seq<Post>, blocks: seq<Block>): seq<seq<Post>> {
    if blocks == [] then []
    else
      var g := GroupOf(text, posts, blocks[0]);
      (if |g| < 2 then [] else [g]) + GroupsIn(text, posts, blocks[1..])
  }

  // preview_collections(posts).groups
  function Preview(text: Text, posts: seq<Post>): seq<seq<Post>> {
    GroupsIn(text, posts, Blocks(text, posts))
  }

  // ---------------------------------------------------------------- what a group is

  ghost predicate Increasing(text: Text, g: seq<Post>) {
    && (forall i | 0 <= i < |g| :: KeyOf(text, g[i]).Some?)
    && (forall i, j | 0 <= i < j < |g| :: Before(text, g[i], g[j]))
  }

  // Groups of two posts or more in strictly increasing episode order, no post in two of them.
  ghost predicate Groups(text: Text, posts: seq<Post>, groups: seq<seq<Post>>) {
    && (forall i | 0 <= i < |groups| :: |groups[i]| >= 2 && Increasing(text, groups[i]))
    && (forall i, p | 0 <= i < |groups| && p in groups[i] :: p in posts)
    && (forall i, j, p | 0 <= i < j < |groups| && p in groups[i] :: p !in groups[j])
  }

  lemma {:induction false} CountPositive(text: Text, rows: seq<Post>, p: Post)
    requires p in rows
    ensures Count(text, rows, KeyOf(text, p)) >= 1
    decreases |rows|
  {
    if rows[0] != p {
      assert p in rows[1..];
      CountPositive(text, rows[1..], p);
    }
  }

  // Two rows with an episode that is counted once are the same row.
  lemma {:induction false} CountedOnce(text: Text, rows: seq<Post>, i: nat, j: nat)
    requires i < j < |rows| && KeyOf(text, rows[i]) == KeyOf(text, rows[j])
    ensures Count(text, rows, KeyOf(text, rows[i])) >= 2
    decreases |rows|
  {
    var k := KeyOf(text, rows[i]);
    if i == 0 {
      assert rows[j] == rows[1..][j - 1];
      CountPositive(text, rows[1..], rows[j]);
    } else {
      assert rows[1..][i - 1] == rows[i] && rows[1..][j - 1] == rows[j];
      CountedOnce(text, rows[1..], i - 1, j - 1);
    }
  }

  ghost predicate DistinctKeys(text: Text, rows: seq<Post>) {
    && (forall i | 0 <= i < |rows| :: KeyOf(text, rows[i]).Some?)
    && (forall i, j | 0 <= i < j < |rows| :: KeyOf(text, rows[i]) != KeyOf(text, rows[j]))
  }

  lemma {:induction false} UniqueHasDistinctKeys(text: Text, all: seq<Post>, n: nat)
    requires n <= |all| && forall i | 0 <= i < |all| :: KeyOf(text, all[i]).Some?
    ensures DistinctKeys(text, Unique(text, all, all[n..]))
    decreases |all| - n
  {
    if n < |all| {
      UniqueHasDistinctKeys(text, all, n + 1);
      assert all[n..][1..] == all[n + 1..] && all[n..][0] == all[n];
      var rest := Unique(text, all, all[n + 1..]);
      if Count(text, all, KeyOf(text, all[n])) == 1 {
        forall j | 0 <= j < |rest| ensures KeyOf(text, all[n]) != KeyOf(text, rest[j]) {
          assert rest[j] in rest && rest[j] in all[n + 1..];
          var k :| n + 1 <= k < |all| && all[k] == rest[j];
          if KeyOf(text, all[n]) == KeyOf(text, all[k]) {
            CountedOnce(text, all, n, k);
          }
        }
      }
    }
  }

  lemma {:induction false} InsertIncreasing(text: Text, p: Post, sorted: seq<Post>)
    requires Increasing(text, sorted) && KeyOf(text, p).Some?
    requires forall i | 0 <= i < |sorted| :: KeyOf(text, sorted[i]) != KeyOf(text, p)
    ensures Increasing(text, InsertPost(text, p, sorted))
    decreases |sorted|
  {
    if sorted != [] {
      var r := InsertPost(text, p, sorted);
      if Before(text, p, sorted[0]) {
        forall j | 0 <= j < |sorted| ensures Before(text, p, sorted[j]) {
          if j > 0 {
            KeyLessIsTotal(KeyOf(text, p).value, KeyOf(text, sorted[0]).value, KeyOf(text, sorted[j]).value);
          }
        }
        assert r == [p] + sorted;
      } else {
        var rest := InsertPost(text, p, sorted[1..]);
        assert Increasing(text, sorted[1..]);
        InsertIncreasing(text, p, sorted[1..]);
        KeyLessIsTotal(KeyOf(text, p).value, KeyOf(text, sorted[0]).value, KeyOf(text, p).value);
        forall j | 0 <= j < |rest| ensures Before(text, sorted[0], rest[j]) {
          assert rest[j] in rest;
          if rest[j] != p {
            var k :| 0 <= k < |sorted[1..]| && sorted[1..][k] == rest[j];
            assert Before(text, sorted[0], sorted[k + 1]);
          }
        }
        assert r == [sorted[0]] + rest;
      }
    }
  }

  lemma {:induction false} SortIncreasing(text: Text, rows: seq<Post>)
    requires DistinctKeys(text, rows)
    ensures Increasing(text, SortPosts(text, rows))
    decreases |rows|
  {
    if rows != [] {
      assert forall i | 0 <= i < |rows| - 1 :: rows[1..][i] == rows[i + 1];
      SortIncreasing(text, rows[1..]);
      var rest := SortPosts(text, rows[1..]);
      forall i | 0 <= i < |rest| ensures KeyOf(text, rest[i]) != KeyOf(text, rows[0]) {
        assert rest[i] in rest;
        var k :| 0 <= k < |rows[1..]| && rows[1..][k] == rest[i];
        assert KeyOf(text, rows[0]) != KeyOf(text, rows[k + 1]);
      }
      InsertIncreasing(text, rows[0], rest);
    }
  }

  lemma GroupIncreases(text: Text, posts: seq<Post>, b: Block)
    ensures Increasing(text, GroupOf(text, posts, b))
    ensures forall p | p in GroupOf(text, posts, b) :: p in posts && BlockOf(text, p) == Some(b)
  {
    var rows := InBlock(text, posts, b);
    forall i | 0 <= i < |rows| ensures KeyOf(text, rows[i]).Some? {
      assert rows[i] in rows;
    }
    assert rows[0..] == rows;
    UniqueHasDistinctKeys(text, rows, 0);
    SortIncreasing(text, Unique(text, rows, rows));
  }

  // ---------------------------------------------------------------- blocks are distinct

  predicate Sorted(blocks: seq<Block>) {
    forall i, j | 0 <= i < j < |blocks| :: BlockLess(blocks[i], blocks[j])
  }

  lemma CodesInjective(a: string, b: string)
    requires Codes(a) == Codes(b)
    ensures a == b
  {
    assert |Codes(a)| == |a| && |Codes(b)| == |b|;
    forall i | 0 <= i < |a| ensures a[i] == b[i] {
      assert Codes(a)[i] == a[i] as int && Codes(b)[i] == b[i] as int;
    }
  }

  lemma BlockLessIsOrder(a: Block, b: Block, c: Block)
    ensures a == b || BlockLess(a, b) || BlockLess(b, a)
    ensures !BlockLess(a, a)
    ensures BlockLess(a, b) && BlockLess(b, c) ==> BlockLess(a, c)
  {
    Ordering.LessTotal(Codes(a.base), Codes(b.base));
    Ordering.LessTotal(Codes(a.author), Codes(b.author));
    if a.base != b.base && Codes(a.base) == Codes(b.base) {
      CodesInjective(a.base, b.base);
    }
    if a.author != b.author && Codes(a.author) == Codes(b.author) {
      CodesInjective(a.author, b.author);
    }
    if BlockLess(a, b) && BlockLess(b, c) {
      BlockLessChains(a, b, c);
    }
  }

  lemma BlockLessChains(a: Block, b: Block, c: Block)
    requires BlockLess(a, b) && BlockLess(b, c)
    ensures BlockLess(a, c)
  {
    if a.base != b.base && b.base != c.base {
      Ordering.LessTransitive(Codes(a.base), Codes(b.base), Codes(c.base));
      Ordering.LessTotal(Codes(a.base), Codes(c.base));
    } else if a.base == b.base == c.base {
      Ordering.LessTransitive(Codes(a.author), Codes(b.author), Codes(c.author));
    }
  }

  lemma {:induction false} InsertBlockSorted(b: Block, sorted: seq<Block>)
    requires Sorted(sorted)
    ensures Sorted(InsertBlock(b, sorted))
    decreases |sorted|
  {
    if sorted != [] && b != sorted[0] {
      BlockLessIsOrder(b, sorted[0], b);
      var r := InsertBlock(b, sorted);
      if BlockLess(b, sorted[0]) {
        forall j | 0 <= j < |sorted| ensures BlockLess(b, sorted[j]) {
          if j > 0 {
            BlockLessIsOrder(b, sorted[0], sorted[j]);
          }
        }
        assert r == [b] + sorted;
      } else {
        var rest := InsertBlock(b, sorted[1..]);
        InsertBlockSorted(b, sorted[1..]);
        forall j | 0 <= j < |rest| ensures BlockLess(sorted[0], rest[j]) {
          assert rest[j] in rest;
          if rest[j] != b {
            var k :| 0 <= k < |sorted[1..]| && sorted[1..][k] == rest[j];
            assert BlockLess(sorted[0], sorted[k + 1]);
          }
        }
        assert r == [sorted[0]] + rest;
      }
    }
  }

  lemma {:induction false} BlocksSorted(text: Text, posts: seq<Post>)
    ensures Sorted(Blocks(text, posts))
    decreases |posts|
  {
    if posts != [] {
      var front, last := posts[..|posts| - 1], posts[|posts| - 1];
      BlocksSorted(text, front);
      if BlockOf(text, last).Some? {
        InsertBlockSorted(BlockOf(text, last).value, Blocks(text, front));
      }
    }
  }

  lemma {:induction false} GroupsInBlocks(text: Text, posts: seq<Post>, blocks: seq<Block>)
    requires Sorted(blocks)
    ensures Groups(text, posts, GroupsIn(text, posts, blocks))
    ensures forall i, p | 0 <= i < |GroupsIn(text, posts, blocks)| && p in GroupsIn(text, posts, blocks)[i] ::
              BlockOf(text, p).Some? && BlockOf(text, p).value in blocks
    decreases |blocks|
  {
    if blocks != [] {
      var g, rest := GroupOf(text, posts, blocks[0]), GroupsIn(text, posts, blocks[1..]);
      GroupIncreases(text, posts, blocks[0]);
      GroupsInBlocks(text, posts, blocks[1..]);
      FirstNotLater(text, posts, blocks);
      var all := GroupsIn(text, posts, blocks);
      if |g| >= 2 {
        assert all == [g] + rest;
        OneMoreGroup(text, posts, g, rest);
      } else {
        assert all == rest;
      }
    }
  }

  lemma OneMoreGroup(text: Text, posts: seq<Post>, g: seq<Post>, rest: seq<seq<Post>>)
    requires Groups(text, posts, rest) && |g| >= 2 && Increasing(text, g) && forall p | p in g :: p in posts
    requires forall j, p | 0 <= j < |rest| && p in g :: p !in rest[j]
    ensures Groups(text, posts, [g] + rest)
  {
  }

  lemma FirstNotLater(text: Text, posts: seq<Post>, blocks: seq<Block>)
    requires blocks != [] && Sorted(blocks)
    requires var rest := GroupsIn(text, posts, blocks[1..]);
             forall i, p | 0 <= i < |rest| && p in rest[i] :: BlockOf(text, p).Some? && BlockOf(text, p).value in blocks[1..]
    ensures var g, rest := GroupOf(text, posts, blocks[0]), GroupsIn(text, posts, blocks[1..]);
            forall j, p | 0 <= j < |rest| && p in g :: p !in rest[j]
  {
    GroupIncreases(text, posts, blocks[0]);
    BlockLessIsOrder(blocks[0], blocks[0], blocks[0]);
    forall k | 0 <= k < |blocks[1..]| ensures blocks[1..][k] != blocks[0] {
      assert BlockLess(blocks[0], blocks[k + 1]);
    }
  }

  // The preview of any posts consists of disjoint groups in strictly increasing episode order.
  lemma PreviewMakesGroups(text: Text, posts: seq<Post>)
    ensures Groups(text, posts, Preview(text, posts))
  {
    BlocksSorted(text, posts);
    GroupsInBlocks(text, posts, Blocks(text, posts));
  }

  // In words: along a group the season never falls, within a season the volume never does, and so on
  // down to the last episode, and something rises.
  lemma GroupsReadInOrder(text: Text, posts: seq<Post>, g: seq<Post>, i: nat, j: nat)
    requires g in Preview(text, posts) && i < j < |g|
    ensures KeyOf(text, g[i]).Some? && KeyOf(text, g[j]).Some?
    ensures var a, b := KeyOf(text, g[i]).value, KeyOf(text, g[j]).value;
            && a.season <= b.season
            && (a.season == b.season ==> a.volume <= b.volume)
            && (a.season == b.season && a.volume == b.volume ==> a.rank <= b.rank)
            && (a.season == b.season && a.volume == b.volume && a.rank == b.rank ==> a.start <= b.start)
            && (a.season == b.season && a.volume == b.volume && a.rank == b.rank && a.start == b.start ==> a.end < b.end)
  {
    PreviewMakesGroups(text, posts);
    var n :| 0 <= n < |Preview(text, posts)| && Preview(text, posts)[n] == g;
    assert Before(text, g[i], g[j]);
  }

  // A post whose episode appears once in its block, where another post does too.
  predicate Groupable(text: Text, posts: seq<Post>, p: Post, b: Block) {
    p in posts && BlockOf(text, p) == Some(b) && Count(text, InBlock(text, posts, b), KeyOf(text, p)) == 1
    && |GroupOf(text, posts, b)| >= 2
  }

  ghost predicate InAGroup(groups: seq<seq<Post>>, p: Post) {
    exists i :: 0 <= i < |groups| && p in groups[i]
  }

  lemma {:induction false} InSomeGroup(text: Text, posts: seq<Post>, blocks: seq<Block>, p: Post)
    ensures InAGroup(GroupsIn(text, posts, blocks), p) <==> exists b :: b in blocks && Groupable(text, posts, p, b)
    decreases |blocks|
  {
    if blocks != [] {
      var g, rest := GroupOf(text, posts, blocks[0]), GroupsIn(text, posts, blocks[1..]);
      InSomeGroup(text, posts, blocks[1..], p);
      assert |g| >= 2 ==> (p in g <==> Groupable(text, posts, p, blocks[0]));
      assert forall b :: b in blocks <==> b == blocks[0] || b in blocks[1..];
      if |g| >= 2 {
        assert GroupsIn(text, posts, blocks) == [g] + rest;
        OneGroupMore(g, rest, p);
      } else {
        assert GroupsIn(text, posts, blocks) == rest;
      }
    }
  }

  lemma OneGroupMore(g: seq<Post>, rest: seq<seq<Post>>, p: Post)
    ensures InAGroup([g] + rest, p) <==> p in g || InAGroup(rest, p)
  {
    var all := [g] + rest;
    assert all[0] == g && forall i | 0 <= i < |rest| :: all[i + 1] == rest[i];
    if i :| 0 <= i < |all| && p in all[i] {
      assert i == 0 || all[i] == rest[i - 1];
    }
  }

  // A post is in some group exactly when its episode appears once in its block and the block has
  // another such post.
  lemma GroupedIff(text: Text, posts: seq<Post>, p: Post)
    ensures InAGroup(Preview(text, posts), p) <==> exists b :: Groupable(text, posts, p, b)
  {
    InSomeGroup(text, posts, Blocks(text, posts), p);
    if b :| Groupable(text, posts, p, b) {
      assert b in Blocks(text, posts);
    }
  }

  // ---------------------------------------------------------------- the loops

  function Total(groups: seq<seq<Post>>): nat {
    if groups == [] then 0 else Total(groups[..|groups| - 1]) + |groups[|groups| - 1]|
  }

  function BlockTotal(text: Text, posts: seq<Post>, blocks: seq<Block>): nat {
    if blocks == [] then 0
    else BlockTotal(text, posts, blocks[..|blocks| - 1]) + |InBlock(text, posts, blocks[|blocks| - 1])|
  }

  function Blocked(text: Text, posts: seq<Post>): nat {
    if posts == [] then 0
    else Blocked(text, posts[..|posts| - 1]) + (if BlockOf(text, posts[|posts| - 1]).Some? then 1 else 0)
  }

  lemma {:induction false} InBlockJoin(text: Text, a: seq<Post>, c: seq<Post>, b: Block)
    ensures InBlock(text, a + c, b) == InBlock(text, a, b) + InBlock(text, c, b)
    decreases |a|
  {
    if a == [] {
      assert a + c == c;
    } else {
      assert (a + c)[1..] == a[1..] + c;
      InBlockJoin(text, a[1..], c, b);
    }
  }

  lemma InBlockLast(text: Text, posts: seq<Post>, b: Block)
    requires posts != []
    ensures var front, last := posts[..|posts| - 1], posts[|posts| - 1];
            InBlock(text, posts, b) == InBlock(text, front, b) + (if BlockOf(text, last) == Some(b) then [last] else [])
  {
    var front, last := posts[..|posts| - 1], posts[|posts| - 1];
    assert posts == front + [last] && [last][1..] == [];
    InBlockJoin(text, front, [last], b);
  }

  lemma {:induction false} OnePostMore(text: Text, posts: seq<Post>, blocks: seq<Block>)
    requires posts != [] && Sorted(blocks)
    ensures var last := BlockOf(text, posts[|posts| - 1]);
            BlockTotal(text, posts, blocks) == BlockTotal(text, posts[..|posts| - 1], blocks)
                                               + (if last.Some? && last.value in blocks then 1 else 0)
    decreases |blocks|
  {
    if blocks != [] {
      var front, b := blocks[..|blocks| - 1], blocks[|blocks| - 1];
      LastBlock(blocks);
      InBlockLast(text, posts, b);
      OnePostMore(text, posts, front);
    }
  }

  lemma LastBlock(blocks: seq<Block>)
    requires blocks != [] && Sorted(blocks)
    ensures var front, b := blocks[..|blocks| - 1], blocks[|blocks| - 1];
            Sorted(front) && b !in front && forall x :: x in blocks <==> x in front || x == b
  {
    var front, b := blocks[..|blocks| - 1], blocks[|blocks| - 1];
    assert blocks == front + [b];
    forall i | 0 <= i < |front| ensures front[i] != b {
      assert BlockLess(blocks[i], b);
      BlockLessIsOrder(b, b, b);
    }
  }

  // Every blocked post is in exactly one block.
  lemma {:induction false} BlocksHoldAll(text: Text, posts: seq<Post>, blocks: seq<Block>)
    requires Sorted(blocks) && forall p | p in posts && BlockOf(text, p).Some? :: BlockOf(text, p).value in blocks
    ensures BlockTotal(text, posts, blocks) == Blocked(text, posts)
    decreases |posts|
  {
    if posts == [] {
      EmptyBlocks(text, blocks);
    } else {
      assert posts[|posts| - 1] in posts && forall p | p in posts[..|posts| - 1] :: p in posts;
      BlocksHoldAll(text, posts[..|posts| - 1], blocks);
      OnePostMore(text, posts, blocks);
    }
  }

  lemma {:induction false} EmptyBlocks(text: Text, blocks: seq<Block>)
    ensures BlockTotal(text, [], blocks) == 0
    decreases |blocks|
  {
    if blocks != [] {
      EmptyBlocks(text, blocks[..|blocks| - 1]);
    }
  }

  lemma {:induction false} GroupsJoin(text: Text, posts: seq<Post>, a: seq<Block>, b: Block)
    ensures GroupsIn(text, posts, a + [b])
            == GroupsIn(text, posts, a) + (if |GroupOf(text, posts, b)| < 2 then [] else [GroupOf(text, posts, b)])
    decreases |a|
  {
    var last := if |GroupOf(text, posts, b)| < 2 then [] else [GroupOf(text, posts, b)];
    if a == [] {
      assert a + [b] == [b] && [b][1..] == [];
      assert GroupsIn(text, posts, []) == [];
    } else {
      var all := a + [b];
      assert all[0] == a[0] && all[1..] == a[1..] + [b];
      GroupsJoin(text, posts, a[1..], b);
      FirstGroup(text, posts, all);
      FirstGroup(text, posts, a);
    }
  }

  lemma FirstGroup(text: Text, posts: seq<Post>, blocks: seq<Block>)
    requires blocks != []
    ensures var first := GroupOf(text, posts, blocks[0]);
            GroupsIn(text, posts, blocks) == (if |first| < 2 then [] else [first]) + GroupsIn(text, posts, blocks[1..])
  {
  }

  lemma {:induction false} UniqueIsShorter(text: Text, all: seq<Post>, rows: seq<Post>)
    ensures |Unique(text, all, rows)| <= |rows|
    decreases |rows|
  {
    if rows != [] {
      UniqueIsShorter(text, all, rows[1..]);
    }
  }

  datatype Rejected = Rejected(lowInformation: nat, duplicate: nat, single: nat)

  type BlockMap = map<Block, seq<Post>>

  ghost predicate Holds(text: Text, posts: seq<Post>, blocks: BlockMap, keys: seq<Block>) {
    && keys == Blocks(text, posts)
    && (forall b :: b in keys <==> b in blocks)
    && (forall b | b in blocks :: blocks[b] == InBlock(text, posts, b))
  }

  function Added(blocks: BlockMap, b: Block, p: Post): BlockMap {
    blocks[b := (if b in blocks then blocks[b] else []) + [p]]
  }

  lemma AddedHolds(text: Text, posts: seq<Post>, p: Post, blocks: BlockMap, keys: seq<Block>)
    requires Holds(text, posts, blocks, keys)
    ensures var b := BlockOf(text, p);
            if b.Some? then Holds(text, posts + [p], Added(blocks, b.value, p), InsertBlock(b.value, keys))
            else Holds(text, posts + [p], blocks, keys)
  {
    var all := posts + [p];
    assert all[..|all| - 1] == posts && all[|all| - 1] == p;
    var b := BlockOf(text, p);
    if b.Some? {
      var after, sorted := Added(blocks, b.value, p), InsertBlock(b.value, keys);
      forall c | c in after ensures after[c] == InBlock(text, all, c) {
        OneRowMore(text, posts, p, blocks, keys, c);
      }
    } else {
      forall c | c in blocks ensures blocks[c] == InBlock(text, all, c) {
        InBlockLast(text, all, c);
      }
    }
  }

  lemma OneRowMore(text: Text, posts: seq<Post>, p: Post, blocks: BlockMap, keys: seq<Block>, c: Block)
    requires Holds(text, posts, blocks, keys) && BlockOf(text, p).Some?
    requires c in Added(blocks, BlockOf(text, p).value, p)
    ensures Added(blocks, BlockOf(text, p).value, p)[c] == InBlock(text, posts + [p], c)
  {
    var all := posts + [p];
    assert all[..|all| - 1] == posts && all[|all| - 1] == p;
    InBlockLast(text, all, c);
    if c !in blocks {
      NotBlocked(text, posts, c);
    }
  }

  lemma BlockedOneMore(text: Text, posts: seq<Post>, n: nat)
    requires n < |posts|
    ensures posts[..n + 1] == posts[..n] + [posts[n]]
    ensures Blocked(text, posts[..n + 1]) == Blocked(text, posts[..n]) + (if BlockOf(text, posts[n]).Some? then 1 else 0)
  {
    assert posts[..n + 1][..n] == posts[..n];
  }

  // The blocks of the posts, their keys in order, and how many posts carried an episode but had a
  // base title that says too little.
  method BlockPosts(text: Text, posts: seq<Post>)
    returns (blocks: BlockMap, keys: seq<Block>, parsed: nat, low: nat)
    ensures Holds(text, posts, blocks, keys) && parsed == low + Blocked(text, posts)
  {
    blocks, keys, parsed, low := map[], [], 0, 0;
    for n := 0 to |posts|
      invariant Holds(text, posts[..n], blocks, keys)
      invariant parsed == low + Blocked(text, posts[..n])
    {
      var post := posts[n];
      AddedHolds(text, posts[..n], post, blocks, keys);
      BlockedOneMore(text, posts, n);
      var title := text.parse(post.title);
      if title.order.Some? {
        parsed := parsed + 1;
        if Letters(title.base) < 4 {
          low := low + 1;
        } else {
          var b := Block(title.base, text.normal(if post.author.Some? then post.author.value else ""));
          blocks := Added(blocks, b, post);
          keys := InsertBlock(b, keys);
        }
      }
    }
    assert posts[..|posts|] == posts;
  }

  lemma OneBlockMore(text: Text, posts: seq<Post>, keys: seq<Block>, n: nat)
    requires n < |keys|
    ensures var before, after := GroupsIn(text, posts, keys[..n]), GroupsIn(text, posts, keys[..n + 1]);
            var group := GroupOf(text, posts, keys[n]);
            && after == (if |group| < 2 then before else before + [group])
            && Total(after) == Total(before) + (if |group| < 2 then 0 else |group|)
    ensures BlockTotal(text, posts, keys[..n + 1]) == BlockTotal(text, posts, keys[..n]) + |InBlock(text, posts, keys[n])|
  {
    assert keys[..n + 1] == keys[..n] + [keys[n]] && keys[..n + 1][..n] == keys[..n];
    GroupsJoin(text, posts, keys[..n], keys[n]);
    var before, group := GroupsIn(text, posts, keys[..n]), GroupOf(text, posts, keys[n]);
    assert (before + [group])[..|before|] == before;
  }

  // preview_collections: every post with an episode ends in one group or is rejected once.
  method PreviewCollections(text: Text, posts: seq<Post>)
    returns (groups: seq<seq<Post>>, rejected: Rejected, parsed: nat)
    ensures groups == Preview(text, posts)
    ensures parsed == Total(groups) + rejected.lowInformation + rejected.duplicate + rejected.single
  {
    var blocks, keys, titled, low := BlockPosts(text, posts);
    parsed := titled;
    groups := [];
    rejected := Rejected(low, 0, 0);
    for n := 0 to |keys|
      invariant rejected.lowInformation == low
      invariant groups == GroupsIn(text, posts, keys[..n])
      invariant Total(groups) + rejected.duplicate + rejected.single == BlockTotal(text, posts, keys[..n])
    {
      assert keys[n] in keys;
      var rows := blocks[keys[n]];
      var unique := Unique(text, rows, rows);
      UniqueIsShorter(text, rows, rows);
      OneBlockMore(text, posts, keys, n);
      rejected := rejected.(duplicate := rejected.duplicate + (|rows| - |unique|));
      if |unique| < 2 {
        rejected := rejected.(single := rejected.single + |unique|);
      } else {
        groups := groups + [SortPosts(text, unique)];
      }
    }
    assert keys[..|keys|] == keys;
    BlocksSorted(text, posts);
    BlocksHoldAll(text, posts, keys);
  }

  lemma NotBlocked(text: Text, posts: seq<Post>, b: Block)
    requires b !in Blocks(text, posts)
    ensures InBlock(text, posts, b) == []
  {
    EmptyIff(InBlock(text, posts, b));
  }

  lemma EmptyIff(rows: seq<Post>)
    ensures rows == [] <==> forall p :: p !in rows
  {
    if rows != [] {
      assert rows[0] in rows;
    }
  }
}
