// What reconcile_board must do with each group of posts, said over the collections themselves: when a
// group becomes a collection and what it then holds, when and by what a collection grows, and that
// nothing else changes.
module ReconcileDuties {
  import opened Wrappers
  import opened Grouping
  import opened Reconcile
  import opened ReconcileSafety
  import opened ReconcileTwice
  import opened ReconcileBoard

  // The entry stands for the post number: by its post, else by the number it was made from.
  predicate Names(exts: map<nat, nat>, e: Entry, x: nat) {
    if e.post.Some? && e.post.value in exts then exts[e.post.value] == x else e.source == Some(x)
  }

  predicate Has(exts: map<nat, nat>, c: Collection, x: nat) {
    exists e :: e in c.entries && Names(exts, e, x)
  }

  predicate Placed(exts: map<nat, nat>, cs: seq<Collection>, x: nat) {
    exists c :: c in cs && Has(exts, c, x)
  }

  predicate Authored(text: Text, g: seq<Post>) {
    forall p | p in g :: p.author.Some? && p.author.value != "" && !text.blank(p.author.value)
  }

  // Collection ids are primary keys, and new ones are above.
  ghost predicate Ids(cs: seq<Collection>, nextId: nat) {
    && (forall i, j | 0 <= i < j < |cs| :: cs[i].id != cs[j].id)
    && (forall i | 0 <= i < |cs| :: cs[i].id < nextId)
  }

  // ---------------------------------------------------------------- when a group becomes a collection

  ghost predicate FreeTitle(cs: seq<Collection>, ds: seq<Decision>, i: nat, t: string)
    requires i <= |ds|
  {
    && (forall c | c in cs :: c.title != t)
    && (forall j | 0 <= j < i && ds[j].Create? :: ds[j].title != t)
  }

  ghost predicate MakesCollection(text: Text, exts: map<nat, nat>, cs: seq<Collection>, ds: seq<Decision>, i: nat,
                                  g: seq<Post>)
    requires i <= |ds|
  {
    && Authored(text, g)
    && (forall p | p in g :: !Placed(exts, cs, p.ext) && p.available)
    && FreeTitle(cs, ds, i, text.shown(g))
  }

  lemma MemberIff(exts: map<nat, nat>, cs: seq<Collection>, x: nat)
    ensures Members(exts, cs, x) == {} <==> !Placed(exts, cs, x)
    ensures forall id :: id in Members(exts, cs, x) <==> exists c :: c in cs && c.id == id && Has(exts, c, x)
  {
    forall c | c in cs ensures x in Exts(exts, c.entries) <==> Has(exts, c, x) {
      HasIff(exts, c, x);
    }
    if Placed(exts, cs, x) {
      var c :| c in cs && Has(exts, c, x);
      assert c.id in Members(exts, cs, x);
    }
  }

  lemma HasIff(exts: map<nat, nat>, c: Collection, x: nat)
    ensures x in Exts(exts, c.entries) <==> Has(exts, c, x)
  {
    forall e ensures Names(exts, e, x) <==> ExtOf(exts, e) == Some(x) {}
    if x in Exts(exts, c.entries) {
      var e :| e in c.entries && ExtOf(exts, e) == Some(x);
      assert Names(exts, e, x);
    }
    if Has(exts, c, x) {
      var e :| e in c.entries && Names(exts, e, x);
      assert ExtOf(exts, e) == Some(x);
    }
  }

  lemma NoAnchorIff(exts: map<nat, nat>, cs: seq<Collection>, g: seq<Post>)
    ensures Anchors(exts, cs, g) == {} <==> forall p | p in g :: !Placed(exts, cs, p.ext)
  {
    forall p | p in g ensures Members(exts, cs, p.ext) == {} <==> !Placed(exts, cs, p.ext) {
      MemberIff(exts, cs, p.ext);
    }
    if Anchors(exts, cs, g) == {} {
      forall p | p in g ensures Members(exts, cs, p.ext) == {} {
        forall id | id in Members(exts, cs, p.ext) ensures id in Anchors(exts, cs, g) {}
      }
    }
  }

  // A group becomes a collection if and only if its authors are known, no post of it is in a collection
  // of the board, every post is there, and its title is free; and it does so whole.
  lemma CreateIff(text: Text, exts: map<nat, nat>, cs: seq<Collection>, groups: seq<seq<Post>>, i: nat)
    requires i < |groups|
    ensures var ds := Decisions(text, exts, cs, Titles(cs), groups);
            && (ds[i].Create? <==> MakesCollection(text, exts, cs, ds, i, groups[i]))
            && (ds[i].Create? ==> ds[i] == Create(text.shown(groups[i]), groups[i]))
  {
    var ds := Decisions(text, exts, cs, Titles(cs), groups);
    var g := groups[i];
    var now := DecisionsAt(text, exts, cs, Titles(cs), groups, i);
    NoAnchorIff(exts, cs, g);
    FreeIff(cs, ds, i, now, text.shown(g));
    if Anchors(exts, cs, g) != {} {
      var c :| c in Anchors(exts, cs, g);
      DecideOne(text, exts, cs, now, g, c);
    }
  }

  lemma FreeIff(cs: seq<Collection>, ds: seq<Decision>, i: nat, now: set<string>, t: string)
    requires i <= |ds| && Titles(cs) <= now
    requires forall u | u in now :: u in Titles(cs) || exists j :: 0 <= j < i && ds[j].Create? && ds[j].title == u
    requires forall j | 0 <= j < i && ds[j].Create? :: ds[j].title in now
    ensures t in now <==> !FreeTitle(cs, ds, i, t)
  {
    forall c | c in cs ensures c.title in now {
      assert c.title in Titles(cs);
    }
  }

  // ---------------------------------------------------------------- when a collection grows

  // Collection k is the only one that holds posts of the group, at least two, and its last entry is the
  // last of them, the post at m.
  ghost predicate GrowsFrom(exts: map<nat, nat>, cs: seq<Collection>, g: seq<Post>, k: nat, m: nat) {
    && k < |cs| && m < |g|
    && (forall p, c | p in g && c in cs && Has(exts, c, p.ext) :: c == cs[k])
    && (exists j :: 0 <= j < m && Has(exts, cs[k], g[j].ext))
    && Has(exts, cs[k], g[m].ext) && (forall j | m < j < |g| :: !Has(exts, cs[k], g[j].ext))
    && cs[k].entries != [] && Names(exts, cs[k].entries[|cs[k].entries| - 1], g[m].ext)
  }

  // The posts behind m that are there and in no collection, in order.
  ghost predicate NextPosts(text: Text, exts: map<nat, nat>, cs: seq<Collection>, g: seq<Post>, m: nat, posts: seq<Post>) {
    && Increasing(text, posts)
    && (forall p :: p in posts <==> exists j :: m < j < |g| && g[j] == p && p.available && !Placed(exts, cs, p.ext))
  }

  lemma OwnMember(exts: map<nat, nat>, cs: seq<Collection>, nextId: nat, k: nat, x: nat)
    requires Ids(cs, nextId) && k < |cs|
    ensures cs[k].id in Members(exts, cs, x) <==> Has(exts, cs[k], x)
  {
    MemberIff(exts, cs, x);
    if cs[k].id in Members(exts, cs, x) {
      var c :| c in cs && c.id == cs[k].id && Has(exts, c, x);
      var j :| 0 <= j < |cs| && cs[j] == c;
      assert j == k;
    }
  }

  lemma {:induction false} LastOfIs(exts: map<nat, nat>, cs: seq<Collection>, nextId: nat, k: nat)
    requires Ids(cs, nextId) && k < |cs|
    ensures LastOf(exts, cs, cs[k].id)
            == if cs[k].entries == [] then None else ExtOf(exts, cs[k].entries[|cs[k].entries| - 1])
  {
    if k > 0 {
      assert cs[0].id != cs[k].id && cs[1..][k - 1] == cs[k];
      assert Ids(cs[1..], nextId);
      LastOfIs(exts, cs[1..], nextId, k - 1);
    }
  }

  // The last post of the group in a collection, and the one before it.
  ghost predicate LastTwo(exts: map<nat, nat>, cs: seq<Collection>, g: seq<Post>, c: nat, m: nat) {
    && m < |g| && c in Members(exts, cs, g[m].ext)
    && (forall j | m < j < |g| :: c !in Members(exts, cs, g[j].ext))
  }

  ghost predicate EndsIn(r: seq<Post>, p: Post) {
    r != [] && r[|r| - 1] == p
  }

  lemma StillEndsIn(q: Post, r: seq<Post>, p: Post)
    requires EndsIn(r, p)
    ensures EndsIn([q] + r, p)
  {
  }

  lemma {:induction false} AnchoredLast(exts: map<nat, nat>, cs: seq<Collection>, g: seq<Post>, c: nat, m: nat)
    requires LastTwo(exts, cs, g, c, m)
    ensures EndsIn(Anchored(exts, cs, g, c), g[m])
    decreases |g|
  {
    if m == 0 {
      NoneAnchored(exts, cs, g[1..], c);
      assert Anchored(exts, cs, g, c) == [g[0]];
    } else {
      TailLastTwo(exts, cs, g, c, m);
      AnchoredLast(exts, cs, g[1..], c, m - 1);
      StillEndsIn(g[0], Anchored(exts, cs, g[1..], c), g[m]);
    }
  }

  lemma TailLastTwo(exts: map<nat, nat>, cs: seq<Collection>, g: seq<Post>, c: nat, m: nat)
    requires LastTwo(exts, cs, g, c, m) && m > 0
    ensures LastTwo(exts, cs, g[1..], c, m - 1) && g[1..][m - 1] == g[m]
  {
  }

  // At least two: one before the last.
  ghost predicate OneBefore(exts: map<nat, nat>, cs: seq<Collection>, g: seq<Post>, c: nat, m: nat) {
    exists j :: 0 <= j < m <= |g| && c in Members(exts, cs, g[j].ext)
  }

  lemma {:induction false} AnchoredTwice(exts: map<nat, nat>, cs: seq<Collection>, g: seq<Post>, c: nat, m: nat)
    requires LastTwo(exts, cs, g, c, m)
    ensures |Anchored(exts, cs, g, c)| >= 2 <==> OneBefore(exts, cs, g, c, m)
    decreases |g|
  {
    if m == 0 {
      NoneAnchored(exts, cs, g[1..], c);
    } else {
      TailLastTwo(exts, cs, g, c, m);
      OneBeforeTail(exts, cs, g, c, m);
      if c in Members(exts, cs, g[0].ext) {
        AnchoredLast(exts, cs, g[1..], c, m - 1);
      } else {
        AnchoredTwice(exts, cs, g[1..], c, m - 1);
      }
    }
  }

  lemma OneBeforeTail(exts: map<nat, nat>, cs: seq<Collection>, g: seq<Post>, c: nat, m: nat)
    requires 0 < m <= |g|
    ensures OneBefore(exts, cs, g, c, m) <==> c in Members(exts, cs, g[0].ext) || OneBefore(exts, cs, g[1..], c, m - 1)
  {
    if OneBefore(exts, cs, g[1..], c, m - 1) {
      var j :| 0 <= j < m - 1 && c in Members(exts, cs, g[1..][j].ext);
      assert g[1..][j] == g[j + 1];
    }
    if j :| 0 < j < m && c in Members(exts, cs, g[j].ext) {
      assert g[1..][j - 1] == g[j];
    }
  }

  lemma {:induction false} NoneAnchored(exts: map<nat, nat>, cs: seq<Collection>, g: seq<Post>, c: nat)
    requires forall j | 0 <= j < |g| :: c !in Members(exts, cs, g[j].ext)
    ensures Anchored(exts, cs, g, c) == []
    decreases |g|
  {
    if g != [] {
      NoneAnchored(exts, cs, g[1..], c);
    }
  }

  lemma {:induction false} LastAnchor(exts: map<nat, nat>, cs: seq<Collection>, g: seq<Post>, c: nat) returns (m: nat)
    requires Anchored(exts, cs, g, c) != []
    ensures LastTwo(exts, cs, g, c, m)
    decreases |g|
  {
    if Anchored(exts, cs, g[1..], c) != [] {
      m := LastAnchor(exts, cs, g[1..], c);
      m := m + 1;
    } else {
      m := 0;
      forall j | 0 < j < |g| ensures c !in Members(exts, cs, g[j].ext) {
        assert g[j] in g[1..];
      }
    }
  }

  // The two ways to say it: over members, and over the collections.
  ghost predicate AnchoredAt(exts: map<nat, nat>, cs: seq<Collection>, g: seq<Post>, c: nat, m: nat) {
    && LastTwo(exts, cs, g, c, m) && OneBefore(exts, cs, g, c, m)
    && (forall p | p in g :: Members(exts, cs, p.ext) <= {c})
  }

  lemma OnlyMembersIff(exts: map<nat, nat>, cs: seq<Collection>, nextId: nat, k: nat, x: nat)
    requires Ids(cs, nextId) && k < |cs|
    ensures Members(exts, cs, x) <= {cs[k].id} <==> forall c | c in cs && Has(exts, c, x) :: c == cs[k]
  {
    MemberIff(exts, cs, x);
    if Members(exts, cs, x) <= {cs[k].id} {
      forall c | c in cs && Has(exts, c, x) ensures c == cs[k] {
        assert c.id in Members(exts, cs, x);
        var j :| 0 <= j < |cs| && cs[j] == c;
        assert j == k;
      }
    }
  }

  lemma AnchoredAtIff(exts: map<nat, nat>, cs: seq<Collection>, nextId: nat, g: seq<Post>, k: nat, m: nat)
    requires Ids(cs, nextId) && k < |cs|
    ensures GrowsFrom(exts, cs, g, k, m)
       <==> && AnchoredAt(exts, cs, g, cs[k].id, m)
            && LastOf(exts, cs, cs[k].id) == Some(g[m].ext)
  {
    forall p | p in g
      ensures cs[k].id in Members(exts, cs, p.ext) <==> Has(exts, cs[k], p.ext)
      ensures Members(exts, cs, p.ext) <= {cs[k].id} <==> forall c | c in cs && Has(exts, c, p.ext) :: c == cs[k]
    {
      OwnMember(exts, cs, nextId, k, p.ext);
      OnlyMembersIff(exts, cs, nextId, k, p.ext);
    }
    forall j | 0 <= j < |g| ensures cs[k].id in Members(exts, cs, g[j].ext) <==> Has(exts, cs[k], g[j].ext) {
      assert g[j] in g;
    }
    LastOfIs(exts, cs, nextId, k);
  }

  // Some collection and some post of the group fit.
  ghost predicate Grows(exts: map<nat, nat>, cs: seq<Collection>, g: seq<Post>) {
    exists k: nat, m: nat :: GrowsFrom(exts, cs, g, k, m)
  }

  lemma OneAnchorIff(exts: map<nat, nat>, cs: seq<Collection>, g: seq<Post>, c: nat)
    requires c in Anchors(exts, cs, g)
    ensures |Anchors(exts, cs, g)| == 1 <==> forall p | p in g :: Members(exts, cs, p.ext) <= {c}
  {
    var anchors := Anchors(exts, cs, g);
    forall p | p in g ensures Members(exts, cs, p.ext) <= anchors {
      forall d | d in Members(exts, cs, p.ext) ensures d in anchors {}
    }
    if |anchors| == 1 {
      OnlyOne(anchors, c);
    }
    if forall p | p in g :: Members(exts, cs, p.ext) <= {c} {
      assert anchors == {c};
    }
  }

  // One group decided alone: appending is growing from some place.
  lemma AppendDecided(text: Text, exts: map<nat, nat>, cs: seq<Collection>, nextId: nat, now: set<string>, g: seq<Post>,
                      k: nat, m: nat)
    requires Ids(cs, nextId) && Authored(text, g) && GrowsFrom(exts, cs, g, k, m)
    ensures Decide(text, exts, cs, now, g) == Append(cs[k].id, Newcomers(text, exts, cs, g, g[m]))
  {
    var c := cs[k].id;
    AnchoredAtIff(exts, cs, nextId, g, k, m);
    IsAnchor(exts, cs, g, c, m);
    OneAnchorIff(exts, cs, g, c);
    DecideOne(text, exts, cs, now, g, c);
    DecidedFor(text, exts, cs, g, c, m);
  }

  lemma IsAnchor(exts: map<nat, nat>, cs: seq<Collection>, g: seq<Post>, c: nat, m: nat)
    requires m < |g| && c in Members(exts, cs, g[m].ext)
    ensures c in Anchors(exts, cs, g)
  {
    assert g[m] in g;
  }

  lemma DecidedFor(text: Text, exts: map<nat, nat>, cs: seq<Collection>, g: seq<Post>, c: nat, m: nat)
    requires AnchoredAt(exts, cs, g, c, m) && LastOf(exts, cs, c) == Some(g[m].ext)
    ensures DecideFor(text, exts, cs, g, c) == Append(c, Newcomers(text, exts, cs, g, g[m]))
  {
    AnchoredLast(exts, cs, g, c, m);
    AnchoredTwice(exts, cs, g, c, m);
  }

  lemma DecidedAppends(text: Text, exts: map<nat, nat>, cs: seq<Collection>, nextId: nat, now: set<string>, g: seq<Post>)
    requires Ids(cs, nextId) && Decide(text, exts, cs, now, g).Append?
    ensures Authored(text, g) && Grows(exts, cs, g)
  {
    var c :| c in Anchors(exts, cs, g);
    DecideOne(text, exts, cs, now, g, c);
    OneAnchorIff(exts, cs, g, c);
    var m := LastAnchor(exts, cs, g, c);
    AnchoredLast(exts, cs, g, c, m);
    AnchoredTwice(exts, cs, g, c, m);
    MemberIff(exts, cs, g[m].ext);
    var d :| d in cs && d.id == c && Has(exts, d, g[m].ext);
    var k :| 0 <= k < |cs| && cs[k] == d;
    AnchoredAtIff(exts, cs, nextId, g, k, m);
    assert GrowsFrom(exts, cs, g, k, m);
  }

  lemma NewcomersAre(text: Text, exts: map<nat, nat>, cs: seq<Collection>, g: seq<Post>, m: nat)
    requires Increasing(text, g) && m < |g|
    ensures NextPosts(text, exts, cs, g, m, Newcomers(text, exts, cs, g, g[m]))
  {
    var r := Newcomers(text, exts, cs, g, g[m]);
    NewcomersIncrease(text, exts, cs, g, g[m]);
    forall p ensures p in r <==> exists j :: m < j < |g| && g[j] == p && p.available && !Placed(exts, cs, p.ext) {
      MemberIff(exts, cs, p.ext);
      if p in r {
        var j :| 0 <= j < |g| && g[j] == p;
        NotBehind(text, g, m, j);
      }
    }
  }

  lemma NotBehind(text: Text, g: seq<Post>, m: nat, j: nat)
    requires Increasing(text, g) && m < |g| && j < |g| && Before(text, g[m], g[j])
    ensures m < j
  {
    if j < m {
      KeyLessIsTotal(KeyOf(text, g[m]).value, KeyOf(text, g[j]).value, KeyOf(text, g[m]).value);
    } else if j == m {
      KeyLessIsTotal(KeyOf(text, g[m]).value, KeyOf(text, g[m]).value, KeyOf(text, g[m]).value);
    }
  }

  // A group adds to a collection if and only if its authors are known and exactly one collection holds
  // posts of it, at least two, ending with the last of them.
  lemma AppendIff(text: Text, exts: map<nat, nat>, a: Archive, groups: seq<seq<Post>>, i: nat)
    requires Ids(a.cs, a.nextId) && i < |groups|
    ensures Decisions(text, exts, a.cs, Titles(a.cs), groups)[i].Append?
       <==> Authored(text, groups[i]) && Grows(exts, a.cs, groups[i])
  {
    var now := DecisionsAt(text, exts, a.cs, Titles(a.cs), groups, i);
    if Authored(text, groups[i]) && Grows(exts, a.cs, groups[i]) {
      var k: nat, m: nat :| GrowsFrom(exts, a.cs, groups[i], k, m);
      AppendDecided(text, exts, a.cs, a.nextId, now, groups[i], k, m);
    } else if Decide(text, exts, a.cs, now, groups[i]).Append? {
      DecidedAppends(text, exts, a.cs, a.nextId, now, groups[i]);
    }
  }

  // And then it adds to that collection exactly the available posts behind, in no collection, in order.
  lemma AppendAdds(text: Text, exts: map<nat, nat>, a: Archive, groups: seq<seq<Post>>, i: nat, k: nat, m: nat)
    requires Ids(a.cs, a.nextId) && i < |groups| && Increasing(text, groups[i])
    requires Authored(text, groups[i]) && GrowsFrom(exts, a.cs, groups[i], k, m)
    ensures var d := Decisions(text, exts, a.cs, Titles(a.cs), groups)[i];
            d.Append? && d.id == a.cs[k].id && NextPosts(text, exts, a.cs, groups[i], m, d.posts)
  {
    var now := DecisionsAt(text, exts, a.cs, Titles(a.cs), groups, i);
    AppendDecided(text, exts, a.cs, a.nextId, now, groups[i], k, m);
    NewcomersAre(text, exts, a.cs, groups[i], m);
  }

  // ---------------------------------------------------------------- what applying leaves

  // The entries for posts numbered on from a position, spelled out.
  ghost predicate EntriesOf(entries: seq<Entry>, posts: seq<Post>, at: nat) {
    |entries| == |posts| && forall j | 0 <= j < |posts| ::
      entries[j] == Entry(at + 1 + j, Some(posts[j].id), Some(posts[j].ext))
  }

  lemma {:induction false} CreatedAt(a: Archive, ds: seq<Decision>, i: nat)
    requires i < |ds| && ds[i].Create?
    ensures var n := CreatedCount(ds[..i]);
            && |Created(a, ds).cs| == |a.cs| + CreatedCount(ds) && n < CreatedCount(ds)
            && Created(a, ds).cs[|a.cs| + n] == Collection(a.nextId + n, ds[i].title, NewEntries(ds[i].posts, 0))
    decreases |ds|
  {
    var b := if ds[0].Create?
    then Archive(a.cs + [Collection(a.nextId, ds[0].title, NewEntries(ds[0].posts, 0))], a.nextId + 1) else a;
    if i == 0 {
      CreatedSize(b, ds[1..]);
      CreatedExtends(b, ds[1..]);
    } else {
      assert ds[..i][1..] == ds[1..][..i - 1] && ds[1..][i - 1] == ds[i];
      CreatedAt(b, ds[1..], i - 1);
    }
  }

  lemma {:induction false} CreatedSize(a: Archive, ds: seq<Decision>)
    ensures |Created(a, ds).cs| == |a.cs| + CreatedCount(ds)
    decreases |ds|
  {
    if ds != [] {
      var b := if ds[0].Create?
      then Archive(a.cs + [Collection(a.nextId, ds[0].title, NewEntries(ds[0].posts, 0))], a.nextId + 1) else a;
      CreatedSize(b, ds[1..]);
    }
  }

  // No decision but the i-th adds to the collection.
  ghost predicate NoAppendTo(ds: seq<Decision>, id: nat) {
    forall j | 0 <= j < |ds| && ds[j].Append? :: ds[j].id != id
  }

  ghost predicate OnlyAppendTo(ds: seq<Decision>, i: nat, id: nat) {
    && i < |ds| && ds[i].Append? && ds[i].id == id
    && forall j | 0 <= j < |ds| && ds[j].Append? && j != i :: ds[j].id != id
  }

  lemma {:induction false} NotAppended(cs: seq<Collection>, ds: seq<Decision>, k: nat)
    requires k < |cs| && NoAppendTo(ds, cs[k].id)
    ensures Appended(cs, ds)[k] == cs[k]
    decreases |ds|
  {
    if ds != [] {
      var next := if ds[0].Append? then AppendTo(cs, ds[0].id, ds[0].posts) else cs;
      assert next[k] == cs[k];
      assert forall i | 0 <= i < |ds| - 1 :: ds[1..][i] == ds[i + 1];
      NotAppended(next, ds[1..], k);
    }
  }

  lemma {:induction false} AppendedOnce(cs: seq<Collection>, ds: seq<Decision>, k: nat, i: nat)
    requires k < |cs| && OnlyAppendTo(ds, i, cs[k].id)
    ensures Appended(cs, ds)[k] == Grown(cs[k], cs[k].id, ds[i].posts)
    decreases |ds|
  {
    assert forall j | 0 <= j < |ds| - 1 :: ds[1..][j] == ds[j + 1];
    var next := if ds[0].Append? then AppendTo(cs, ds[0].id, ds[0].posts) else cs;
    if i == 0 {
      NotAppended(next, ds[1..], k);
    } else {
      assert next[k] == cs[k];
      AppendedOnce(next, ds[1..], k, i - 1);
    }
  }

  lemma StaysWhole(a: Archive, ds: seq<Decision>, k: nat)
    requires k < |a.cs| && NoAppendTo(ds, a.cs[k].id)
    ensures k < |Applied(a, ds).cs| && Applied(a, ds).cs[k] == a.cs[k]
  {
    CreatedExtends(a, ds);
    NotAppended(Created(a, ds).cs, ds, k);
  }

  lemma GrowsWhole(a: Archive, ds: seq<Decision>, k: nat, i: nat)
    requires k < |a.cs| && OnlyAppendTo(ds, i, a.cs[k].id)
    ensures k < |Applied(a, ds).cs| && GrownBy(a.cs[k], Applied(a, ds).cs[k], ds[i].posts)
  {
    CreatedExtends(a, ds);
    AppendedOnce(Created(a, ds).cs, ds, k, i);
    EntriesAre(ds[i].posts, Top(a.cs[k].entries));
  }

  lemma BornWhole(a: Archive, ds: seq<Decision>, i: nat)
    requires i < |ds| && ds[i].Create? && NoAppendTo(ds, a.nextId + CreatedCount(ds[..i]))
    ensures var k := |a.cs| + CreatedCount(ds[..i]);
            var after := Applied(a, ds).cs;
            && |after| == |a.cs| + CreatedCount(ds) && k < |after|
            && NewCollection(after[k], ds[i].title, ds[i].posts) && after[k].id == a.nextId + CreatedCount(ds[..i])
  {
    CreatedAt(a, ds, i);
    NotAppended(Created(a, ds).cs, ds, |a.cs| + CreatedCount(ds[..i]));
    EntriesAre(ds[i].posts, 0);
  }

  lemma EntriesAre(posts: seq<Post>, at: nat)
    ensures EntriesOf(NewEntries(posts, at), posts, at)
  {
  }

  // Entries behind the old ones, numbered on from the highest position.
  ghost predicate GrownBy(before: Collection, after: Collection, posts: seq<Post>) {
    && after.id == before.id && after.title == before.title && before.entries <= after.entries
    && EntriesOf(after.entries[|before.entries|..], posts, Top(before.entries))
  }

  ghost predicate NewCollection(c: Collection, title: string, g: seq<Post>) {
    c.title == title && EntriesOf(c.entries, g, 0)
  }

  lemma AppendsToOld(text: Text, exts: map<nat, nat>, a: Archive, groups: seq<seq<Post>>, i: nat) returns (k: nat, m: nat)
    requires Ids(a.cs, a.nextId) && i < |groups| && Decisions(text, exts, a.cs, Titles(a.cs), groups)[i].Append?
    ensures GrowsFrom(exts, a.cs, groups[i], k, m)
    ensures Decisions(text, exts, a.cs, Titles(a.cs), groups)[i].id == a.cs[k].id
  {
    AppendIff(text, exts, a, groups, i);
    k, m :| GrowsFrom(exts, a.cs, groups[i], k, m);
    var now := DecisionsAt(text, exts, a.cs, Titles(a.cs), groups, i);
    AppendDecided(text, exts, a.cs, a.nextId, now, groups[i], k, m);
  }

  lemma NeverAppended(text: Text, exts: map<nat, nat>, a: Archive, groups: seq<seq<Post>>, id: nat)
    requires Ids(a.cs, a.nextId) && id >= a.nextId
    ensures NoAppendTo(Decisions(text, exts, a.cs, Titles(a.cs), groups), id)
  {
    var ds := Decisions(text, exts, a.cs, Titles(a.cs), groups);
    forall j | 0 <= j < |ds| && ds[j].Append? ensures ds[j].id != id {
      var k, m := AppendsToOld(text, exts, a, groups, j);
    }
  }

  // Two groups never grow the same collection: its last entry is one post, in one group.
  lemma GrowsOnce(text: Text, exts: map<nat, nat>, cs: seq<Collection>, posts: seq<Post>, groups: seq<seq<Post>>,
                  i: nat, j: nat, k: nat, m: nat, n: nat)
    requires Listed(exts, posts) && Groups(text, posts, groups) && i < |groups| && j < |groups|
    requires GrowsFrom(exts, cs, groups[i], k, m) && GrowsFrom(exts, cs, groups[j], k, n)
    ensures i == j
  {
    var p, q := groups[i][m], groups[j][n];
    assert p in groups[i] && q in groups[j];
    assert p in posts && q in posts && p.ext == q.ext;
  }

  lemma OnlyItsGroup(text: Text, exts: map<nat, nat>, a: Archive, posts: seq<Post>, groups: seq<seq<Post>>, i: nat,
                     k: nat, m: nat)
    requires Ids(a.cs, a.nextId) && Listed(exts, posts) && Groups(text, posts, groups) && i < |groups|
    requires Authored(text, groups[i]) && GrowsFrom(exts, a.cs, groups[i], k, m)
    ensures OnlyAppendTo(Decisions(text, exts, a.cs, Titles(a.cs), groups), i, a.cs[k].id)
  {
    var ds := Decisions(text, exts, a.cs, Titles(a.cs), groups);
    AppendAdds(text, exts, a, groups, i, k, m);
    forall j | 0 <= j < |ds| && ds[j].Append? && j != i ensures ds[j].id != a.cs[k].id {
      var kj, mj := AppendsToOld(text, exts, a, groups, j);
      if kj == k {
        GrowsOnce(text, exts, a.cs, posts, groups, i, j, k, m, mj);
      }
    }
  }

  lemma NoGroupGrows(text: Text, exts: map<nat, nat>, a: Archive, groups: seq<seq<Post>>, k: nat)
    requires Ids(a.cs, a.nextId) && k < |a.cs|
    requires forall i, m | 0 <= i < |groups| && Authored(text, groups[i]) :: !GrowsFrom(exts, a.cs, groups[i], k, m)
    ensures NoAppendTo(Decisions(text, exts, a.cs, Titles(a.cs), groups), a.cs[k].id)
  {
    var ds := Decisions(text, exts, a.cs, Titles(a.cs), groups);
    forall j | 0 <= j < |ds| && ds[j].Append? ensures ds[j].id != a.cs[k].id {
      AppendIff(text, exts, a, groups, j);
      var kj, mj := AppendsToOld(text, exts, a, groups, j);
      assert kj != k;
    }
  }

  lemma GroupIsBorn(text: Text, exts: map<nat, nat>, a: Archive, groups: seq<seq<Post>>, ds: seq<Decision>, i: nat)
      returns (k: nat)
    requires Ids(a.cs, a.nextId) && i < |groups| && ds == Decisions(text, exts, a.cs, Titles(a.cs), groups)
    requires MakesCollection(text, exts, a.cs, ds, i, groups[i])
    ensures |a.cs| <= k < |Applied(a, ds).cs| && NewCollection(Applied(a, ds).cs[k], text.shown(groups[i]), groups[i])
  {
    CreateIff(text, exts, a.cs, groups, i);
    NeverAppended(text, exts, a, groups, a.nextId + CreatedCount(ds[..i]));
    BornWhole(a, ds, i);
    k := |a.cs| + CreatedCount(ds[..i]);
  }

  // ---------------------------------------------------------------- the duties of reconcile_board

  // Applied, a group that becomes a collection is there as a new one with exactly its posts at 1..n.
  lemma CreatedHolds(text: Text, exts: map<nat, nat>, a: Archive, posts: seq<Post>, i: nat) returns (k: nat)
    requires Ids(a.cs, a.nextId) && i < |Preview(text, posts)|
    requires var ds := Decisions(text, exts, a.cs, Titles(a.cs), Preview(text, posts));
             MakesCollection(text, exts, a.cs, ds, i, Preview(text, posts)[i])
    ensures var g := Preview(text, posts)[i];
            var after := Reconciled(text, exts, a, posts).cs;
            |a.cs| <= k < |after| && NewCollection(after[k], text.shown(g), g)
  {
    k := GroupIsBorn(text, exts, a, Preview(text, posts),
                     Decisions(text, exts, a.cs, Titles(a.cs), Preview(text, posts)), i);
  }

  // And no other collection is new: as many appear as groups become one.
  lemma NewCollectionsAre(text: Text, exts: map<nat, nat>, a: Archive, posts: seq<Post>)
    ensures |Reconciled(text, exts, a, posts).cs|
            == |a.cs| + CreatedCount(Decisions(text, exts, a.cs, Titles(a.cs), Preview(text, posts)))
  {
    CreatedSize(a, Decisions(text, exts, a.cs, Titles(a.cs), Preview(text, posts)));
  }

  // Applied, a collection that grows has its entries as before and then exactly the posts it is due.
  lemma GrownHolds(text: Text, exts: map<nat, nat>, a: Archive, posts: seq<Post>, i: nat, k: nat, m: nat)
      returns (added: seq<Post>)
    requires Ids(a.cs, a.nextId) && Listed(exts, posts) && i < |Preview(text, posts)|
    requires Authored(text, Preview(text, posts)[i]) && GrowsFrom(exts, a.cs, Preview(text, posts)[i], k, m)
    ensures var after := Reconciled(text, exts, a, posts).cs;
            && k < |after| && GrownBy(a.cs[k], after[k], added)
            && NextPosts(text, exts, a.cs, Preview(text, posts)[i], m, added)
  {
    var groups := Preview(text, posts);
    var ds := Decisions(text, exts, a.cs, Titles(a.cs), groups);
    PreviewMakesGroups(text, posts);
    AppendAdds(text, exts, a, groups, i, k, m);
    OnlyItsGroup(text, exts, a, posts, groups, i, k, m);
    GrowsWhole(a, ds, k, i);
    added := ds[i].posts;
  }

  // Every other collection is as it was.
  lemma OthersStay(text: Text, exts: map<nat, nat>, a: Archive, posts: seq<Post>, k: nat)
    requires Ids(a.cs, a.nextId) && k < |a.cs|
    requires forall i, m | 0 <= i < |Preview(text, posts)| && Authored(text, Preview(text, posts)[i]) ::
               !GrowsFrom(exts, a.cs, Preview(text, posts)[i], k, m)
    ensures k < |Reconciled(text, exts, a, posts).cs| && Reconciled(text, exts, a, posts).cs[k] == a.cs[k]
  {
    NoGroupGrows(text, exts, a, Preview(text, posts), k);
    StaysWhole(a, Decisions(text, exts, a.cs, Titles(a.cs), Preview(text, posts)), k);
  }
}
