// What reconciliation keeps: no post joins a second collection, the archive's uniqueness constraints
// hold, and applying it again on the same posts adds nothing.
module ReconcileSafety {
  import opened Wrappers
  import opened Grouping
  import opened Reconcile

  function PostExts(posts: seq<Post>): set<nat> {
    set p | p in posts :: p.ext
  }

  // The rows of the posts table: a number names one post, and the table knows it.
  ghost predicate Listed(exts: map<nat, nat>, posts: seq<Post>) {
    && (forall p | p in posts :: p.id in exts && exts[p.id] == p.ext)
    && (forall p, q | p in posts && q in posts && p.ext == q.ext :: p == q)
  }

  // ---------------------------------------------------------------- memberships after applying

  lemma NewExts(exts: map<nat, nat>, posts: seq<Post>, at: nat)
    requires forall p | p in posts :: p.id in exts && exts[p.id] == p.ext
    ensures Exts(exts, NewEntries(posts, at)) == PostExts(posts)
  {
    var es := NewEntries(posts, at);
    forall x ensures x in Exts(exts, es) <==> x in PostExts(posts) {
      if x in Exts(exts, es) {
        var e :| e in es && ExtOf(exts, e) == Some(x);
        var i :| 0 <= i < |es| && es[i] == e;
        assert posts[i] in posts;
      }
      if x in PostExts(posts) {
        var p :| p in posts && p.ext == x;
        var i :| 0 <= i < |posts| && posts[i] == p;
        assert es[i] in es && ExtOf(exts, es[i]) == Some(x);
      }
    }
  }

  lemma ExtsJoin(exts: map<nat, nat>, a: seq<Entry>, b: seq<Entry>)
    ensures Exts(exts, a + b) == Exts(exts, a) + Exts(exts, b)
  {
    assert forall e :: e in a + b <==> e in a || e in b;
  }

  lemma GrownExts(exts: map<nat, nat>, c: Collection, id: nat, posts: seq<Post>)
    requires forall p | p in posts :: p.id in exts && exts[p.id] == p.ext
    ensures Exts(exts, Grown(c, id, posts).entries) == Exts(exts, c.entries) + (if c.id == id then PostExts(posts) else {})
  {
    ExtsJoin(exts, c.entries, NewEntries(posts, Top(c.entries)));
    NewExts(exts, posts, Top(c.entries));
  }

  lemma AppendToMembers(exts: map<nat, nat>, cs: seq<Collection>, id: nat, posts: seq<Post>, x: nat)
    requires forall p | p in posts :: p.id in exts && exts[p.id] == p.ext
    ensures CollectionIds(AppendTo(cs, id, posts)) == CollectionIds(cs)
    ensures Members(exts, AppendTo(cs, id, posts), x)
            == Members(exts, cs, x) + (if id in CollectionIds(cs) && x in PostExts(posts) then {id} else {})
  {
    var r := AppendTo(cs, id, posts);
    forall i | 0 <= i < |cs|
      ensures x in Exts(exts, r[i].entries) <==> x in Exts(exts, cs[i].entries) || (cs[i].id == id && x in PostExts(posts))
    {
      GrownExts(exts, cs[i], id, posts);
    }
    forall k ensures k in CollectionIds(r) <==> k in CollectionIds(cs) {
      if k in CollectionIds(r) {
        var i :| 0 <= i < |r| && r[i].id == k;
        assert cs[i] in cs;
      }
      if k in CollectionIds(cs) {
        var i :| 0 <= i < |cs| && cs[i].id == k;
        assert r[i] in r;
      }
    }
    forall k ensures k in Members(exts, r, x)
                     <==> k in Members(exts, cs, x) || (k == id && id in CollectionIds(cs) && x in PostExts(posts))
    {
      if k in Members(exts, r, x) {
        var i :| 0 <= i < |r| && r[i].id == k && x in Exts(exts, r[i].entries);
        assert cs[i] in cs && cs[i].id == k;
      }
      if k in Members(exts, cs, x) || (k == id && id in CollectionIds(cs) && x in PostExts(posts)) {
        var i :| 0 <= i < |cs| && cs[i].id == k && (x in Exts(exts, cs[i].entries) || (k == id && x in PostExts(posts)));
        assert r[i] in r && r[i].id == k;
      }
    }
  }

  // The collections that appends put x into.
  function Targets(ids: set<nat>, ds: seq<Decision>, x: nat): set<nat> {
    if ds == [] then {}
    else (if ds[0].Append? && ds[0].id in ids && x in PostExts(ds[0].posts) then {ds[0].id} else {})
         + Targets(ids, ds[1..], x)
  }

  // The collections created with x, numbered from n on.
  function Births(n: nat, ds: seq<Decision>, x: nat): set<nat>
    decreases |ds|
  {
    if ds == [] then {}
    else if ds[0].Create? then (if x in PostExts(ds[0].posts) then {n} else {}) + Births(n + 1, ds[1..], x)
    else Births(n, ds[1..], x)
  }

  ghost predicate AllListed(exts: map<nat, nat>, ds: seq<Decision>) {
    forall i, p | 0 <= i < |ds| && p in Joins(ds[i]) :: p.id in exts && exts[p.id] == p.ext
  }

  lemma ListedTail(exts: map<nat, nat>, ds: seq<Decision>)
    requires AllListed(exts, ds) && ds != []
    ensures (forall p | p in Joins(ds[0]) :: p.id in exts && exts[p.id] == p.ext) && AllListed(exts, ds[1..])
  {
    forall i, p | 0 <= i < |ds| - 1 && p in Joins(ds[1..][i]) ensures p.id in exts && exts[p.id] == p.ext {
      assert p in Joins(ds[i + 1]);
    }
  }

  lemma {:induction false} AppendedMembers(exts: map<nat, nat>, cs: seq<Collection>, ds: seq<Decision>, x: nat)
    requires AllListed(exts, ds)
    ensures Members(exts, Appended(cs, ds), x) == Members(exts, cs, x) + Targets(CollectionIds(cs), ds, x)
    ensures CollectionIds(Appended(cs, ds)) == CollectionIds(cs)
    decreases |ds|
  {
    if ds != [] {
      ListedTail(exts, ds);
      if ds[0].Append? {
        AppendToMembers(exts, cs, ds[0].id, ds[0].posts, x);
        AppendedMembers(exts, AppendTo(cs, ds[0].id, ds[0].posts), ds[1..], x);
      } else {
        AppendedMembers(exts, cs, ds[1..], x);
      }
    }
  }

  lemma {:induction false} CreatedMembers(exts: map<nat, nat>, a: Archive, ds: seq<Decision>, x: nat)
    requires AllListed(exts, ds)
    ensures Members(exts, Created(a, ds).cs, x) == Members(exts, a.cs, x) + Births(a.nextId, ds, x)
    decreases |ds|
  {
    if ds != [] {
      ListedTail(exts, ds);
      if ds[0].Create? {
        var c := Collection(a.nextId, ds[0].title, NewEntries(ds[0].posts, 0));
        NewExts(exts, ds[0].posts, 0);
        assert forall d :: d in a.cs + [c] <==> d in a.cs || d == c;
        CreatedMembers(exts, Archive(a.cs + [c], a.nextId + 1), ds[1..], x);
      } else {
        CreatedMembers(exts, a, ds[1..], x);
      }
    }
  }

  lemma AppliedMembers(exts: map<nat, nat>, a: Archive, ds: seq<Decision>, x: nat)
    requires AllListed(exts, ds)
    ensures Members(exts, Applied(a, ds).cs, x)
            == Members(exts, a.cs, x) + Births(a.nextId, ds, x) + Targets(CollectionIds(Created(a, ds).cs), ds, x)
  {
    CreatedMembers(exts, a, ds, x);
    AppendedMembers(exts, Created(a, ds).cs, ds, x);
  }

  // ---------------------------------------------------------------- decisions about disjoint groups

  // No post is in two decisions.
  ghost predicate Apart(ds: seq<Decision>) {
    forall i, j, x | 0 <= i < j < |ds| && x in PostExts(Joins(ds[i])) :: x !in PostExts(Joins(ds[j]))
  }

  ghost predicate Nowhere(ds: seq<Decision>, x: nat) {
    forall i | 0 <= i < |ds| :: x !in PostExts(Joins(ds[i]))
  }

  lemma {:induction false} NotJoined(n: nat, ids: set<nat>, ds: seq<Decision>, x: nat)
    requires Nowhere(ds, x)
    ensures Births(n, ds, x) == {} && Targets(ids, ds, x) == {}
    decreases |ds|
  {
    if ds != [] {
      assert x !in PostExts(Joins(ds[0]));
      forall i | 0 <= i < |ds| - 1 ensures x !in PostExts(Joins(ds[1..][i])) {
        assert x !in PostExts(Joins(ds[i + 1]));
      }
      NotJoined(if ds[0].Create? then n + 1 else n, ids, ds[1..], x);
    }
  }

  lemma ApartTail(ds: seq<Decision>, x: nat)
    requires Apart(ds) && ds != []
    ensures Apart(ds[1..]) && (x in PostExts(Joins(ds[0])) ==> Nowhere(ds[1..], x))
  {
    forall i, j, y | 0 <= i < j < |ds| - 1 && y in PostExts(Joins(ds[1..][i])) ensures y !in PostExts(Joins(ds[1..][j])) {
      assert y in PostExts(Joins(ds[i + 1]));
      assert ds[1..][j] == ds[j + 1];
    }
    forall j | 0 <= j < |ds| - 1 && x in PostExts(Joins(ds[0])) ensures x !in PostExts(Joins(ds[1..][j])) {
      assert ds[1..][j] == ds[j + 1];
    }
  }

  // Over disjoint decisions a post gains one collection at most.
  lemma {:induction false} JoinsOneAtMost(n: nat, ids: set<nat>, ds: seq<Decision>, x: nat)
    requires Apart(ds)
    ensures |Births(n, ds, x) + Targets(ids, ds, x)| <= 1
    decreases |ds|
  {
    if ds != [] {
      ApartTail(ds, x);
      var m := if ds[0].Create? then n + 1 else n;
      if x in PostExts(Joins(ds[0])) {
        NotJoined(m, ids, ds[1..], x);
      } else {
        JoinsOneAtMost(m, ids, ds[1..], x);
      }
    }
  }

  // A post that the i-th decision puts into a new collection, or appends, is in that one afterwards.
  lemma {:induction false} JoinsItsOwn(n: nat, ids: set<nat>, ds: seq<Decision>, i: nat, x: nat)
    requires i < |ds| && x in PostExts(Joins(ds[i]))
    ensures ds[i].Create? ==> Births(n, ds, x) != {}
    ensures ds[i].Append? && ds[i].id in ids ==> ds[i].id in Targets(ids, ds, x)
    decreases |ds|
  {
    if i > 0 {
      assert ds[1..][i - 1] == ds[i];
      JoinsItsOwn(if ds[0].Create? then n + 1 else n, ids, ds[1..], i - 1, x);
    }
  }

  // ---------------------------------------------------------------- what the decisions are

  // The decision for one group only moves posts of the group that are in no collection.
  lemma DecideJoins(text: Text, exts: map<nat, nat>, cs: seq<Collection>, titles: set<string>, g: seq<Post>)
    ensures var d := Decide(text, exts, cs, titles, g);
            && (forall p | p in Joins(d) :: p in g && Members(exts, cs, p.ext) == {})
            && (d.Create? ==> d.posts == g && d.title !in titles && Anchors(exts, cs, g) == {})
            && (d.Append? ==> Anchors(exts, cs, g) == {d.id})
  {
    var anchors := Anchors(exts, cs, g);
    if anchors == {} {
      forall p | p in g ensures Members(exts, cs, p.ext) == {} {
        forall c | c in Members(exts, cs, p.ext) ensures c in anchors {
        }
      }
    } else if |anchors| == 1 {
      var c :| c in anchors;
      OnlyOne(anchors, c);
    }
  }

  lemma {:induction false} DecisionsAt(text: Text, exts: map<nat, nat>, cs: seq<Collection>, titles: set<string>,
                                       groups: seq<seq<Post>>, i: nat) returns (now: set<string>)
    requires i < |groups|
    ensures var ds := Decisions(text, exts, cs, titles, groups);
            && ds[i] == Decide(text, exts, cs, now, groups[i]) && titles <= now
            && (forall t | t in now :: t in titles || exists j :: 0 <= j < i && ds[j].Create? && ds[j].title == t)
            && (forall j | 0 <= j < i && ds[j].Create? :: ds[j].title in now)
    decreases |groups|
  {
    var ds := Decisions(text, exts, cs, titles, groups);
    if i == 0 {
      now := titles;
    } else {
      var d := Decide(text, exts, cs, titles, groups[0]);
      now := DecisionsAt(text, exts, cs, Claimed(titles, d), groups[1..], i - 1);
      var rest := Decisions(text, exts, cs, Claimed(titles, d), groups[1..]);
      assert forall j | 0 < j <= i :: ds[j] == rest[j - 1];
      forall t | t in now ensures t in titles || exists j :: 0 <= j < i && ds[j].Create? && ds[j].title == t {
        if t !in titles {
          if t in Claimed(titles, d) {
            assert ds[0].Create? && ds[0].title == t;
          } else {
            var j :| 0 <= j < i - 1 && rest[j].Create? && rest[j].title == t;
            assert ds[j + 1].title == t;
          }
        }
      }
    }
  }

  // Every decision only moves free posts of its own group.
  ghost predicate Fit(exts: map<nat, nat>, cs: seq<Collection>, ds: seq<Decision>, groups: seq<seq<Post>>) {
    |ds| == |groups| && forall i | 0 <= i < |ds| :: FitOne(exts, cs, ds[i], groups[i])
  }

  ghost predicate FitOne(exts: map<nat, nat>, cs: seq<Collection>, d: Decision, g: seq<Post>) {
    forall p | p in Joins(d) :: p in g && Members(exts, cs, p.ext) == {}
  }

  lemma DecisionsFit(text: Text, exts: map<nat, nat>, cs: seq<Collection>, titles: set<string>, groups: seq<seq<Post>>)
    ensures Fit(exts, cs, Decisions(text, exts, cs, titles, groups), groups)
  {
    var ds := Decisions(text, exts, cs, titles, groups);
    forall i | 0 <= i < |ds| ensures FitOne(exts, cs, ds[i], groups[i]) {
      var now := DecisionsAt(text, exts, cs, titles, groups, i);
      DecideJoins(text, exts, cs, now, groups[i]);
    }
  }

  // No post is in two decisions about disjoint groups.
  lemma FitApart(text: Text, exts: map<nat, nat>, cs: seq<Collection>, ds: seq<Decision>, posts: seq<Post>,
                 groups: seq<seq<Post>>)
    requires Groups(text, posts, groups) && Listed(exts, posts) && Fit(exts, cs, ds, groups)
    ensures AllListed(exts, ds) && Apart(ds)
  {
    forall i, p | 0 <= i < |ds| && p in Joins(ds[i]) ensures p.id in exts && exts[p.id] == p.ext {
      assert FitOne(exts, cs, ds[i], groups[i]);
      assert p in groups[i] && p in posts;
    }
    forall i, j, p, q | 0 <= i < j < |ds| && p in Joins(ds[i]) && q in Joins(ds[j]) ensures p.ext != q.ext {
      assert FitOne(exts, cs, ds[i], groups[i]) && FitOne(exts, cs, ds[j], groups[j]);
      assert p in groups[i] && p in posts && q in groups[j] && q in posts;
      assert p !in groups[j];
    }
  }

  lemma MembersMoveNowhere(exts: map<nat, nat>, cs: seq<Collection>, ds: seq<Decision>, groups: seq<seq<Post>>, x: nat)
    requires Fit(exts, cs, ds, groups) && Members(exts, cs, x) != {}
    ensures Nowhere(ds, x)
  {
    forall i, p | 0 <= i < |ds| && p in Joins(ds[i]) ensures p.ext != x {
      assert FitOne(exts, cs, ds[i], groups[i]);
      assert Members(exts, cs, p.ext) == {};
    }
  }

  // A post that was in a collection stays in exactly the same ones; any other joins one at most.
  lemma NoSecondCollection(text: Text, exts: map<nat, nat>, a: Archive, posts: seq<Post>, x: nat)
    requires Listed(exts, posts)
    ensures var before, after := Members(exts, a.cs, x), Members(exts, Reconciled(text, exts, a, posts).cs, x);
            if before != {} then after == before else |after| <= 1
  {
    var groups := Preview(text, posts);
    PreviewMakesGroups(text, posts);
    DecisionsFit(text, exts, a.cs, Titles(a.cs), groups);
    FitApart(text, exts, a.cs, Decisions(text, exts, a.cs, Titles(a.cs), groups), posts, groups);
    MovesOnce(exts, a, Decisions(text, exts, a.cs, Titles(a.cs), groups), groups, x);
  }

  lemma MovesOnce(exts: map<nat, nat>, a: Archive, ds: seq<Decision>, groups: seq<seq<Post>>, x: nat)
    requires AllListed(exts, ds) && Apart(ds) && Fit(exts, a.cs, ds, groups)
    ensures var before, after := Members(exts, a.cs, x), Members(exts, Applied(a, ds).cs, x);
            if before != {} then after == before else |after| <= 1
  {
    var ids := CollectionIds(Created(a, ds).cs);
    AppliedMembers(exts, a, ds, x);
    if Members(exts, a.cs, x) != {} {
      MembersMoveNowhere(exts, a.cs, ds, groups, x);
      NotJoined(a.nextId, ids, ds, x);
    } else {
      JoinsOneAtMost(a.nextId, ids, ds, x);
      assert Members(exts, Applied(a, ds).cs, x) == Births(a.nextId, ds, x) + Targets(ids, ds, x);
    }
  }
}
