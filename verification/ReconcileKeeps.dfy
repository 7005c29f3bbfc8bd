// Reconciliation keeps the uniqueness constraints of collections and collection_entries.
module ReconcileKeeps {
  import opened Wrappers
  import opened Grouping
  import opened Reconcile
  import opened ReconcileSafety
  import opened ReconcileTwice

  // One collection: positions ascend (so none repeats), no post is in it twice, and every linked post
  // is in the posts table.
  ghost predicate ValidCollection(exts: map<nat, nat>, c: Collection) {
    && (forall i, j | 0 <= i < j < |c.entries| :: c.entries[i].position < c.entries[j].position)
    && (forall i, j | 0 <= i < j < |c.entries| && c.entries[i].post.Some? :: c.entries[i].post != c.entries[j].post)
    && (forall i | 0 <= i < |c.entries| && c.entries[i].post.Some? :: c.entries[i].post.value in exts)
  }

  // Ids and titles of the board's collections are unique, and new ids are new.
  ghost predicate ValidArchive(exts: map<nat, nat>, a: Archive) {
    && (forall i, j | 0 <= i < j < |a.cs| :: a.cs[i].id != a.cs[j].id && a.cs[i].title != a.cs[j].title)
    && (forall i | 0 <= i < |a.cs| :: a.cs[i].id < a.nextId && ValidCollection(exts, a.cs[i]))
  }

  // Posts that can join: known, different, and in no collection.
  ghost predicate CanJoin(exts: map<nat, nat>, cs: seq<Collection>, posts: seq<Post>) {
    && (forall p | p in posts :: p.id in exts && exts[p.id] == p.ext && Members(exts, cs, p.ext) == {})
    && (forall i, j | 0 <= i < j < |posts| :: posts[i].id != posts[j].id)
  }

  lemma NewEntriesValid(exts: map<nat, nat>, id: nat, title: string, posts: seq<Post>)
    requires CanJoin(exts, [], posts)
    ensures ValidCollection(exts, Collection(id, title, NewEntries(posts, 0)))
  {
    var es := NewEntries(posts, 0);
    forall i | 0 <= i < |es| ensures es[i].post.Some? && es[i].post.value in exts {
      assert posts[i] in posts;
    }
  }

  lemma GrownValid(exts: map<nat, nat>, cs: seq<Collection>, c: Collection, id: nat, posts: seq<Post>)
    requires c in cs && ValidCollection(exts, c) && CanJoin(exts, cs, posts)
    ensures ValidCollection(exts, Grown(c, id, posts))
  {
    if c.id == id {
      var added := NewEntries(posts, Top(c.entries));
      var es := c.entries + added;
      forall i | 0 <= i < |es| && es[i].post.Some? ensures es[i].post.value in exts {
        if i >= |c.entries| {
          assert posts[i - |c.entries|] in posts;
        }
      }
      forall i, j | 0 <= i < j < |es| ensures es[i].position < es[j].position {
        if i < |c.entries| {
          assert c.entries[i] in c.entries;
        }
      }
      forall i, j | 0 <= i < j < |es| && es[i].post.Some? ensures es[i].post != es[j].post {
        if i < |c.entries| <= j {
          NotYetIn(exts, cs, c, posts[j - |c.entries|], i, posts);
        }
      }
    }
  }

  lemma NotYetIn(exts: map<nat, nat>, cs: seq<Collection>, c: Collection, p: Post, i: nat, posts: seq<Post>)
    requires c in cs && ValidCollection(exts, c) && CanJoin(exts, cs, posts) && p in posts && i < |c.entries|
    ensures c.entries[i].post != Some(p.id)
  {
    var e := c.entries[i];
    assert e in c.entries;
    assert ExtOf(exts, e).Some? ==> ExtOf(exts, e).value in Exts(exts, c.entries);
    assert forall x :: x in Exts(exts, c.entries) ==> c.id in Members(exts, cs, x);
  }

  lemma AppendToValid(exts: map<nat, nat>, a: Archive, id: nat, posts: seq<Post>)
    requires ValidArchive(exts, a) && CanJoin(exts, a.cs, posts)
    ensures ValidArchive(exts, a.(cs := AppendTo(a.cs, id, posts)))
  {
    forall i | 0 <= i < |a.cs| ensures ValidCollection(exts, AppendTo(a.cs, id, posts)[i]) {
      GrownValid(exts, a.cs, a.cs[i], id, posts);
    }
  }

  // Every append in the list can still join, and no two share a post.
  ghost predicate AppendsCanJoin(exts: map<nat, nat>, cs: seq<Collection>, ds: seq<Decision>) {
    forall i | 0 <= i < |ds| && ds[i].Append? :: CanJoin(exts, cs, ds[i].posts)
  }

  lemma StillCanJoin(exts: map<nat, nat>, cs: seq<Collection>, ds: seq<Decision>)
    requires AppendsCanJoin(exts, cs, ds) && Apart(ds) && ds != [] && ds[0].Append?
    ensures AppendsCanJoin(exts, AppendTo(cs, ds[0].id, ds[0].posts), ds[1..])
  {
    forall i | 0 <= i < |ds| - 1 && ds[1..][i].Append?
      ensures CanJoin(exts, AppendTo(cs, ds[0].id, ds[0].posts), ds[1..][i].posts)
    {
      var d := ds[i + 1];
      assert d == ds[1..][i] && CanJoin(exts, cs, d.posts) && CanJoin(exts, cs, ds[0].posts);
      forall p | p in d.posts ensures Members(exts, AppendTo(cs, ds[0].id, ds[0].posts), p.ext) == {} {
        AppendToMembers(exts, cs, ds[0].id, ds[0].posts, p.ext);
        assert p.ext in PostExts(Joins(d));
        NotInBoth(ds, 0, i + 1, p.ext);
      }
    }
  }

  lemma NotInBoth(ds: seq<Decision>, i: nat, j: nat, x: nat)
    requires Apart(ds) && i < j < |ds| && x in PostExts(Joins(ds[j]))
    ensures x !in PostExts(Joins(ds[i]))
  {
  }

  lemma {:induction false} AppendedValid(exts: map<nat, nat>, a: Archive, ds: seq<Decision>)
    requires ValidArchive(exts, a) && AppendsCanJoin(exts, a.cs, ds) && Apart(ds)
    ensures ValidArchive(exts, a.(cs := Appended(a.cs, ds)))
    decreases |ds|
  {
    if ds != [] {
      ApartTail(ds, 0);
      if ds[0].Append? {
        StillCanJoin(exts, a.cs, ds);
        assert CanJoin(exts, a.cs, ds[0].posts);
        AppendToValid(exts, a, ds[0].id, ds[0].posts);
        AppendedValid(exts, a.(cs := AppendTo(a.cs, ds[0].id, ds[0].posts)), ds[1..]);
      } else {
        forall i | 0 <= i < |ds| - 1 && ds[1..][i].Append? ensures CanJoin(exts, a.cs, ds[1..][i].posts) {
          assert ds[1..][i] == ds[i + 1];
        }
        AppendedValid(exts, a, ds[1..]);
      }
    }
  }

  // New titles are free, and different from each other.
  ghost predicate NewTitles(titles: set<string>, ds: seq<Decision>) {
    && (forall i | 0 <= i < |ds| && ds[i].Create? :: ds[i].title !in titles)
    && (forall i, j | 0 <= i < j < |ds| && ds[i].Create? && ds[j].Create? :: ds[i].title != ds[j].title)
  }

  lemma {:induction false} CreatedValid(exts: map<nat, nat>, a: Archive, ds: seq<Decision>)
    requires ValidArchive(exts, a) && NewTitles(Titles(a.cs), ds)
    requires forall i | 0 <= i < |ds| && ds[i].Create? :: CanJoin(exts, [], ds[i].posts)
    ensures ValidArchive(exts, Created(a, ds))
    decreases |ds|
  {
    if ds != [] {
      assert forall i | 0 <= i < |ds| - 1 :: ds[1..][i] == ds[i + 1];
      if ds[0].Create? {
        var c := Collection(a.nextId, ds[0].title, NewEntries(ds[0].posts, 0));
        NewEntriesValid(exts, a.nextId, ds[0].title, ds[0].posts);
        forall i | 0 <= i < |a.cs| ensures a.cs[i].title != c.title {
          assert a.cs[i] in a.cs;
        }
        forall t | t in Titles(a.cs + [c]) ensures t in Titles(a.cs) || t == c.title {
          var d :| d in a.cs + [c] && d.title == t;
          assert d in a.cs || d == c;
        }
        CreatedValid(exts, Archive(a.cs + [c], a.nextId + 1), ds[1..]);
      } else {
        CreatedValid(exts, a, ds[1..]);
      }
    }
  }

  // ---------------------------------------------------------------- the decisions are of this kind

  lemma DifferentIds(text: Text, exts: map<nat, nat>, posts: seq<Post>, s: seq<Post>)
    requires Increasing(text, s) && Listed(exts, posts) && forall p | p in s :: p in posts
    ensures forall i, j | 0 <= i < j < |s| :: s[i].id != s[j].id
  {
    forall i, j | 0 <= i < j < |s| ensures s[i].id != s[j].id {
      assert s[i] in s && s[j] in s && Before(text, s[i], s[j]);
      KeyLessIsTotal(KeyOf(text, s[i]).value, KeyOf(text, s[j]).value, KeyOf(text, s[i]).value);
    }
  }

  lemma JoinsIncrease(text: Text, exts: map<nat, nat>, cs: seq<Collection>, titles: set<string>, g: seq<Post>)
    requires Increasing(text, g)
    ensures Increasing(text, Joins(Decide(text, exts, cs, titles, g)))
  {
    var anchors := Anchors(exts, cs, g);
    if anchors != {} {
      var c :| c in anchors;
      DecideOne(text, exts, cs, titles, g, c);
      JoinsForIncrease(text, exts, cs, g, c);
    }
  }

  lemma JoinsForIncrease(text: Text, exts: map<nat, nat>, cs: seq<Collection>, g: seq<Post>, c: nat)
    requires Increasing(text, g)
    ensures Increasing(text, Joins(DecideFor(text, exts, cs, g, c)))
  {
    var joins := Joins(DecideFor(text, exts, cs, g, c));
    if joins != [] {
      var last := JoinsAreNewcomers(text, exts, cs, g, c);
      NewcomersIncrease(text, exts, cs, g, last);
    }
  }

  lemma JoinsAreNewcomers(text: Text, exts: map<nat, nat>, cs: seq<Collection>, g: seq<Post>, c: nat)
      returns (last: Post)
    requires Joins(DecideFor(text, exts, cs, g, c)) != []
    ensures Joins(DecideFor(text, exts, cs, g, c)) == Newcomers(text, exts, cs, g, last)
  {
    var anchored := Anchored(exts, cs, g, c);
    last := anchored[|anchored| - 1];
  }

  lemma EveryDecisionCanJoin(text: Text, exts: map<nat, nat>, cs: seq<Collection>, titles: set<string>,
                             posts: seq<Post>,
                             groups: seq<seq<Post>>)
    requires Groups(text, posts, groups) && Listed(exts, posts)
    ensures var ds := Decisions(text, exts, cs, titles, groups);
            forall i | 0 <= i < |ds| :: CanJoin(exts, cs, Joins(ds[i]))
  {
    var ds := Decisions(text, exts, cs, titles, groups);
    forall i | 0 <= i < |ds| ensures CanJoin(exts, cs, Joins(ds[i])) {
      var now := DecisionsAt(text, exts, cs, titles, groups, i);
      DecideJoins(text, exts, cs, now, groups[i]);
      JoinsIncrease(text, exts, cs, now, groups[i]);
      DifferentIds(text, exts, posts, Joins(ds[i]));
    }
  }

  lemma DecisionsClaimNewTitles(text: Text, exts: map<nat, nat>, cs: seq<Collection>, titles: set<string>,
                                groups: seq<seq<Post>>)
    ensures NewTitles(titles, Decisions(text, exts, cs, titles, groups))
  {
    var ds := Decisions(text, exts, cs, titles, groups);
    forall i | 0 <= i < |ds| && ds[i].Create?
      ensures ds[i].title !in titles && forall j | 0 <= j < i && ds[j].Create? :: ds[j].title != ds[i].title
    {
      var now := DecisionsAt(text, exts, cs, titles, groups, i);
      DecideJoins(text, exts, cs, now, groups[i]);
    }
  }

  lemma AppendsStayFree(exts: map<nat, nat>, a: Archive, ds: seq<Decision>)
    requires AllListed(exts, ds) && Apart(ds) && forall i | 0 <= i < |ds| :: CanJoin(exts, a.cs, Joins(ds[i]))
    ensures AppendsCanJoin(exts, Created(a, ds).cs, ds)
  {
    forall i | 0 <= i < |ds| && ds[i].Append? ensures CanJoin(exts, Created(a, ds).cs, ds[i].posts) {
      assert CanJoin(exts, a.cs, Joins(ds[i]));
      forall p | p in ds[i].posts ensures Members(exts, Created(a, ds).cs, p.ext) == {} {
        CreatedMembers(exts, a, ds, p.ext);
        assert p.ext in PostExts(Joins(ds[i]));
        NoBirth(a.nextId, ds, i, p.ext);
      }
    }
  }

  lemma {:induction false} NoBirth(n: nat, ds: seq<Decision>, i: nat, x: nat)
    requires Apart(ds) && i < |ds| && ds[i].Append? && x in PostExts(Joins(ds[i]))
    ensures Births(n, ds, x) == {}
    decreases |ds|
  {
    ApartTail(ds, x);
    var m := if ds[0].Create? then n + 1 else n;
    if i == 0 {
      NotJoined(m, {}, ds[1..], x);
    } else {
      assert ds[1..][i - 1] == ds[i];
      NoBirth(m, ds[1..], i - 1, x);
    }
  }

  // Reconciling a valid archive leaves a valid archive.
  lemma ReconcilingKeepsConstraints(text: Text, exts: map<nat, nat>, a: Archive, posts: seq<Post>)
    requires ValidArchive(exts, a) && Listed(exts, posts)
    ensures ValidArchive(exts, Reconciled(text, exts, a, posts))
  {
    PreviewMakesGroups(text, posts);
    DecisionsKeepConstraints(text, exts, a, posts, Preview(text, posts));
  }

  // Known posts, apart, free, under new titles.
  ghost predicate Ready(exts: map<nat, nat>, a: Archive, ds: seq<Decision>) {
    && AllListed(exts, ds) && Apart(ds) && NewTitles(Titles(a.cs), ds)
    && forall i | 0 <= i < |ds| :: CanJoin(exts, a.cs, Joins(ds[i]))
  }

  lemma DecisionsKeepConstraints(text: Text, exts: map<nat, nat>, a: Archive, posts: seq<Post>, groups: seq<seq<Post>>)
    requires ValidArchive(exts, a) && Listed(exts, posts) && Groups(text, posts, groups)
    ensures ValidArchive(exts, Applied(a, Decisions(text, exts, a.cs, Titles(a.cs), groups)))
  {
    DecisionsAreReady(text, exts, a, posts, groups);
    ApplyingKeepsConstraints(exts, a, Decisions(text, exts, a.cs, Titles(a.cs), groups));
  }

  lemma DecisionsAreReady(text: Text, exts: map<nat, nat>, a: Archive, posts: seq<Post>, groups: seq<seq<Post>>)
    requires Listed(exts, posts) && Groups(text, posts, groups)
    ensures Ready(exts, a, Decisions(text, exts, a.cs, Titles(a.cs), groups))
  {
    EveryDecisionCanJoin(text, exts, a.cs, Titles(a.cs), posts, groups);
    DecisionsClaimNewTitles(text, exts, a.cs, Titles(a.cs), groups);
    DecisionsAreApart(text, exts, a.cs, Titles(a.cs), posts, groups);
  }

  lemma DecisionsAreApart(text: Text, exts: map<nat, nat>, cs: seq<Collection>, titles: set<string>, posts: seq<Post>,
                          groups: seq<seq<Post>>)
    requires Listed(exts, posts) && Groups(text, posts, groups)
    ensures var ds := Decisions(text, exts, cs, titles, groups); AllListed(exts, ds) && Apart(ds)
  {
    DecisionsFit(text, exts, cs, titles, groups);
    FitApart(text, exts, cs, Decisions(text, exts, cs, titles, groups), posts, groups);
  }

  lemma ApplyingKeepsConstraints(exts: map<nat, nat>, a: Archive, ds: seq<Decision>)
    requires ValidArchive(exts, a) && Ready(exts, a, ds)
    ensures ValidArchive(exts, Applied(a, ds))
  {
    forall i | 0 <= i < |ds| && ds[i].Create? ensures CanJoin(exts, [], ds[i].posts) {
      assert CanJoin(exts, a.cs, Joins(ds[i]));
    }
    CreatedValid(exts, a, ds);
    AppendsStayFree(exts, a, ds);
    AppendedValid(exts, Created(a, ds), ds);
  }
}
