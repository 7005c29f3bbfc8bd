// Applying reconciliation a second time on the same posts proposes nothing and changes nothing.
module ReconcileTwice {
  import opened Wrappers
  import opened Grouping
  import opened Reconcile
  import opened ReconcileSafety

  // Proposes no entry and no collection.
  predicate Quiet(d: Decision) {
    d.Skip? || (d.Append? && d.posts == [])
  }

  // ---------------------------------------------------------------- order inside a group

  lemma {:induction false} AnchoredIncreases(text: Text, exts: map<nat, nat>, cs: seq<Collection>, g: seq<Post>, c: nat)
    requires Increasing(text, g)
    ensures Increasing(text, Anchored(exts, cs, g, c))
    decreases |g|
  {
    if g != [] {
      IncreasingTail(text, g);
      AnchoredIncreases(text, exts, cs, g[1..], c);
      var rest := Anchored(exts, cs, g[1..], c);
      if c in Members(exts, cs, g[0].ext) {
        Prepended(text, g, rest);
      }
    }
  }

  lemma {:induction false} NewcomersIncrease(text: Text, exts: map<nat, nat>, cs: seq<Collection>, g: seq<Post>,
                                             last: Post)
    requires Increasing(text, g)
    ensures Increasing(text, Newcomers(text, exts, cs, g, last))
    decreases |g|
  {
    if g != [] {
      IncreasingTail(text, g);
      NewcomersIncrease(text, exts, cs, g[1..], last);
      if Newcomer(text, exts, cs, last, g[0]) {
        Prepended(text, g, Newcomers(text, exts, cs, g[1..], last));
      }
    }
  }

  lemma IncreasingTail(text: Text, g: seq<Post>)
    requires Increasing(text, g) && g != []
    ensures Increasing(text, g[1..]) && KeyOf(text, g[0]).Some? && forall p | p in g[1..] :: Before(text, g[0], p)
  {
    forall p | p in g[1..] ensures Before(text, g[0], p) {
      var k :| 0 <= k < |g[1..]| && g[1..][k] == p;
      assert Before(text, g[0], g[k + 1]);
    }
  }

  // A subsequence of the tail behind the head.
  lemma Prepended(text: Text, g: seq<Post>, rest: seq<Post>)
    requires Increasing(text, g) && g != [] && Increasing(text, rest) && forall p | p in rest :: p in g[1..]
    ensures Increasing(text, [g[0]] + rest)
  {
    IncreasingTail(text, g);
    forall j | 0 <= j < |rest| ensures Before(text, g[0], rest[j]) {
      assert rest[j] in rest;
    }
  }

  lemma LastIsGreatest(text: Text, s: seq<Post>, p: Post)
    requires Increasing(text, s) && p in s
    ensures p == s[|s| - 1] || Before(text, p, s[|s| - 1])
  {
    var k :| 0 <= k < |s| && s[k] == p;
  }

  lemma BeforeChains(text: Text, a: Post, b: Post, c: Post)
    requires Before(text, a, b) && Before(text, b, c)
    ensures Before(text, a, c)
  {
    KeyLessIsTotal(KeyOf(text, a).value, KeyOf(text, b).value, KeyOf(text, c).value);
  }

  // ---------------------------------------------------------------- last members

  lemma {:induction false} LastAfterAppend(exts: map<nat, nat>, cs: seq<Collection>, id: nat, posts: seq<Post>, c: nat)
    requires forall p | p in posts :: p.id in exts && exts[p.id] == p.ext
    ensures var after := LastOf(exts, AppendTo(cs, id, posts), c);
            after == LastOf(exts, cs, c) || (after.Some? && after.value in PostExts(posts))
    decreases |cs|
  {
    if cs != [] {
      var r := AppendTo(cs, id, posts);
      assert r[1..] == AppendTo(cs[1..], id, posts);
      LastAfterAppend(exts, cs[1..], id, posts, c);
      if cs[0].id == c == id && posts != [] {
        LastNewEntry(cs[0].entries, posts);
        assert posts[|posts| - 1] in posts;
      }
    }
  }

  lemma LastNewEntry(entries: seq<Entry>, posts: seq<Post>)
    requires posts != []
    ensures var es := entries + NewEntries(posts, Top(entries));
            es[|es| - 1] == NewEntries(posts, Top(entries))[|posts| - 1]
  {
  }

  ghost predicate JoinedBy(ds: seq<Decision>, x: nat) {
    exists i :: 0 <= i < |ds| && x in PostExts(Joins(ds[i]))
  }

  lemma {:induction false} LastAfterAppends(exts: map<nat, nat>, cs: seq<Collection>, ds: seq<Decision>, c: nat)
    requires AllListed(exts, ds)
    ensures var after := LastOf(exts, Appended(cs, ds), c);
            after == LastOf(exts, cs, c) || (after.Some? && JoinedBy(ds, after.value))
    decreases |ds|
  {
    if ds != [] {
      ListedTail(exts, ds);
      var next := if ds[0].Append? then AppendTo(cs, ds[0].id, ds[0].posts) else cs;
      if ds[0].Append? {
        LastAfterAppend(exts, cs, ds[0].id, ds[0].posts, c);
      }
      LastAfterAppends(exts, next, ds[1..], c);
      var after := LastOf(exts, Appended(cs, ds), c);
      if after.Some? && JoinedBy(ds[1..], after.value) {
        var i :| 0 <= i < |ds[1..]| && after.value in PostExts(Joins(ds[1..][i]));
        assert ds[i + 1] == ds[1..][i];
      }
    }
  }

  lemma {:induction false} LastOfPrefix(exts: map<nat, nat>, cs: seq<Collection>, more: seq<Collection>, c: nat)
    requires c in CollectionIds(cs)
    ensures LastOf(exts, cs + more, c) == LastOf(exts, cs, c)
    decreases |cs|
  {
    assert (cs + more)[0] == cs[0] && (cs + more)[1..] == cs[1..] + more;
    if cs[0].id != c {
      var d :| d in cs && d.id == c;
      assert d in cs[1..];
      LastOfPrefix(exts, cs[1..], more, c);
    }
  }

  // The last member of an old collection is what it was, or a post some decision moved.
  lemma LastAfterApplied(exts: map<nat, nat>, a: Archive, ds: seq<Decision>, c: nat)
    requires AllListed(exts, ds) && c in CollectionIds(a.cs)
    ensures var after := LastOf(exts, Applied(a, ds).cs, c);
            after == LastOf(exts, a.cs, c) || (after.Some? && JoinedBy(ds, after.value))
  {
    CreatedExtends(a, ds);
    var created := Created(a, ds).cs;
    assert created == a.cs + created[|a.cs|..];
    LastOfPrefix(exts, a.cs, created[|a.cs|..], c);
    LastAfterAppends(exts, created, ds, c);
  }

  // ---------------------------------------------------------------- titles

  lemma {:induction false} TitlesCreated(a: Archive, ds: seq<Decision>)
    ensures Titles(a.cs) <= Titles(Created(a, ds).cs)
    ensures forall i | 0 <= i < |ds| && ds[i].Create? :: ds[i].title in Titles(Created(a, ds).cs)
    decreases |ds|
  {
    if ds != [] {
      if ds[0].Create? {
        var c := Collection(a.nextId, ds[0].title, NewEntries(ds[0].posts, 0));
        assert c in a.cs + [c] && forall d | d in a.cs :: d in a.cs + [c];
        TitlesCreated(Archive(a.cs + [c], a.nextId + 1), ds[1..]);
      } else {
        TitlesCreated(a, ds[1..]);
      }
      forall i | 0 <= i < |ds| && ds[i].Create? ensures ds[i].title in Titles(Created(a, ds).cs) {
        if i > 0 {
          assert ds[1..][i - 1] == ds[i];
        }
      }
    }
  }

  lemma TitlesAfter(a: Archive, ds: seq<Decision>, t: string)
    requires t in Titles(a.cs) || exists i :: 0 <= i < |ds| && ds[i].Create? && ds[i].title == t
    ensures t in Titles(Applied(a, ds).cs)
  {
    TitlesCreated(a, ds);
    var created := Created(a, ds).cs;
    AppendedContinues(created, created, ds);
    var c :| c in created && c.title == t;
    var k :| 0 <= k < |created| && created[k] == c;
    assert Continues(created[k], Appended(created, ds)[k]);
    assert Appended(created, ds)[k] in Appended(created, ds);
  }

  // ---------------------------------------------------------------- memberships of a group afterwards

  lemma UntouchedMembers(exts: map<nat, nat>, a: Archive, ds: seq<Decision>, x: nat)
    requires AllListed(exts, ds) && Nowhere(ds, x)
    ensures Members(exts, Applied(a, ds).cs, x) == Members(exts, a.cs, x)
  {
    AppliedMembers(exts, a, ds, x);
    NotJoined(a.nextId, CollectionIds(Created(a, ds).cs), ds, x);
  }

  lemma MembersOnlyGrow(exts: map<nat, nat>, a: Archive, ds: seq<Decision>, x: nat)
    requires AllListed(exts, ds)
    ensures Members(exts, a.cs, x) <= Members(exts, Applied(a, ds).cs, x)
  {
    AppliedMembers(exts, a, ds, x);
  }

  lemma JoinedMembers(exts: map<nat, nat>, a: Archive, ds: seq<Decision>, i: nat, p: Post)
    requires AllListed(exts, ds) && i < |ds| && p in Joins(ds[i])
    ensures ds[i].Create? ==> Members(exts, Applied(a, ds).cs, p.ext) != {}
    ensures ds[i].Append? && ds[i].id in CollectionIds(a.cs) ==> ds[i].id in Members(exts, Applied(a, ds).cs, p.ext)
  {
    var ids := CollectionIds(Created(a, ds).cs);
    AppliedMembers(exts, a, ds, p.ext);
    JoinsItsOwn(a.nextId, ids, ds, i, p.ext);
    CreatedExtends(a, ds);
    assert forall c | c in a.cs :: c in Created(a, ds).cs;
  }

  lemma {:induction false} SameAnchored(exts: map<nat, nat>, a: seq<Collection>, b: seq<Collection>, g: seq<Post>,
                                        c: nat)
    requires forall p | p in g :: Members(exts, a, p.ext) == Members(exts, b, p.ext)
    ensures Anchored(exts, a, g, c) == Anchored(exts, b, g, c) && Anchors(exts, a, g) == Anchors(exts, b, g)
    decreases |g|
  {
    if g != [] {
      assert g[0] in g && forall p | p in g[1..] :: p in g;
      SameAnchored(exts, a, b, g[1..], c);
    }
  }

  // ---------------------------------------------------------------- a second decision is quiet

  // A group whose posts moved to a new collection has no free post left.
  lemma QuietAfterCreate(text: Text, exts: map<nat, nat>, a: Archive, ds: seq<Decision>, i: nat, g: seq<Post>,
                         now: set<string>)
    requires AllListed(exts, ds) && i < |ds| && ds[i].Create? && ds[i].posts == g && |g| >= 2
    ensures Quiet(Decide(text, exts, Applied(a, ds).cs, now, g))
  {
    var after := Applied(a, ds).cs;
    forall p | p in g ensures Members(exts, after, p.ext) != {} {
      JoinedMembers(exts, a, ds, i, p);
    }
    var c :| c in Members(exts, after, g[0].ext);
    assert g[0] in g && c in Anchors(exts, after, g);
    AllTaken(text, exts, after, now, g);
  }

  lemma AllTaken(text: Text, exts: map<nat, nat>, cs: seq<Collection>, now: set<string>, g: seq<Post>)
    requires Anchors(exts, cs, g) != {} && forall p | p in g :: Members(exts, cs, p.ext) != {}
    ensures Quiet(Decide(text, exts, cs, now, g))
  {
    forall last: Post ensures Newcomers(text, exts, cs, g, last) == [] {
      EmptyIff(Newcomers(text, exts, cs, g, last));
    }
  }

  // A group that appended has no newcomer left behind its last member.
  lemma QuietAfterAppend(text: Text, exts: map<nat, nat>, a: Archive, ds: seq<Decision>, i: nat, g: seq<Post>, c: nat,
                         now: set<string>, after: seq<Collection>)
    requires AllListed(exts, ds) && i < |ds| && ds[i].Append? && ds[i].id == c && Increasing(text, g)
    requires after == Applied(a, ds).cs && Appends(text, exts, a.cs, g, c, ds[i].posts)
    ensures Quiet(Decide(text, exts, after, now, g))
  {
    AppendedLeavesNone(text, exts, a, ds, i, g, c);
    QuietWhenNoneLeft(text, exts, after, now, g, c);
  }

  lemma QuietWhenNoneLeft(text: Text, exts: map<nat, nat>, cs: seq<Collection>, now: set<string>, g: seq<Post>, c: nat)
    requires c in Anchors(exts, cs, g)
    requires var anchored := Anchored(exts, cs, g, c);
             anchored != [] && Newcomers(text, exts, cs, g, anchored[|anchored| - 1]) == []
    ensures Quiet(Decide(text, exts, cs, now, g))
  {
    var d, one := Decide(text, exts, cs, now, g), DecideFor(text, exts, cs, g, c);
    QuietFor(text, exts, cs, g, c, Anchored(exts, cs, g, c));
    DecideOne(text, exts, cs, now, g, c);
    assert d == Skip || d == one;
  }

  lemma QuietFor(text: Text, exts: map<nat, nat>, cs: seq<Collection>, g: seq<Post>, c: nat, anchored: seq<Post>)
    requires anchored == Anchored(exts, cs, g, c) && anchored != []
    requires Newcomers(text, exts, cs, g, anchored[|anchored| - 1]) == []
    ensures Quiet(DecideFor(text, exts, cs, g, c))
  {
  }

  lemma AppendedLeavesNone(text: Text, exts: map<nat, nat>, a: Archive, ds: seq<Decision>, i: nat, g: seq<Post>, c: nat)
    requires AllListed(exts, ds) && i < |ds| && ds[i].Append? && ds[i].id == c && Increasing(text, g)
    requires Appends(text, exts, a.cs, g, c, ds[i].posts)
    ensures var after, later := Applied(a, ds).cs, Anchored(exts, Applied(a, ds).cs, g, c);
            && c in Anchors(exts, after, g) && later != []
            && Newcomers(text, exts, after, g, later[|later| - 1]) == []
  {
    var last := LastAnchored(text, exts, a, ds, g, c, ds[i].posts);
    var later := Anchored(exts, Applied(a, ds).cs, g, c);
    NoNewcomerLeft(text, exts, a, ds, i, g, last, later[|later| - 1]);
  }

  // The last anchored post after appending is the one from before or comes behind it.
  lemma LastAnchored(text: Text, exts: map<nat, nat>, a: Archive, ds: seq<Decision>, g: seq<Post>, c: nat,
                     posts: seq<Post>) returns (last: Post)
    requires AllListed(exts, ds) && Increasing(text, g) && Appends(text, exts, a.cs, g, c, posts)
    ensures var after, later := Applied(a, ds).cs, Anchored(exts, Applied(a, ds).cs, g, c);
            && c in Anchors(exts, after, g) && later != []
            && (last == later[|later| - 1] || Before(text, last, later[|later| - 1]))
    ensures posts == Newcomers(text, exts, a.cs, g, last)
  {
    var after := Applied(a, ds).cs;
    var anchored, later := Anchored(exts, a.cs, g, c), Anchored(exts, after, g, c);
    last := anchored[|anchored| - 1];
    LastStillAnchored(exts, a, ds, g, c, last, anchored, after, later);
    AnchoredIncreases(text, exts, after, g, c);
    LastIsGreatest(text, later, last);
  }

  lemma LastStillAnchored(exts: map<nat, nat>, a: Archive, ds: seq<Decision>, g: seq<Post>, c: nat, last: Post,
                          anchored: seq<Post>, after: seq<Collection>, later: seq<Post>)
    requires AllListed(exts, ds) && anchored != [] && last == anchored[|anchored| - 1]
    requires anchored == Anchored(exts, a.cs, g, c) && after == Applied(a, ds).cs && later == Anchored(exts, after, g, c)
    ensures last in later && c in Anchors(exts, after, g)
  {
    assert last in anchored;
    MembersOnlyGrow(exts, a, ds, last.ext);
  }

  lemma AppendDecision(text: Text, exts: map<nat, nat>, cs: seq<Collection>, titles: set<string>, g: seq<Post>, c: nat)
    requires Decide(text, exts, cs, titles, g).Append? && Decide(text, exts, cs, titles, g).id == c
    ensures Appends(text, exts, cs, g, c, Decide(text, exts, cs, titles, g).posts)
  {
    var anchors := Anchors(exts, cs, g);
    var k :| k in anchors;
    DecideOne(text, exts, cs, titles, g, k);
    var anchored := Anchored(exts, cs, g, c);
    assert anchored[0] in anchored;
    assert c in Members(exts, cs, anchored[0].ext);
  }

  lemma NoNewcomerLeft(text: Text, exts: map<nat, nat>, a: Archive, ds: seq<Decision>, i: nat, g: seq<Post>, last: Post,
                       later: Post)
    requires AllListed(exts, ds) && i < |ds| && ds[i].Append? && ds[i].id in CollectionIds(a.cs)
    requires ds[i].posts == Newcomers(text, exts, a.cs, g, last)
    requires last == later || Before(text, last, later)
    ensures Newcomers(text, exts, Applied(a, ds).cs, g, later) == []
  {
    var after := Applied(a, ds).cs;
    forall p | p in g ensures !Newcomer(text, exts, after, later, p) {
      MembersOnlyGrow(exts, a, ds, p.ext);
      if Before(text, later, p) && last != later {
        BeforeChains(text, last, later, p);
      }
      if p in ds[i].posts {
        JoinedMembers(exts, a, ds, i, p);
      }
    }
    EmptyIff(Newcomers(text, exts, after, g, later));
  }

  // A group that was skipped is skipped again: its posts did not move, titles are only claimed, and
  // the last member of its collection did not become one of its own posts.
  lemma QuietAfterSkip(text: Text, exts: map<nat, nat>, a: Archive, ds: seq<Decision>, g: seq<Post>,
                       before: set<string>)
    requires AllListed(exts, ds) && Decide(text, exts, a.cs, before, g).Skip?
    requires forall p | p in g :: Nowhere(ds, p.ext)
    requires before <= Titles(Applied(a, ds).cs)
    ensures Decide(text, exts, Applied(a, ds).cs, Titles(Applied(a, ds).cs), g).Skip?
  {
    var after := Applied(a, ds).cs;
    forall p | p in g ensures Members(exts, after, p.ext) == Members(exts, a.cs, p.ext) {
      UntouchedMembers(exts, a, ds, p.ext);
    }
    forall c | c in Anchors(exts, a.cs, g) ensures LastStays(exts, a.cs, after, g, c) {
      LastAfterApplied(exts, a, ds, c);
      var last := LastOf(exts, after, c);
      if last != LastOf(exts, a.cs, c) {
        forall p | p in g ensures last != Some(p.ext) {
          assert Nowhere(ds, p.ext);
        }
      }
    }
    SkippedAgain(text, exts, a.cs, after, g, before, Titles(after));
  }

  // The last member of c is what it was, or none of these posts.
  ghost predicate LastStays(exts: map<nat, nat>, a: seq<Collection>, b: seq<Collection>, g: seq<Post>, c: nat) {
    LastOf(exts, b, c) == LastOf(exts, a, c) || forall p | p in g :: LastOf(exts, b, c) != Some(p.ext)
  }

  lemma SkippedAgain(text: Text, exts: map<nat, nat>, a: seq<Collection>, b: seq<Collection>, g: seq<Post>,
                     before: set<string>, now: set<string>)
    requires Decide(text, exts, a, before, g).Skip? && before <= now
    requires forall p | p in g :: Members(exts, b, p.ext) == Members(exts, a, p.ext)
    requires forall c | c in Anchors(exts, a, g) :: LastStays(exts, a, b, g, c)
    ensures Decide(text, exts, b, now, g).Skip?
  {
    SameAnchored(exts, a, b, g, 0);
    var anchors := Anchors(exts, a, g);
    if anchors != {} {
      var c :| c in anchors;
      SameAnchored(exts, a, b, g, c);
      DecideOne(text, exts, a, before, g, c);
      DecideOne(text, exts, b, now, g, c);
      SkippedForAgain(text, exts, a, b, g, c);
    }
  }

  lemma SkippedForAgain(text: Text, exts: map<nat, nat>, a: seq<Collection>, b: seq<Collection>, g: seq<Post>, c: nat)
    requires Anchored(exts, a, g, c) == Anchored(exts, b, g, c) && LastStays(exts, a, b, g, c)
    ensures DecideFor(text, exts, a, g, c).Skip? ==> DecideFor(text, exts, b, g, c).Skip?
  {
    var anchored := Anchored(exts, a, g, c);
    if |anchored| >= 2 {
      LastAnchoredStays(exts, a, b, g, c, anchored);
      SkipIff(text, exts, a, g, c, anchored);
      SkipIff(text, exts, b, g, c, anchored);
    }
  }

  lemma LastAnchoredStays(exts: map<nat, nat>, a: seq<Collection>, b: seq<Collection>, g: seq<Post>, c: nat,
                          anchored: seq<Post>)
    requires anchored != [] && (forall p | p in anchored :: p in g) && LastStays(exts, a, b, g, c)
    ensures LastOf(exts, b, c) == LastOf(exts, a, c) || LastOf(exts, b, c) != Some(anchored[|anchored| - 1].ext)
  {
    assert anchored[|anchored| - 1] in anchored;
  }

  lemma SkipIff(text: Text, exts: map<nat, nat>, cs: seq<Collection>, g: seq<Post>, c: nat, anchored: seq<Post>)
    requires anchored == Anchored(exts, cs, g, c) && |anchored| >= 2
    ensures DecideFor(text, exts, cs, g, c).Skip? <==> LastOf(exts, cs, c) != Some(anchored[|anchored| - 1].ext)
  {
  }

  lemma OthersDoNotMove(text: Text, exts: map<nat, nat>, cs: seq<Collection>, ds: seq<Decision>, posts: seq<Post>,
                        groups: seq<seq<Post>>, i: nat)
    requires Groups(text, posts, groups) && Listed(exts, posts) && Fit(exts, cs, ds, groups)
    requires i < |ds| && Joins(ds[i]) == []
    ensures forall p | p in groups[i] :: Nowhere(ds, p.ext)
  {
    forall p, j, q | p in groups[i] && 0 <= j < |ds| && q in Joins(ds[j]) ensures p.ext != q.ext {
      assert FitOne(exts, cs, ds[j], groups[j]);
      assert p in posts && q in groups[j] && q in posts && i != j;
      if i < j {
        assert p !in groups[j];
      } else {
        assert q !in groups[i];
      }
    }
  }

  // The second decision for every group is quiet.
  lemma EachIsQuiet(text: Text, exts: map<nat, nat>, a: Archive, posts: seq<Post>, groups: seq<seq<Post>>, i: nat)
    requires Groups(text, posts, groups) && Listed(exts, posts) && i < |groups|
    ensures var after := Applied(a, Decisions(text, exts, a.cs, Titles(a.cs), groups)).cs;
            Quiet(Decide(text, exts, after, Titles(after), groups[i]))
  {
    var ds := Decisions(text, exts, a.cs, Titles(a.cs), groups);
    DecisionsFit(text, exts, a.cs, Titles(a.cs), groups);
    FitApart(text, exts, a.cs, ds, posts, groups);
    var before := DecisionsAt(text, exts, a.cs, Titles(a.cs), groups, i);
    forall t | t in before ensures t in Titles(Applied(a, ds).cs) {
      TitlesAfter(a, ds, t);
    }
    QuietAgain(text, exts, a, ds, posts, groups, i, before);
  }

  lemma QuietAgain(text: Text, exts: map<nat, nat>, a: Archive, ds: seq<Decision>, posts: seq<Post>,
                   groups: seq<seq<Post>>,
                   i: nat, before: set<string>)
    requires Groups(text, posts, groups) && Listed(exts, posts) && AllListed(exts, ds) && Fit(exts, a.cs, ds, groups)
    requires i < |groups| && ds[i] == Decide(text, exts, a.cs, before, groups[i])
    requires before <= Titles(Applied(a, ds).cs)
    ensures var after := Applied(a, ds).cs; Quiet(Decide(text, exts, after, Titles(after), groups[i]))
  {
    var after := Applied(a, ds).cs;
    if ds[i].Skip? {
      OthersDoNotMove(text, exts, a.cs, ds, posts, groups, i);
      QuietAfterSkip(text, exts, a, ds, groups[i], before);
    } else {
      QuietAfterJoining(text, exts, a, ds, groups[i], i, before, after, Titles(after));
    }
  }

  lemma QuietAfterJoining(text: Text, exts: map<nat, nat>, a: Archive, ds: seq<Decision>, g: seq<Post>, i: nat,
                          before: set<string>, after: seq<Collection>, now: set<string>)
    requires AllListed(exts, ds) && i < |ds| && !ds[i].Skip? && |g| >= 2 && Increasing(text, g)
    requires ds[i] == Decide(text, exts, a.cs, before, g) && after == Applied(a, ds).cs
    ensures Quiet(Decide(text, exts, after, now, g))
  {
    if ds[i].Create? {
      CreateTakesAll(text, exts, a.cs, before, g);
      QuietAfterCreate(text, exts, a, ds, i, g, now);
    } else {
      AppendDecision(text, exts, a.cs, before, g, ds[i].id);
      QuietAfterAppend(text, exts, a, ds, i, g, ds[i].id, now, after);
    }
  }

  lemma CreateTakesAll(text: Text, exts: map<nat, nat>, cs: seq<Collection>, titles: set<string>, g: seq<Post>)
    requires Decide(text, exts, cs, titles, g).Create?
    ensures Decide(text, exts, cs, titles, g).posts == g
  {
    DecideJoins(text, exts, cs, titles, g);
  }

  // A group that appends: anchored in c, with these newcomers behind its last anchored post.
  ghost predicate Appends(text: Text, exts: map<nat, nat>, cs: seq<Collection>, g: seq<Post>, c: nat,
                          posts: seq<Post>) {
    var anchored := Anchored(exts, cs, g, c);
    c in CollectionIds(cs) && anchored != [] && posts == Newcomers(text, exts, cs, g, anchored[|anchored| - 1])
  }

  // ---------------------------------------------------------------- nothing is left to do

  lemma {:induction false} AllQuiet(text: Text, exts: map<nat, nat>, cs: seq<Collection>, titles: set<string>,
                                    groups: seq<seq<Post>>)
    requires forall i | 0 <= i < |groups| :: Quiet(Decide(text, exts, cs, titles, groups[i]))
    ensures forall i | 0 <= i < |groups| :: Quiet(Decisions(text, exts, cs, titles, groups)[i])
    decreases |groups|
  {
    if groups != [] {
      assert Quiet(Decide(text, exts, cs, titles, groups[0]));
      forall i | 0 <= i < |groups| - 1 ensures Quiet(Decide(text, exts, cs, titles, groups[1..][i])) {
        assert groups[1..][i] == groups[i + 1];
      }
      AllQuiet(text, exts, cs, titles, groups[1..]);
    }
  }

  lemma {:induction false} QuietChangesNothing(a: Archive, ds: seq<Decision>)
    requires forall i | 0 <= i < |ds| :: Quiet(ds[i])
    ensures Created(a, ds) == a && Appended(a.cs, ds) == a.cs
    decreases |ds|
  {
    if ds != [] {
      assert Quiet(ds[0]) && forall i | 0 <= i < |ds| - 1 :: ds[1..][i] == ds[i + 1];
      if ds[0].Append? {
        forall i | 0 <= i < |a.cs| ensures AppendTo(a.cs, ds[0].id, [])[i] == a.cs[i] {
          assert a.cs[i].entries + NewEntries([], Top(a.cs[i].entries)) == a.cs[i].entries;
        }
        assert AppendTo(a.cs, ds[0].id, []) == a.cs;
      }
      QuietChangesNothing(a, ds[1..]);
    }
  }

  // Reconciling twice: the second time proposes nothing and leaves the archive as it is.
  lemma SecondTimeIsQuiet(text: Text, exts: map<nat, nat>, a: Archive, posts: seq<Post>)
    requires Listed(exts, posts)
    ensures var once := Reconciled(text, exts, a, posts);
            && (forall i | 0 <= i < |Preview(text, posts)| ::
                  Quiet(Decisions(text, exts, once.cs, Titles(once.cs), Preview(text, posts))[i]))
            && Reconciled(text, exts, once, posts) == once
  {
    var groups := Preview(text, posts);
    var once := Reconciled(text, exts, a, posts);
    PreviewMakesGroups(text, posts);
    forall i | 0 <= i < |groups| ensures Quiet(Decide(text, exts, once.cs, Titles(once.cs), groups[i])) {
      EachIsQuiet(text, exts, a, posts, groups, i);
    }
    AllQuiet(text, exts, once.cs, Titles(once.cs), groups);
    QuietChangesNothing(once, Decisions(text, exts, once.cs, Titles(once.cs), groups));
  }
}
