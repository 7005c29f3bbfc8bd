// reconcile_board as it runs: read the memberships, decide group by group, then insert.
module ReconcileBoard {
  import opened Wrappers
  import opened Grouping
  import opened Reconcile
  import opened ReconcileSafety
  import opened ReconcileTwice

  function Lookup(m: map<nat, set<nat>>, x: nat): set<nat> {
    if x in m then m[x] else {}
  }

  function ProposedCount(ds: seq<Decision>): nat {
    if ds == [] then 0 else (if ds[0].Append? then |ds[0].posts| else 0) + ProposedCount(ds[1..])
  }

  function CreatedCount(ds: seq<Decision>): nat {
    if ds == [] then 0 else (if ds[0].Create? then 1 else 0) + CreatedCount(ds[1..])
  }

  lemma {:induction false} QuietCounts(ds: seq<Decision>)
    requires forall i | 0 <= i < |ds| :: Quiet(ds[i])
    ensures ProposedCount(ds) == 0 && CreatedCount(ds) == 0
    decreases |ds|
  {
    if ds != [] {
      assert Quiet(ds[0]) && forall i | 0 <= i < |ds| - 1 :: ds[1..][i] == ds[i + 1];
      QuietCounts(ds[1..]);
    }
  }

  class BoardCollections {
    var cs: seq<Collection>
    var nextId: nat

    constructor (cs: seq<Collection>, nextId: nat)
      ensures this.cs == cs && this.nextId == nextId
    {
      this.cs, this.nextId := cs, nextId;
    }

    // One collection's rows: its id is added under the number of each entry.
    method AddMembers(exts: map<nat, nat>, before: map<nat, set<nat>>, c: Collection) returns (m: map<nat, set<nat>>)
      ensures forall x :: Lookup(m, x) == Lookup(before, x) + (if x in Exts(exts, c.entries) then {c.id} else {})
    {
      m := before;
      for j := 0 to |c.entries|
        invariant forall x :: Lookup(m, x) == Lookup(before, x) + (if x in Exts(exts, c.entries[..j]) then {c.id} else {})
      {
        var number := ExtOf(exts, c.entries[j]);
        assert c.entries[..j + 1] == c.entries[..j] + [c.entries[j]];
        ExtsJoin(exts, c.entries[..j], [c.entries[j]]);
        assert Exts(exts, [c.entries[j]]) == if number.Some? then {number.value} else {} by {
          assert c.entries[j] in [c.entries[j]];
        }
        if number.Some? {
          m := m[number.value := Lookup(m, number.value) + {c.id}];
        }
      }
      assert c.entries[..|c.entries|] == c.entries;
    }

    method ReadMemberships(exts: map<nat, nat>) returns (m: map<nat, set<nat>>)
      ensures forall x :: Lookup(m, x) == Members(exts, cs, x)
    {
      m := map[];
      for i := 0 to |cs|
        invariant forall x :: Lookup(m, x) == Members(exts, cs[..i], x)
      {
        assert cs[..i + 1] == cs[..i] + [cs[i]];
        forall x ensures Members(exts, cs[..i + 1], x)
                         == Members(exts, cs[..i], x) + (if x in Exts(exts, cs[i].entries) then {cs[i].id} else {})
        {
          OneMoreMember(exts, cs[..i], cs[i], x);
        }
        m := AddMembers(exts, m, cs[i]);
      }
      assert cs[..|cs|] == cs;
    }

    // One group against the memberships read at the start.
    method DecideGroup(text: Text, exts: map<nat, nat>, m: map<nat, set<nat>>, titles: set<string>, g: seq<Post>)
      returns (d: Decision)
      requires forall x :: Lookup(m, x) == Members(exts, cs, x)
      ensures d == Decide(text, exts, cs, titles, g)
    {
      if !AuthorsKnown(text, g) {
        return Skip;
      }
      var anchors: set<nat> := {};
      for n := 0 to |g|
        invariant anchors == Anchors(exts, cs, g[..n])
      {
        assert g[..n + 1] == g[..n] + [g[n]];
        OneMoreAnchor(exts, cs, g[..n], g[n]);
        anchors := anchors + Lookup(m, g[n].ext);
      }
      assert g[..|g|] == g;
      if anchors == {} {
        return DecideNew(text, titles, g);
      }
      var c :| c in anchors;
      DecideOne(text, exts, cs, titles, g, c);
      if |anchors| != 1 {
        return Skip;
      }
      return DecideFor(text, exts, cs, g, c);
    }

    method DecideAll(text: Text, exts: map<nat, nat>, groups: seq<seq<Post>>) returns (ds: seq<Decision>)
      ensures ds == Decisions(text, exts, cs, Titles(cs), groups)
    {
      var m := ReadMemberships(exts);
      var titles := Titles(cs);
      ds := [];
      assert groups[0..] == groups;
      for n := 0 to |groups|
        invariant Decisions(text, exts, cs, Titles(cs), groups) == ds + Decisions(text, exts, cs, titles, groups[n..])
      {
        var d := DecideGroup(text, exts, m, titles, groups[n]);
        assert groups[n..][0] == groups[n] && groups[n..][1..] == groups[n + 1..];
        ds := ds + [d];
        if d.Create? {
          titles := titles + {d.title};
        }
      }
      assert groups[|groups|..] == [];
    }

    method InsertCollections(ds: seq<Decision>)
      modifies this
      ensures Archive(cs, nextId) == Created(Archive(old(cs), old(nextId)), ds)
    {
      assert ds[0..] == ds;
      for n := 0 to |ds|
        invariant Created(Archive(old(cs), old(nextId)), ds) == Created(Archive(cs, nextId), ds[n..])
      {
        assert ds[n..][0] == ds[n] && ds[n..][1..] == ds[n + 1..];
        if ds[n].Create? {
          cs := cs + [Collection(nextId, ds[n].title, NewEntries(ds[n].posts, 0))];
          nextId := nextId + 1;
        }
      }
    }

    method InsertEntries(ds: seq<Decision>)
      modifies this
      ensures cs == Appended(old(cs), ds) && nextId == old(nextId)
    {
      assert ds[0..] == ds;
      for n := 0 to |ds|
        invariant nextId == old(nextId)
        invariant Appended(old(cs), ds) == Appended(cs, ds[n..])
      {
        assert ds[n..][0] == ds[n] && ds[n..][1..] == ds[n + 1..];
        if ds[n].Append? {
          cs := AppendTo(cs, ds[n].id, ds[n].posts);
        }
      }
    }

    // reconcile_board; only with `apply` does anything change.
    method Run(text: Text, exts: map<nat, nat>, posts: seq<Post>, apply: bool)
      returns (proposed: nat, created: nat)
      modifies this
      ensures Archive(cs, nextId) == if apply then Reconciled(text, exts, Archive(old(cs), old(nextId)), posts)
                                     else Archive(old(cs), old(nextId))
      ensures var ds := Decisions(text, exts, old(cs), Titles(old(cs)), Preview(text, posts));
              proposed == ProposedCount(ds) && created == CreatedCount(ds)
    {
      var groups, _, _ := PreviewCollections(text, posts);
      var ds := DecideAll(text, exts, groups);
      proposed, created := ProposedCount(ds), CreatedCount(ds);
      if apply {
        InsertCollections(ds);
        InsertEntries(ds);
      }
    }
  }

  // Applied twice through the same posts, the second run proposes nothing.
  method RunTwice(board: BoardCollections, text: Text, exts: map<nat, nat>, posts: seq<Post>)
    returns (proposed: nat, created: nat)
    requires Listed(exts, posts)
    modifies board
    ensures proposed == 0 && created == 0
    ensures Archive(board.cs, board.nextId)
            == Reconciled(text, exts, Archive(old(board.cs), old(board.nextId)), posts)
  {
    ghost var a := Archive(board.cs, board.nextId);
    var _, _ := board.Run(text, exts, posts, true);
    SecondTimeIsQuiet(text, exts, a, posts);
    QuietCounts(Decisions(text, exts, board.cs, Titles(board.cs), Preview(text, posts)));
    proposed, created := board.Run(text, exts, posts, true);
  }

  lemma OneMoreMember(exts: map<nat, nat>, cs: seq<Collection>, c: Collection, x: nat)
    ensures Members(exts, cs + [c], x) == Members(exts, cs, x) + (if x in Exts(exts, c.entries) then {c.id} else {})
  {
    assert forall d :: d in cs + [c] <==> d in cs || d == c;
  }

  lemma OneMoreAnchor(exts: map<nat, nat>, cs: seq<Collection>, g: seq<Post>, p: Post)
    ensures Anchors(exts, cs, g + [p]) == Anchors(exts, cs, g) + Members(exts, cs, p.ext)
  {
    assert forall q :: q in g + [p] <==> q in g || q == p;
  }
}
