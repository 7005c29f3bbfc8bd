// reconcile_board of scripts/reconcile_works.py: what a board's groups of posts add to its
// collections. Existing entries never change, no post joins a second collection, and applying twice
// adds nothing the second time.
module Reconcile {
  import opened Wrappers
  import opened Grouping

  datatype Entry = Entry(position: nat, post: Option<nat>, source: Option<nat>)

  // The collections of one board in id order, their entries in position order.
  datatype Collection = Collection(id: nat, title: string, entries: seq<Entry>)

  datatype Archive = Archive(cs: seq<Collection>, nextId: nat)

  // COALESCE(p.external_post_id, ce.source_external_post_id); exts is the posts table, id to number.
  function ExtOf(exts: map<nat, nat>, e: Entry): Option<nat> {
    if e.post.Some? && e.post.value in exts then Some(exts[e.post.value]) else e.source
  }

  function Exts(exts: map<nat, nat>, entries: seq<Entry>): set<nat> {
    set e | e in entries && ExtOf(exts, e).Some? :: ExtOf(exts, e).value
  }

  // memberships[x]
  function Members(exts: map<nat, nat>, cs: seq<Collection>, x: nat): set<nat> {
    set c | c in cs && x in Exts(exts, c.entries) :: c.id
  }

  function Titles(cs: seq<Collection>): set<string> {
    set c | c in cs :: c.title
  }

  function CollectionIds(cs: seq<Collection>): set<nat> {
    set c | c in cs :: c.id
  }

  // positions[c]
  function Top(entries: seq<Entry>): (top: nat)
    ensures forall e | e in entries :: e.position <= top
  {
    if entries == [] then 0
    else
      var rest := Top(entries[..|entries| - 1]);
      var last := entries[|entries| - 1];
      assert forall e | e in entries :: e in entries[..|entries| - 1] || e == last by {
        assert entries == entries[..|entries| - 1] + [last];
      }
      if last.position > rest then last.position else rest
  }

  // last_members[c]
  function LastOf(exts: map<nat, nat>, cs: seq<Collection>, id: nat): Option<nat> {
    if cs == [] then None
    else if cs[0].id == id then
      if cs[0].entries == [] then None else ExtOf(exts, cs[0].entries[|cs[0].entries| - 1])
    else LastOf(exts, cs[1..], id)
  }

  // ---------------------------------------------------------------- one group's decision

  datatype Decision = Skip | Create(title: string, posts: seq<Post>) | Append(id: nat, posts: seq<Post>)

  function Joins(d: Decision): seq<Post> {
    match d
    case Skip => []
    case Create(_, posts) => posts
    case Append(_, posts) => posts
  }

  function Anchors(exts: map<nat, nat>, cs: seq<Collection>, g: seq<Post>): set<nat> {
    set p, c | p in g && c in Members(exts, cs, p.ext) :: c
  }

  function Anchored(exts: map<nat, nat>, cs: seq<Collection>, g: seq<Post>, c: nat): (r: seq<Post>)
    ensures forall p :: p in r <==> p in g && c in Members(exts, cs, p.ext)
  {
    if g == [] then []
    else if c in Members(exts, cs, g[0].ext) then [g[0]] + Anchored(exts, cs, g[1..], c)
    else Anchored(exts, cs, g[1..], c)
  }

  predicate Newcomer(text: Text, exts: map<nat, nat>, cs: seq<Collection>, last: Post, p: Post) {
    p.available && Members(exts, cs, p.ext) == {} && Before(text, last, p)
  }

  function Newcomers(text: Text, exts: map<nat, nat>, cs: seq<Collection>, g: seq<Post>, last: Post): (r: seq<Post>)
    ensures forall p :: p in r <==> p in g && Newcomer(text, exts, cs, last, p)
  {
    if g == [] then []
    else if Newcomer(text, exts, cs, last, g[0]) then [g[0]] + Newcomers(text, exts, cs, g[1..], last)
    else Newcomers(text, exts, cs, g[1..], last)
  }

  predicate AuthorsKnown(text: Text, g: seq<Post>) {
    forall p | p in g :: p.author.Some? && p.author.value != "" && !text.blank(p.author.value)
  }

  predicate AllAvailable(g: seq<Post>) {
    forall p | p in g :: p.available
  }

  // The entries for the one collection the group is anchored in.
  function DecideFor(text: Text, exts: map<nat, nat>, cs: seq<Collection>, g: seq<Post>, c: nat): Decision {
    var anchored := Anchored(exts, cs, g, c);
    if |anchored| < 2 || LastOf(exts, cs, c) != Some(anchored[|anchored| - 1].ext) then Skip
    else Append(c, Newcomers(text, exts, cs, g, anchored[|anchored| - 1]))
  }

  // A group anchored nowhere becomes a collection, if its title is free and its posts are there.
  function DecideNew(text: Text, titles: set<string>, g: seq<Post>): Decision {
    if text.shown(g) in titles || !AllAvailable(g) then Skip else Create(text.shown(g), g)
  }

  ghost function Decide(text: Text, exts: map<nat, nat>, cs: seq<Collection>, titles: set<string>,
                        g: seq<Post>): Decision {
    var anchors := Anchors(exts, cs, g);
    if !AuthorsKnown(text, g) then Skip
    else if anchors == {} then DecideNew(text, titles, g)
    else if |anchors| != 1 then Skip
    else
      var c :| c in anchors;
      DecideFor(text, exts, cs, g, c)
  }

  lemma DecideOne(text: Text, exts: map<nat, nat>, cs: seq<Collection>, titles: set<string>, g: seq<Post>, c: nat)
    requires c in Anchors(exts, cs, g)
    ensures Decide(text, exts, cs, titles, g)
            == if !AuthorsKnown(text, g) || |Anchors(exts, cs, g)| != 1 then Skip else DecideFor(text, exts, cs, g, c)
  {
    var anchors := Anchors(exts, cs, g);
    if |anchors| == 1 {
      OnlyOne(anchors, c);
    }
  }

  lemma OnlyOne(s: set<nat>, c: nat)
    requires |s| == 1 && c in s
    ensures s == {c}
  {
    assert |s - {c}| == 0;
  }

  function Claimed(titles: set<string>, d: Decision): set<string> {
    if d.Create? then titles + {d.title} else titles
  }

  // The decisions for the groups in order; only the titles move on between them.
  ghost function Decisions(text: Text, exts: map<nat, nat>, cs: seq<Collection>, titles: set<string>,
                           groups: seq<seq<Post>>): (ds: seq<Decision>)
    ensures |ds| == |groups|
    decreases |groups|
  {
    if groups == [] then []
    else
      var d := Decide(text, exts, cs, titles, groups[0]);
      [d] + Decisions(text, exts, cs, Claimed(titles, d), groups[1..])
  }

  // ---------------------------------------------------------------- applying

  function NewEntries(posts: seq<Post>, at: nat): (r: seq<Entry>)
    ensures |r| == |posts|
  {
    seq(|posts|, i requires 0 <= i < |posts| => Entry(at + 1 + i, Some(posts[i].id), Some(posts[i].ext)))
  }

  function Created(a: Archive, ds: seq<Decision>): Archive
    decreases |ds|
  {
    if ds == [] then a
    else if ds[0].Create? then
      Created(Archive(a.cs + [Collection(a.nextId, ds[0].title, NewEntries(ds[0].posts, 0))], a.nextId + 1), ds[1..])
    else Created(a, ds[1..])
  }

  function Grown(c: Collection, id: nat, posts: seq<Post>): Collection {
    if c.id == id then c.(entries := c.entries + NewEntries(posts, Top(c.entries))) else c
  }

  function AppendTo(cs: seq<Collection>, id: nat, posts: seq<Post>): (r: seq<Collection>)
    ensures |r| == |cs| && forall i | 0 <= i < |cs| :: r[i] == Grown(cs[i], id, posts)
  {
    seq(|cs|, i requires 0 <= i < |cs| => Grown(cs[i], id, posts))
  }

  function Appended(cs: seq<Collection>, ds: seq<Decision>): (r: seq<Collection>)
    ensures |r| == |cs|
    decreases |ds|
  {
    if ds == [] then cs
    else if ds[0].Append? then Appended(AppendTo(cs, ds[0].id, ds[0].posts), ds[1..])
    else Appended(cs, ds[1..])
  }

  function Applied(a: Archive, ds: seq<Decision>): Archive {
    var created := Created(a, ds);
    Archive(Appended(created.cs, ds), created.nextId)
  }

  ghost function Reconciled(text: Text, exts: map<nat, nat>, a: Archive, posts: seq<Post>): Archive {
    Applied(a, Decisions(text, exts, a.cs, Titles(a.cs), Preview(text, posts)))
  }

  // ---------------------------------------------------------------- append only

  // `after` is `before` with entries added behind, numbered on from the highest position.
  predicate Continues(before: Collection, after: Collection) {
    && after.id == before.id && after.title == before.title && before.entries <= after.entries
    && forall k | |before.entries| <= k < |after.entries| ::
         after.entries[k].position == Top(before.entries) + 1 + (k - |before.entries|)
  }

  predicate ContinuesAll(before: seq<Collection>, after: seq<Collection>) {
    |before| <= |after| && forall i | 0 <= i < |before| :: Continues(before[i], after[i])
  }

  lemma {:induction false} TopOfNew(entries: seq<Entry>, posts: seq<Post>, n: nat)
    requires n <= |posts|
    ensures Top(entries + NewEntries(posts, Top(entries))[..n]) == Top(entries) + n
    decreases n
  {
    var added := NewEntries(posts, Top(entries));
    if n == 0 {
      assert entries + added[..0] == entries;
    } else {
      TopOfNew(entries, posts, n - 1);
      OneNewEntry(entries, added, n);
      TopOneMore(entries + added[..n - 1], added[n - 1]);
    }
  }

  lemma OneNewEntry(entries: seq<Entry>, added: seq<Entry>, n: nat)
    requires 0 < n <= |added|
    ensures entries + added[..n] == entries + added[..n - 1] + [added[n - 1]]
  {
  }

  lemma TopOneMore(entries: seq<Entry>, e: Entry)
    ensures Top(entries + [e]) == if e.position > Top(entries) then e.position else Top(entries)
  {
    assert (entries + [e])[..|entries|] == entries && (entries + [e])[|entries|] == e;
  }

  lemma GrownContinues(before: Collection, mid: Collection, id: nat, posts: seq<Post>)
    requires Continues(before, mid) && Top(mid.entries) == Top(before.entries) + (|mid.entries| - |before.entries|)
    ensures Continues(before, Grown(mid, id, posts))
    ensures var after := Grown(mid, id, posts);
            Top(after.entries) == Top(before.entries) + (|after.entries| - |before.entries|)
  {
    if mid.id == id {
      TopOfNew(mid.entries, posts, |posts|);
      assert NewEntries(posts, Top(mid.entries))[..|posts|] == NewEntries(posts, Top(mid.entries));
    }
  }

  predicate CountsOn(before: Collection, after: Collection) {
    |before.entries| <= |after.entries|
    && Top(after.entries) == Top(before.entries) + (|after.entries| - |before.entries|)
  }

  lemma {:induction false} AppendedContinues(before: seq<Collection>, mid: seq<Collection>, ds: seq<Decision>)
    requires |before| == |mid| && forall i | 0 <= i < |mid| :: Continues(before[i], mid[i]) && CountsOn(before[i], mid[i])
    ensures ContinuesAll(before, Appended(mid, ds))
    decreases |ds|
  {
    if ds != [] {
      if ds[0].Append? {
        var next := AppendTo(mid, ds[0].id, ds[0].posts);
        forall i | 0 <= i < |mid| ensures Continues(before[i], next[i]) && CountsOn(before[i], next[i]) {
          GrownContinues(before[i], mid[i], ds[0].id, ds[0].posts);
        }
        AppendedContinues(before, next, ds[1..]);
      } else {
        AppendedContinues(before, mid, ds[1..]);
      }
    }
  }

  lemma {:induction false} CreatedExtends(a: Archive, ds: seq<Decision>)
    ensures a.cs <= Created(a, ds).cs && a.nextId <= Created(a, ds).nextId
    decreases |ds|
  {
    if ds != [] {
      if ds[0].Create? {
        CreatedExtends(Archive(a.cs + [Collection(a.nextId, ds[0].title, NewEntries(ds[0].posts, 0))], a.nextId + 1), ds[1..]);
      } else {
        CreatedExtends(a, ds[1..]);
      }
    }
  }

  // Whatever was decided: existing collections keep their ids, titles and entries, and what is new in
  // them continues contiguously from their highest position.
  lemma ApplyingOnlyAppends(a: Archive, ds: seq<Decision>)
    ensures ContinuesAll(a.cs, Applied(a, ds).cs)
  {
    CreatedExtends(a, ds);
    var created := Created(a, ds).cs;
    AppendedContinues(created, created, ds);
    forall i | 0 <= i < |a.cs| ensures Continues(a.cs[i], Applied(a, ds).cs[i]) {
      assert Continues(created[i], Appended(created, ds)[i]) && created[i] == a.cs[i];
    }
  }
}
