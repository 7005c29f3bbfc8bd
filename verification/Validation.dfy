// validate_release of scripts/export_static.py: what it checks of a release. Objects are read back as
// they were written, so hash and size checks are not repeated here.
module Validation {
  import opened Wrappers
  import opened StaticRelease

  ghost predicate Distinct<T(!new)>(s: seq<T>) {
    forall i, j | 0 <= i < j < |s| :: s[i] != s[j]
  }

  function Elements<T>(s: seq<T>): set<T> {
    set x | x in s
  }

  // ---------------------------------------------------------------- boards and search

  type PostId = (string, nat, Payload)

  function IdOf(s: Summary): PostId {
    (s.board, s.ext, s.payload)
  }

  function AllRefs(pages: seq<Page>): seq<Ref> {
    if pages == [] then [] else pages[0].posts + AllRefs(pages[1..])
  }

  function Ids(summaries: seq<Summary>): seq<PostId> {
    seq(|summaries|, i requires 0 <= i < |summaries| => IdOf(summaries[i]))
  }

  function PageIds(pages: seq<Page>): seq<PostId> {
    Ids(SummariesOf(AllRefs(pages)))
  }

  function PageBoards(pages: seq<Page>): seq<string> {
    seq(|pages|, i requires 0 <= i < |pages| => pages[i].board.id)
  }

  predicate RefFits(board: string, ref: Ref) {
    var s := ref.summary;
    s.board == board && s.payload.fields.board == board && s.payload.fields.ext == s.ext
    && s.payload.fields.comments == s.comments
  }

  predicate PageFits(page: Page) {
    forall j | 0 <= j < |page.posts| :: RefFits(page.board.id, page.posts[j])
  }

  ghost predicate BoardsFit(pages: seq<Page>) {
    && Distinct(PageBoards(pages))
    && (forall i | 0 <= i < |pages| :: PageFits(pages[i]))
    && Distinct(PageIds(pages))
  }

  ghost predicate SearchFits(r: Release) {
    Distinct(Ids(r.search)) && Elements(Ids(r.search)) == Elements(PageIds(r.boards))
  }

  // ---------------------------------------------------------------- collections

  // Where a membership row, or an entry, puts a post.
  datatype Placement = Placement(board: string, ext: nat, collection: nat, position: nat)

  function KeyOfPlacement(p: Placement): (string, nat) {
    (p.board, p.ext)
  }

  function Keys(ps: seq<Placement>): seq<(string, nat)> {
    seq(|ps|, i requires 0 <= i < |ps| => KeyOfPlacement(ps[i]))
  }

  function Rows(shards: seq<Shard>): seq<CollectionOut> {
    if shards == [] then [] else shards[0].collections + Rows(shards[1..])
  }

  function EntryPlacements(c: CollectionOut): seq<Placement> {
    seq(|c.entries|, i requires 0 <= i < |c.entries| =>
      Placement(c.entries[i].board, c.entries[i].ext, c.id, c.entries[i].position))
  }

  // expected_memberships
  function Expected(rows: seq<CollectionOut>): seq<Placement> {
    if rows == [] then [] else EntryPlacements(rows[0]) + Expected(rows[1..])
  }

  function MemberPlacements(m: Membership): seq<Placement> {
    seq(|m.members|, i requires 0 <= i < |m.members| =>
      Placement(m.board, m.members[i].ext, m.members[i].collection, m.members[i].position))
  }

  // membership_rows
  function Declared(ms: seq<Membership>): seq<Placement> {
    if ms == [] then [] else MemberPlacements(ms[0]) + Declared(ms[1..])
  }

  function SummaryIds(summaries: seq<CollectionSummary>): seq<nat> {
    seq(|summaries|, i requires 0 <= i < |summaries| => summaries[i].id)
  }

  function RowIds(rows: seq<CollectionOut>): seq<nat> {
    seq(|rows|, i requires 0 <= i < |rows| => rows[i].id)
  }

  function ShardNumbers(shards: seq<Shard>): seq<nat> {
    seq(|shards|, i requires 0 <= i < |shards| => shards[i].shard)
  }

  function MembershipBoards(ms: seq<Membership>): seq<string> {
    seq(|ms|, i requires 0 <= i < |ms| => ms[i].board)
  }

  predicate SummaryFits(s: CollectionSummary, c: CollectionOut) {
    s.board == c.board && s.kind == c.kind && s.title == c.title && s.entryCount == |c.entries|
    && s.unavailable == |Unavailable(c.entries)|
  }

  predicate CollectionFits(c: CollectionOut, objects: set<Payload>) {
    forall i | 0 <= i < |c.entries| ::
      c.entries[i].position == i + 1 && (c.entries[i].objectKey.Some? ==> c.entries[i].objectKey.value in objects)
  }

  // expected_unavailable for one board
  function UnavailableOn(rows: seq<CollectionOut>, board: string): set<nat> {
    set c, i | c in rows && 0 <= i < |c.entries| && c.entries[i].board == board && c.entries[i].objectKey.None?
      :: c.entries[i].ext
  }

  ghost predicate MembershipFits(m: Membership, rows: seq<CollectionOut>) {
    && (forall i | 0 <= i < |m.members| ::
          m.members[i].ext > 0 && m.members[i].collection > 0 && m.members[i].position > 0)
    && Distinct(m.unavailable)
    && (forall x | x in m.unavailable :: x > 0 && exists i :: 0 <= i < |m.members| && m.members[i].ext == x)
    && Elements(m.unavailable) == UnavailableOn(rows, m.board)
  }

  ghost predicate SummariesFit(summaries: seq<CollectionSummary>, rows: seq<CollectionOut>) {
    && Distinct(SummaryIds(summaries))
    && (forall i | 0 <= i < |summaries| :: summaries[i].unavailable <= summaries[i].entryCount)
    && (forall i, c | 0 <= i < |summaries| && c in rows && c.id == summaries[i].id :: SummaryFits(summaries[i], c))
    && |rows| == |summaries| && Elements(RowIds(rows)) == Elements(SummaryIds(summaries))
  }

  ghost predicate IndexFits(index: Index, objects: set<Payload>) {
    var rows := Rows(index.shards);
    && SummariesFit(index.summaries, rows)
    && Distinct(ShardNumbers(index.shards))
    && Distinct(MembershipBoards(index.memberships))
    && (forall c | c in rows :: CollectionFits(c, objects))
    && Distinct(Keys(Expected(rows)))
    && Distinct(Keys(Declared(index.memberships)))
    && Elements(Declared(index.memberships)) == Elements(Expected(rows))
    && (forall m | m in index.memberships :: MembershipFits(m, rows))
  }

  function CommentSum(refs: seq<Ref>): nat {
    if refs == [] then 0 else refs[0].summary.payload.fields.comments + CommentSum(refs[1..])
  }

  function Objects(pages: seq<Page>): set<Payload> {
    set r | r in AllRefs(pages) :: r.summary.payload
  }

  predicate CountsFit(r: Release) {
    var rows := Rows(r.collections.shards);
    && r.counts.posts == |AllRefs(r.boards)| && r.counts.posts == |r.search|
    && r.counts.comments == CommentSum(AllRefs(r.boards))
    && r.counts.boards == |r.boards|
    && r.counts.collections == |rows|
    && r.counts.entries == EntryTotal(rows)
  }

  // validate_release accepts
  ghost predicate Accepted(r: Release) {
    BoardsFit(r.boards) && SearchFits(r) && IndexFits(r.collections, Objects(r.boards)) && CountsFit(r)
  }

  // ---------------------------------------------------------------- sequences without repeats

  lemma DistinctJoin<T(!new)>(a: seq<T>, b: seq<T>)
    ensures Distinct(a + b) <==> Distinct(a) && Distinct(b) && forall x | x in a :: x !in b
  {
    var s := a + b;
    if Distinct(s) {
      forall i, j | 0 <= i < j < |a| ensures a[i] != a[j] {
        assert s[i] != s[j];
      }
      forall i, j | 0 <= i < j < |b| ensures b[i] != b[j] {
        assert s[|a| + i] != s[|a| + j];
      }
      forall x | x in a ensures x !in b {
        var i :| 0 <= i < |a| && a[i] == x;
        forall j | 0 <= j < |b| ensures b[j] != x {
          assert s[i] != s[|a| + j];
        }
      }
    }
    if Distinct(a) && Distinct(b) && forall x | x in a :: x !in b {
      forall i, j | 0 <= i < j < |s| ensures s[i] != s[j] {
        if i < |a| {
          assert a[i] in a;
        }
      }
    }
  }

  lemma {:induction false} DistinctIff<T(!new)>(s: seq<T>)
    ensures Distinct(s) <==> |Elements(s)| == |s|
    ensures |Elements(s)| <= |s|
    decreases |s|
  {
    if s != [] {
      var front, last := s[..|s| - 1], s[|s| - 1];
      DistinctIff(front);
      assert s == front + [last];
      DistinctJoin(front, [last]);
      assert Elements(s) == Elements(front) + {last};
      assert last in Elements(front) <==> last in front;
    }
  }

  // Two sequences with the same length and elements: one repeats exactly when the other does.
  lemma DistinctSame<T(!new)>(a: seq<T>, b: seq<T>)
    requires |a| == |b| && Elements(a) == Elements(b)
    ensures Distinct(a) <==> Distinct(b)
  {
    DistinctIff(a);
    DistinctIff(b);
  }
}
