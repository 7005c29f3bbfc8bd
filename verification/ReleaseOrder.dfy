// The order of what a release lists: board pages by post number, the search index by date, both newest
// first. Stated of whole builds, in terms of the texts and numbers of the posts themselves.
module ReleaseOrder {
  import opened Wrappers
  import opened StaticRelease
  import Ordering
  import I = Incremental

  // ---------------------------------------------------------------- comparing texts

  // Text order, character by character: `a` is longer or has the greater character where they part.
  predicate Above(a: string, b: string) {
    exists k :: 0 <= k < |a| && k <= |b| && a[..k] == b[..k] && (k == |b| || a[k] > b[k])
  }

  lemma {:induction false} LessIsAbove(a: string, b: string)
    ensures Ordering.Less(Codes(b), Codes(a)) <==> Above(a, b)
    decreases |a|
  {
    if a == [] {
    } else if b == [] {
      assert a[..0] == b[..0];
    } else {
      assert Codes(a)[1..] == Codes(a[1..]) && Codes(b)[1..] == Codes(b[1..]);
      LessIsAbove(a[1..], b[1..]);
      if Ordering.Less(Codes(b), Codes(a)) {
        if b[0] < a[0] {
          assert a[..0] == b[..0];
        } else {
          var k :| 0 <= k < |a[1..]| && k <= |b[1..]| && a[1..][..k] == b[1..][..k]
                   && (k == |b[1..]| || a[1..][k] > b[1..][k]);
          assert a[..k + 1] == [a[0]] + a[1..][..k] && b[..k + 1] == [b[0]] + b[1..][..k];
        }
      }
      if Above(a, b) {
        AboveTail(a, b);
      }
    }
  }

  lemma AboveTail(a: string, b: string)
    requires Above(a, b) && a != [] && b != []
    ensures b[0] < a[0] || (a[0] == b[0] && Above(a[1..], b[1..]))
  {
    var k :| 0 <= k < |a| && k <= |b| && a[..k] == b[..k] && (k == |b| || a[k] > b[k]);
    if k > 0 {
      assert a[..k][0] == b[..k][0];
      assert a[1..][..k - 1] == a[..k][1..] && b[1..][..k - 1] == b[..k][1..];
    }
  }

  // ---------------------------------------------------------------- what is listed first

  // The parsed source date, or when the post was first seen.
  function DateText(seen: nat -> string, p: Post): string {
    match p.fields.created
    case Some(text) => text
    case None => seen(p.id)
  }

  // The later date; on equal dates the higher number; on equal numbers the later board.
  predicate NewerThan(seen: nat -> string, a: Post, b: Post) {
    var x, y := DateText(seen, a), DateText(seen, b);
    Above(x, y)
    || (x == y && (a.fields.ext > b.fields.ext || (a.fields.ext == b.fields.ext && Above(a.fields.board, b.fields.board))))
  }

  ghost predicate AllDistinct(rows: seq<Post>) {
    forall i, j | 0 <= i < j < |rows| :: Identity(rows[i]) != Identity(rows[j])
  }

  lemma {:induction false} OnceEach(rows: seq<Post>, p: Post)
    requires AllDistinct(rows)
    ensures multiset(rows)[p] <= 1
    decreases |rows|
  {
    if rows != [] {
      var front, last := rows[..|rows| - 1], rows[|rows| - 1];
      assert rows == front + [last];
      OnceEach(front, p);
    }
  }

  lemma SortedDistinct(rows: seq<Post>, sorted: seq<Post>)
    requires AllDistinct(rows) && multiset(sorted) == multiset(rows)
    ensures AllDistinct(sorted)
  {
    SameMembers(sorted, rows);
    forall i, j | 0 <= i < j < |sorted| ensures Identity(sorted[i]) != Identity(sorted[j]) {
      if Identity(sorted[i]) == Identity(sorted[j]) {
        assert sorted[i] in rows && sorted[j] in rows;
        var x, y :| 0 <= x < |rows| && rows[x] == sorted[i] && 0 <= y < |rows| && rows[y] == sorted[j];
        assert x == y;
        TwiceThere(sorted, i, j);
        OnceEach(rows, sorted[i]);
      }
    }
  }

  lemma TwiceThere(s: seq<Post>, i: nat, j: nat)
    requires i < j < |s| && s[i] == s[j]
    ensures multiset(s)[s[i]] >= 2
  {
    assert s == s[..j] + [s[j]] + s[j + 1..];
    assert s[i] in s[..j];
  }

  lemma EarlierIsNewer(seen: nat -> string, a: Post, b: Post)
    requires !Earlier(ByDate, seen, b, a) && Identity(a) != Identity(b)
    ensures NewerThan(seen, a, b)
  {
    var x, y := DateText(seen, a), DateText(seen, b);
    LessIsAbove(x, y);
    LessIsAbove(y, x);
    LessIsAbove(a.fields.board, b.fields.board);
    LessIsAbove(b.fields.board, a.fields.board);
    Ordering.LessTotal(Codes(x), Codes(y));
    Ordering.LessTotal(Codes(a.fields.board), Codes(b.fields.board));
    SameCodes(x, y);
    SameCodes(a.fields.board, b.fields.board);
  }

  lemma SameCodes(a: string, b: string)
    ensures Codes(a) == Codes(b) <==> a == b
  {
    if Codes(a) == Codes(b) {
      assert |a| == |Codes(a)| && |b| == |Codes(b)|;
      forall i | 0 <= i < |a| ensures a[i] == b[i] {
        assert Codes(a)[i] == Codes(b)[i];
      }
    }
  }

  // ---------------------------------------------------------------- a whole release

  // The search index lists every captured post once, from the newest date to the oldest.
  lemma SearchIsNewestFirst(db: Database, refs: Refs, seen: nat -> string) returns (rows: seq<Post>)
    requires Valid(db) && Build(db, refs, seen).Ok?
    ensures var search := Build(db, refs, seen).value.search;
            && multiset(rows) == multiset(Captured(db.posts)) && |rows| == |search|
            && (forall i | 0 <= i < |rows| ::
                  Identity(rows[i]) in refs && search[i] == refs[Identity(rows[i])].summary)
            && forall i, j | 0 <= i < j < |rows| :: NewerThan(seen, rows[i], rows[j])
  {
    I.BuildParts(db, refs, seen);
    I.CapturedRows(db);
    rows := Sort(ByDate, seen, Captured(db.posts));
    SortOrders(ByDate, seen, Captured(db.posts));
    SortedDistinct(Captured(db.posts), rows);
    EmitIff(rows, refs);
    forall i | 0 <= i < |rows|
      ensures Identity(rows[i]) in refs && Build(db, refs, seen).value.search[i] == refs[Identity(rows[i])].summary
    {
      assert rows[i] in rows;
    }
    forall i, j | 0 <= i < j < |rows| ensures NewerThan(seen, rows[i], rows[j]) {
      EarlierIsNewer(seen, rows[i], rows[j]);
    }
  }

  predicate StandsFor(ref: Ref, p: Post, board: string, refs: Refs) {
    p.fields.board == board && Identity(p) in refs && ref == refs[Identity(p)]
  }

  predicate StandsForSome(ref: Ref, rows: seq<Post>, board: string, refs: Refs) {
    exists p | p in rows :: StandsFor(ref, p, board, refs)
  }

  // A board page lists exactly the captured posts of its board, from the highest number down.
  ghost predicate PageInOrder(page: Page, board: string, rows: seq<Post>, refs: Refs) {
    && (forall j, k | 0 <= j < k < |page.posts| :: page.posts[j].summary.ext > page.posts[k].summary.ext)
    && (forall p | p in rows && p.fields.board == board ::
          exists j :: 0 <= j < |page.posts| && StandsFor(page.posts[j], p, board, refs))
    && (forall j | 0 <= j < |page.posts| :: StandsForSome(page.posts[j], rows, board, refs))
  }

  lemma PagesAreNewestFirst(db: Database, refs: Refs, seen: nat -> string)
    requires Valid(db) && Build(db, refs, seen).Ok?
    ensures var pages := Build(db, refs, seen).value.boards;
            && |pages| == |db.boards|
            && forall i | 0 <= i < |pages| ::
                 pages[i].board == db.boards[i] && PageInOrder(pages[i], db.boards[i].id, Captured(db.posts), refs)
  {
    I.BuildParts(db, refs, seen);
    I.CapturedRows(db);
    PagesInOrder(db.boards, Captured(db.posts), refs, seen);
  }

  lemma {:induction false} PagesInOrder(boards: seq<Board>, rows: seq<Post>, refs: Refs, seen: nat -> string)
    requires AllDistinct(rows) && Pages(boards, rows, refs, seen).Ok?
    ensures var pages := Pages(boards, rows, refs, seen).value;
            && |pages| == |boards|
            && forall i | 0 <= i < |pages| ::
                 pages[i].board == boards[i] && PageInOrder(pages[i], boards[i].id, rows, refs)
    decreases |boards|
  {
    if boards != [] {
      PageOrder(boards[0], rows, refs, seen);
      PagesInOrder(boards[1..], rows, refs, seen);
      var pages := Pages(boards, rows, refs, seen).value;
      assert pages[1..] == Pages(boards[1..], rows, refs, seen).value;
      forall i | 0 < i < |pages|
        ensures pages[i].board == boards[i] && PageInOrder(pages[i], boards[i].id, rows, refs)
      {
        assert pages[i] == pages[1..][i - 1] && boards[i] == boards[1..][i - 1];
      }
    }
  }

  lemma PageOrder(board: Board, rows: seq<Post>, refs: Refs, seen: nat -> string)
    requires AllDistinct(rows) && Emit(Sort(ByNumber, seen, OnBoard(rows, board.id)), refs).Ok?
    ensures PageInOrder(Page(board, Emit(Sort(ByNumber, seen, OnBoard(rows, board.id)), refs).value), board.id, rows, refs)
  {
    var mine := OnBoard(rows, board.id);
    var sorted := Sort(ByNumber, seen, mine);
    OnBoardDistinct(rows, board.id);
    SortOrders(ByNumber, seen, mine);
    SortedDistinct(mine, sorted);
    SameMembers(sorted, mine);
    EmitIff(sorted, refs);
    NumbersFall(sorted, refs, board.id, seen);
    ListsAll(sorted, refs, rows, board.id);
  }

  lemma NumbersFall(sorted: seq<Post>, refs: Refs, board: string, seen: nat -> string)
    requires Ordered(ByNumber, seen, sorted) && AllDistinct(sorted) && Fresh(sorted, refs)
    requires forall p | p in sorted :: p.fields.board == board
    ensures var posts := RefsOf(sorted, refs);
            forall j, k | 0 <= j < k < |posts| :: posts[j].summary.ext > posts[k].summary.ext
  {
    var posts := RefsOf(sorted, refs);
    forall j, k | 0 <= j < k < |posts| ensures posts[j].summary.ext > posts[k].summary.ext {
      assert sorted[j] in sorted && sorted[k] in sorted;
      assert !Earlier(ByNumber, seen, sorted[k], sorted[j]) && Identity(sorted[j]) != Identity(sorted[k]);
    }
  }

  lemma ListsAll(sorted: seq<Post>, refs: Refs, rows: seq<Post>, board: string)
    requires Fresh(sorted, refs) && forall p :: p in sorted <==> p in rows && p.fields.board == board
    ensures var posts := RefsOf(sorted, refs);
            forall p | p in rows && p.fields.board == board ::
              exists j :: 0 <= j < |posts| && StandsFor(posts[j], p, board, refs)
    ensures forall j | 0 <= j < |sorted| :: StandsForSome(RefsOf(sorted, refs)[j], rows, board, refs)
  {
    var posts := RefsOf(sorted, refs);
    forall p | p in rows && p.fields.board == board
      ensures exists j :: 0 <= j < |posts| && StandsFor(posts[j], p, board, refs)
    {
      assert p in sorted;
      var j :| 0 <= j < |sorted| && sorted[j] == p;
      assert StandsFor(posts[j], p, board, refs);
    }
    forall j | 0 <= j < |sorted| ensures StandsForSome(posts[j], rows, board, refs) {
      assert sorted[j] in sorted;
      assert StandsFor(posts[j], sorted[j], board, refs);
    }
  }

  lemma {:induction false} OnBoardDistinct(rows: seq<Post>, board: string)
    requires AllDistinct(rows)
    ensures AllDistinct(OnBoard(rows, board))
    decreases |rows|
  {
    if rows != [] {
      var rest := OnBoard(rows[1..], board);
      OnBoardDistinct(rows[1..], board);
      if rows[0].fields.board == board {
        forall j | 0 <= j < |rest| ensures Identity(rest[j]) != Identity(rows[0]) {
          assert rest[j] in rows[1..];
          var k :| 0 <= k < |rows[1..]| && rows[1..][k] == rest[j];
          assert Identity(rows[0]) != Identity(rows[k + 1]);
        }
      }
    }
  }
}
