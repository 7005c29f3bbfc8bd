// The boards and the search index of every release the writer builds pass validate_release.
module ValidBoards {
  import opened Wrappers
  import opened StaticRelease
  import opened Validation
  import I = Incremental

  // The references of these rows, in any order and once each.
  ghost predicate Lists(rs: seq<Ref>, rows: seq<Post>, refs: Refs)
    requires Fresh(rows, refs)
  {
    |rs| == |rows| && Elements(rs) == Elements(RefsOf(rows, refs))
  }

  lemma RefsOfMembers(rows: seq<Post>, refs: Refs)
    requires Fresh(rows, refs)
    ensures forall r :: r in RefsOf(rows, refs) <==> exists p :: p in rows && refs[Identity(p)] == r
  {
    var rs := RefsOf(rows, refs);
    forall r ensures r in rs <==> exists p :: p in rows && refs[Identity(p)] == r {
      if r in rs {
        var i :| 0 <= i < |rs| && rs[i] == r;
        assert rows[i] in rows;
      }
      if p :| p in rows && refs[Identity(p)] == r {
        var i :| 0 <= i < |rows| && rows[i] == p;
        assert rs[i] == r;
      }
    }
  }

  lemma PermutedLists(order: Order, seen: nat -> string, rows: seq<Post>, refs: Refs)
    requires Fresh(rows, refs)
    ensures Fresh(Sort(order, seen, rows), refs) && Lists(RefsOf(Sort(order, seen, rows), refs), rows, refs)
  {
    var sorted := Sort(order, seen, rows);
    SameMembers(sorted, rows);
    RefsOfMembers(rows, refs);
    RefsOfMembers(sorted, refs);
  }

  lemma IdsMembers(rs: seq<Ref>)
    ensures forall id :: id in Ids(SummariesOf(rs)) <==> exists r :: r in rs && IdOf(r.summary) == id
  {
    var ids := Ids(SummariesOf(rs));
    forall id ensures id in ids <==> exists r :: r in rs && IdOf(r.summary) == id {
      if id in ids {
        var i :| 0 <= i < |ids| && ids[i] == id;
        assert rs[i] in rs;
      }
      if r :| r in rs && IdOf(r.summary) == id {
        var i :| 0 <= i < |rs| && rs[i] == r;
        assert ids[i] == id;
      }
    }
  }

  lemma SameIds(a: seq<Ref>, b: seq<Ref>)
    requires Elements(a) == Elements(b)
    ensures Elements(Ids(SummariesOf(a))) == Elements(Ids(SummariesOf(b)))
  {
    IdsMembers(a);
    IdsMembers(b);
    forall id ensures id in Elements(Ids(SummariesOf(a))) <==> id in Elements(Ids(SummariesOf(b))) {
      if id in Ids(SummariesOf(a)) {
        var r :| r in a && IdOf(r.summary) == id;
        assert r in Elements(b);
      }
      if id in Ids(SummariesOf(b)) {
        var r :| r in b && IdOf(r.summary) == id;
        assert r in Elements(a);
      }
    }
  }

  // However the references of distinct rows are listed, no post appears twice.
  lemma ListedOnce(rs: seq<Ref>, rows: seq<Post>, refs: Refs)
    requires Fresh(rows, refs) && I.Distinct(rows) && Lists(rs, rows, refs)
    ensures Distinct(Ids(SummariesOf(rs)))
    ensures Elements(Ids(SummariesOf(rs))) == Elements(Ids(SummariesOf(RefsOf(rows, refs))))
  {
    var own := Ids(SummariesOf(RefsOf(rows, refs)));
    forall i, j | 0 <= i < j < |own| ensures own[i] != own[j] {
      assert rows[i] in rows && rows[j] in rows;
      assert own[i].0 == rows[i].fields.board && own[i].1 == rows[i].fields.ext;
      assert own[j].0 == rows[j].fields.board && own[j].1 == rows[j].fields.ext;
      assert Identity(rows[i]) != Identity(rows[j]);
    }
    SameIds(rs, RefsOf(rows, refs));
    DistinctSame(Ids(SummariesOf(rs)), own);
  }

  // ---------------------------------------------------------------- the pages together

  lemma OnePage(board: Board, rows: seq<Post>, refs: Refs, seen: nat -> string)
    requires Fresh(rows, refs)
    ensures var page := OnBoard(rows, board.id);
            && Fresh(page, refs) && Emit(Sort(ByNumber, seen, page), refs).Ok?
            && Lists(Emit(Sort(ByNumber, seen, page), refs).value, page, refs)
  {
    var page := OnBoard(rows, board.id);
    PermutedLists(ByNumber, seen, page, refs);
    EmitIff(Sort(ByNumber, seen, page), refs);
  }

  lemma {:induction false} PagesList(boards: seq<Board>, rows: seq<Post>, refs: Refs, seen: nat -> string)
    requires Fresh(rows, refs)
    ensures Pages(boards, rows, refs, seen).Ok?
    ensures var all := AllRefs(Pages(boards, rows, refs, seen).value);
            && |all| == I.BoardTotal(boards, rows)
            && forall r :: r in all <==> exists p :: p in rows && KnownBoard(boards, p.fields.board) && refs[Identity(p)] == r
    decreases |boards|
  {
    if boards != [] {
      var page := OnBoard(rows, boards[0].id);
      OnePage(boards[0], rows, refs, seen);
      RefsOfMembers(page, refs);
      PagesList(boards[1..], rows, refs, seen);
      var first := Emit(Sort(ByNumber, seen, page), refs).value;
      var all := AllRefs(Pages(boards, rows, refs, seen).value);
      var rest := AllRefs(Pages(boards[1..], rows, refs, seen).value);
      assert all == first + rest;
      forall r ensures r in all <==> exists p :: p in rows && KnownBoard(boards, p.fields.board) && refs[Identity(p)] == r {
        assert r in first <==> r in Elements(first);
        assert r in RefsOf(page, refs) <==> r in Elements(RefsOf(page, refs));
        KnownSplit(boards);
      }
    }
  }

  lemma KnownSplit(boards: seq<Board>)
    requires boards != []
    ensures forall id :: KnownBoard(boards, id) <==> boards[0].id == id || KnownBoard(boards[1..], id)
  {
    forall id ensures KnownBoard(boards, id) <==> boards[0].id == id || KnownBoard(boards[1..], id) {
      if KnownBoard(boards, id) && boards[0].id != id {
        var i :| 0 <= i < |boards| && boards[i].id == id;
        assert boards[1..][i - 1].id == id;
      }
      if KnownBoard(boards[1..], id) {
        var i :| 0 <= i < |boards[1..]| && boards[1..][i].id == id;
        assert boards[i + 1].id == id;
      }
    }
  }

  lemma PagesListAll(db: Database, refs: Refs, seen: nat -> string)
    requires Valid(db) && Fresh(Captured(db.posts), refs)
    ensures var rows := Captured(db.posts);
            && Pages(db.boards, rows, refs, seen).Ok?
            && Lists(AllRefs(Pages(db.boards, rows, refs, seen).value), rows, refs)
  {
    var rows := Captured(db.posts);
    I.CapturedRows(db);
    PagesList(db.boards, rows, refs, seen);
    I.BoardTotalIsAll(db.boards, rows);
    RefsOfMembers(rows, refs);
    var all := AllRefs(Pages(db.boards, rows, refs, seen).value);
    forall r ensures r in Elements(all) <==> r in Elements(RefsOf(rows, refs)) {
      assert r in all <==> r in Elements(all);
    }
  }

  lemma {:induction false} PagesFit(boards: seq<Board>, rows: seq<Post>, refs: Refs, seen: nat -> string)
    requires Fresh(rows, refs) && I.AllPrepared(refs)
    ensures Pages(boards, rows, refs, seen).Ok?
    ensures var pages := Pages(boards, rows, refs, seen).value;
            && |pages| == |boards|
            && (forall i | 0 <= i < |pages| :: pages[i].board == boards[i])
            && (forall i | 0 <= i < |pages| :: PageFits(pages[i]))
    decreases |boards|
  {
    if boards != [] {
      FirstPageFits(boards[0], rows, refs, seen);
      PagesFit(boards[1..], rows, refs, seen);
    }
  }

  lemma FirstPageFits(board: Board, rows: seq<Post>, refs: Refs, seen: nat -> string)
    requires Fresh(rows, refs) && I.AllPrepared(refs)
    ensures var r := Emit(Sort(ByNumber, seen, OnBoard(rows, board.id)), refs);
            r.Ok? && PageFits(Page(board, r.value))
  {
    var page := OnBoard(rows, board.id);
    OnePage(board, rows, refs, seen);
    RefsOfMembers(page, refs);
    var first := Emit(Sort(ByNumber, seen, page), refs).value;
    forall j | 0 <= j < |first| ensures RefFits(board.id, first[j]) {
      assert first[j] in Elements(first) && first[j] in RefsOf(page, refs);
      var p :| p in page && refs[Identity(p)] == first[j];
      assert Matches(p, first[j]) && Prepared(first[j]);
    }
  }

  // ---------------------------------------------------------------- comment counts

  lemma {:induction false} InsertKeepsComments(order: Order, seen: nat -> string, p: Post, sorted: seq<Post>)
    ensures CommentTotal(Insert(order, seen, p, sorted)) == p.fields.comments + CommentTotal(sorted)
    decreases |sorted|
  {
    if sorted != [] {
      InsertKeepsComments(order, seen, p, sorted[1..]);
      var r := [p] + sorted;
      assert r[1..] == sorted;
    } else {
      assert [p][1..] == [];
    }
  }

  lemma {:induction false} SortKeepsComments(order: Order, seen: nat -> string, rows: seq<Post>)
    ensures CommentTotal(Sort(order, seen, rows)) == CommentTotal(rows)
    decreases |rows|
  {
    if rows != [] {
      SortKeepsComments(order, seen, rows[1..]);
      InsertKeepsComments(order, seen, rows[0], Sort(order, seen, rows[1..]));
    }
  }

  lemma {:induction false} RefComments(rows: seq<Post>, refs: Refs)
    requires Fresh(rows, refs) && I.AllPrepared(refs)
    ensures CommentSum(RefsOf(rows, refs)) == CommentTotal(rows)
    decreases |rows|
  {
    if rows != [] {
      assert rows[0] in rows && forall p | p in rows[1..] :: p in rows;
      RefComments(rows[1..], refs);
      assert RefsOf(rows, refs)[1..] == RefsOf(rows[1..], refs);
      var r := refs[Identity(rows[0])];
      assert Matches(rows[0], r) && Prepared(r);
    }
  }

  lemma {:induction false} CommentSumJoin(a: seq<Ref>, b: seq<Ref>)
    ensures CommentSum(a + b) == CommentSum(a) + CommentSum(b)
    decreases |a|
  {
    if a == [] {
      assert a + b == b;
    } else {
      assert (a + b)[1..] == a[1..] + b;
      CommentSumJoin(a[1..], b);
    }
  }

  function BoardComments(boards: seq<Board>, rows: seq<Post>): nat {
    if boards == [] then 0 else CommentTotal(OnBoard(rows, boards[0].id)) + BoardComments(boards[1..], rows)
  }

  lemma {:induction false} PageComments(boards: seq<Board>, rows: seq<Post>, refs: Refs, seen: nat -> string)
    requires Fresh(rows, refs) && I.AllPrepared(refs)
    ensures Pages(boards, rows, refs, seen).Ok?
    ensures CommentSum(AllRefs(Pages(boards, rows, refs, seen).value)) == BoardComments(boards, rows)
    decreases |boards|
  {
    if boards != [] {
      var page := OnBoard(rows, boards[0].id);
      var sorted := Sort(ByNumber, seen, page);
      SameMembers(sorted, page);
      EmitIff(sorted, refs);
      RefComments(sorted, refs);
      SortKeepsComments(ByNumber, seen, page);
      PageComments(boards[1..], rows, refs, seen);
      CommentSumJoin(RefsOf(sorted, refs), AllRefs(Pages(boards[1..], rows, refs, seen).value));
    }
  }

  lemma {:induction false} OneRowsComments(boards: seq<Board>, rows: seq<Post>)
    requires rows != [] && I.DistinctBoards(boards)
    ensures BoardComments(boards, rows) == BoardComments(boards, rows[1..])
            + (if KnownBoard(boards, rows[0].fields.board) then rows[0].fields.comments else 0)
    decreases |boards|
  {
    if boards != [] {
      assert forall i | 0 <= i < |boards[1..]| :: boards[1..][i] == boards[i + 1];
      OneRowsComments(boards[1..], rows);
      KnownSplit(boards);
      if boards[0].id == rows[0].fields.board {
        assert !KnownBoard(boards[1..], boards[0].id);
        assert OnBoard(rows, boards[0].id)[1..] == OnBoard(rows[1..], boards[0].id);
      }
    }
  }

  lemma {:induction false} BoardCommentsAreAll(boards: seq<Board>, rows: seq<Post>)
    requires I.DistinctBoards(boards) && forall p | p in rows :: KnownBoard(boards, p.fields.board)
    ensures BoardComments(boards, rows) == CommentTotal(rows)
    decreases |rows|
  {
    if rows == [] {
      NoComments(boards);
    } else {
      assert rows[0] in rows && forall p | p in rows[1..] :: p in rows;
      BoardCommentsAreAll(boards, rows[1..]);
      OneRowsComments(boards, rows);
    }
  }

  lemma {:induction false} NoComments(boards: seq<Board>)
    ensures BoardComments(boards, []) == 0
    decreases |boards|
  {
    if boards != [] {
      NoComments(boards[1..]);
    }
  }

  // ---------------------------------------------------------------- the board half of the release

  lemma BoardsAndSearchFit(db: Database, refs: Refs, seen: nat -> string)
    requires Valid(db) && Fresh(Captured(db.posts), refs) && I.AllPrepared(refs) && Build(db, refs, seen).Ok?
    ensures var r := Build(db, refs, seen).value;
            && BoardsFit(r.boards) && SearchFits(r)
            && |AllRefs(r.boards)| == |Captured(db.posts)| == |r.search| && |r.boards| == |db.boards|
            && CommentSum(AllRefs(r.boards)) == CommentTotal(Captured(db.posts))
  {
    I.BuildParts(db, refs, seen);
    BoardHalf(db, refs, seen);
    SearchHalf(db, refs, seen);
  }

  lemma BoardHalf(db: Database, refs: Refs, seen: nat -> string)
    requires Valid(db) && Fresh(Captured(db.posts), refs) && I.AllPrepared(refs)
    ensures Pages(db.boards, Captured(db.posts), refs, seen).Ok?
    ensures var rows, pages := Captured(db.posts), Pages(db.boards, Captured(db.posts), refs, seen).value;
            && BoardsFit(pages) && |pages| == |db.boards| && |AllRefs(pages)| == |rows|
            && CommentSum(AllRefs(pages)) == CommentTotal(rows)
            && Elements(PageIds(pages)) == Elements(Ids(SummariesOf(RefsOf(rows, refs))))
  {
    var rows := Captured(db.posts);
    I.CapturedRows(db);
    PagesListAll(db, refs, seen);
    ListedOnce(AllRefs(Pages(db.boards, rows, refs, seen).value), rows, refs);
    PagesFit(db.boards, rows, refs, seen);
    PageComments(db.boards, rows, refs, seen);
    BoardCommentsAreAll(db.boards, rows);
  }

  lemma SearchHalf(db: Database, refs: Refs, seen: nat -> string)
    requires Valid(db) && Fresh(Captured(db.posts), refs)
    ensures var rows, search := Captured(db.posts), Emit(Sort(ByDate, seen, Captured(db.posts)), refs);
            && search.Ok? && |search.value| == |rows| && Distinct(Ids(SummariesOf(search.value)))
            && Elements(Ids(SummariesOf(search.value))) == Elements(Ids(SummariesOf(RefsOf(rows, refs))))
  {
    var rows := Captured(db.posts);
    I.CapturedRows(db);
    PermutedLists(ByDate, seen, rows, refs);
    EmitIff(Sort(ByDate, seen, rows), refs);
    ListedOnce(RefsOf(Sort(ByDate, seen, rows), refs), rows, refs);
  }

  lemma ObjectOfEvery(db: Database, refs: Refs, seen: nat -> string)
    requires Valid(db) && Fresh(Captured(db.posts), refs) && Build(db, refs, seen).Ok?
    ensures forall p | p in Captured(db.posts) ::
              refs[Identity(p)].summary.payload in Objects(Build(db, refs, seen).value.boards)
  {
    var rows := Captured(db.posts);
    I.BuildParts(db, refs, seen);
    PagesListAll(db, refs, seen);
    RefsOfMembers(rows, refs);
    var all := AllRefs(Build(db, refs, seen).value.boards);
    forall p | p in rows ensures refs[Identity(p)].summary.payload in Objects(Build(db, refs, seen).value.boards) {
      assert refs[Identity(p)] in RefsOf(rows, refs);
      assert refs[Identity(p)] in Elements(RefsOf(rows, refs)) && refs[Identity(p)] in Elements(all);
    }
  }
}
