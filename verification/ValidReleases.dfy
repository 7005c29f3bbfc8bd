// The membership objects, and the whole release: the writer's output is accepted by validate_release
// exactly when every post is in at most one collection and on that collection's board.
module ValidReleases {
  import opened Wrappers
  import opened StaticRelease
  import opened Validation
  import opened ValidBoards
  import opened ValidCollections
  import I = Incremental

  // ---------------------------------------------------------------- the members of one board

  lemma {:induction false} BoardMembersAre(cs: seq<CollectionOut>, board: string)
    ensures forall m :: m in BoardMembers(cs, board)
                        <==> exists c, i :: c in cs && c.board == board && 0 <= i < |c.entries|
                                            && m == Member(c.entries[i].ext, c.id, c.entries[i].position)
    decreases |cs|
  {
    if cs != [] {
      BoardMembersAre(cs[1..], board);
      var first := if cs[0].board == board then MembersOf(cs[0]) else [];
      forall m ensures m in BoardMembers(cs, board)
                       <==> exists c, i :: c in cs && c.board == board && 0 <= i < |c.entries|
                                           && m == Member(c.entries[i].ext, c.id, c.entries[i].position)
      {
        assert m in BoardMembers(cs, board) <==> m in first || m in BoardMembers(cs[1..], board);
        if m in first {
          var i :| 0 <= i < |first| && first[i] == m;
          assert cs[0] in cs && m == Member(cs[0].entries[i].ext, cs[0].id, cs[0].entries[i].position);
        }
        if c, i :| c in cs && c.board == board && 0 <= i < |c.entries|
                   && m == Member(c.entries[i].ext, c.id, c.entries[i].position) {
          if c == cs[0] {
            assert first[i] == m;
          } else {
            assert c in cs[1..];
          }
        }
      }
    }
  }

  function MemberTotal(boards: seq<Board>, cs: seq<CollectionOut>): nat {
    if boards == [] then 0 else |BoardMembers(cs, boards[0].id)| + MemberTotal(boards[1..], cs)
  }

  lemma {:induction false} OneCollectionLess(boards: seq<Board>, cs: seq<CollectionOut>)
    requires cs != [] && I.DistinctBoards(boards)
    ensures MemberTotal(boards, cs)
            == MemberTotal(boards, cs[1..]) + (if KnownBoard(boards, cs[0].board) then |cs[0].entries| else 0)
    decreases |boards|
  {
    if boards != [] {
      assert forall i | 0 <= i < |boards[1..]| :: boards[1..][i] == boards[i + 1];
      OneCollectionLess(boards[1..], cs);
      KnownSplit(boards);
      if boards[0].id == cs[0].board {
        assert !KnownBoard(boards[1..], boards[0].id);
      }
    }
  }

  // Every entry has one membership row.
  lemma {:induction false} MemberTotalIsAll(boards: seq<Board>, cs: seq<CollectionOut>)
    requires I.DistinctBoards(boards) && forall c | c in cs :: KnownBoard(boards, c.board)
    ensures MemberTotal(boards, cs) == EntryTotal(cs)
    decreases |cs|
  {
    if cs == [] {
      NoMembers(boards);
    } else {
      assert cs[0] in cs && forall c | c in cs[1..] :: c in cs;
      MemberTotalIsAll(boards, cs[1..]);
      OneCollectionLess(boards, cs);
    }
  }

  lemma {:induction false} NoMembers(boards: seq<Board>)
    ensures MemberTotal(boards, []) == 0
    decreases |boards|
  {
    if boards != [] {
      NoMembers(boards[1..]);
    }
  }

  // ---------------------------------------------------------------- the membership objects

  predicate MadeFor(m: Membership, cs: seq<CollectionOut>) {
    m.members == BoardMembers(cs, m.board) && m.unavailable == BoardUnavailable(cs, m.board)
  }

  lemma {:induction false} MembershipsMade(boards: seq<Board>, cs: seq<CollectionOut>)
    requires I.DistinctBoards(boards)
    ensures var ms := Memberships(boards, cs);
            && (forall m | m in ms :: MadeFor(m, cs) && KnownBoard(boards, m.board))
            && Distinct(MembershipBoards(ms))
    decreases |boards|
  {
    if boards != [] {
      LaterBoards(boards);
      MembershipsMade(boards[1..], cs);
      var board := boards[0].id;
      var rest := Memberships(boards[1..], cs);
      if BoardMembers(cs, board) != [] {
        var m := Membership(board, BoardMembers(cs, board), BoardUnavailable(cs, board));
        assert Memberships(boards, cs) == [m] + rest && MadeFor(m, cs);
        OneMoreMembership(boards[1..], m, rest);
      } else {
        assert Memberships(boards, cs) == rest;
      }
    }
  }

  lemma LaterBoards(boards: seq<Board>)
    requires I.DistinctBoards(boards) && boards != []
    ensures I.DistinctBoards(boards[1..]) && !KnownBoard(boards[1..], boards[0].id)
    ensures forall id :: KnownBoard(boards, id) <==> boards[0].id == id || KnownBoard(boards[1..], id)
  {
    assert forall i | 0 <= i < |boards[1..]| :: boards[1..][i] == boards[i + 1];
    KnownSplit(boards);
  }

  lemma OneMoreMembership(boards: seq<Board>, m: Membership, rest: seq<Membership>)
    requires (forall n | n in rest :: KnownBoard(boards, n.board)) && !KnownBoard(boards, m.board)
    requires Distinct(MembershipBoards(rest))
    ensures Distinct(MembershipBoards([m] + rest))
  {
    assert MembershipBoards([m] + rest) == [m.board] + MembershipBoards(rest);
    BoardNotAmong(boards, rest, m.board);
    DistinctJoin([m.board], MembershipBoards(rest));
  }

  lemma BoardNotAmong(boards: seq<Board>, ms: seq<Membership>, board: string)
    requires (forall m | m in ms :: KnownBoard(boards, m.board)) && !KnownBoard(boards, board)
    ensures board !in MembershipBoards(ms)
  {
    forall i | 0 <= i < |ms| ensures ms[i].board != board {
      assert ms[i] in ms;
    }
  }

  lemma OneMembership(m: Membership, cs: seq<CollectionOut>)
    requires MadeFor(m, cs)
    ensures |MemberPlacements(m)| == |BoardMembers(cs, m.board)|
    ensures forall x :: x in MemberPlacements(m)
                        <==> exists c, i :: c in cs && c.board == m.board && 0 <= i < |c.entries| && x == At(c.board, c, i)
  {
    BoardMembersAre(cs, m.board);
    var ps := MemberPlacements(m);
    forall x ensures x in ps
                     <==> exists c, i :: c in cs && c.board == m.board && 0 <= i < |c.entries| && x == At(c.board, c, i)
    {
      if x in ps {
        var k :| 0 <= k < |ps| && ps[k] == x;
        assert m.members[k] in m.members;
        var c, i :| c in cs && c.board == m.board && 0 <= i < |c.entries|
                    && m.members[k] == Member(c.entries[i].ext, c.id, c.entries[i].position);
        assert x == At(c.board, c, i);
      }
      if c, i :| c in cs && c.board == m.board && 0 <= i < |c.entries| && x == At(c.board, c, i) {
        assert Member(c.entries[i].ext, c.id, c.entries[i].position) in m.members;
        var k :| 0 <= k < |m.members| && m.members[k] == Member(c.entries[i].ext, c.id, c.entries[i].position);
        assert ps[k] == x;
      }
    }
  }

  // What the membership objects declare: every entry, under its collection's board.
  lemma {:induction false} DeclaredMembers(boards: seq<Board>, cs: seq<CollectionOut>)
    ensures var ds := Declared(Memberships(boards, cs));
            && |ds| == MemberTotal(boards, cs)
            && forall x :: x in ds <==> exists c, i :: c in cs && KnownBoard(boards, c.board) && 0 <= i < |c.entries|
                                                       && x == At(c.board, c, i)
    decreases |boards|
  {
    if boards != [] {
      DeclaredMembers(boards[1..], cs);
      KnownSplit(boards);
      var board := boards[0].id;
      var m := Membership(board, BoardMembers(cs, board), BoardUnavailable(cs, board));
      OneMembership(m, cs);
      var ds, rest := Declared(Memberships(boards, cs)), Declared(Memberships(boards[1..], cs));
      if m.members == [] {
        assert Memberships(boards, cs) == Memberships(boards[1..], cs);
        assert MemberPlacements(m) == [];
      } else {
        assert Memberships(boards, cs)[1..] == Memberships(boards[1..], cs);
      }
      assert ds == MemberPlacements(m) + rest;
      forall x ensures x in ds <==> exists c, i :: c in cs && KnownBoard(boards, c.board) && 0 <= i < |c.entries|
                                                   && x == At(c.board, c, i)
      {
        assert x in ds <==> x in MemberPlacements(m) || x in rest;
      }
    }
  }

  // The membership rows say what the detail objects say exactly when entries are on their
  // collection's board.
  lemma DeclaredIffHomes(boards: seq<Board>, cs: seq<CollectionOut>)
    requires DistinctIds(cs) && forall c | c in cs :: KnownBoard(boards, c.board)
    ensures Elements(Declared(Memberships(boards, cs))) == Elements(Expected(cs)) <==> Homes(cs)
  {
    DeclaredMembers(boards, cs);
    ExpectedMembers(cs);
    var ds, es := Declared(Memberships(boards, cs)), Expected(cs);
    if Homes(cs) {
      forall x ensures x in Elements(ds) <==> x in Elements(es) {
      }
    }
    if Elements(ds) == Elements(es) {
      forall c, i | c in cs && 0 <= i < |c.entries| ensures c.entries[i].board == c.board {
        var x := At(c.entries[i].board, c, i);
        assert x in Elements(es) && x in Elements(ds);
        var d, j :| d in cs && 0 <= j < |d.entries| && x == At(d.board, d, j);
        SameIdSame(cs, c, d);
      }
    }
  }

  lemma SameIdSame(cs: seq<CollectionOut>, c: CollectionOut, d: CollectionOut)
    requires DistinctIds(cs) && c in cs && d in cs && c.id == d.id
    ensures c == d
  {
    var i :| 0 <= i < |cs| && cs[i] == c;
    var j :| 0 <= j < |cs| && cs[j] == d;
  }

  lemma DeclaredOnce(boards: seq<Board>, cs: seq<CollectionOut>)
    requires I.DistinctBoards(boards) && DistinctIds(cs) && forall c | c in cs :: KnownBoard(boards, c.board)
    requires Homes(cs) && Distinct(Keys(Expected(cs)))
    ensures Distinct(Keys(Declared(Memberships(boards, cs))))
  {
    var ds, es := Declared(Memberships(boards, cs)), Expected(cs);
    DeclaredMembers(boards, cs);
    ExpectedMembers(cs);
    DeclaredIffHomes(boards, cs);
    MemberTotalIsAll(boards, cs);
    forall x ensures x in ds <==> x in es {
      assert x in ds <==> x in Elements(ds);
      assert x in es <==> x in Elements(es);
    }
    SameKeys(ds, es);
    DistinctSame(Keys(ds), Keys(es));
  }

  // ---------------------------------------------------------------- unavailable members

  lemma {:induction false} UnavailableAre(entries: seq<EntryOut>)
    ensures forall x :: x in Unavailable(entries)
                        <==> exists i :: 0 <= i < |entries| && entries[i].objectKey.None? && entries[i].ext == x
    decreases |entries|
  {
    if entries != [] {
      UnavailableAre(entries[1..]);
      forall x ensures x in Unavailable(entries)
                       <==> exists i :: 0 <= i < |entries| && entries[i].objectKey.None? && entries[i].ext == x
      {
        if x in Unavailable(entries) && !(entries[0].objectKey.None? && entries[0].ext == x) {
          assert x in Unavailable(entries[1..]);
          var tail := entries[1..];
          var i :| 0 <= i < |tail| && tail[i].objectKey.None? && tail[i].ext == x;
          assert tail[i] == entries[i + 1];
        }
        if i :| 0 <= i < |entries| && entries[i].objectKey.None? && entries[i].ext == x {
          if i > 0 {
            assert entries[1..][i - 1] == entries[i];
          }
        }
      }
    }
  }

  lemma {:induction false} BoardUnavailableAre(cs: seq<CollectionOut>, board: string)
    ensures forall x :: x in BoardUnavailable(cs, board)
                        <==> exists c, i :: c in cs && c.board == board && 0 <= i < |c.entries|
                                            && c.entries[i].objectKey.None? && c.entries[i].ext == x
    decreases |cs|
  {
    if cs != [] {
      BoardUnavailableAre(cs[1..], board);
      UnavailableAre(cs[0].entries);
      forall x ensures x in BoardUnavailable(cs, board)
                       <==> exists c, i :: c in cs && c.board == board && 0 <= i < |c.entries|
                                           && c.entries[i].objectKey.None? && c.entries[i].ext == x
      {
        assert cs[0] in cs && forall c :: c in cs <==> c == cs[0] || c in cs[1..];
      }
    }
  }

  lemma {:induction false} UnavailableOnce(entries: seq<EntryOut>)
    requires forall i, j | 0 <= i < j < |entries| :: entries[i].ext != entries[j].ext
    ensures Distinct(Unavailable(entries))
    decreases |entries|
  {
    if entries != [] {
      forall i, j | 0 <= i < j < |entries| - 1 ensures entries[1..][i].ext != entries[1..][j].ext {
        assert entries[i + 1].ext != entries[j + 1].ext;
      }
      UnavailableOnce(entries[1..]);
      UnavailableAre(entries[1..]);
      if entries[0].objectKey.None? {
        forall x | x in Unavailable(entries[1..]) ensures x != entries[0].ext {
          var i :| 0 <= i < |entries| - 1 && entries[1..][i].ext == x;
          assert entries[0].ext != entries[i + 1].ext;
        }
        DistinctJoin([entries[0].ext], Unavailable(entries[1..]));
      }
    }
  }

  lemma {:induction false} BoardUnavailableOnce(cs: seq<CollectionOut>, board: string)
    requires Homes(cs) && Distinct(Keys(Expected(cs)))
    ensures Distinct(BoardUnavailable(cs, board))
    decreases |cs|
  {
    if cs != [] {
      assert cs[0] in cs && forall c | c in cs[1..] :: c in cs;
      var first, rest := EntryPlacements(cs[0]), Expected(cs[1..]);
      assert Keys(first + rest) == Keys(first) + Keys(rest);
      DistinctJoin(Keys(first), Keys(rest));
      BoardUnavailableOnce(cs[1..], board);
      if cs[0].board == board {
        FirstUnavailable(cs[0]);
        UnavailableAre(cs[0].entries);
        BoardUnavailableAre(cs[1..], board);
        forall x | x in Unavailable(cs[0].entries) ensures x !in BoardUnavailable(cs[1..], board) {
          var i :| 0 <= i < |cs[0].entries| && cs[0].entries[i].ext == x;
          assert Keys(first)[i] == (board, x) && (board, x) in Keys(first);
          if x in BoardUnavailable(cs[1..], board) {
            KeyOfUnavailable(cs[1..], board, x);
          }
        }
        DistinctJoin(Unavailable(cs[0].entries), BoardUnavailable(cs[1..], board));
      }
    }
  }

  lemma FirstUnavailable(c: CollectionOut)
    requires Homes([c]) && Distinct(Keys(EntryPlacements(c)))
    ensures Distinct(Unavailable(c.entries))
  {
    assert c in [c];
    forall i, j | 0 <= i < j < |c.entries| ensures c.entries[i].ext != c.entries[j].ext {
      assert Keys(EntryPlacements(c))[i] != Keys(EntryPlacements(c))[j];
    }
    UnavailableOnce(c.entries);
  }

  lemma KeyOfUnavailable(cs: seq<CollectionOut>, board: string, x: nat)
    requires Homes(cs) && x in BoardUnavailable(cs, board)
    ensures (board, x) in Keys(Expected(cs))
  {
    BoardUnavailableAre(cs, board);
    ExpectedMembers(cs);
    KeysMembers(Expected(cs));
    var c, i :| c in cs && c.board == board && 0 <= i < |c.entries| && c.entries[i].ext == x;
    assert At(c.entries[i].board, c, i) in Expected(cs);
  }
}
