// _combined_collection_report of scripts/control_runner.py: folding the first cycle reports into one
// and going on gives what combining all of them at the end gives, but for one corner of the run id.
module Compaction {
  import opened Wrappers

  // A JSON value, as far as a report's counters can tell.
  datatype Value = Int(n: int) | Other

  datatype RunId = NoRun | RunText(name: string) | RunOdd(what: nat)

  // An item of a report's boards list; `rest` stands for the fields that are only carried along.
  datatype BoardItem = Board(id: string, status: string, rest: nat) | Junk

  // The fields the combination reads or sets. `outcomes` and `boards` are None when they are not an
  // object or a list, `failures` holds the codes that are text, `rest` all other fields.
  datatype Report = Report(outcomes: Option<map<string, Value>>, boards: Option<seq<BoardItem>>, failures: set<string>,
                           runId: RunId, selected: Option<Value>, scheduled: Option<Value>, changed: Option<Value>,
                           failed: Option<Value>, boardsOk: Option<Value>, boardsFailed: Option<Value>, rest: nat)

  // _integer
  function Integer(v: Option<Value>): nat {
    if v.Some? && v.value.Int? && v.value.n >= 0 then v.value.n else 0
  }

  function Outcome(r: Report, name: string): Option<Value> {
    if r.outcomes.Some? && name in r.outcomes.value then Some(r.outcomes.value[name]) else None
  }

  // _collection_counters
  function ChangedCount(r: Report): nat {
    if r.changed.Some? then Integer(r.changed) else Integer(Outcome(r, "stored"))
  }

  function FailedCount(r: Report): nat {
    if r.failed.Some? then Integer(r.failed)
    else Integer(Outcome(r, "parse_failed")) + Integer(Outcome(r, "fetch_failed"))
  }

  // ---------------------------------------------------------------- the fold

  function AddOutcomes(sums: map<string, nat>, raw: Option<map<string, Value>>): map<string, nat> {
    if raw.None? then
      sums
    else
      map name | name in sums.Keys + raw.value.Keys ::
        (if name in sums then sums[name] else 0) + (if name in raw.value then Integer(Some(raw.value[name])) else 0)
  }

  // boards[board_id] = board: a known board keeps its place, a new one goes to the end.
  function PutBoard(boards: seq<BoardItem>, b: BoardItem): (r: seq<BoardItem>)
    requires b.Board?
    decreases |boards|
  {
    if boards == [] then [b]
    else if boards[0].Board? && boards[0].id == b.id then [b] + boards[1..]
    else [boards[0]] + PutBoard(boards[1..], b)
  }

  function PutBoards(boards: seq<BoardItem>, items: seq<BoardItem>): seq<BoardItem>
    decreases |items|
  {
    if items == [] then boards
    else PutBoards(if items[0].Board? then PutBoard(boards, items[0]) else boards, items[1..])
  }

  datatype Sums = Sums(outcomes: map<string, nat>, boards: seq<BoardItem>, failures: set<string>, run: Option<string>,
                       selected: nat, scheduled: nat, changed: nat, failed: nat)

  const NOTHING := Sums(map[], [], {}, None, 0, 0, 0, 0)

  function Add(s: Sums, r: Report): Sums {
    Sums(AddOutcomes(s.outcomes, r.outcomes),
         if r.boards.Some? then PutBoards(s.boards, r.boards.value) else s.boards,
         s.failures + r.failures,
         if Integer(r.selected) > 0 && r.runId.RunText? then Some(r.runId.name) else s.run,
         s.selected + Integer(r.selected), s.scheduled + Integer(r.scheduled),
         s.changed + ChangedCount(r), s.failed + FailedCount(r))
  }

  function Fold(s: Sums, rs: seq<Report>): Sums
    decreases |rs|
  {
    if rs == [] then s else Fold(Add(s, rs[0]), rs[1..])
  }

  function Succeeded(boards: seq<BoardItem>): nat {
    if boards == [] then 0
    else (if boards[0].Board? && boards[0].status == "succeeded" then 1 else 0) + Succeeded(boards[1..])
  }

  lemma {:induction false} SucceededAtMost(boards: seq<BoardItem>)
    ensures Succeeded(boards) <= |boards|
    decreases |boards|
  {
    if boards != [] {
      SucceededAtMost(boards[1..]);
    }
  }

  function Raw(sums: map<string, nat>): map<string, Value> {
    map name | name in sums :: Int(sums[name])
  }

  function Finish(s: Sums, last: Report): Report {
    last.(outcomes := Some(Raw(s.outcomes)), boards := Some(s.boards), failures := s.failures,
          runId := if s.run.Some? then RunText(s.run.value) else last.runId,
          selected := Some(Int(s.selected)), scheduled := Some(Int(s.scheduled)),
          changed := Some(Int(s.changed)), failed := Some(Int(s.failed)),
          boardsOk := if s.boards != [] then Some(Int(Succeeded(s.boards))) else last.boardsOk,
          boardsFailed := if s.boards != [] then Some(Int(|s.boards| - Succeeded(s.boards))) else last.boardsFailed)
  }

  // _combined_collection_report
  function Combine(rs: seq<Report>): Report
    requires rs != []
  {
    Finish(Fold(NOTHING, rs), rs[|rs| - 1])
  }

  // ---------------------------------------------------------------- combining in two steps

  lemma {:induction false} FoldJoin(s: Sums, a: seq<Report>, b: seq<Report>)
    ensures Fold(s, a + b) == Fold(Fold(s, a), b)
    decreases |a|
  {
    if a == [] {
      assert a + b == b;
    } else {
      assert (a + b)[1..] == a[1..] + b;
      FoldJoin(Add(s, a[0]), a[1..], b);
    }
  }

  // ---------------------------------------------------------------- what a combination says

  lemma FoldSnoc(rs: seq<Report>, r: Report)
    ensures Fold(NOTHING, rs + [r]) == Add(Fold(NOTHING, rs), r)
  {
    FoldJoin(NOTHING, rs, [r]);
    assert [r][1..] == [];
  }

  // A counter that is a non-negative integer counts, anything else is nothing.
  function Counted(v: Option<Value>): nat {
    match v
    case Some(Int(n)) => if n >= 0 then n else 0
    case _ => 0
  }

  function Named(r: Report, name: string): nat {
    if r.outcomes.Some? && name in r.outcomes.value then Counted(Some(r.outcomes.value[name])) else 0
  }

  // One report more adds its counters and its failure codes, and its other fields stand for the whole.
  // Changed and failed posts that a report does not count are its stored and its unparsed and unfetched
  // ones.
  lemma OneReportMore(rs: seq<Report>, r: Report)
    requires rs != []
    ensures var a, c := Combine(rs), Combine(rs + [r]);
            && c.rest == r.rest && c.failures == a.failures + r.failures
            && c.selected == Some(Int(Counted(a.selected) + Counted(r.selected)))
            && c.scheduled == Some(Int(Counted(a.scheduled) + Counted(r.scheduled)))
            && c.changed == Some(Int(Counted(a.changed)
                                     + if r.changed.Some? then Counted(r.changed) else Named(r, "stored")))
            && c.failed == Some(Int(Counted(a.failed)
                                    + if r.failed.Some? then Counted(r.failed)
                                      else Named(r, "parse_failed") + Named(r, "fetch_failed")))
  {
    FoldSnoc(rs, r);
    assert ChangedCount(r) == if r.changed.Some? then Counted(r.changed) else Named(r, "stored");
    assert FailedCount(r) == if r.failed.Some? then Counted(r.failed) else Named(r, "parse_failed") + Named(r, "fetch_failed");
  }

  // And its outcomes, each under its name.
  lemma OneReportsOutcomes(rs: seq<Report>, r: Report, name: string)
    requires rs != []
    ensures Named(Combine(rs + [r]), name) == Named(Combine(rs), name) + Named(r, name)
  {
    FoldSnoc(rs, r);
  }

  // A report alone counts as itself.
  lemma OneReport(r: Report)
    ensures var c := Combine([r]);
            && c.rest == r.rest && c.failures == r.failures && c.runId == r.runId
            && c.selected == Some(Int(Counted(r.selected))) && c.scheduled == Some(Int(Counted(r.scheduled)))
            && forall name :: Named(c, name) == Named(r, name)
  {
    assert [r][1..] == [];
    assert Fold(NOTHING, [r]) == Add(NOTHING, r);
  }

  predicate Selecting(r: Report) {
    Counted(r.selected) > 0 && r.runId.RunText?
  }

  // The run id is that of the latest report that selected posts and has one, else the last report's.
  lemma RunIsLatest(rs: seq<Report>, i: nat)
    requires i < |rs| && Selecting(rs[i]) && forall j | i < j < |rs| :: !Selecting(rs[j])
    ensures Combine(rs).runId == rs[i].runId
  {
    assert rs == rs[..i + 1] + rs[i + 1..] && rs[..i + 1] == rs[..i] + [rs[i]];
    FoldJoin(NOTHING, rs[..i + 1], rs[i + 1..]);
    FoldSnoc(rs[..i], rs[i]);
    NoneSelecting(Fold(NOTHING, rs[..i + 1]), rs[i + 1..]);
  }

  lemma NoRunIsLatest(rs: seq<Report>)
    requires rs != [] && forall j | 0 <= j < |rs| :: !Selecting(rs[j])
    ensures Combine(rs).runId == rs[|rs| - 1].runId
  {
    NoneSelecting(NOTHING, rs);
  }

  lemma {:induction false} NoneSelecting(s: Sums, rs: seq<Report>)
    requires forall j | 0 <= j < |rs| :: !Selecting(rs[j])
    ensures Fold(s, rs).run == s.run
    decreases |rs|
  {
    if rs != [] {
      assert forall j | 0 <= j < |rs| - 1 :: rs[1..][j] == rs[j + 1];
      NoneSelecting(Add(s, rs[0]), rs[1..]);
    }
  }

  // Boards with different ids, in the order they were first seen.
  ghost predicate Keyed(boards: seq<BoardItem>) {
    && (forall i | 0 <= i < |boards| :: boards[i].Board?)
    && (forall i, j | 0 <= i < j < |boards| :: boards[i].id != boards[j].id)
  }

  lemma {:induction false} PutBoardKeyed(boards: seq<BoardItem>, b: BoardItem)
    requires Keyed(boards) && b.Board?
    ensures Keyed(PutBoard(boards, b))
    ensures forall i | 0 <= i < |PutBoard(boards, b)| ::
              PutBoard(boards, b)[i] == b || PutBoard(boards, b)[i] in boards
    ensures (forall i | 0 <= i < |boards| :: boards[i].id != b.id) ==> PutBoard(boards, b) == boards + [b]
    decreases |boards|
  {
    if boards != [] && boards[0].id != b.id {
      assert forall i | 0 <= i < |boards| - 1 :: boards[1..][i] == boards[i + 1];
      PutBoardKeyed(boards[1..], b);
      var rest := PutBoard(boards[1..], b);
      forall i | 0 <= i < |rest| ensures rest[i].id != boards[0].id && (rest[i] == b || rest[i] in boards) {
        if rest[i] != b {
          var k :| 0 <= k < |boards[1..]| && boards[1..][k] == rest[i];
          assert boards[0].id != boards[k + 1].id;
        }
      }
      assert PutBoard(boards, b) == [boards[0]] + rest;
    }
  }

  lemma {:induction false} PutBoardsKeyed(boards: seq<BoardItem>, items: seq<BoardItem>)
    requires Keyed(boards)
    ensures Keyed(PutBoards(boards, items))
    decreases |items|
  {
    if items != [] {
      if items[0].Board? {
        PutBoardKeyed(boards, items[0]);
        PutBoardsKeyed(PutBoard(boards, items[0]), items[1..]);
      } else {
        PutBoardsKeyed(boards, items[1..]);
      }
    }
  }

  // Putting a keyed list into an empty dictionary gives the list back.
  lemma {:induction false} PutKeyed(boards: seq<BoardItem>, items: seq<BoardItem>)
    requires Keyed(boards + items)
    ensures PutBoards(boards, items) == boards + items
    decreases |items|
  {
    if items == [] {
      assert boards + items == boards;
    } else {
      var all := boards + items;
      assert items[0] == all[|boards|];
      forall i | 0 <= i < |boards|
        ensures boards[i].Board? && boards[i].id != items[0].id
        ensures forall j | 0 <= j < i :: boards[j].Board? && boards[j].id != boards[i].id
      {
        assert boards[i] == all[i] && forall j | 0 <= j < i :: boards[j] == all[j];
      }
      PutBoardKeyed(boards, items[0]);
      assert boards + [items[0]] + items[1..] == all;
      PutKeyed(boards + [items[0]], items[1..]);
    }
  }

  lemma {:induction false} FoldKeyed(s: Sums, rs: seq<Report>)
    requires Keyed(s.boards)
    ensures Keyed(Fold(s, rs).boards)
    decreases |rs|
  {
    if rs != [] {
      if rs[0].boards.Some? {
        PutBoardsKeyed(s.boards, rs[0].boards.value);
      }
      FoldKeyed(Add(s, rs[0]), rs[1..]);
    }
  }

  // The run id that the combination of `rs` counts as its own in the next round.
  function CarriedRun(rs: seq<Report>): Option<string>
    requires rs != []
  {
    var s := Fold(NOTHING, rs);
    if s.selected > 0 && s.run.Some? then s.run
    else if s.selected > 0 && rs[|rs| - 1].runId.RunText? then Some(rs[|rs| - 1].runId.name)
    else None
  }

  // Read back, a combined report counts for what its reports counted for; only the run may differ.
  lemma CombinedCountsTheSame(rs: seq<Report>)
    requires rs != []
    ensures Add(NOTHING, Combine(rs)) == Fold(NOTHING, rs).(run := CarriedRun(rs))
  {
    var s, c := Fold(NOTHING, rs), Combine(rs);
    var last := rs[|rs| - 1];
    FoldKeyed(NOTHING, rs);
    ReadBack(s, last);
    RunMeansSelected(NOTHING, rs);
  }

  lemma ReadBack(s: Sums, last: Report)
    requires Keyed(s.boards)
    ensures var c := Finish(s, last);
            var run := if s.selected > 0 && c.runId.RunText? then Some(c.runId.name) else None;
            Add(NOTHING, c) == s.(run := run)
  {
    assert [] + s.boards == s.boards;
    PutKeyed([], s.boards);
    OutcomesReadBack(s.outcomes);
  }

  lemma OutcomesReadBack(sums: map<string, nat>)
    ensures AddOutcomes(map[], Some(Raw(sums))) == sums
  {
  }

  lemma {:induction false} RunMeansSelected(s: Sums, rs: seq<Report>)
    requires s.run.Some? ==> s.selected > 0
    ensures Fold(s, rs).run.Some? ==> Fold(s, rs).selected > 0
    ensures Fold(s, rs).selected >= s.selected
    decreases |rs|
  {
    if rs != [] {
      RunMeansSelected(Add(s, rs[0]), rs[1..]);
    }
  }

  // The run only passes through the fold.
  lemma {:induction false} RunPassesThrough(s: Sums, run: Option<string>, rs: seq<Report>)
    ensures Fold(s.(run := run), rs)
            == Fold(s, rs).(run := if Fold(s.(run := None), rs).run.Some? then Fold(s.(run := None), rs).run else run)
    decreases |rs|
  {
    if rs != [] {
      var next := Add(s, rs[0]);
      var own := Integer(rs[0].selected) > 0 && rs[0].runId.RunText?;
      var carried := if own then Some(rs[0].runId.name) else run;
      assert Add(s.(run := run), rs[0]) == next.(run := carried);
      RunPassesThrough(next, carried, rs[1..]);
      if own {
        assert Add(s.(run := None), rs[0]) == next.(run := Some(rs[0].runId.name));
      } else {
        assert Add(s.(run := None), rs[0]) == next.(run := None);
      }
    }
  }

  // Compacting the first k reports of rs.
  function Compacted(rs: seq<Report>, k: nat): seq<Report>
    requires 0 < k <= |rs|
  {
    [Combine(rs[..k])] + rs[k..]
  }

  // No report that selected posts carries a run id, some among the first k did select posts, and the
  // k-th carries a run id that the last one does not.
  predicate RunMoves(rs: seq<Report>, k: nat)
    requires 0 < k <= |rs|
  {
    && Fold(NOTHING, rs).run.None?
    && Fold(NOTHING, rs[..k]).selected > 0
    && rs[k - 1].runId.RunText?
    && rs[|rs| - 1].runId != rs[k - 1].runId
  }

  // Compaction changes nothing of the combined report, exactly outside that corner.
  lemma CompactionIff(rs: seq<Report>, k: nat)
    requires 0 < k <= |rs|
    ensures Combine(Compacted(rs, k)) == Combine(rs) <==> !RunMoves(rs, k)
  {
    TwoSteps(rs, k);
    RunMeansSelected(NOTHING, rs[..k]);
    var s, front := Fold(NOTHING, rs), rs[..k];
    if k == |rs| {
      assert front == rs && rs[k..] == [];
      FinishAgain(s, rs[|rs| - 1], CarriedRun(rs));
    } else {
      FinishIff(s, Fold(NOTHING, Compacted(rs, k)).run, rs[|rs| - 1]);
    }
  }

  function RunIdOf(run: Option<string>, last: Report): RunId {
    if run.Some? then RunText(run.value) else last.runId
  }

  lemma FinishIff(s: Sums, run: Option<string>, last: Report)
    ensures Finish(s.(run := run), last) == Finish(s, last) <==> RunIdOf(run, last) == RunIdOf(s.run, last)
  {
    assert Finish(s.(run := run), last) == Finish(s, last).(runId := RunIdOf(run, last));
  }

  lemma FinishAgain(s: Sums, last: Report, run: Option<string>)
    requires run.Some? ==> RunText(run.value) == RunIdOf(s.run, last)
    ensures Finish(s.(run := run), Finish(s, last)) == Finish(s, last)
  {
  }

  // The fold over the compacted list, with the run that was carried.
  lemma TwoSteps(rs: seq<Report>, k: nat)
    requires 0 < k <= |rs|
    ensures var front, back := rs[..k], rs[k..];
            var own := Fold(Fold(NOTHING, front).(run := None), back).run;
            && Fold(NOTHING, Compacted(rs, k))
               == Fold(NOTHING, rs).(run := if own.Some? then own else CarriedRun(front))
            && Fold(NOTHING, rs).run == (if own.Some? then own else Fold(NOTHING, front).run)
            && Compacted(rs, k)[|Compacted(rs, k)| - 1] == (if back == [] then Combine(front) else rs[|rs| - 1])
            && (back == [] ==> own.None?)
  {
    var front, back := rs[..k], rs[k..];
    var s := Fold(NOTHING, front);
    assert rs == front + back;
    FoldJoin(NOTHING, front, back);
    FoldJoin(NOTHING, [Combine(front)], back);
    FoldOne(NOTHING, Combine(front));
    CombinedCountsTheSame(front);
    RunPassesThrough(s, CarriedRun(front), back);
    RunPassesThrough(s, s.run, back);
    assert s.(run := s.run) == s;
  }

  // The condition the runner's reports meet: a report that selected posts has a run id.
  ghost predicate RunsNamed(rs: seq<Report>) {
    forall r | r in rs :: Integer(r.selected) > 0 ==> r.runId.RunText?
  }

  lemma {:induction false} NamedRunsAreFound(s: Sums, rs: seq<Report>)
    requires RunsNamed(rs) && (s.selected > 0 ==> s.run.Some?)
    ensures Fold(s, rs).selected > 0 ==> Fold(s, rs).run.Some?
    decreases |rs|
  {
    if rs != [] {
      assert rs[0] in rs && forall r | r in rs[1..] :: r in rs;
      NamedRunsAreFound(Add(s, rs[0]), rs[1..]);
    }
  }

  lemma CompactionIsFaithful(rs: seq<Report>, k: nat)
    requires 0 < k <= |rs| && RunsNamed(rs)
    ensures Combine(Compacted(rs, k)) == Combine(rs) && RunsNamed(Compacted(rs, k))
  {
    CompactionIff(rs, k);
    assert forall r | r in rs[..k] :: r in rs;
    NamedRunsAreFound(NOTHING, rs[..k]);
    assert rs == rs[..k] + rs[k..];
    FoldJoin(NOTHING, rs[..k], rs[k..]);
    RunStays(Fold(NOTHING, rs[..k]), rs[k..]);
    forall r | r in Compacted(rs, k) ensures Integer(r.selected) > 0 ==> r.runId.RunText? {
      assert r == Combine(rs[..k]) || r in rs;
    }
  }

  lemma {:induction false} RunStays(s: Sums, rs: seq<Report>)
    ensures s.run.Some? ==> Fold(s, rs).run.Some?
    decreases |rs|
  {
    if rs != [] {
      RunStays(Add(s, rs[0]), rs[1..]);
    }
  }

  // Three reports for which compaction does move the run id: the first selected posts but has no run
  // id, the second has one and selected nothing, the third has another.
  lemma CompactionCanMoveTheRun(a: Report, b: Report, c: Report)
    requires Integer(a.selected) > 0 && a.runId.NoRun?
    requires Integer(b.selected) == Integer(c.selected) == 0
    requires b.runId.RunText? && c.runId.RunText? && b.runId != c.runId
    ensures Combine(Compacted([a, b, c], 2)) != Combine([a, b, c])
  {
    var rs := [a, b, c];
    assert rs[..2] == [a, b] && rs == [a, b] + [c];
    FoldJoin(NOTHING, [a], [b]);
    assert [a, b] == [a] + [b];
    FoldJoin(NOTHING, [a, b], [c]);
    FoldOne(NOTHING, a);
    FoldOne(Add(NOTHING, a), b);
    FoldOne(Add(Add(NOTHING, a), b), c);
    CompactionIff(rs, 2);
  }

  lemma FoldOne(s: Sums, r: Report)
    ensures Fold(s, [r]) == Add(s, r)
  {
    assert [r][1..] == [] && Fold(Add(s, r), []) == Add(s, r);
  }

  // ---------------------------------------------------------------- as it runs

  // The loops of _combined_collection_report.
  method CombinedReport(rs: seq<Report>) returns (r: Report)
    requires rs != []
    ensures r == Combine(rs)
  {
    var s := NOTHING;
    assert rs[0..] == rs;
    for n := 0 to |rs|
      invariant Fold(NOTHING, rs) == Fold(s, rs[n..])
    {
      assert rs[n..][0] == rs[n] && rs[n..][1..] == rs[n + 1..];
      var boards := s.boards;
      if rs[n].boards.Some? {
        var items := rs[n].boards.value;
        assert items[0..] == items;
        for j := 0 to |items|
          invariant PutBoards(s.boards, items) == PutBoards(boards, items[j..])
        {
          assert items[j..][0] == items[j] && items[j..][1..] == items[j + 1..];
          if items[j].Board? {
            boards := PutBoard(boards, items[j]);
          }
        }
      }
      s := Add(s, rs[n]).(boards := boards);
    }
    r := Finish(s, rs[|rs| - 1]);
  }

  // The reports a running command keeps: never more than 16 between cycles.
  class CycleReports {
    var reports: seq<Report>
    ghost var all: seq<Report>  // every report since the command began

    ghost predicate Valid()
      reads this
    {
      && |reports| <= 16 && RunsNamed(reports) && (reports == [] <==> all == [])
      && (all != [] ==> Combine(reports) == Combine(all))
    }

    constructor ()
      ensures Valid() && all == []
    {
      reports, all := [], [];
    }

    // reports.append(report), and the compaction above 16
    method Append(r: Report)
      requires Valid() && (Integer(r.selected) > 0 ==> r.runId.RunText?) && RunsNamed(all)
      modifies this
      ensures Valid() && all == old(all) + [r] && RunsNamed(all)
    {
      ghost var before := all;
      AppendBoth(reports, all, r);
      reports := reports + [r];
      all := all + [r];
      if |reports| > 16 {
        CompactionIsFaithful(reports, |reports|);
        assert Compacted(reports, |reports|) == [Combine(reports)] by {
          assert reports[..|reports|] == reports;
        }
        var combined := CombinedReport(reports);
        reports := [combined];
      }
    }

    method Combined() returns (r: Report)
      requires Valid() && all != []
      ensures r == Combine(all)
    {
      r := CombinedReport(reports);
    }
  }

  // One more report on two lists that combine to the same.
  lemma AppendBoth(a: seq<Report>, b: seq<Report>, r: Report)
    requires (a == [] <==> b == []) && (a != [] ==> Combine(a) == Combine(b))
    requires RunsNamed(a) && RunsNamed(b)
    ensures Combine(a + [r]) == Combine(b + [r])
  {
    if a != [] {
      CombinedCountsTheSame(a);
      CombinedCountsTheSame(b);
      NamedRunsAreFound(NOTHING, a);
      NamedRunsAreFound(NOTHING, b);
      FoldJoin(NOTHING, a, [r]);
      FoldJoin(NOTHING, b, [r]);
      RunMeansSelected(NOTHING, a);
      RunMeansSelected(NOTHING, b);
    }
  }

  // ---------------------------------------------------------------- the boards of a combination

  function Items(rs: seq<Report>): seq<BoardItem> {
    if rs == [] then [] else (if rs[0].boards.Some? then rs[0].boards.value else []) + Items(rs[1..])
  }

  // The last item of its board.
  predicate LastItem(items: seq<BoardItem>, b: BoardItem) {
    exists k :: 0 <= k < |items| && LastAt(items, b, k)
  }

  predicate LastAt(items: seq<BoardItem>, b: BoardItem, k: nat)
    requires k < |items|
  {
    items[k] == b && b.Board? && NoneFrom(items, k + 1, b.id)
  }

  predicate NoneFrom(items: seq<BoardItem>, k: nat, id: string) {
    forall j | k <= j < |items| :: !(items[j].Board? && items[j].id == id)
  }

  lemma {:induction false} PutBoardIs(boards: seq<BoardItem>, b: BoardItem, x: BoardItem)
    requires Keyed(boards) && b.Board?
    ensures x in PutBoard(boards, b) <==> x == b || (x in boards && x.id != b.id)
    decreases |boards|
  {
    if boards != [] {
      assert Keyed(boards[1..]) by {
        assert forall i | 0 <= i < |boards| - 1 :: boards[1..][i] == boards[i + 1];
      }
      if boards[0].id == b.id {
        assert forall y | y in boards[1..] :: y.id != b.id;
      } else {
        PutBoardIs(boards[1..], b, x);
      }
    }
  }

  lemma NoneFromTail(items: seq<BoardItem>, k: nat, id: string)
    requires items != []
    ensures NoneFrom(items, k + 1, id) == NoneFrom(items[1..], k, id)
    ensures NoneFrom(items, 0, id) <==> !(items[0].Board? && items[0].id == id) && NoneFrom(items[1..], 0, id)
  {
    assert forall j | 0 <= j < |items| - 1 :: items[1..][j] == items[j + 1];
    if NoneFrom(items[1..], k, id) {
      forall j | k + 1 <= j < |items| ensures !(items[j].Board? && items[j].id == id) {
        assert items[1..][j - 1] == items[j];
      }
    }
    if NoneFrom(items[1..], 0, id) && !(items[0].Board? && items[0].id == id) {
      forall j | 0 <= j < |items| ensures !(items[j].Board? && items[j].id == id) {
        assert j > 0 ==> items[1..][j - 1] == items[j];
      }
    }
  }

  lemma LastItemTail(items: seq<BoardItem>, b: BoardItem)
    requires items != []
    ensures LastItem(items, b)
       <==> LastItem(items[1..], b) || (items[0] == b && b.Board? && NoneFrom(items[1..], 0, b.id))
  {
    if LastItem(items, b) {
      var k :| 0 <= k < |items| && LastAt(items, b, k);
      NoneFromTail(items, k, b.id);
      if k > 0 {
        NoneFromTail(items, k, b.id);
        assert LastAt(items[1..], b, k - 1);
      }
    }
    if LastItem(items[1..], b) {
      var k :| 0 <= k < |items[1..]| && LastAt(items[1..], b, k);
      NoneFromTail(items, k + 1, b.id);
      assert LastAt(items, b, k + 1);
    }
    if items[0] == b && b.Board? && NoneFrom(items[1..], 0, b.id) {
      NoneFromTail(items, 0, b.id);
      assert LastAt(items, b, 0);
    }
  }

  // What a list of items leaves in a dictionary of boards.
  lemma {:induction false} PutBoardsIs(boards: seq<BoardItem>, items: seq<BoardItem>, x: BoardItem)
    requires Keyed(boards)
    ensures x in PutBoards(boards, items) <==> LastItem(items, x) || (x in boards && x.Board? && NoneFrom(items, 0, x.id))
    decreases |items|
  {
    if items != [] {
      var next := if items[0].Board? then PutBoard(boards, items[0]) else boards;
      if items[0].Board? {
        PutBoardKeyed(boards, items[0]);
        PutBoardIs(boards, items[0], x);
      }
      PutBoardsIs(next, items[1..], x);
      LastItemTail(items, x);
      if x.Board? {
        NoneFromTail(items, 0, x.id);
      }
    }
  }

  lemma {:induction false} FoldBoards(s: Sums, rs: seq<Report>)
    ensures Fold(s, rs).boards == PutBoards(s.boards, Items(rs))
    decreases |rs|
  {
    if rs != [] {
      var mine := if rs[0].boards.Some? then rs[0].boards.value else [];
      FoldBoards(Add(s, rs[0]), rs[1..]);
      PutBoardsJoin(s.boards, mine, Items(rs[1..]));
    }
  }

  lemma {:induction false} PutBoardsJoin(boards: seq<BoardItem>, a: seq<BoardItem>, b: seq<BoardItem>)
    ensures PutBoards(boards, a + b) == PutBoards(PutBoards(boards, a), b)
    decreases |a|
  {
    if a == [] {
      assert a + b == b;
    } else {
      assert (a + b)[1..] == a[1..] + b;
      PutBoardsJoin(if a[0].Board? then PutBoard(boards, a[0]) else boards, a[1..], b);
    }
  }

  // Every board is there once, with the last item any report has of it.
  lemma BoardsAreLatest(rs: seq<Report>, x: BoardItem)
    requires rs != []
    ensures Combine(rs).boards.Some? && Keyed(Combine(rs).boards.value)
    ensures x in Combine(rs).boards.value <==> LastItem(Items(rs), x)
  {
    FoldBoards(NOTHING, rs);
    PutBoardsKeyed([], Items(rs));
    PutBoardsIs([], Items(rs), x);
  }
}
