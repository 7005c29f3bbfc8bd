// The command ledger of scripts/control_store.py and the way scripts/control_runner.py resumes a
// recorded command. A transaction is one ledger step; a crash may fall between any two steps.
module Commands {
  import opened Wrappers

  datatype Action =
    | SyncNow | FullCatalog | FullContent | FillMissingContent | RetryBatch | PublishIfChanged
    | PauseAfterCurrent | ResumeSchedule
  {
    predicate Marker() { PauseAfterCurrent? || ResumeSchedule? }
  }

  datatype State = Claimed | Running | Succeeded | Partial | Failed {
    predicate Terminal() { Succeeded? || Partial? || Failed? }
  }

  datatype ReportState = Pending | Delivered | Rejected

  // `code` and `payload` are the recorded result; progress counters overwrite it while running.
  datatype Outcome = Empty | Progress(counters: seq<nat>) | Finished(code: Option<string>, payload: seq<nat>)

  datatype Command = Command(action: Action, state: State, claimedAt: int, updatedAt: int, runId: Option<string>,
                             result: Outcome, reportedAt: Option<int>, report: ReportState)

  type Ledger = map<string, Command>

  // One transaction of the store.
  datatype Step =
    | Claim(id: string, action: Action, now: int)
    | Begin(id: string, runId: Option<string>, now: int)
    | Update(id: string, counters: seq<nat>, now: int)
    | Touch(id: string, now: int)
    | Finish(id: string, state: State, code: Option<string>, payload: seq<nat>, now: int)
    | MarkReported(id: string, now: int)
    | MarkRejected(id: string, now: int)

  // The new ledger, and whether the call returned True (for Begin, Update and Touch) or did not
  // raise (for the others). An exception may follow a committed update only where nothing changed.
  function Next(l: Ledger, s: Step): (Ledger, bool) {
    match s
    case Claim(id, action, now) =>
      if id in l then (l, l[id].action == action)
      else (l[id := Command(action, Claimed, now, now, None, Empty, None, Pending)], true)
    case Begin(id, runId, now) =>
      if id in l && l[id].state.Claimed?
      then (l[id := l[id].(state := Running, runId := runId, updatedAt := now)], true)
      else (l, false)
    case Update(id, counters, now) =>
      if id in l && l[id].state.Running?
      then (l[id := l[id].(result := Progress(counters), updatedAt := now)], true)
      else (l, false)
    case Touch(id, now) =>
      if id in l && l[id].state.Running?
      then (l[id := l[id].(updatedAt := now)], true)
      else (l, false)
    case Finish(id, state, code, payload, now) =>
      if !state.Terminal() || id !in l then (l, false)
      else if l[id].state.Claimed? || l[id].state.Running?
      then (l[id := l[id].(state := state, result := Finished(code, payload), updatedAt := now,
                           reportedAt := None, report := Pending)], true)
      else (l, l[id].state == state)
    case MarkReported(id, now) =>
      if id in l && l[id].state.Terminal() && l[id].report.Pending?
      then (l[id := l[id].(reportedAt := Some(now), report := Delivered)], true)
      else (l, id in l && l[id].report.Delivered?)
    case MarkRejected(id, now) =>
      if id in l && l[id].state.Terminal() && l[id].report.Pending?
      then (l[id := l[id].(reportedAt := Some(now), report := Rejected)], true)
      else (l, id in l && l[id].report.Rejected?)
  }

  function Run(l: Ledger, steps: seq<Step>): Ledger
    decreases |steps|
  {
    if steps == [] then l else Run(Next(l, steps[0]).0, steps[1..])
  }

  // How often the command's work was started in a run.
  function Begun(l: Ledger, steps: seq<Step>, id: string): nat
    decreases |steps|
  {
    if steps == [] then 0
    else
      (if steps[0].Begin? && steps[0].id == id && Next(l, steps[0]).1 then 1 else 0)
      + Begun(Next(l, steps[0]).0, steps[1..], id)
  }

  ghost predicate Sound(l: Ledger) {
    forall id | id in l ::
      && (!l[id].state.Terminal() ==> l[id].report.Pending? && l[id].reportedAt.None?)
      && (l[id].reportedAt.Some? <==> !l[id].report.Pending?)
      && (l[id].state.Claimed? ==> l[id].result.Empty? && l[id].runId.None?)
      && (l[id].state.Terminal() ==> l[id].result.Finished?)
  }

  // What never goes back: an id and its action stay, a state only moves forward, a terminal state
  // keeps its result, and a settled report keeps its outcome and time.
  ghost predicate Forward(before: Ledger, after: Ledger) {
    forall id | id in before ::
      && id in after
      && after[id].action == before[id].action
      && after[id].claimedAt == before[id].claimedAt
      && (before[id].state.Terminal() ==>
            after[id].state == before[id].state && after[id].result == before[id].result)
      && (before[id].state.Running? ==> !after[id].state.Claimed?)
      && (!before[id].report.Pending? ==>
            after[id].report == before[id].report && after[id].reportedAt == before[id].reportedAt)
  }

  lemma {:induction false} RunsGoForward(l: Ledger, steps: seq<Step>)
    requires Sound(l)
    ensures Sound(Run(l, steps)) && Forward(l, Run(l, steps))
    decreases |steps|
  {
    if steps != [] {
      var m := Next(l, steps[0]).0;
      StepGoesForward(l, steps[0]);
      RunsGoForward(m, steps[1..]);
      ForwardChains(l, m, Run(m, steps[1..]));
    }
  }

  lemma StepGoesForward(l: Ledger, s: Step)
    requires Sound(l)
    ensures Sound(Next(l, s).0) && Forward(l, Next(l, s).0)
  {
  }

  lemma ForwardChains(a: Ledger, b: Ledger, c: Ledger)
    requires Forward(a, b) && Forward(b, c)
    ensures Forward(a, c)
  {
  }

  // A command's work is started at most once, whatever is replayed and wherever runs are cut.
  lemma {:induction false} BeginsAtMostOnce(l: Ledger, steps: seq<Step>, id: string)
    ensures Begun(l, steps, id) <= 1
    ensures id in l && !l[id].state.Claimed? ==> Begun(l, steps, id) == 0
    decreases |steps|
  {
    if steps != [] {
      BeginsAtMostOnce(Next(l, steps[0]).0, steps[1..], id);
    }
  }

  // Every command that is running or was started has been started exactly once.
  lemma {:induction false} RunningWasBegun(l: Ledger, steps: seq<Step>, id: string)
    requires id !in l || l[id].state.Claimed?
    requires id in Run(l, steps) && Run(l, steps)[id].state.Running?
    ensures Begun(l, steps, id) == 1
    decreases |steps|
  {
    if steps != [] {
      var m := Next(l, steps[0]).0;
      if id in m && !m[id].state.Claimed? {
        BeginsAtMostOnce(m, steps[1..], id);
        if !(steps[0].Begin? && steps[0].id == id && Next(l, steps[0]).1) {
          TerminalStays(m, steps[1..], id);
        }
      } else {
        RunningWasBegun(m, steps[1..], id);
      }
    }
  }

  lemma {:induction false} TerminalStays(l: Ledger, steps: seq<Step>, id: string)
    requires id in l && l[id].state.Terminal()
    ensures id in Run(l, steps) && Run(l, steps)[id].state == l[id].state
    decreases |steps|
  {
    if steps != [] {
      TerminalStays(Next(l, steps[0]).0, steps[1..], id);
    }
  }

  // ------------------------------------------------------------------ the runner

  // What the runner's environment decides while it handles one command.
  datatype Work = Work(checkpoint: bool,                     // a checkpoint file of this command exists
                       progress: seq<seq<nat>>,              // progress saved while it works
                       state: State, code: Option<string>, payload: seq<nat>,
                       delivery: Delivery, now: int)

  datatype Delivery = DeliveredNow | QueuedForLater | RejectedForGood

  function Report(id: string, w: Work): seq<Step> {
    match w.delivery
    case DeliveredNow => [MarkReported(id, w.now)]
    case QueuedForLater => []
    case RejectedForGood => [MarkRejected(id, w.now)]
  }

  function Saves(id: string, progress: seq<seq<nat>>, now: int): seq<Step> {
    if progress == [] then [] else [Update(id, progress[0], now)] + Saves(id, progress[1..], now)
  }

  function Close(id: string, w: Work): seq<Step> {
    [Finish(id, w.state, w.code, w.payload, w.now)] + Report(id, w)
  }

  predicate Resumable(c: Command, w: Work) {
    || c.action.FillMissingContent? || c.action.RetryBatch?
    || ((c.action.FullCatalog? || c.action.FullContent?) && w.checkpoint)
  }

  const INTERRUPTED: Option<string> := Some("runner_interrupted")

  // The ledger steps _resume takes for a recorded command when nothing cuts it short.
  function Handling(id: string, c: Command, w: Work): seq<Step> {
    if c.state.Terminal() then Report(id, w)
    else if c.state.Running? then
      if Resumable(c, w) then Saves(id, w.progress, w.now) + Close(id, w)
      else [Finish(id, Failed, INTERRUPTED, w.payload, w.now)] + Report(id, w)
    else if c.action.Marker() then [Begin(id, None, w.now)] + Close(id, w)
    else [Begin(id, Some("command-" + id), w.now)] + Saves(id, w.progress, w.now) + Close(id, w)
  }

  lemma {:induction false} RunSplits(l: Ledger, a: seq<Step>, b: seq<Step>)
    ensures Run(l, a + b) == Run(Run(l, a), b)
    decreases |a|
  {
    if a == [] {
      assert a + b == b;
    } else {
      assert (a + b)[1..] == a[1..] + b;
      RunSplits(Next(l, a[0]).0, a[1..], b);
    }
  }

  lemma {:induction false} SavesKeepRunning(l: Ledger, id: string, progress: seq<seq<nat>>, now: int)
    requires id in l && l[id].state.Running?
    ensures var m := Run(l, Saves(id, progress, now));
            id in m && m[id] == l[id].(result := m[id].result, updatedAt := m[id].updatedAt)
    decreases |progress|
  {
    if progress != [] {
      SavesKeepRunning(Next(l, Update(id, progress[0], now)).0, id, progress[1..], now);
    }
  }

  // A command found running is never begun again. Left alone, the runner takes it to a terminal
  // state: the one its resumed work ends in when it can be resumed, an interrupted failure
  // otherwise. Its report is settled unless it had to be queued.
  lemma RunningIsResumedOrClosed(l: Ledger, id: string, w: Work)
    requires Sound(l) && id in l && l[id].state.Running? && w.state.Terminal()
    ensures forall s | s in Handling(id, l[id], w) :: !s.Begin?
    ensures var m := Run(l, Handling(id, l[id], w));
            && id in m
            && (if Resumable(l[id], w) then m[id].state == w.state && m[id].result == Finished(w.code, w.payload)
                else m[id].state == Failed && m[id].result == Finished(INTERRUPTED, w.payload))
            && m[id].report == ReportAfter(w.delivery)
  {
    if Resumable(l[id], w) {
      SavesOnlySave(id, w.progress, w.now);
      RunSplits(l, Saves(id, w.progress, w.now), Close(id, w));
      SavesKeepRunning(l, id, w.progress, w.now);
      var m := Run(l, Saves(id, w.progress, w.now));
      CloseCloses(m, id, w);
    } else {
      CloseCloses(l, id, w.(state := Failed, code := INTERRUPTED));
    }
  }

  function ReportAfter(d: Delivery): ReportState {
    match d
    case DeliveredNow => Delivered
    case QueuedForLater => Pending
    case RejectedForGood => Rejected
  }

  lemma {:induction false} SavesOnlySave(id: string, progress: seq<seq<nat>>, now: int)
    ensures forall s | s in Saves(id, progress, now) :: s.Update?
    decreases |progress|
  {
    if progress != [] {
      SavesOnlySave(id, progress[1..], now);
    }
  }

  lemma CloseCloses(l: Ledger, id: string, w: Work)
    requires id in l && l[id].state.Running? && w.state.Terminal()
    ensures var m := Run(l, Close(id, w));
            && id in m && m[id].state == w.state && m[id].result == Finished(w.code, w.payload)
            && m[id].report == ReportAfter(w.delivery)
  {
    var finish := Finish(id, w.state, w.code, w.payload, w.now);
    var m := Next(l, finish).0;
    assert Close(id, w)[0] == finish && Close(id, w)[1..] == Report(id, w);
    assert Run(l, Close(id, w)) == Run(m, Report(id, w));
    if Report(id, w) != [] {
      assert Report(id, w)[1..] == [];
      assert Run(m, Report(id, w)) == Next(m, Report(id, w)[0]).0;
    }
  }

  // A claimed command left alone is begun once, a working one under a run id of its own, and ends as its
  // work ends.
  lemma ClaimedIsDone(l: Ledger, id: string, w: Work)
    requires Sound(l) && id in l && l[id].state.Claimed? && w.state.Terminal()
    ensures Begun(l, Handling(id, l[id], w), id) == 1
    ensures var m := Run(l, Handling(id, l[id], w));
            && id in m && m[id].state == w.state && m[id].result == Finished(w.code, w.payload)
            && m[id].runId == (match l[id].action
                               case PauseAfterCurrent => None
                               case ResumeSchedule => None
                               case _ => Some("command-" + id))
            && m[id].report == ReportAfter(w.delivery)
  {
    var marker := l[id].action.PauseAfterCurrent? || l[id].action.ResumeSchedule?;
    var begin := Begin(id, if marker then None else Some("command-" + id), w.now);
    var saves := if marker then [] else Saves(id, w.progress, w.now);
    var m := Next(l, begin).0;
    assert Handling(id, l[id], w) == [begin] + (saves + Close(id, w));
    assert ([begin] + (saves + Close(id, w)))[1..] == saves + Close(id, w);
    RunSplits(m, saves, Close(id, w));
    if !marker {
      SavesKeepRunning(m, id, w.progress, w.now);
    }
    CloseCloses(Run(m, saves), id, w);
    CloseKeepsRun(Run(m, saves), id, w);
    BeginsAtMostOnce(m, saves + Close(id, w), id);
  }

  lemma CloseKeepsRun(l: Ledger, id: string, w: Work)
    requires id in l && l[id].state.Running? && w.state.Terminal()
    ensures var m := Run(l, Close(id, w)); id in m && m[id].runId == l[id].runId
  {
    var finish := Finish(id, w.state, w.code, w.payload, w.now);
    var m := Next(l, finish).0;
    assert Close(id, w)[0] == finish && Close(id, w)[1..] == Report(id, w);
    if Report(id, w) != [] {
      assert Report(id, w)[1..] == [];
      assert Run(m, Report(id, w)) == Next(m, Report(id, w)[0]).0;
    }
  }

  // Which running commands are resumed: a fill or a retry batch always, a catalog or a content round
  // with its checkpoint; every other is closed as interrupted.
  lemma ResumedIff(l: Ledger, id: string, w: Work)
    requires Sound(l) && id in l && l[id].state.Running? && w.state.Terminal()
    requires w.state != Failed || w.code != Some("runner_interrupted")
    ensures var m := Run(l, Handling(id, l[id], w));
            var goesOn := match l[id].action
                          case FillMissingContent => true
                          case RetryBatch => true
                          case FullCatalog => w.checkpoint
                          case FullContent => w.checkpoint
                          case _ => false;
            && id in m
            && (goesOn <==> m[id].state == w.state && m[id].result == Finished(w.code, w.payload))
            && (!goesOn <==> m[id].state == Failed && m[id].result == Finished(Some("runner_interrupted"), w.payload))
  {
    RunningIsResumedOrClosed(l, id, w);
  }

  // Polls over a whole run: each handles the command it finds, and may be cut after any step.
  datatype Poll = Poll(id: string, w: Work, cut: nat)

  function Polled(l: Ledger, p: Poll): seq<Step> {
    if p.id !in l then []
    else
      var steps := Handling(p.id, l[p.id], p.w);
      if p.cut < |steps| then steps[..p.cut] else steps
  }

  function PolledSteps(l: Ledger, polls: seq<Poll>): seq<Step>
    decreases |polls|
  {
    if polls == [] then []
    else Polled(l, polls[0]) + PolledSteps(Run(l, Polled(l, polls[0])), polls[1..])
  }

  // Whatever the runner is cut by, it starts each command at most once, and a command once started
  // is not started again; results and settled reports stay what they were.
  lemma PollsAreSafe(l: Ledger, polls: seq<Poll>, id: string)
    requires Sound(l)
    ensures Begun(l, PolledSteps(l, polls), id) <= 1
    ensures id in l && !l[id].state.Claimed? ==> Begun(l, PolledSteps(l, polls), id) == 0
    ensures Forward(l, Run(l, PolledSteps(l, polls)))
  {
    BeginsAtMostOnce(l, PolledSteps(l, polls), id);
    RunsGoForward(l, PolledSteps(l, polls));
  }

  // ------------------------------------------------------------------ the store itself

  class CommandStore {
    var rows: Ledger

    ghost predicate Valid()
      reads this
    {
      Sound(rows)
    }

    constructor ()
      ensures Valid() && rows == map[]
    {
      rows := map[];
    }

    method RecordClaim(id: string, action: Action, now: int) returns (row: Result<Command, ()>)
      requires Valid()
      modifies this
      ensures Valid() && Forward(old(rows), rows)
      ensures rows == Next(old(rows), Claim(id, action, now)).0
      ensures row.Ok? <==> Next(old(rows), Claim(id, action, now)).1
      ensures row.Ok? ==> id in rows && row.value == rows[id] && row.value.action == action
    {
      if id !in rows {
        rows := rows[id := Command(action, Claimed, now, now, None, Empty, None, Pending)];
      }
      row := if rows[id].action != action then Err(()) else Ok(rows[id]);
    }

    method BeginCommand(id: string, runId: Option<string>, now: int) returns (began: bool)
      requires Valid()
      modifies this
      ensures Valid() && Forward(old(rows), rows)
      ensures (rows, began) == Next(old(rows), Begin(id, runId, now))
      ensures began <==> id in old(rows) && old(rows)[id].state.Claimed?
    {
      began := id in rows && rows[id].state.Claimed?;
      if began {
        rows := rows[id := rows[id].(state := Running, runId := runId, updatedAt := now)];
      }
    }

    method UpdateProgress(id: string, counters: seq<nat>, now: int) returns (updated: bool)
      requires Valid()
      modifies this
      ensures Valid() && Forward(old(rows), rows)
      ensures (rows, updated) == Next(old(rows), Update(id, counters, now))
    {
      updated := id in rows && rows[id].state.Running?;
      if updated {
        rows := rows[id := rows[id].(result := Progress(counters), updatedAt := now)];
      }
    }

    method FinishCommand(id: string, state: State, code: Option<string>, payload: seq<nat>, now: int)
        returns (row: Result<Command, ()>)
      requires Valid()
      modifies this
      ensures Valid() && Forward(old(rows), rows)
      ensures rows == Next(old(rows), Finish(id, state, code, payload, now)).0
      ensures row.Ok? <==> Next(old(rows), Finish(id, state, code, payload, now)).1
      ensures row.Ok? ==> id in rows && row.value == rows[id] && row.value.state == state
    {
      if !state.Terminal() {
        return Err(());
      }
      if id in rows && (rows[id].state.Claimed? || rows[id].state.Running?) {
        rows := rows[id := rows[id].(state := state, result := Finished(code, payload), updatedAt := now,
                                     reportedAt := None, report := Pending)];
      }
      row := if id !in rows || rows[id].state != state then Err(()) else Ok(rows[id]);
    }

    method Settle(id: string, rejected: bool, now: int) returns (ok: bool)
      requires Valid()
      modifies this
      ensures Valid() && Forward(old(rows), rows)
      ensures (rows, ok) == Next(old(rows), if rejected then MarkRejected(id, now) else MarkReported(id, now))
    {
      var outcome := if rejected then Rejected else Delivered;
      var updated := id in rows && rows[id].state.Terminal() && rows[id].report.Pending?;
      if updated {
        rows := rows[id := rows[id].(reportedAt := Some(now), report := outcome)];
      }
      ok := updated || (id in rows && rows[id].report == outcome);
    }
  }
}
