// The export journal of scripts/export_static.py: the state file names the base snapshot and, while
// a promotion is under way, the pending one; release.json names the release in force. Each durable
// replacement of a file is one write, and a crash may leave any prefix of the writes behind.
module Journal {
  import opened Wrappers

  // What an export recorded about the release it built.
  datatype Snapshot<K, F> = Snapshot(release: K, highWater: nat, fingerprint: F)

  datatype State<K, F> = State(base: Option<Snapshot<K, F>>, pending: Option<Snapshot<K, F>>)

  // `journal` is None when the state file is missing, unreadable or of another source or schema;
  // `backed` says that the pointer's versioned release file is there with the same bytes.
  datatype Disk<K, F> = Disk(journal: Option<State<K, F>>, pointer: Option<K>, backed: bool)

  datatype Write<K, F> = SaveJournal(state: State<K, F>) | MovePointer(release: K)

  function Apply<K, F>(d: Disk<K, F>, w: Write<K, F>): Disk<K, F> {
    match w
    case SaveJournal(state) => d.(journal := Some(state))
    case MovePointer(release) => d.(pointer := Some(release), backed := true)
  }

  function Do<K, F>(d: Disk<K, F>, writes: seq<Write<K, F>>): Disk<K, F>
    decreases |writes|
  {
    if writes == [] then d else Do(Apply(d, writes[0]), writes[1..])
  }

  lemma {:induction false} DoJoin<K, F>(d: Disk<K, F>, a: seq<Write<K, F>>, b: seq<Write<K, F>>)
    ensures Do(d, a + b) == Do(Do(d, a), b)
    decreases |a|
  {
    if a == [] {
      assert a + b == b;
    } else {
      assert (a + b)[1..] == a[1..] + b;
      DoJoin(Apply(d, a[0]), a[1..], b);
    }
  }

  lemma DoOne<K, F>(d: Disk<K, F>, w: Write<K, F>)
    ensures Do(d, [w]) == Apply(d, w)
  {
    assert [w][1..] == [];
  }

  // The state file as read: a file that names no snapshot at all is refused.
  function Read<K, F>(d: Disk<K, F>): Option<State<K, F>> {
    if d.journal.Some? && (d.journal.value.base.Some? || d.journal.value.pending.Some?) then d.journal else None
  }

  predicate Names<K(==), F>(snapshot: Option<Snapshot<K, F>>, pointer: Option<K>) {
    snapshot.Some? && pointer == Some(snapshot.value.release)
  }

  datatype Outcome<K, F> = Outcome(writes: seq<Write<K, F>>, result: Result<Option<State<K, F>>, string>)

  // _recover_state
  function Recovery<K(==), F>(d: Disk<K, F>): Outcome<K, F> {
    if Read(d).None? then Outcome([], Ok(None))
    else if d.pointer.Some? && !d.backed then Outcome([], Err("incremental_base_invalid"))
    else
      var state := d.journal.value;
      if Names(state.pending, d.pointer) then
        var settled := State(state.pending, None);
        Outcome([SaveJournal(settled)], Ok(Some(settled)))
      else if state.pending.Some? && (Names(state.base, d.pointer) || (state.base.None? && d.pointer.None?)) then
        var settled := State(state.base, None);
        Outcome([SaveJournal(settled)], Ok(if state.base.Some? then Some(settled) else None))
      else if Names(state.base, d.pointer) && state.pending.None? then
        Outcome([], Ok(Some(state)))
      else
        Outcome([], Ok(None))
  }

  // _promote_release with a valid release: journal, pointer, journal.
  function Promotion<K, F>(base: Option<Snapshot<K, F>>, pending: Snapshot<K, F>): seq<Write<K, F>> {
    [SaveJournal(State(base, Some(pending))), MovePointer(pending.release), SaveJournal(State(Some(pending), None))]
  }

  predicate Recoverable<K(==), F>(d: Disk<K, F>) {
    d.backed && d.journal.Some?
    && (Names(d.journal.value.base, d.pointer) || Names(d.journal.value.pending, d.pointer))
  }

  // Recovery succeeds exactly when the journal names the release in force; it then returns that
  // release's own snapshot as the base, with nothing pending, and that is what is on disk.
  lemma RecoveryIff<K, F>(d: Disk<K, F>)
    ensures var r := Recovery(d);
            var after := Do(d, r.writes);
            && (Recoverable(d) <==> r.result.Ok? && r.result.value.Some?)
            && after.pointer == d.pointer && after.backed == d.backed
            && (Recoverable(d) ==>
                  && var base := r.result.value.value.base;
                  && r.result.value.value.pending.None? && Names(base, d.pointer)
                  && (base == d.journal.value.pending || base == d.journal.value.base)
                  && after.journal == r.result.value)
  {
    var r := Recovery(d);
    if r.writes != [] {
      DoOne(d, r.writes[0]);
    }
  }

  // A crash inside recovery, and recovering again, lead to the same state.
  lemma RecoveryRepeats<K, F>(d: Disk<K, F>, cut: nat)
    requires cut <= |Recovery(d).writes|
    ensures Recoverable(d) ==> Recovery(Do(d, Recovery(d).writes[..cut])).result == Recovery(d).result
  {
    var r := Recovery(d);
    if cut > 0 {
      DoOne(d, r.writes[0]);
      assert r.writes[..cut] == [r.writes[0]];
    } else {
      assert r.writes[..cut] == [];
    }
  }

  lemma PromotionStages<K, F>(d: Disk<K, F>, base: Option<Snapshot<K, F>>, pending: Snapshot<K, F>, cut: nat)
    requires cut <= 3
    ensures Do(d, Promotion(base, pending)[..cut])
            == if cut == 0 then d
               else if cut == 1 then d.(journal := Some(State(base, Some(pending))))
               else if cut == 2 then Disk(Some(State(base, Some(pending))), Some(pending.release), true)
               else Disk(Some(State(Some(pending), None)), Some(pending.release), true)
  {
    var first, flip, last := SaveJournal(State(base, Some(pending))), MovePointer(pending.release),
                             SaveJournal(State(Some(pending), None));
    DoOne(d, first);
    DoOne(Apply(d, first), flip);
    DoOne(Apply(Apply(d, first), flip), last);
    DoJoin(d, [first], [flip]);
    DoJoin(d, [first] + [flip], [last]);
    assert Promotion(base, pending)[..cut]
        == if cut == 0 then [] else if cut == 1 then [first] else if cut == 2 then [first] + [flip]
           else [first] + [flip] + [last];
  }

  // A promotion that starts from a base equal to the pointer survives a crash at any point: before
  // the pointer moves recovery returns the old base, afterwards the new one.
  lemma PromotionSurvivesACrash<K, F>(d: Disk<K, F>, base: Snapshot<K, F>, pending: Snapshot<K, F>, cut: nat)
    requires d.journal == Some(State(Some(base), None)) && d.backed && d.pointer == Some(base.release)
    requires cut <= 3
    ensures var crashed := Do(d, Promotion(Some(base), pending)[..cut]);
            Recovery(crashed).result
            == Ok(Some(State(Some(if cut < 2 && (cut == 0 || pending.release != base.release) then base else pending), None)))
  {
    PromotionStages(d, Some(base), pending, cut);
  }

  // ---------------------------------------------------------------- runs

  // `built` is the snapshot of the release an export built; `cut` is where it stopped.
  datatype Event<K, F> =
    | Export(built: Snapshot<K, F>, recoveryCut: nat, cut: nat)
    | Unchanged(highWater: nat, fingerprint: F)       // the no-op shortcut keeps the release
    | Abandon(recoveryCut: nat)                       // the export failed before its journal write
    | Activate(release: K)                            // the operator moves the pointer alone
    | LoseJournal                                     // the state file is gone or of another schema

  // One export: recover, then promote what was built.
  function ExportWrites<K(==), F>(d: Disk<K, F>, e: Event<K, F>): seq<Write<K, F>>
    requires e.Export?
  {
    var r := Recovery(d);
    var recovered := r.result.Ok? && r.result.value.Some?;
    if e.recoveryCut < |r.writes| then r.writes[..e.recoveryCut]
    else
      var base := if recovered then r.result.value.value.base else None;
      r.writes + Promotion(base, e.built)[..if e.cut < 3 then e.cut else 3]
  }

  function Step<K(==), F>(d: Disk<K, F>, e: Event<K, F>): Disk<K, F> {
    match e
    case Export(_, _, _) => Do(d, ExportWrites(d, e))
    case Unchanged(highWater, fingerprint) =>
      var r := Recovery(d);
      if r.result.Ok? && r.result.value.Some? && r.result.value.value.base.Some? then
        var base := r.result.value.value.base.value;
        Do(d, r.writes + [SaveJournal(State(Some(Snapshot(base.release, highWater, fingerprint)), None))])
      else Do(d, r.writes)
    case Abandon(cut) =>
      var r := Recovery(d);
      Do(d, r.writes[..if cut < |r.writes| then cut else |r.writes|])
    case Activate(release) => d.(pointer := Some(release), backed := true)
    case LoseJournal => d.(journal := None)
  }

  // An export leaves the release in force named by the journal wherever it stops.
  lemma ExportKeepsRecoverable<K, F>(d: Disk<K, F>, e: Event<K, F>)
    requires e.Export? && Recoverable(d)
    ensures Recoverable(Step(d, e))
    ensures var base := Step(d, e).pointer; base == d.pointer || base == Some(e.built.release)
  {
    var r := Recovery(d);
    RecoveryIff(d);
    if e.recoveryCut < |r.writes| {
      assert r.writes[..e.recoveryCut] == [];
    } else {
      var cut := if e.cut < 3 then e.cut else 3;
      var p := Promotion(r.result.value.value.base, e.built)[..cut];
      DoJoin(d, r.writes, p);
      PromotionStages(Do(d, r.writes), r.result.value.value.base, e.built, cut);
    }
  }

  // The pointer moves exactly when the export gets past its second write.
  lemma ExportMovesThePointer<K, F>(d: Disk<K, F>, e: Event<K, F>)
    requires e.Export? && e.recoveryCut >= |Recovery(d).writes|
    ensures Step(d, e).pointer == if e.cut >= 2 then Some(e.built.release) else d.pointer
  {
    var r := Recovery(d);
    RecoveryIff(d);
    var base := if r.result.Ok? && r.result.value.Some? then r.result.value.value.base else None;
    var cut := if e.cut < 3 then e.cut else 3;
    DoJoin(d, r.writes, Promotion(base, e.built)[..cut]);
    PromotionStages(Do(d, r.writes), base, e.built, cut);
  }

  lemma WholeExport<K, F>(d: Disk<K, F>, built: Snapshot<K, F>, cut: nat)
    ensures Step(d, Export(built, 1, cut)).pointer == if cut >= 2 then Some(built.release) else d.pointer
  {
    ExportMovesThePointer(d, Export(built, 1, cut));
  }

  lemma UnchangedKeepsThePointer<K, F>(d: Disk<K, F>, highWater: nat, fingerprint: F)
    ensures Step(d, Unchanged(highWater, fingerprint)).pointer == d.pointer
  {
    var r := Recovery(d);
    RecoveryIff(d);
    if r.result.Ok? && r.result.value.Some? && r.result.value.value.base.Some? {
      var base := r.result.value.value.base.value;
      var save := SaveJournal(State(Some(Snapshot(base.release, highWater, fingerprint)), None));
      DoJoin(d, r.writes, [save]);
      DoOne(Do(d, r.writes), save);
    }
  }

  // Once the journal names the release in force, only losing the journal or moving the pointer by
  // hand to a release it does not name ends that.
  lemma StepKeepsRecoverableIff<K, F>(d: Disk<K, F>, e: Event<K, F>)
    requires Recoverable(d)
    ensures Recoverable(Step(d, e)) <==>
              && !e.LoseJournal?
              && (e.Activate? ==> || Names(d.journal.value.base, Some(e.release))
                                  || Names(d.journal.value.pending, Some(e.release)))
  {
    if e.Export? {
      ExportKeepsRecoverable(d, e);
    } else if e.Unchanged? {
      var r := Recovery(d);
      RecoveryIff(d);
      var base := r.result.value.value.base.value;
      var save := SaveJournal(State(Some(Snapshot(base.release, e.highWater, e.fingerprint)), None));
      DoJoin(d, r.writes, [save]);
      DoOne(Do(d, r.writes), save);
    } else if e.Abandon? {
      RecoveryCutAnywhere(d, e.recoveryCut);
      RecoveryIff(d);
    }
  }

  // Recovery makes one write at most.
  lemma RecoveryCutAnywhere<K, F>(d: Disk<K, F>, cut: nat)
    ensures var w := Recovery(d).writes; var k := if cut < |w| then cut else |w|;
            w[..k] == [] || w[..k] == w
  {
  }

  // Every snapshot the journal holds describes its release.
  ghost predicate Honest<K(!new), F(!new)>(d: Disk<K, F>, describes: (K, F) -> bool) {
    d.journal.Some? ==>
      && (d.journal.value.base.Some? ==>
            describes(d.journal.value.base.value.release, d.journal.value.base.value.fingerprint))
      && (d.journal.value.pending.Some? ==>
            describes(d.journal.value.pending.value.release, d.journal.value.pending.value.fingerprint))
  }

  // What an event must bring along: the release it built, or kept, is described by its fingerprint.
  ghost predicate EventHonest<K(!new), F(!new)>(d: Disk<K, F>, e: Event<K, F>, describes: (K, F) -> bool) {
    match e
    case Export(built, _, _) => describes(built.release, built.fingerprint)
    case Unchanged(_, fingerprint) =>
      var r := Recovery(d).result;
      r.Ok? && r.value.Some? && r.value.value.base.Some? ==> describes(r.value.value.base.value.release, fingerprint)
    case _ => true
  }

  lemma StepKeepsHonest<K(!new), F(!new)>(d: Disk<K, F>, e: Event<K, F>, describes: (K, F) -> bool)
    requires Honest(d, describes) && EventHonest(d, e, describes)
    ensures Honest(Step(d, e), describes)
  {
    var r := Recovery(d);
    if r.writes != [] {
      DoOne(d, r.writes[0]);
    }
    if e.Export? {
      ExportKeepsHonest(d, e, describes);
    } else if e.Unchanged? {
      if r.result.Ok? && r.result.value.Some? && r.result.value.value.base.Some? {
        var base := r.result.value.value.base.value;
        var save := SaveJournal(State(Some(Snapshot(base.release, e.highWater, e.fingerprint)), None));
        DoJoin(d, r.writes, [save]);
        DoOne(Do(d, r.writes), save);
      }
    } else if e.Abandon? {
      RecoveryCutAnywhere(d, e.recoveryCut);
    }
  }

  lemma ExportKeepsHonest<K(!new), F(!new)>(d: Disk<K, F>, e: Event<K, F>, describes: (K, F) -> bool)
    requires e.Export? && Honest(d, describes) && describes(e.built.release, e.built.fingerprint)
    ensures Honest(Step(d, e), describes)
  {
    var r := Recovery(d);
    if r.writes != [] {
      DoOne(d, r.writes[0]);
    }
    var recovered := r.result.Ok? && r.result.value.Some?;
    if e.recoveryCut < |r.writes| {
      assert r.writes[..e.recoveryCut] == [];
    } else {
      var base := if recovered then r.result.value.value.base else None;
      var cut := if e.cut < 3 then e.cut else 3;
      DoJoin(d, r.writes, Promotion(base, e.built)[..cut]);
      PromotionStages(Do(d, r.writes), base, e.built, cut);
    }
  }

  // ---------------------------------------------------------------- the exporter's files

  class ExportFiles<K(==), F> {
    var journal: Option<State<K, F>>
    var pointer: Option<K>
    var backed: bool

    ghost function View(): Disk<K, F>
      reads this
    {
      Disk(journal, pointer, backed)
    }

    constructor (journal: Option<State<K, F>>, pointer: Option<K>)
      ensures View() == Disk(journal, pointer, true)
    {
      this.journal, this.pointer, backed := journal, pointer, true;
    }

    // _recover_state
    method RecoverState() returns (r: Result<Option<State<K, F>>, string>)
      modifies this
      ensures r == Recovery(old(View())).result
      ensures View() == Do(old(View()), Recovery(old(View())).writes)
      ensures Recoverable(old(View())) ==> r.Ok? && r.value.Some? && journal == r.value
                                           && Names(r.value.value.base, pointer) && r.value.value.pending.None?
    {
      RecoveryIff(View());
      if journal.None? || (journal.value.base.None? && journal.value.pending.None?) {
        return Ok(None);
      }
      if pointer.Some? && !backed {
        return Err("incremental_base_invalid");
      }
      var base, pending := journal.value.base, journal.value.pending;
      if pending.Some? {
        if pointer == Some(pending.value.release) {
          DoOne(View(), SaveJournal(State(pending, None)));
          journal := Some(State(pending, None));
          base := pending;
        } else if (base.None? && pointer.None?) || (base.Some? && pointer == Some(base.value.release)) {
          DoOne(View(), SaveJournal(State(base, None)));
          journal := Some(State(base, None));
        } else {
          return Ok(None);
        }
      }
      if base.None? || pointer != Some(base.value.release) {
        return Ok(None);
      }
      return Ok(journal);
    }

    // _promote_release; `valid` is what the release's validation says once the journal is written.
    method PromoteRelease(base: Option<Snapshot<K, F>>, pending: Snapshot<K, F>, valid: bool) returns (ok: bool)
      modifies this
      ensures ok == valid
      ensures View() == Do(old(View()), Promotion(base, pending)[..if valid then 3 else 1])
    {
      PromotionStages(View(), base, pending, if valid then 3 else 1);
      journal := Some(State(base, Some(pending)));
      if !valid {
        return false;
      }
      pointer, backed := Some(pending.release), true;
      journal := Some(State(Some(pending), None));
      return true;
    }
  }
}
