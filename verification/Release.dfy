// The two-system release of scripts/release.py. The Worker and the Oracle host are independent; every
// command may fail before or after it took effect, chosen arbitrarily, and no one else writes to
// either system. Each exit code is proved to tell the truth about the final pair.
module Release {
  import opened Wrappers
  import opened ReleaseAnswers

  // The pair before a release, and after it.
  datatype Pair = Pair(version: nat, oracle: Option<Sha>)

  // What each exit code says about the pair. `uploaded` is the version this run deployed, if any.
  predicate TellsTruth(code: Code, before: Pair, after: Pair, release: Sha, runs: map<nat, Sha>,
                       uploaded: Option<nat>) {
    var workerBack := after.version == before.version;
    var workerNew := uploaded.Some? && after.version == uploaded.value && after.version in runs
                     && runs[after.version] == release;
    var oracleBack := after.oracle == before.oracle;
    var oracleNew := after.oracle == Some(release);
    match code
    case Succeeded => workerNew && oracleNew
    case StatusFailed => workerBack && oracleBack
    case D1Failed => workerBack && oracleBack
    case DeployUnverifiedRolledBack => workerBack && oracleBack
    case SmokeFailedRolledBack => workerBack && oracleBack
    case DeployUnverifiedRollbackFailed => (workerBack || workerNew) && oracleBack
    case SmokeFailedRollbackFailed => (workerBack || workerNew) && oracleBack
    case OracleInstallAmbiguous => workerNew && (oracleBack || oracleNew)
    case OracleInstallIncomplete => workerNew && oracleNew
    case OracleInstallFailedWorkerRollbackFailed => (workerBack || workerNew) && oracleBack
    case OracleInstallNotStartedWorkerRolledBack => workerBack && oracleBack
    case OracleInstallFailedWorkerRolledBack => workerBack && oracleBack
    case FinalSmokeStatusAmbiguous => workerNew && oracleNew
    case FinalSmokeNoPrevious => workerNew && oracleNew && before.oracle.None?
    case FinalSmokeOracleRollbackFailed => workerNew && (oracleBack || oracleNew)
    case FinalSmokeOracleRollbackMismatch => false
    case FinalSmokeExternalOracleChange => false
    case FinalSmokeWorkerStateAmbiguous => (workerBack || workerNew) && oracleBack
    case FinalSmokeOracleRestoreFailed => workerNew && (oracleBack || oracleNew)
    case FinalSmokeOracleRestored => workerNew && oracleNew
    case FinalSmokeWorkerRollbackFailed => workerNew && oracleNew && oracleBack
    case FinalSmokeExternalWorkerChange => false
    case FinalSmokeCoordinatedRollback => workerBack && oracleBack
  }

  // Both systems run the same release.
  predicate Matched(pair: Pair, runs: map<nat, Sha>) {
    pair.version in runs && pair.oracle == Some(runs[pair.version])
  }

  // Codes after which only a status check can tell whether the systems match.
  predicate MayMismatch(code: Code) {
    || code.DeployUnverifiedRollbackFailed? || code.SmokeFailedRollbackFailed?
    || code.OracleInstallAmbiguous? || code.OracleInstallFailedWorkerRollbackFailed?
    || code.FinalSmokeOracleRollbackFailed? || code.FinalSmokeWorkerStateAmbiguous?
    || code.FinalSmokeOracleRestoreFailed?
  }

  // One outcome a code allows, from a matched pair to one that does not match.
  predicate Splits(code: Code, before: Pair, after: Pair, release: Sha, runs: map<nat, Sha>, uploaded: Option<nat>) {
    TellsTruth(code, before, after, release, runs, uploaded) && Matched(before, runs) && !Matched(after, runs)
  }

  // A matched pair stays matched under exactly the codes outside that list, whichever commands failed.
  lemma CodesThatKeepTheMatch(code: Code)
    ensures MayMismatch(code) <==> exists before, after, release, runs, uploaded ::
                                     Splits(code, before, after, release, runs, uploaded)
  {
    if MayMismatch(code) {
      var runs: map<nat, Sha> := map[0 := 0, 1 := 1];
      assert Splits(code, Pair(0, Some(0)), Pair(1, Some(0)), 1, runs, Some(1));
    }
  }

  // What each exit of a coordinated rollback to (version, target) says about the pair.
  predicate PairAsSaid(code: RollbackCode, before: Pair, after: Pair, version: nat, target: Sha) {
    var oracleThere := after.oracle == Some(target);
    match code
    case BothAtTarget => after == Pair(version, Some(target))
    case SmokeFailedAtTarget => after == Pair(version, Some(target))
    case Refused => after == before
    case OracleStateAmbiguous => after.version == before.version && (oracleThere || after == before)
    case OracleStatusFailed => after.version == before.version && oracleThere
    case OracleRollbackFailed => after == before
    case OracleExternalChange => false
    case OracleMismatch => false
    case WorkerStateAmbiguous => (after.version == version || after.version == before.version) && oracleThere
    case WorkerExternalChange => false
    case WorkerRollbackFailed => after == before && oracleThere
    case WorkerFailedOracleRestored => after == before
    case WorkerFailedRestoreFailed => after.version == before.version && (oracleThere || after == before)
  }

  class Systems {
    var worker: Deployment
    var runs: map<nat, Sha>       // the release each uploaded Worker version was built from
    var ids: nat                  // deployment ids below this one have been given out
    var versions: nat
    var oracle: Option<Sha>
    var complete: Option<bool>
    ghost var log: seq<Did>       // the commands so far, with their answers

    ghost predicate Valid()
      reads this
    {
      worker.id < ids && worker.version in runs && forall v | v in runs :: v < versions
    }

    ghost function Now(): Pair
      reads this
    {
      Pair(worker.version, oracle)
    }

    twostate predicate WorkerSame()
      reads this
    {
      worker == old(worker) && runs == old(runs) && ids == old(ids) && versions == old(versions)
    }

    twostate predicate HostSame()
      reads this
    {
      oracle == old(oracle) && complete == old(complete)
    }

    // Nothing but the active deployment changed, and it is one of these two versions.
    twostate predicate WorkerOnly(version: nat)
      reads this
    {
      && Valid() && HostSame() && runs == old(runs) && versions == old(versions)
      && (worker.version == old(worker.version) || worker.version == version)
      && ids >= old(ids) && (worker.id == old(worker.id) ==> worker == old(worker))
    }

    constructor (worker: Deployment, release: Sha, oracle: Option<Sha>)
      ensures Valid() && Now() == Pair(worker.version, oracle) && runs == map[worker.version := release] && log == []
    {
      this.worker, this.oracle, complete, log := worker, oracle, Some(true), [];
      runs, ids, versions := map[worker.version := release], worker.id + 1, worker.version + 1;
    }

    // ---------------------------------------------------------------- single commands

    method ReadWorker() returns (d: Option<Deployment>)
      modifies `log
      ensures log == old(log) + [WorkerRead(d)]
      ensures d.Some? ==> d.value == worker
    {
      var answers: bool := *;
      d := if answers then Some(worker) else None;
      log := log + [WorkerRead(d)];
    }

    // The integrity check and the additive migration.
    method MigrateD1() returns (ok: bool)
      modifies `log
      ensures log == old(log) + [Migrated(ok)]
    {
      ok := *;
      log := log + [Migrated(ok)];
    }

    // wrangler deploy
    method WranglerDeploy(release: Sha) returns (ok: bool)
      requires Valid()
      modifies this
      ensures Valid() && HostSame() && log == old(log) + [DeployRun(ok)]
      ensures || (!ok && worker == old(worker) && runs == old(runs) && versions == old(versions))
              || (worker.id >= old(ids) && worker.version == old(versions) && worker.message == Git(release)
                  && runs == old(runs)[worker.version := release])
    {
      var takesEffect: bool := *;
      var reports: bool := *;
      ok := takesEffect && reports;
      if takesEffect {
        runs := runs[versions := release];
        worker := Deployment(ids, versions, Git(release));
        ids, versions := ids + 1, versions + 1;
      }
      log := log + [DeployRun(ok)];
    }

    // wrangler rollback
    method WranglerRollback(version: nat) returns (ok: bool)
      requires Valid() && version in runs
      modifies this
      ensures WorkerOnly(version) && log == old(log) + [WorkerRollbackRun(version, ok)]
      ensures ok ==> worker.version == version && worker.id >= old(ids)
    {
      var takesEffect: bool := *;
      var reports: bool := *;
      ok := takesEffect && reports;
      if takesEffect {
        worker := Deployment(ids, version, Note);
        ids := ids + 1;
      }
      log := log + [WorkerRollbackRun(version, ok)];
    }

    // The release smoke checks the version and the release it was built from.
    method Smoke(release: Sha, version: nat) returns (ok: bool)
      requires Valid()
      modifies `log
      ensures log == old(log) + [Smoked(ok)]
      ensures ok ==> worker.version == version && runs[version] == release
    {
      var passes: bool := *;
      ok := passes && worker.version == version && runs[version] == release;
      log := log + [Smoked(ok)];
    }

    method OracleStatus() returns (s: Option<HostStatus>)
      modifies `log
      ensures log == old(log) + [HostRead(s)]
      ensures s.Some? ==> s.value == HostStatus(oracle, complete)
    {
      var answers: bool := *;
      s := if answers then Some(HostStatus(oracle, complete)) else None;
      log := log + [HostRead(s)];
    }

    // The install command. Refused before it began it changes nothing; cut, it may have moved the
    // release with or without finishing; an installer without a completion mark leaves none.
    method RunInstaller(release: Sha) returns (ending: Ending)
      modifies this
      ensures WorkerSame() && log == old(log) + [InstallRun(ending)]
      ensures HostSame() || oracle == Some(release)
      ensures ending.NotBegun? ==> HostSame()
      ensures ending.Finished? ==> oracle == Some(release) && complete != Some(false)
    {
      var moves: bool := *;
      var finishes: bool := *;
      var marks: bool := *;
      ending := *;
      if ending.Finished? || (!ending.NotBegun? && moves) {
        oracle := Some(release);
        complete := if marks then Some(ending.Finished? || finishes) else None;
      }
      log := log + [InstallRun(ending)];
    }

    // The host refuses a rollback that does not start from the release it runs.
    method OracleRollback(expected: Sha, target: Sha) returns (ok: bool)
      modifies this
      ensures WorkerSame() && log == old(log) + [HostRollbackRun(expected, target, ok)]
      ensures oracle == old(oracle) || (old(oracle) == Some(expected) && oracle == Some(target))
      ensures ok ==> old(oracle) == Some(expected) && oracle == Some(target)
    {
      var takesEffect: bool := *;
      var reports: bool := *;
      ok := takesEffect && reports && oracle == Some(expected);
      if takesEffect && oracle == Some(expected) {
        oracle, complete := Some(target), Some(true);
      }
      log := log + [HostRollbackRun(expected, target, ok)];
    }

    // _cloudflare_version: the release a version is tagged with
    method ReadVersion(version: nat) returns (tag: Option<Sha>)
      modifies `log
      ensures log == old(log) + [TagRead(version, tag)]
      ensures tag.Some? ==> version in runs && tag.value == runs[version]
    {
      var answers: bool := *;
      tag := if answers && version in runs then Some(runs[version]) else None;
      log := log + [TagRead(version, tag)];
    }

    // ---------------------------------------------------------------- the Worker

    // _await_deployment: five reads at most, ending with the first that shows the version or is unanswered.
    method AwaitVersion(version: nat, notId: Option<nat>) returns (d: Option<Deployment>, ghost did: seq<Did>)
      modifies `log
      ensures log == old(log) + did && 0 < |did| <= 5 && forall i :: 0 <= i < |did| ==> did[i].WorkerRead?
      ensures d.Some? ==> d.value == worker && did[|did| - 1] == WorkerRead(d)
      ensures d.Some? <==> VersionSeen(did[|did| - 1], version, notId)
      ensures forall i :: 0 <= i < |did| - 1 ==> did[i] != WorkerRead(None) && !VersionSeen(did[i], version, notId)
      ensures |did| == 5 || did[|did| - 1] == WorkerRead(None) || d.Some?
    {
      var attempt := 0;
      did := [];
      while attempt < 5
        invariant 0 <= attempt == |did| <= 5 && log == old(log) + did
        invariant forall i :: 0 <= i < |did| ==> did[i].WorkerRead? && did[i].seen.Some?
        invariant forall i :: 0 <= i < |did| ==> !VersionSeen(did[i], version, notId)
      {
        d := ReadWorker();
        did := did + [WorkerRead(d)];
        assert log == old(log) + did;
        if d.None? {
          return;
        }
        if d.value.version == version && (notId.Some? ==> d.value.id != notId.value) {
          return;
        }
        attempt := attempt + 1;
      }
      d := None;
    }

    method AwaitMessage(release: Sha, previous: Deployment) returns (d: Option<Deployment>, ghost did: seq<Did>)
      modifies `log
      ensures log == old(log) + did && 0 < |did| <= 5 && forall i :: 0 <= i < |did| ==> did[i].WorkerRead?
      ensures d.Some? ==> d.value == worker && did[|did| - 1] == WorkerRead(d)
      ensures d.Some? <==> NewSeen(did[|did| - 1], previous, release)
      ensures forall i :: 0 <= i < |did| - 1 ==> did[i] != WorkerRead(None) && !NewSeen(did[i], previous, release)
      ensures |did| == 5 || did[|did| - 1] == WorkerRead(None) || d.Some?
    {
      var attempt := 0;
      did := [];
      while attempt < 5
        invariant 0 <= attempt == |did| <= 5 && log == old(log) + did
        invariant forall i :: 0 <= i < |did| ==> did[i].WorkerRead? && did[i].seen.Some?
        invariant forall i :: 0 <= i < |did| ==> !NewSeen(did[i], previous, release)
      {
        d := ReadWorker();
        did := did + [WorkerRead(d)];
        assert log == old(log) + did;
        if d.None? {
          return;
        }
        if d.value.id != previous.id && d.value.message == Git(release) {
          return;
        }
        attempt := attempt + 1;
      }
      d := None;
    }

    // _rollback_cloudflare
    method RollbackCloudflare(version: nat, expectedMessage: Option<Message>, expectedActive: Option<Deployment>,
                              force: bool) returns (ok: bool, ghost did: seq<Did>)
      requires Valid() && version in runs
      modifies this
      ensures WorkerOnly(version) && log == old(log) + did
      ensures ok ==> worker.version == version
      ensures RollbackSteps(did, version, expectedMessage, expectedActive, force)
      ensures ok <==> Confirmed(did, version, expectedActive, force)
    {
      var current := ReadWorker();
      did := [WorkerRead(current)];
      if current.None? {
        return false, did;
      }
      if expectedActive.Some? && (current.value.id != expectedActive.value.id
                                  || current.value.version != expectedActive.value.version) {
        return false, did;
      }
      if current.value.version == version && !force {
        return true, did;
      }
      if current.value.version != version && expectedMessage.Some? && current.value.message != expectedMessage.value {
        return false, did;
      }
      ok := WranglerRollback(version);
      did := did + [WorkerRollbackRun(version, ok)];
      assert log == old(log) + did;
      if ok {
        var d, shown := AwaitVersion(version, if force then Some(current.value.id) else None);
        did := did + shown;
        assert log == old(log) + did;
        ok := d.Some?;
      }
    }

    // The deploy, and the reads for the new deployment.
    method DeployWorker(release: Sha, previous: Deployment)
      returns (d: Option<Deployment>, ok: bool, ghost did: seq<Did>)
      requires Valid() && previous == worker
      modifies this
      ensures Valid() && HostSame() && log == old(log) + [DeployRun(ok)] + did
      ensures || (worker == previous && runs == old(runs) && d.None?)
              || (worker.id >= old(ids) && worker.version == old(versions) && worker.message == Git(release)
                  && runs == old(runs)[worker.version := release])
      ensures d.Some? ==> d.value == worker
      ensures AwaitedNew(did, ok, d, previous, release)
    {
      ok := WranglerDeploy(release);
      did := [];
      d := None;
      if ok {
        d, did := AwaitMessage(release, previous);
      }
    }

    // deploy_cloudflare
    method DeployCloudflare(release: Sha)
      returns (r: Result<Deployed, Code>, ghost did: seq<Did>, ghost back: seq<Did>)
      requires Valid()
      modifies this
      ensures Valid() && HostSame() && log == old(log) + did + back
      ensures r.Ok? ==> DeployedNew(r.value, old(worker), old(versions), release)
      ensures r.Err? ==> TellsTruth(r.error, old(Now()), Now(), release, runs,
                                    if worker.version >= old(versions) then Some(worker.version) else None)
      ensures DeploySteps(did, release) && CloudBackSteps(did, back, release)
      ensures r.Ok? <==> EndsWith(did, Smoked(true))
      ensures r.Ok? ==> |did| > 2 && r.value == Deployed(Previous(did), Smoking(did))
      ensures r.Err? ==> r.error == CloudVerdict(did, back)
    {
      back := [];
      var previous := ReadWorker();
      did := [WorkerRead(previous)];
      if previous.None? {
        return Err(StatusFailed), did, back;
      }
      var d1 := MigrateD1();
      if !d1 {
        did := did + [Migrated(d1)];
        return Err(D1Failed), did, back;
      }
      ghost var rest;
      r, rest, back := DeployVersion(release, previous.value);
      did := [WorkerRead(previous), Migrated(true)] + rest;
      assert log == old(log) + did + back;
    }

    // The new deployment is active, and it was seen and smoked.
    ghost predicate DeployedNew(d: Deployed, previous: Deployment, from: nat, release: Sha)
      reads this
    {
      && d == Deployed(previous, worker) && worker.version >= from && worker.message == Git(release)
      && worker.version in runs && runs[worker.version] == release
      && previous.version in runs && worker.version != previous.version
    }

    // The deploy, its reads and its smoke, and the way back from one not seen or not passed.
    method DeployVersion(release: Sha, previous: Deployment)
      returns (r: Result<Deployed, Code>, ghost did: seq<Did>, ghost back: seq<Did>)
      requires Valid() && previous == worker
      modifies this
      ensures Valid() && HostSame() && log == old(log) + did + back
      ensures r.Ok? ==> DeployedNew(r.value, previous, old(versions), release)
      ensures r.Err? ==> TellsTruth(r.error, old(Now()), Now(), release, runs,
                                    if worker.version >= old(versions) then Some(worker.version) else None)
      ensures var cloud := [WorkerRead(Some(previous)), Migrated(true)] + did;
              && DeploySteps(cloud, release) && CloudBackSteps(cloud, back, release) && |cloud| > 2
              && (r.Ok? <==> EndsWith(cloud, Smoked(true)))
              && (r.Ok? ==> r.value == Deployed(Previous(cloud), Smoking(cloud)))
              && (r.Err? ==> r.error == CloudVerdict(cloud, back))
    {
      var deployed, ok, shown := DeployWorker(release, previous);
      did := [DeployRun(ok)] + shown;
      ghost var before := [WorkerRead(Some(previous)), Migrated(true)];
      if deployed.None? {
        UnseenSteps(before + did, previous, ok, shown, release);
        var gone;
        gone, back := RollbackCloudflare(previous.version, Some(Git(release)), None, true);
        return Err(if gone then DeployUnverifiedRolledBack else DeployUnverifiedRollbackFailed), did, back;
      }
      ghost var smoke;
      r, smoke, back := SmokeWorker(release, previous, deployed.value);
      did := did + smoke;
      SmokedSteps(before + did, previous, shown, deployed.value, smoke[0].ok, release);
    }

    // The smoke of the new deployment, and the way back from one that failed.
    method SmokeWorker(release: Sha, previous: Deployment, deployed: Deployment)
      returns (r: Result<Deployed, Code>, ghost smoke: seq<Did>, ghost back: seq<Did>)
      requires Valid() && deployed == worker && worker.version in runs && runs[worker.version] == release
      requires previous.version in runs
      modifies this
      ensures Valid() && HostSame() && runs == old(runs) && versions == old(versions)
      ensures log == old(log) + smoke + back && |smoke| == 1 && smoke[0].Smoked?
      ensures worker.version == previous.version || worker.version == deployed.version
      ensures r.Ok? <==> smoke[0].ok
      ensures r.Ok? ==> worker == deployed && r.value == Deployed(previous, deployed) && back == []
      ensures r.Err? ==> back != [] && RollbackSteps(back, previous.version, Some(Git(release)), Some(deployed), false)
      ensures r.Err? ==> r.error == (if Confirmed(back, previous.version, Some(deployed), false) then SmokeFailedRolledBack
                                     else SmokeFailedRollbackFailed)
      ensures r == Err(SmokeFailedRolledBack) ==> worker.version == previous.version
    {
      back := [];
      var smoked := Smoke(release, deployed.version);
      smoke := [Smoked(smoked)];
      if smoked {
        return Ok(Deployed(previous, deployed)), smoke, back;
      }
      var gone;
      gone, back := RollbackCloudflare(previous.version, Some(Git(release)), Some(deployed), false);
      r := Err(if gone then SmokeFailedRolledBack else SmokeFailedRollbackFailed);
    }

    // ---------------------------------------------------------------- the Oracle host

    // deploy_release: install, and on a failed install that moved the release, its own rollback.
    method InstallOracle(release: Sha) returns (r: Install, ghost did: seq<Did>)
      modifies this
      ensures WorkerSame() && log == old(log) + did
      ensures oracle == old(oracle) || oracle == Some(release)
      ensures r.Installed? ==> oracle == Some(release) && complete != Some(false)
      ensures r.NotStarted? ==> HostSame()
      ensures InstallSteps(did, release)
      ensures r.Installed? <==> InstallDone(did, release)
      ensures r.NotStarted? <==> InstallRun(NotBegun) in did
    {
      var before := OracleStatus();
      did := [HostRead(before)];
      if before.None? {
        return Raised, did;
      }
      var ending := RunInstaller(release);
      did := did + [InstallRun(ending)];
      assert log == old(log) + did;
      ghost var shown := [];
      match ending {
        case NotBegun => r := NotStarted;
        case Lost => r := Raised;
        case ExitStatus =>
          shown := UndoInstall(release, before.value.current);
          r := Raised;
        case Finished =>
          r, shown := AwaitInstalled(release);
      }
      did := did + shown;
      assert did[2..] == shown;
    }

    // The host's own way back from an install that ended with an exit status.
    method UndoInstall(release: Sha, before: Option<Sha>) returns (ghost did: seq<Did>)
      modifies this
      ensures WorkerSame() && log == old(log) + did
      ensures oracle == old(oracle) || (old(oracle) == Some(release) && oracle == before)
      ensures UndoSteps(did, before, release) && InstallRun(NotBegun) !in did
    {
      var now := OracleStatus();
      did := [HostRead(now)];
      if now.None? || before == Some(release) || now.value.current != Some(release) || before.None? {
        return;
      }
      var ok := OracleRollback(release, before.value);
      did := did + [HostRollbackRun(release, before.value, ok)];
      if ok {
        var after := OracleStatus();
        did := did + [HostRead(after)];
      }
    }

    // The status after a finished command: five reads at most, ending with the first that shows the release.
    method AwaitInstalled(release: Sha) returns (r: Install, ghost did: seq<Did>)
      modifies `log
      ensures log == old(log) + did && 0 < |did| <= 5 && forall i :: 0 <= i < |did| ==> did[i].HostRead?
      ensures r.Installed? || (r.Raised? && |did| == 5)
      ensures r.Installed? ==> oracle == Some(release) && complete != Some(false)
      ensures r.Installed? <==> HostOn(did, release)
    {
      var attempt := 0;
      did := [];
      while attempt < 5
        invariant 0 <= attempt == |did| <= 5 && log == old(log) + did
        invariant forall i :: 0 <= i < |did| ==> did[i].HostRead?
        invariant !HostOn(did, release)
      {
        var after := OracleStatus();
        did := did + [HostRead(after)];
        assert log == old(log) + did;
        if after.Some? && after.value.current == Some(release) && after.value.complete != Some(false) {
          return Installed, did;
        }
        attempt := attempt + 1;
      }
      r := Raised;
    }

    // ---------------------------------------------------------------- deploy_all

    method DeployAll(release: Sha) returns (code: Code, ghost s: Story)
      requires Valid()
      modifies this
      ensures Valid() && log == old(log) + s.Log()
      ensures TellsTruth(code, old(Now()), Now(), release, runs,
                         if worker.version >= old(versions) then Some(worker.version) else None)
      ensures Follows(s, release) && code == Verdict(s, release)
    {
      var before := OracleStatus();
      if before.None? {
        return StatusFailed, Story(None, [], [], NO_HALF);
      }
      var cloudflare, cloud, cloudBack := DeployCloudflare(release);
      if cloudflare.Err? {
        s := Story(before, cloud, cloudBack, NO_HALF);
        code := cloudflare.error;
        assert old(log) + s.Log() == old(log) + [HostRead(before)] + cloud + cloudBack;
        return;
      }
      ghost var half;
      code, half := DeployHost(release, before.value.current, cloudflare.value);
      s := Story(before, cloud, cloudBack, half);
      assert old(log) + s.Log() == old(log) + [HostRead(before)] + cloud + cloudBack + half.Log();
    }

    // What follows a Worker half that passed its smoke.
    method DeployHost(release: Sha, previous: Option<Sha>, d: Deployed) returns (code: Code, ghost h: Half)
      requires Valid() && oracle == previous
      requires worker == d.deployed && worker.version in runs && runs[worker.version] == release
      requires d.previous.version in runs && d.previous.version != d.deployed.version
      modifies this
      ensures Valid() && runs == old(runs) && log == old(log) + h.Log()
      ensures worker.version == d.deployed.version || worker.version == d.previous.version
      ensures TellsTruth(code, Pair(d.previous.version, previous), Now(), release, runs,
                         if worker.version == d.deployed.version then Some(d.deployed.version) else None)
      ensures HalfSteps(h, previous, d, release) && code == HalfVerdict(h, previous, d, release)
    {
      var up;
      ghost var install, look, back;
      up, code, install, look, back := InstallOnHost(release, previous, d);
      ghost var smoke, host, after := [], [], [];
      if up {
        code, smoke, host, back, after := FinalSmoke(release, previous, d);
      }
      h := Half(install, look, smoke, host, back, after);
      HalfLog(old(log), h);
      if up {
        SmokeEnds(h, previous, d, release);
      } else {
        InstallStops(h, previous, d, release);
      }
    }

    method FinalSmoke(release: Sha, previous: Option<Sha>, d: Deployed)
      returns (code: Code, ghost smoke: seq<Did>, ghost host: seq<Did>, ghost went: seq<Did>, ghost after: seq<Did>)
      requires Valid() && oracle == Some(release)
      requires worker == d.deployed && worker.version in runs && runs[worker.version] == release
      requires d.previous.version in runs && d.previous.version != d.deployed.version
      modifies this
      ensures Valid() && runs == old(runs) && versions == old(versions)
      ensures worker.version == d.deployed.version || worker.version == d.previous.version
      ensures log == old(log) + smoke + host + went + after
      ensures TellsTruth(code, Pair(d.previous.version, previous), Now(), release, runs,
                         if worker.version == d.deployed.version then Some(d.deployed.version) else None)
      ensures FinalSteps(smoke, host, went, after, previous, d, release)
      ensures code == FinalVerdict(smoke, host, went, after, previous, d, release)
    {
      var smoked := Smoke(release, d.deployed.version);
      smoke, host, went, after := [Smoked(smoked)], [], [], [];
      if smoked {
        return Succeeded, smoke, host, went, after;
      }
      code, host, went, after := BackOut(release, previous, d);
    }

    // The install, and after a failed one the status and the Worker's way back.
    method InstallOnHost(release: Sha, previous: Option<Sha>, d: Deployed)
      returns (up: bool, code: Code, ghost install: seq<Did>, ghost look: seq<Did>, ghost back: seq<Did>)
      requires Valid() && oracle == previous
      requires worker == d.deployed && worker.version in runs && runs[worker.version] == release
      requires d.previous.version in runs && d.previous.version != d.deployed.version
      modifies this
      ensures Valid() && runs == old(runs) && versions == old(versions) && log == old(log) + install + look + back
      ensures worker.version == d.deployed.version || worker.version == d.previous.version
      ensures InstallPart(install, look, release)
      ensures up <==> InstallDone(install, release) || HostOn(look, release)
      ensures up ==> oracle == Some(release) && WorkerSame()
      ensures back != [] <==> !up && !HostSeen(look, Some(release)) && HostSeen(look, previous)
      ensures back != [] ==> RollbackSteps(back, d.previous.version, Some(Git(release)), Some(d.deployed), false)
      ensures !up ==> code == InstallVerdict(install, look, back, previous, d, release)
      ensures !up ==> TellsTruth(code, Pair(d.previous.version, previous), Now(), release, runs,
                                 if worker.version == d.deployed.version then Some(d.deployed.version) else None)
    {
      up, code, look, back := true, Succeeded, [], [];
      var installed;
      installed, install := InstallOracle(release);
      if installed.Installed? {
        return;
      }
      var observed := OracleStatus();
      look := [HostRead(observed)];
      up := false;
      if observed.None? {
        code := OracleInstallAmbiguous;
      } else if observed.value.current == Some(release) && observed.value.complete == Some(false) {
        code := OracleInstallIncomplete;
      } else if observed.value.current == Some(release) {
        up := true;
      } else if observed.value.current != previous {
        code := OracleInstallAmbiguous;
      } else {
        var gone;
        gone, back := RollbackCloudflare(d.previous.version, Some(Git(release)), Some(d.deployed), false);
        code := if !gone then OracleInstallFailedWorkerRollbackFailed
        else if installed.NotStarted? then OracleInstallNotStartedWorkerRolledBack
        else OracleInstallFailedWorkerRolledBack;
      }
    }

    // The failed final smoke: both systems go back, or the pair is left where its code says.
    method BackOut(release: Sha, previous: Option<Sha>, d: Deployed)
      returns (code: Code, ghost host: seq<Did>, ghost went: seq<Did>, ghost after: seq<Did>)
      requires Valid() && oracle == Some(release)
      requires worker == d.deployed && worker.version in runs && runs[worker.version] == release
      requires d.previous.version in runs && d.previous.version != d.deployed.version
      modifies this
      ensures Valid() && runs == old(runs) && versions == old(versions) && log == old(log) + host + went + after
      ensures worker.version == d.deployed.version || worker.version == d.previous.version
      ensures TellsTruth(code, Pair(d.previous.version, previous), Now(), release, runs,
                         if worker.version == d.deployed.version then Some(d.deployed.version) else None)
      ensures OutSteps(host, went, after, previous, d, release)
      ensures code == OutVerdict(host, went, after, previous, d, release)
    {
      went, after := [], [];
      var failed;
      failed, host := HostGoesBack(release, previous);
      if failed.Some? {
        return failed.value, host, went, after;
      }
      var workerBack;
      workerBack, went := RollbackCloudflare(d.previous.version, Some(Git(release)), Some(d.deployed), false);
      if workerBack {
        return FinalSmokeCoordinatedRollback, host, went, after;
      }
      code, after := WorkerStayed(release, previous, d);
    }

    method HostGoesBack(release: Sha, previous: Option<Sha>) returns (failed: Option<Code>, ghost did: seq<Did>)
      requires oracle == Some(release)
      modifies this
      ensures WorkerSame() && log == old(log) + did && HostBackSteps(did, previous, release)
      ensures failed.None? <==> HostSeen(did, previous)
      ensures failed.None? ==> oracle == previous && previous.Some?
      ensures failed.Some? ==> failed.value == HostVerdict(did, previous, release)
      ensures failed.Some? ==> oracle == Some(release) || (oracle == previous && failed.value.FinalSmokeOracleRollbackFailed?)
      ensures failed.Some? ==> match failed.value {
                case FinalSmokeStatusAmbiguous => true
                case FinalSmokeNoPrevious => previous.None?
                case FinalSmokeOracleRollbackFailed => true
                case _ => false
              }
    {
      var observed := OracleStatus();
      did := [HostRead(observed)];
      if observed.None? {
        return Some(FinalSmokeStatusAmbiguous), did;
      }
      var current := observed.value.current;
      if current == Some(release) {
        if previous.None? {
          return Some(FinalSmokeNoPrevious), did;
        }
        if previous.value != release {
          var back := OracleRollback(release, previous.value);
          did := did + [HostRollbackRun(release, previous.value, back)];
          if !back {
            return Some(FinalSmokeOracleRollbackFailed), did;
          }
          var again := OracleStatus();
          did := did + [HostRead(again)];
          if again.None? {
            return Some(FinalSmokeOracleRollbackFailed), did;
          }
          if again.value.current != previous {
            return Some(FinalSmokeOracleRollbackMismatch), did;
          }
        }
      } else if current != previous {
        return Some(FinalSmokeExternalOracleChange), did;
      }
      failed := None;
    }

    // The Worker's rollback was not confirmed.
    method WorkerStayed(release: Sha, previous: Option<Sha>, d: Deployed) returns (code: Code, ghost did: seq<Did>)
      requires Valid() && oracle == previous && previous.Some? && d.deployed.version in runs && runs[d.deployed.version] == release
      requires d.previous.version != d.deployed.version
      requires worker.version == d.deployed.version || worker.version == d.previous.version
      modifies this
      ensures Valid() && WorkerSame() && log == old(log) + did
      ensures TellsTruth(code, Pair(d.previous.version, previous), Now(), release, runs,
                         if worker.version == d.deployed.version then Some(d.deployed.version) else None)
      ensures AfterSteps(did, previous, d, release) && code == AfterVerdict(did, d, release)
    {
      var active := ReadWorker();
      did := [WorkerRead(active)];
      if active.None? {
        return FinalSmokeWorkerStateAmbiguous, did;
      }
      if active.value.version == d.previous.version {
        return FinalSmokeCoordinatedRollback, did;
      }
      if previous.Some? && previous.value != release && active.value.version == d.deployed.version {
        var ok := OracleRollback(previous.value, release);
        did := did + [HostRollbackRun(previous.value, release, ok)];
        code := FinalSmokeOracleRestoreFailed;
        if ok {
          var again := OracleStatus();
          did := did + [HostRead(again)];
          if again.Some? && again.value.current == Some(release) {
            code := FinalSmokeOracleRestored;
          }
        }
        return;
      }
      code := if active.value.version == d.deployed.version then FinalSmokeWorkerRollbackFailed
      else FinalSmokeExternalWorkerChange;
    }

    // ---------------------------------------------------------------- coordinated_rollback

    // The checks, all of them reads: the host's release when every one passes.
    method CheckRollback(active: Deployment, version: nat, target: Sha)
      returns (current: Option<Sha>, ghost did: seq<Did>)
      requires Valid() && active == worker
      modifies `log
      ensures log == old(log) + did && OnlyReads(did)
      ensures current.Some? <==> ChecksPass(did, active, version, target)
      ensures current.Some? ==> && did[1].host.value.current == current && oracle == current
                                && version in runs && runs[version] == target
                                && (current.value != target ==> runs[worker.version] == current.value)
    {
      current := None;
      var tag := ReadVersion(version);
      did := [TagRead(version, tag)];
      if tag.None? {
        return;
      }
      var before := OracleStatus();
      did := did + [HostRead(before)];
      if before.None? || before.value.current.None? || tag.value != target {
        return;
      }
      var now := before.value.current.value;
      if now != target {
        if active.version == version {
          return;
        }
        var activeTag := ReadVersion(active.version);
        did := did + [TagRead(active.version, activeTag)];
        if activeTag != Some(now) {
          return;
        }
      }
      var guarded := ReadWorker();
      did := did + [WorkerRead(guarded)];
      if guarded.None? || guarded.value.id != active.id || guarded.value.version != active.version {
        return;
      }
      current := Some(now);
    }

    // The first half: nothing changes unless every check passed, and then only the host moves.
    method RollbackOracleFirst(current: Sha, version: nat, target: Sha)
      returns (failed: Option<RollbackCode>, ghost did: seq<Did>)
      requires Valid() && oracle == Some(current)
      modifies this
      ensures Valid() && WorkerSame() && log == old(log) + did
      ensures MoveSteps(did, current, target) && failed == MoveVerdict(did, current, target)
      ensures failed.None? ==> oracle == Some(target)
      ensures failed.Some? ==> PairAsSaid(failed.value, old(Now()), Now(), version, target)
    {
      did := [];
      failed := None;
      if current != target {
        var moved := OracleRollback(current, target);
        did := [HostRollbackRun(current, target, moved)];
        var observed := OracleStatus();
        did := did + [HostRead(observed)];
        if observed.None? {
          return Some(if moved then OracleStatusFailed else OracleStateAmbiguous), did;
        }
        var seen := observed.value.current;
        if !moved && seen == Some(current) {
          return Some(OracleRollbackFailed), did;
        }
        if seen != Some(target) {
          return Some(if moved then OracleMismatch else OracleExternalChange), did;
        }
      }
    }

    // The Worker's rollback was not confirmed: none when it is at the version after all.
    method RollbackStayed(active: nat, version: nat, current: Sha, target: Sha)
      returns (failed: Option<RollbackCode>, ghost did: seq<Did>)
      requires Valid() && oracle == Some(target) && (worker.version == active || worker.version == version)
      modifies this
      ensures Valid() && WorkerSame() && log == old(log) + did
      ensures StayedSteps(did, active, version, current, target)
      ensures failed == StayedVerdict(did, active, version, current)
      ensures failed.None? ==> oracle == Some(target) && worker.version == version
      ensures failed.Some? ==> PairAsSaid(failed.value, Pair(active, Some(current)), Now(), version, target)
    {
      failed := None;
      var after := ReadWorker();
      did := [WorkerRead(after)];
      if after.None? {
        return Some(WorkerStateAmbiguous), did;
      }
      var seen := after.value.version;
      if seen != version {
        if seen != active {
          return Some(WorkerExternalChange), did;
        }
        if current == target {
          return Some(WorkerRollbackFailed), did;
        }
        var ok := OracleRollback(target, current);
        did := did + [HostRollbackRun(target, current, ok)];
        failed := Some(WorkerFailedRestoreFailed);
        if ok {
          var observed := OracleStatus();
          did := did + [HostRead(observed)];
          if observed.Some? && observed.value.current == Some(current) {
            failed := Some(WorkerFailedOracleRestored);
          }
        }
      }
    }

    // The Worker, once the host is at the target.
    method RollbackWorker(active: Deployment, version: nat, current: Sha, target: Sha)
      returns (code: RollbackCode, ghost worker: seq<Did>, ghost after: seq<Did>, ghost smoke: seq<Did>)
      requires Valid() && oracle == Some(target) && active == this.worker && version in runs && runs[version] == target
      modifies this
      ensures Valid() && runs == old(runs) && log == old(log) + worker + after + smoke
      ensures PairAsSaid(code, Pair(active.version, Some(current)), Now(), version, target)
      ensures WorkerSteps(worker, after, smoke, active, version, current, target)
      ensures code == WorkerVerdict(after, smoke, active, version, current)
    {
      after, smoke := [], [];
      var back;
      back, worker := RollbackCloudflare(version, None, Some(active), false);
      if !back {
        var failed;
        failed, after := RollbackStayed(active.version, version, current, target);
        if failed.Some? {
          return failed.value, worker, after, smoke;
        }
      }
      var smoked := Smoke(target, version);
      smoke := [Smoked(smoked)];
      code := if smoked then BothAtTarget else SmokeFailedAtTarget;
    }

    method CoordinatedRollback(version: nat, target: Sha) returns (code: RollbackCode, ghost g: Going)
      requires Valid()
      modifies this
      ensures Valid() && runs == old(runs) && log == old(log) + g.Log()
      ensures PairAsSaid(code, old(Now()), Now(), version, target)
      ensures code.BothAtTarget? ==> Matched(Now(), runs)
      ensures Matched(old(Now()), runs) && !code.Ambiguous() ==> Matched(Now(), runs)
      ensures GoingFollows(g, version, target) && code == GoingVerdict(g, version, target)
    {
      var active := ReadWorker();
      if active.None? {
        g := Going(None, [], [], [], [], []);
        return Refused, g;
      }
      var current, checks := CheckRollback(active.value, version, target);
      if current.None? {
        g := Going(active, checks, [], [], [], []);
        GoingLog(old(log), g);
        return Refused, g;
      }
      var failed, move := RollbackOracleFirst(current.value, version, target);
      if failed.Some? {
        g := Going(active, checks, move, [], [], []);
        GoingLog(old(log), g);
        return failed.value, g;
      }
      ghost var worker, after, smoke;
      code, worker, after, smoke := RollbackWorker(active.value, version, current.value, target);
      g := Going(active, checks, move, worker, after, smoke);
      GoingLog(old(log), g);
    }
  }
}
