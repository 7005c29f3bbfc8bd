// What a release run of scripts/release.py may see: every command with its answer. The verdict of a run
// is read off these answers alone; the methods of Release.dfy are proved to reach it.
module ReleaseAnswers {
  import opened Wrappers

  type Sha = nat

  datatype Message = Git(release: Sha) | Note | NoMessage

  datatype Deployment = Deployment(id: nat, version: nat, message: Message)

  // status(): the current release, and whether its install finished when the host can tell.
  datatype HostStatus = HostStatus(current: Option<Sha>, complete: Option<bool>)

  datatype Code =
    | Succeeded
    | StatusFailed                                     // before anything was tried
    | D1Failed
    | DeployUnverifiedRolledBack
    | DeployUnverifiedRollbackFailed
    | SmokeFailedRolledBack
    | SmokeFailedRollbackFailed
    | OracleInstallAmbiguous
    | OracleInstallIncomplete
    | OracleInstallFailedWorkerRollbackFailed
    | OracleInstallNotStartedWorkerRolledBack
    | OracleInstallFailedWorkerRolledBack
    | FinalSmokeStatusAmbiguous
    | FinalSmokeNoPrevious
    | FinalSmokeOracleRollbackFailed
    | FinalSmokeOracleRollbackMismatch
    | FinalSmokeExternalOracleChange
    | FinalSmokeWorkerStateAmbiguous
    | FinalSmokeOracleRestoreFailed
    | FinalSmokeOracleRestored
    | FinalSmokeWorkerRollbackFailed
    | FinalSmokeExternalWorkerChange
    | FinalSmokeCoordinatedRollback

  // The exits of coordinated_rollback.
  datatype RollbackCode =
    | BothAtTarget
    | SmokeFailedAtTarget
    | Refused
    | OracleStateAmbiguous
    | OracleStatusFailed          // the rollback was reported, and the status read after it raised
    | OracleRollbackFailed
    | OracleExternalChange
    | OracleMismatch
    | WorkerStateAmbiguous
    | WorkerExternalChange
    | WorkerRollbackFailed
    | WorkerFailedOracleRestored
    | WorkerFailedRestoreFailed
  {
    predicate Ambiguous() {
      OracleStateAmbiguous? || OracleStatusFailed? || WorkerStateAmbiguous? || WorkerFailedRestoreFailed?
    }
  }

  datatype Deployed = Deployed(previous: Deployment, deployed: Deployment)

  datatype Install = Installed | NotStarted | Raised

  // How the install command ended: refused before it began, with an exit status of its own, or with
  // the connection lost.
  datatype Ending = Finished | NotBegun | ExitStatus | Lost

  datatype Did =
    | WorkerRead(seen: Option<Deployment>)
    | Migrated(ok: bool)
    | DeployRun(ok: bool)
    | WorkerRollbackRun(version: nat, ok: bool)
    | Smoked(ok: bool)
    | HostRead(host: Option<HostStatus>)
    | InstallRun(ending: Ending)
    | HostRollbackRun(expected: Sha, target: Sha, ok: bool)
    | TagRead(of: nat, tag: Option<Sha>)

  predicate EndsWith(did: seq<Did>, last: Did) {
    did != [] && did[|did| - 1] == last
  }

  // The part ends with the host seen on a release.
  predicate HostSeen(did: seq<Did>, current: Option<Sha>) {
    && did != [] && did[|did| - 1].HostRead? && did[|did| - 1].host.Some?
    && did[|did| - 1].host.value.current == current
  }

  // It ends with the host on the release and not reported incomplete.
  predicate HostOn(did: seq<Did>, release: Sha) {
    HostSeen(did, Some(release)) && did[|did| - 1].host.value.complete != Some(false)
  }

  // It ends with the Worker seen on a version.
  predicate WorkerSeen(did: seq<Did>, version: nat) {
    && did != [] && did[|did| - 1].WorkerRead? && did[|did| - 1].seen.Some?
    && did[|did| - 1].seen.value.version == version
  }

  // ---------------------------------------------------------------- a Worker rollback

  // The conditions under which it may be commanded.
  predicate MayRollBack(seen: Deployment, version: nat, message: Option<Message>, active: Option<Deployment>,
                        force: bool) {
    && (active.Some? ==> seen.id == active.value.id && seen.version == active.value.version)
    && (if seen.version == version then force else message.None? || seen.message == message.value)
  }

  // It is commanded exactly when it may be, and nothing but reads follows the command.
  predicate RollbackSteps(did: seq<Did>, version: nat, message: Option<Message>, active: Option<Deployment>,
                          force: bool) {
    && did != [] && did[0].WorkerRead?
    && (|did| == 1 <==> did[0].seen.None? || !MayRollBack(did[0].seen.value, version, message, active, force))
    && (|did| > 1 ==> did[1].WorkerRollbackRun? && did[1].version == version)
    && (|did| > 2 <==> |did| > 1 && did[1].ok)
    && forall i :: 2 <= i < |did| ==> did[i].WorkerRead?
  }

  // It is confirmed: the version was active already, or the command reported success and the last read
  // shows the version, under another deployment when one was forced.
  predicate Confirmed(did: seq<Did>, version: nat, active: Option<Deployment>, force: bool) {
    && did != [] && did[0].WorkerRead? && did[0].seen.Some? && WorkerSeen(did, version)
    && var first := did[0].seen.value;
    (if |did| == 1 then !force && (active.Some? ==> first.id == active.value.id && first.version == active.value.version)
     else force ==> did[|did| - 1].seen.value.id != first.id)
  }

  predicate VersionSeen(did: Did, version: nat, notId: Option<nat>) {
    && did.WorkerRead? && did.seen.Some? && did.seen.value.version == version
    && (notId.Some? ==> did.seen.value.id != notId.value)
  }

  // ---------------------------------------------------------------- the Worker half

  predicate NewSeen(did: Did, previous: Deployment, release: Sha) {
    did.WorkerRead? && did.seen.Some? && did.seen.value.id != previous.id && did.seen.value.message == Git(release)
  }

  // In order: the previous deployment, the database, the deploy, the reads for the new deployment, and
  // the smoke exactly when one of them showed it.
  predicate DeploySteps(did: seq<Did>, release: Sha) {
    && did != [] && did[0].WorkerRead?
    && (|did| > 1 <==> did[0].seen.Some?)
    && (|did| > 1 ==> did[1].Migrated? && (|did| > 2 <==> did[1].ok))
    && (|did| > 2 ==> did[2].DeployRun? && (|did| > 3 <==> did[2].ok))
    && (|did| > 3 ==> && (forall i :: 3 <= i < |did| - 1 ==> did[i].WorkerRead?)
                      && if did[|did| - 1].Smoked? then |did| > 4 && NewSeen(did[|did| - 2], Previous(did), release)
                         else did[|did| - 1].WorkerRead? && !NewSeen(did[|did| - 1], Previous(did), release))
  }

  // The deployments it saw: the one before, and the one it smoked.
  function SeenIn(did: Did): Deployment {
    if did.WorkerRead? && did.seen.Some? then did.seen.value else Deployment(0, 0, NoMessage)
  }

  function Previous(cloud: seq<Did>): Deployment
    requires cloud != []
  {
    SeenIn(cloud[0])
  }

  function Smoking(cloud: seq<Did>): Deployment
    requires |cloud| > 1
  {
    SeenIn(cloud[|cloud| - 2])
  }

  // The reads after a deploy that reported success, ending with the new deployment or without it.
  predicate AwaitedNew(did: seq<Did>, ok: bool, d: Option<Deployment>, previous: Deployment, release: Sha) {
    && (did != [] <==> ok) && (d.Some? ==> ok)
    && (forall i :: 0 <= i < |did| ==> did[i].WorkerRead?)
    && (did != [] ==> (d.Some? <==> NewSeen(did[|did| - 1], previous, release)))
    && (d.Some? ==> did[|did| - 1] == WorkerRead(d))
  }

  lemma UnseenSteps(did: seq<Did>, p: Deployment, ok: bool, shown: seq<Did>, release: Sha)
    requires did == [WorkerRead(Some(p)), Migrated(true)] + [DeployRun(ok)] + shown
    requires AwaitedNew(shown, ok, None, p, release)
    ensures DeploySteps(did, release) && |did| > 2 && Unverified(did) && Previous(did) == p
  {
  }

  lemma SmokedSteps(did: seq<Did>, p: Deployment, shown: seq<Did>, d: Deployment, smoked: bool, release: Sha)
    requires did == [WorkerRead(Some(p)), Migrated(true)] + [DeployRun(true)] + shown + [Smoked(smoked)]
    requires AwaitedNew(shown, true, Some(d), p, release)
    ensures DeploySteps(did, release) && |did| > 2 && !Unverified(did)
    ensures Previous(did) == p && Smoking(did) == d && EndsWith(did, Smoked(smoked))
  {
    assert did[|did| - 2] == shown[|shown| - 1];
  }

  // The deploy was run, and no read showed the new deployment.
  predicate Unverified(did: seq<Did>) {
    |did| > 2 && !did[|did| - 1].Smoked?
  }

  // A rollback follows exactly a deploy that was not seen or not passed; the first is forced and names
  // no deployment.
  predicate CloudBackSteps(cloud: seq<Did>, back: seq<Did>, release: Sha) {
    && (back != [] <==> |cloud| > 2 && !EndsWith(cloud, Smoked(true)))
    && (back != [] ==> RollbackSteps(back, Previous(cloud).version, Some(Git(release)),
                                     if Unverified(cloud) then None else Some(Smoking(cloud)), Unverified(cloud)))
  }

  function CloudVerdict(cloud: seq<Did>, back: seq<Did>): Code
    requires cloud != []
  {
    if |cloud| == 1 then StatusFailed
    else if |cloud| == 2 then D1Failed
    else if Unverified(cloud) then
      if Confirmed(back, Previous(cloud).version, None, true) then DeployUnverifiedRolledBack
      else DeployUnverifiedRollbackFailed
    else if Confirmed(back, Previous(cloud).version, Some(Smoking(cloud)), false) then SmokeFailedRolledBack
    else SmokeFailedRollbackFailed
  }

  // ---------------------------------------------------------------- the install

  // The host's own rollback is commanded exactly when the install command ended with an exit status
  // and left the host on a release that was not the one before.
  predicate UndoSteps(did: seq<Did>, before: Option<Sha>, release: Sha) {
    && did != [] && did[0].HostRead?
    && (|did| > 1 <==> HostSeen(did[..1], Some(release)) && before.Some? && before.value != release)
    && (|did| > 1 ==> && did[1].HostRollbackRun? && did[1].expected == release && did[1].target == before.value
                      && |did| == (if did[1].ok then 3 else 2) && (did[1].ok ==> did[2].HostRead?))
  }

  predicate InstallSteps(did: seq<Did>, release: Sha) {
    && did != [] && did[0].HostRead?
    && (|did| > 1 <==> did[0].host.Some?)
    && (|did| > 1 ==>
          && did[1].InstallRun?
          && match did[1].ending {
               case NotBegun => |did| == 2
               case Lost => |did| == 2
               case ExitStatus => UndoSteps(did[2..], did[0].host.value.current, release)
               case Finished => 3 <= |did| <= 7 && forall i :: 2 <= i < |did| ==> did[i].HostRead?
             })
  }

  predicate InstallDone(did: seq<Did>, release: Sha) {
    |did| > 2 && did[1] == InstallRun(Finished) && HostOn(did, release)
  }

  // The status is read again exactly after an install that was not done.
  predicate InstallPart(install: seq<Did>, look: seq<Did>, release: Sha) {
    && InstallSteps(install, release) && (look != [] <==> !InstallDone(install, release))
    && (look != [] ==> |look| == 1 && look[0].HostRead?)
  }

  // A failed install, by the status read after it.
  function InstallVerdict(install: seq<Did>, look: seq<Did>, workerBack: seq<Did>, previous: Option<Sha>, d: Deployed,
                          release: Sha): Code {
    if HostSeen(look, Some(release)) then OracleInstallIncomplete
    else if !HostSeen(look, previous) then OracleInstallAmbiguous
    else if !Confirmed(workerBack, d.previous.version, Some(d.deployed), false) then OracleInstallFailedWorkerRollbackFailed
    else if InstallRun(NotBegun) in install then OracleInstallNotStartedWorkerRolledBack
    else OracleInstallFailedWorkerRolledBack
  }

  // ---------------------------------------------------------------- the way back

  // The host is rolled back exactly from the new release to another one.
  predicate HostBackSteps(did: seq<Did>, previous: Option<Sha>, release: Sha) {
    && did != [] && did[0].HostRead?
    && (|did| > 1 <==> HostSeen(did[..1], Some(release)) && previous.Some? && previous.value != release)
    && (|did| > 1 ==> && did[1].HostRollbackRun? && did[1].expected == release && did[1].target == previous.value
                      && |did| == (if did[1].ok then 3 else 2) && (did[1].ok ==> did[2].HostRead?))
  }

  // A host not seen back on the release before.
  function HostVerdict(did: seq<Did>, previous: Option<Sha>, release: Sha): Code {
    if |did| == 1 then
      if did == [HostRead(None)] then FinalSmokeStatusAmbiguous
      else if HostSeen(did, Some(release)) then FinalSmokeNoPrevious
      else FinalSmokeExternalOracleChange
    else if |did| == 3 && !EndsWith(did, HostRead(None)) then FinalSmokeOracleRollbackMismatch
    else FinalSmokeOracleRollbackFailed
  }

  // After a Worker that was not confirmed back, the host is restored exactly when the Worker is seen
  // still on the new version and the host had been moved.
  predicate AfterSteps(did: seq<Did>, previous: Option<Sha>, d: Deployed, release: Sha) {
    && did != [] && did[0].WorkerRead?
    && (|did| > 1 <==> && WorkerSeen(did[..1], d.deployed.version) && !WorkerSeen(did[..1], d.previous.version)
                       && previous.Some? && previous.value != release)
    && (|did| > 1 ==> && did[1].HostRollbackRun? && did[1].expected == previous.value && did[1].target == release
                      && |did| == (if did[1].ok then 3 else 2) && (did[1].ok ==> did[2].HostRead?))
  }

  function AfterVerdict(did: seq<Did>, d: Deployed, release: Sha): Code {
    if did == [WorkerRead(None)] then FinalSmokeWorkerStateAmbiguous
    else if WorkerSeen(did, d.previous.version) then FinalSmokeCoordinatedRollback
    else if |did| == 3 && HostSeen(did, Some(release)) then FinalSmokeOracleRestored
    else if |did| > 1 then FinalSmokeOracleRestoreFailed
    else if WorkerSeen(did, d.deployed.version) then FinalSmokeWorkerRollbackFailed
    else FinalSmokeExternalWorkerChange
  }

  // The Worker follows exactly when the host is seen back.
  predicate OutSteps(host: seq<Did>, worker: seq<Did>, after: seq<Did>, previous: Option<Sha>, d: Deployed,
                     release: Sha) {
    && HostBackSteps(host, previous, release)
    && (worker != [] <==> HostSeen(host, previous))
    && (worker != [] ==> RollbackSteps(worker, d.previous.version, Some(Git(release)), Some(d.deployed), false))
    && (after != [] <==> worker != [] && !Confirmed(worker, d.previous.version, Some(d.deployed), false))
    && (after != [] ==> AfterSteps(after, previous, d, release))
  }

  function OutVerdict(host: seq<Did>, worker: seq<Did>, after: seq<Did>, previous: Option<Sha>, d: Deployed,
                      release: Sha): Code {
    if !HostSeen(host, previous) then HostVerdict(host, previous, release)
    else if Confirmed(worker, d.previous.version, Some(d.deployed), false) then FinalSmokeCoordinatedRollback
    else AfterVerdict(after, d, release)
  }

  // ---------------------------------------------------------------- deploy_all

  // The final smoke: nothing goes back after a passed one, and both systems do after a failed one.
  predicate FinalSteps(smoke: seq<Did>, host: seq<Did>, worker: seq<Did>, after: seq<Did>, previous: Option<Sha>,
                       d: Deployed, release: Sha) {
    && |smoke| == 1 && smoke[0].Smoked?
    && if smoke[0].ok then host == [] && worker == [] && after == []
       else OutSteps(host, worker, after, previous, d, release)
  }

  function FinalVerdict(smoke: seq<Did>, host: seq<Did>, worker: seq<Did>, after: seq<Did>, previous: Option<Sha>,
                        d: Deployed, release: Sha): Code {
    if smoke == [Smoked(true)] then Succeeded else OutVerdict(host, worker, after, previous, d, release)
  }

  // What follows a Worker half that passed its smoke, part by part in the order of its commands: the
  // install with the status read after a failed one, the final smoke, the way back on the host and on
  // the Worker, and what followed a Worker that did not go back.
  datatype Half = Half(install: seq<Did>, look: seq<Did>, smoke: seq<Did>, hostBack: seq<Did>, workerBack: seq<Did>,
                       after: seq<Did>)
  {
    function Log(): seq<Did> { install + look + smoke + hostBack + workerBack + after }

    // The host was seen on the release, by the install itself or by the status read after it.
    predicate Up(release: Sha) { InstallDone(install, release) || HostOn(look, release) }
  }

  // Each part is there exactly when the one before calls for it; after a failed install that left the
  // host where it was the Worker goes back alone.
  predicate HalfSteps(h: Half, previous: Option<Sha>, d: Deployed, release: Sha) {
    && InstallPart(h.install, h.look, release)
    && if h.Up(release) then FinalSteps(h.smoke, h.hostBack, h.workerBack, h.after, previous, d, release)
       else && h.smoke == [] && h.hostBack == [] && h.after == []
            && (h.workerBack != [] <==> !HostSeen(h.look, Some(release)) && HostSeen(h.look, previous))
            && (h.workerBack != [] ==>
                  RollbackSteps(h.workerBack, d.previous.version, Some(Git(release)), Some(d.deployed), false))
  }

  function HalfVerdict(h: Half, previous: Option<Sha>, d: Deployed, release: Sha): Code {
    if !h.Up(release) then InstallVerdict(h.install, h.look, h.workerBack, previous, d, release)
    else FinalVerdict(h.smoke, h.hostBack, h.workerBack, h.after, previous, d, release)
  }

  lemma HalfLog(before: seq<Did>, h: Half)
    ensures before + h.Log() == before + h.install + h.look + h.smoke + h.hostBack + h.workerBack + h.after
  {
    var a := h.install + h.look + h.smoke;
    assert before + a == before + h.install + h.look + h.smoke;
    assert before + h.Log() == before + a + h.hostBack + h.workerBack + h.after;
  }

  // The two ways it is put together.
  lemma InstallStops(h: Half, previous: Option<Sha>, d: Deployed, release: Sha)
    requires h == Half(h.install, h.look, [], [], h.workerBack, []) && InstallPart(h.install, h.look, release)
    requires !h.Up(release)
    requires h.workerBack != [] <==> !HostSeen(h.look, Some(release)) && HostSeen(h.look, previous)
    requires h.workerBack != [] ==>
               RollbackSteps(h.workerBack, d.previous.version, Some(Git(release)), Some(d.deployed), false)
    ensures HalfSteps(h, previous, d, release)
    ensures HalfVerdict(h, previous, d, release) == InstallVerdict(h.install, h.look, h.workerBack, previous, d, release)
  {
  }

  lemma SmokeEnds(h: Half, previous: Option<Sha>, d: Deployed, release: Sha)
    requires InstallPart(h.install, h.look, release) && h.Up(release)
    requires FinalSteps(h.smoke, h.hostBack, h.workerBack, h.after, previous, d, release)
    ensures HalfSteps(h, previous, d, release)
    ensures HalfVerdict(h, previous, d, release) == FinalVerdict(h.smoke, h.hostBack, h.workerBack, h.after, previous, d, release)
  {
  }

  const NO_HALF := Half([], [], [], [], [], [])

  // A run of deploy_all: the host's status, the Worker half and its rollback, and what followed.
  datatype Story = Story(host: Option<HostStatus>, cloud: seq<Did>, cloudBack: seq<Did>, half: Half)
  {
    function Log(): seq<Did> { [HostRead(host)] + cloud + cloudBack + half.Log() }
  }

  predicate Follows(s: Story, release: Sha) {
    if s.host.None? then s == Story(None, [], [], NO_HALF)
    else
      && DeploySteps(s.cloud, release) && CloudBackSteps(s.cloud, s.cloudBack, release)
      && if EndsWith(s.cloud, Smoked(true)) then
           |s.cloud| > 2 && HalfSteps(s.half, s.host.value.current, Deployed(Previous(s.cloud), Smoking(s.cloud)), release)
         else s.half == NO_HALF
  }

  // The exit code of a run, by its answers.
  function Verdict(s: Story, release: Sha): Code
    requires Follows(s, release)
  {
    if s.host.None? then StatusFailed
    else if !EndsWith(s.cloud, Smoked(true)) then CloudVerdict(s.cloud, s.cloudBack)
    else HalfVerdict(s.half, s.host.value.current, Deployed(Previous(s.cloud), Smoking(s.cloud)), release)
  }

  // A run succeeds exactly when the host answered, the Worker half passed its smoke, the host was seen on
  // the release and not incomplete, and the final smoke passed; and that smoke is then its last command.
  lemma SucceedsIff(s: Story, release: Sha)
    requires Follows(s, release)
    ensures Verdict(s, release) == Succeeded
       <==> && s.host.Some? && EndsWith(s.cloud, Smoked(true))
            && (InstallDone(s.half.install, release) || HostOn(s.half.look, release)) && s.half.smoke == [Smoked(true)]
    ensures s.half.smoke == [Smoked(true)] ==> EndsWith(s.Log(), Smoked(true))
  {
    if s.half.smoke == [Smoked(true)] {
      assert s.half.hostBack == [] && s.half.workerBack == [] && s.half.after == [];
      assert s.half.Log() == s.half.install + s.half.look + s.half.smoke;
      assert EndsWith(s.half.Log(), Smoked(true));
    }
  }

  // Which step failed: the codes of the Worker half.
  lemma WorkerCodesIff(s: Story, release: Sha)
    requires Follows(s, release)
    ensures Verdict(s, release).StatusFailed? <==> s.host.None? || s.cloud == [WorkerRead(None)]
    ensures Verdict(s, release).D1Failed? <==> EndsWith(s.cloud, Migrated(false))
    ensures Verdict(s, release).DeployUnverifiedRolledBack? || Verdict(s, release).DeployUnverifiedRollbackFailed?
       <==> |s.cloud| > 2 && !EndsWith(s.cloud, Smoked(true)) && !EndsWith(s.cloud, Smoked(false))
    ensures Verdict(s, release).SmokeFailedRolledBack? || Verdict(s, release).SmokeFailedRollbackFailed?
       <==> EndsWith(s.cloud, Smoked(false))
    ensures Verdict(s, release).DeployUnverifiedRolledBack? || Verdict(s, release).SmokeFailedRolledBack?
       <==> |s.cloud| > 2 && s.cloudBack != [] && WorkerSeen(s.cloudBack, Previous(s.cloud).version)
            && (|s.cloudBack| == 1 ==> EndsWith(s.cloud, Smoked(false)) && s.cloudBack[0].seen.value.id == Smoking(s.cloud).id
                                       && s.cloudBack[0].seen.value.version == Smoking(s.cloud).version)
            && (!EndsWith(s.cloud, Smoked(false)) ==>
                  s.cloudBack[0].seen.Some? && s.cloudBack[|s.cloudBack| - 1].seen.value.id != s.cloudBack[0].seen.value.id)
  {
  }

  // The codes of the install: the Worker passed its smoke, and the host was not seen on the release.
  lemma InstallCodesIff(s: Story, release: Sha)
    requires Follows(s, release) && s.host.Some? && EndsWith(s.cloud, Smoked(true))
    ensures !s.half.Up(release) <==>
              match Verdict(s, release) {
                case OracleInstallAmbiguous => true
                case OracleInstallIncomplete => true
                case OracleInstallFailedWorkerRollbackFailed => true
                case OracleInstallNotStartedWorkerRolledBack => true
                case OracleInstallFailedWorkerRolledBack => true
                case _ => false
              }
    ensures Verdict(s, release).OracleInstallIncomplete?
       <==> HostSeen(s.half.look, Some(release)) && s.half.look[0].host.value.complete == Some(false)
    ensures Verdict(s, release).OracleInstallAmbiguous?
       <==> && s.half.look != [] && !HostSeen(s.half.look, Some(release))
            && (s.half.look == [HostRead(None)] || s.half.look[0].host.value.current != s.host.value.current)
    ensures Verdict(s, release).OracleInstallNotStartedWorkerRolledBack? ==> InstallRun(NotBegun) in s.half.install
  {
  }

  // The codes of the final smoke: both systems were up, and it failed.
  lemma FinalCodesIff(s: Story, release: Sha)
    requires Follows(s, release) && s.host.Some? && EndsWith(s.cloud, Smoked(true)) && s.half.Up(release)
    ensures s.half.smoke == [Smoked(false)] <==> Verdict(s, release) != Succeeded
    ensures Verdict(s, release).FinalSmokeStatusAmbiguous? <==> s.half.hostBack == [HostRead(None)]
    ensures Verdict(s, release).FinalSmokeCoordinatedRollback?
       <==> && s.half.smoke == [Smoked(false)] && HostSeen(s.half.hostBack, s.host.value.current)
            && (Confirmed(s.half.workerBack, Previous(s.cloud).version, Some(Smoking(s.cloud)), false)
                || WorkerSeen(s.half.after, Previous(s.cloud).version))
  {
  }

  // ---------------------------------------------------------------- a coordinated rollback

  // Every check passes: the version is tagged with the release, the host runs a release of its own, the
  // active version is tagged with it unless it is the target, and the Worker has not moved since.
  predicate ChecksPass(did: seq<Did>, active: Deployment, version: nat, target: Sha) {
    && |did| > 2 && did[0] == TagRead(version, Some(target))
    && did[1].HostRead? && did[1].host.Some? && did[1].host.value.current.Some?
    && var current := did[1].host.value.current.value;
    var guarded := did[|did| - 1];
    && |did| == (if current == target then 3 else 4)
    && (current != target ==> active.version != version && did[2] == TagRead(active.version, Some(current)))
    && guarded.WorkerRead? && guarded.seen.Some?
    && guarded.seen.value.id == active.id && guarded.seen.value.version == active.version
  }

  // The host is rolled back exactly when the checks pass and it runs another release.
  predicate MoveSteps(did: seq<Did>, current: Sha, target: Sha) {
    if current == target then did == []
    else && |did| == 2 && did[0].HostRollbackRun? && did[0].expected == current && did[0].target == target
         && did[1].HostRead?
  }

  function MoveVerdict(did: seq<Did>, current: Sha, target: Sha): Option<RollbackCode>
    requires MoveSteps(did, current, target)
  {
    if did == [] || HostSeen(did, Some(target)) then None
    else if did[1].host.None? then Some(if did[0].ok then OracleStatusFailed else OracleStateAmbiguous)
    else if did[0].ok then Some(OracleMismatch)
    else if HostSeen(did, Some(current)) then Some(OracleRollbackFailed)
    else Some(OracleExternalChange)
  }

  // After a Worker that was not confirmed back, the host is restored exactly when the Worker is seen
  // where it was and the host had been moved.
  predicate StayedSteps(did: seq<Did>, active: nat, version: nat, current: Sha, target: Sha) {
    && did != [] && did[0].WorkerRead?
    && (|did| > 1 <==> !WorkerSeen(did[..1], version) && WorkerSeen(did[..1], active) && current != target)
    && (|did| > 1 ==> && did[1].HostRollbackRun? && did[1].expected == target && did[1].target == current
                      && |did| == (if did[1].ok then 3 else 2) && (did[1].ok ==> did[2].HostRead?))
  }

  // None when the Worker is at the version after all.
  function StayedVerdict(did: seq<Did>, active: nat, version: nat, current: Sha): Option<RollbackCode> {
    if WorkerSeen(did, version) then None
    else if did == [WorkerRead(None)] then Some(WorkerStateAmbiguous)
    else if |did| == 3 && HostSeen(did, Some(current)) then Some(WorkerFailedOracleRestored)
    else if |did| > 1 then Some(WorkerFailedRestoreFailed)
    else if WorkerSeen(did, active) then Some(WorkerRollbackFailed)
    else Some(WorkerExternalChange)
  }

  // The Worker after a host at the target, what followed a Worker that did not go back, and the smoke.
  predicate WorkerSteps(worker: seq<Did>, after: seq<Did>, smoke: seq<Did>, active: Deployment, version: nat,
                        current: Sha, target: Sha) {
    && RollbackSteps(worker, version, None, Some(active), false)
    && (after != [] <==> !Confirmed(worker, version, Some(active), false))
    && (after != [] ==> StayedSteps(after, active.version, version, current, target))
    && (smoke != [] <==> (after != [] ==> WorkerSeen(after, version)))
    && (smoke != [] ==> |smoke| == 1 && smoke[0].Smoked?)
  }

  function WorkerVerdict(after: seq<Did>, smoke: seq<Did>, active: Deployment, version: nat, current: Sha): RollbackCode {
    var stayed := StayedVerdict(after, active.version, version, current);
    if after != [] && stayed.Some? then stayed.value
    else if smoke == [Smoked(true)] then BothAtTarget
    else SmokeFailedAtTarget
  }

  // A coordinated rollback: the active deployment, the checks, the host's rollback, the Worker's, what
  // followed a Worker that did not go back, and the smoke.
  datatype Going = Going(active: Option<Deployment>, checks: seq<Did>, move: seq<Did>, worker: seq<Did>,
                         after: seq<Did>, smoke: seq<Did>)
  {
    function Log(): seq<Did> { [WorkerRead(active)] + checks + move + worker + after + smoke }

    predicate Checked(version: nat, target: Sha) {
      active.Some? && ChecksPass(checks, active.value, version, target)
    }

    // The host's release when the checks passed.
    function Current(): Sha
      requires |checks| > 1 && checks[1].HostRead? && checks[1].host.Some? && checks[1].host.value.current.Some?
    {
      checks[1].host.value.current.value
    }
  }

  lemma GoingLog(before: seq<Did>, g: Going)
    ensures before + g.Log() == before + [WorkerRead(g.active)] + g.checks + g.move + g.worker + g.after + g.smoke
  {
    var a := [WorkerRead(g.active)] + g.checks + g.move;
    assert before + a == before + [WorkerRead(g.active)] + g.checks + g.move;
    assert before + g.Log() == before + a + g.worker + g.after + g.smoke;
  }

  predicate OnlyReads(did: seq<Did>) {
    forall i :: 0 <= i < |did| ==> did[i].WorkerRead? || did[i].HostRead? || did[i].TagRead?
  }

  predicate GoingFollows(g: Going, version: nat, target: Sha) {
    && OnlyReads(g.checks) && (g.active.None? ==> g.checks == [])
    && if !g.Checked(version, target) then g.move == [] && g.worker == [] && g.after == [] && g.smoke == []
       else
         && MoveSteps(g.move, g.Current(), target)
         && if MoveVerdict(g.move, g.Current(), target).Some? then g.worker == [] && g.after == [] && g.smoke == []
            else WorkerSteps(g.worker, g.after, g.smoke, g.active.value, version, g.Current(), target)
  }

  function GoingVerdict(g: Going, version: nat, target: Sha): RollbackCode
    requires GoingFollows(g, version, target)
  {
    if !g.Checked(version, target) then Refused
    else if MoveVerdict(g.move, g.Current(), target).Some? then MoveVerdict(g.move, g.Current(), target).value
    else WorkerVerdict(g.after, g.smoke, g.active.value, version, g.Current())
  }

  // It reaches its target exactly when the checks passed, the host was seen at the release, the Worker at
  // the version, and the smoke passed; and it commands nothing unless every check passed.
  lemma ReachesIff(g: Going, version: nat, target: Sha)
    requires GoingFollows(g, version, target)
    ensures GoingVerdict(g, version, target) == BothAtTarget
       <==> && g.Checked(version, target) && (g.Current() == target || HostSeen(g.move, Some(target)))
            && (Confirmed(g.worker, version, g.active, false) || WorkerSeen(g.after, version))
            && g.smoke == [Smoked(true)]
    ensures GoingVerdict(g, version, target) == Refused <==> !g.Checked(version, target)
    ensures GoingVerdict(g, version, target) == Refused ==> OnlyReads(g.Log())
  {
    if !g.Checked(version, target) {
      assert g.Log() == [WorkerRead(g.active)] + g.checks;
    }
  }
}
