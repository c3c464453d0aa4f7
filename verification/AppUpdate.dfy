/** The application updater as a state machine of calls and job completions under one lock. */
module AppUpdate {
  import opened Common

  datatype Phase =
    | Idle
    | Checking
    | UpToDate
    | Available
    | Downloading
    | Verifying
    | ReadyToInstall
    | Installing
    | RestartRequired
    | Completed
    | Failed

  datatype Channel = Stable | Beta

  datatype ServiceError = Unavailable | InvalidState

  datatype UpdateError = UpdateError(code: string, message: string)

  datatype Release = Release(version: string, notes: Option<string>, available: bool)

  /** A verified download; its number tells apart two downloads of the same release. */
  datatype Package = Package(number: nat, release: Release)

  datatype State = State(
    phase: Phase,
    channel: Channel,
    availableVersion: Option<string>,
    releaseNotes: Option<string>,
    downloadedBytes: u64,
    totalBytes: Option<u64>,
    progress: Option<real>,
    lastChecked: Option<u64>,
    error: Option<UpdateError>)

  /** A running job: a check, a download before or after it starts verifying, an install plan. */
  datatype Job = CheckJob | DownloadJob(release: Release, verifying: bool) | PlanJob(package: Package)

  /** What the lock protects, and the jobs that will take the lock later. */
  datatype Updater = Updater(
    state: State,
    release: Option<Release>,
    package: Option<Package>,
    jobs: map<nat, Job>,
    next: nat,
    handedOut: seq<Package>)

  /** What a build and its installation allow. */
  datatype Build = Build(configured: bool, versionParses: bool, installSupported: bool, hasTarget: bool)

  // ---- the declared relation -----------------------------------------------

  predicate Retryable(error: Option<UpdateError>) {
    error.Some? && error.value.code == "download_failed"
  }

  /** The phase changes that the state type declares. */
  predicate Permitted(phase: Phase, error: Option<UpdateError>, next: Phase) {
    || (next == Checking && phase in {Idle, UpToDate, Available, ReadyToInstall, Failed})
    || (phase == Checking && (next == UpToDate || next == Available || next == Failed))
    || (phase == Available && next == Downloading)
    || (phase == Downloading && (next == Verifying || next == Failed))
    || (phase == Verifying && (next == ReadyToInstall || next == Failed))
    || (phase == ReadyToInstall && next == Installing)
    || (phase == Installing && (next == RestartRequired || next == Completed || next == Failed))
    || (phase == Failed && next == Downloading && Retryable(error))
  }

  class UpdateState {
    var phase: Phase
    var error: Option<UpdateError>

    constructor ()
      ensures phase == Idle && error == None
    {
      phase, error := Idle, None;
    }

    method Transition(next: Phase) returns (permitted: bool)
      modifies this`phase
      ensures permitted == Permitted(old(phase), error, next)
      ensures phase == if permitted then next else old(phase)
    {
      permitted := match next
        case Checking => phase in {Idle, UpToDate, Available, ReadyToInstall, Failed}
        case UpToDate => phase == Checking
        case Available => phase == Checking
        case Downloading => phase == Available || (phase == Failed && Retryable(error))
        case Verifying => phase == Downloading
        case ReadyToInstall => phase == Verifying
        case Installing => phase == ReadyToInstall
        case RestartRequired => phase == Installing
        case Completed => phase == Installing
        case Failed => phase == Checking || phase == Downloading || phase == Verifying || phase == Installing
        case Idle => false;
      if permitted {
        phase := next;
      }
    }
  }

  // ---- calls ---------------------------------------------------------------

  function Fresh(): Updater {
    Updater(State(Idle, Stable, None, None, 0, None, None, None, None), None, None, map[], 0, [])
  }

  function Spawn(u: Updater, job: Job): Updater {
    u.(jobs := u.jobs[u.next := job], next := u.next + 1)
  }

  /** Starts a check; whatever an earlier check or download left is dropped. */
  function StartCheck(u: Updater, channel: Channel, b: Build): Result<Updater, ServiceError> {
    if !b.configured then Err(Unavailable)
    else if u.state.phase !in {Idle, UpToDate, Available, ReadyToInstall, Failed} then Err(InvalidState)
    else if !b.versionParses then Err(Unavailable)
    else Ok(Spawn(
      u.(state := State(Checking, channel, None, None, 0, None, None, u.state.lastChecked, None), release := None,
        package := None),
      CheckJob))
  }

  /** Starts a download of the known release, or retries one that failed. */
  function StartDownload(u: Updater, b: Build): Result<Updater, ServiceError> {
    if !b.configured then Err(Unavailable)
    else if u.state.phase != Available && !(u.state.phase == Failed && Retryable(u.state.error)) then Err(InvalidState)
    else if u.release.None? then Err(InvalidState)
    else Ok(Spawn(
      u.(state := u.state.(phase := Downloading, error := None, downloadedBytes := 0, totalBytes := None,
        progress := None),
         package := None),
      DownloadJob(u.release.value, false)))
  }

  /** Takes the package out for installation; making the plan is the rest of the same call. */
  function ReservePackage(u: Updater, b: Build): Result<Updater, ServiceError> {
    if !b.installSupported then Err(Unavailable)
    else if u.state.phase != ReadyToInstall then Err(InvalidState)
    else if u.release.None? || u.package.None? then Err(InvalidState)
    else if !b.hasTarget then Err(Unavailable)
    else Ok(Spawn(
      u.(state := u.state.(phase := Installing), release := None, package := None,
         handedOut := u.handedOut + [u.package.value]),
      PlanJob(u.package.value)))
  }

  // ---- jobs ----------------------------------------------------------------

  function Failing(u: Updater, code: string, message: string): Updater {
    u.(state := u.state.(phase := Failed, error := Some(UpdateError(code, message))))
  }

  function Checked(u: Updater, result: Result<Release, string>, now: Option<u64>): Updater {
    match result
    case Err(message) => Failing(u, "check_failed", message)
    case Ok(release) =>
      if release.available then
        u.(state := u.state.(phase := Available, lastChecked := now, availableVersion := Some(release.version),
                             releaseNotes := release.notes),
           release := Some(release))
      else u.(state := u.state.(phase := UpToDate, lastChecked := now))
  }

  function Percent(downloaded: u64, total: Option<u64>): Option<real> {
    if total.None? || total.value == 0 then None
    else
      var share := downloaded as real * 100.0 / total.value as real;
      Some(if share > 100.0 then 100.0 else share)
  }

  function Progressed(u: Updater, downloaded: u64, total: Option<u64>): Updater {
    u.(state := u.state.(downloadedBytes := downloaded, totalBytes := total, progress := Percent(downloaded, total)))
  }

  function Downloaded(u: Updater, result: Result<Package, string>): Updater {
    match result
    case Ok(package) => u.(package := Some(package), state := u.state.(phase := ReadyToInstall))
    case Err(message) => Failing(u, "download_failed", message)
  }

  function Planned(u: Updater, result: Result<(), string>): Updater {
    match result
    case Ok(_) => u
    case Err(message) => Failing(u, "install_unavailable", message)
  }

  // ---- steps ---------------------------------------------------------------

  /** Everything that takes the lock: calls, and running jobs reporting back. */
  datatype Event =
    | CheckCalled(channel: Channel)
    | DownloadCalled
    | InstallCalled
    | CheckEnds(job: nat, found: Result<Release, string>, now: Option<u64>)
    | DownloadReports(job: nat, downloaded: u64, total: Option<u64>)
    | DownloadVerifies(job: nat)
    | DownloadEnds(job: nat, failure: Option<string>)
    | PlanEnds(job: nat, outcome: Result<(), string>)

  /** A job reports only while it runs, and a download succeeds only after it began verifying. */
  predicate Possible(u: Updater, e: Event) {
    match e
    case CheckEnds(job, _, _) => job in u.jobs && u.jobs[job].CheckJob?
    case DownloadReports(job, _, _) => job in u.jobs && u.jobs[job].DownloadJob? && !u.jobs[job].verifying
    case DownloadVerifies(job) => job in u.jobs && u.jobs[job].DownloadJob? && !u.jobs[job].verifying
    case DownloadEnds(job, failure) =>
      job in u.jobs && u.jobs[job].DownloadJob? && (failure.None? ==> u.jobs[job].verifying)
    case PlanEnds(job, _) => job in u.jobs && u.jobs[job].PlanJob?
    case _ => true
  }

  function Called(u: Updater, r: Result<Updater, ServiceError>): Updater {
    if r.Ok? then r.value else u
  }

  function Ended(u: Updater, job: nat): Updater {
    u.(jobs := u.jobs - {job})
  }

  function Step(u: Updater, e: Event, b: Build): Updater
    requires Possible(u, e)
  {
    match e
    case CheckCalled(channel) => Called(u, StartCheck(u, channel, b))
    case DownloadCalled => Called(u, StartDownload(u, b))
    case InstallCalled => Called(u, ReservePackage(u, b))
    case CheckEnds(job, found, now) => Ended(Checked(u, found, now), job)
    case DownloadReports(_, downloaded, total) => Progressed(u, downloaded, total)
    case DownloadVerifies(job) =>
      u.(state := u.state.(phase := Verifying), jobs := u.jobs[job := u.jobs[job].(verifying := true)])
    case DownloadEnds(job, failure) =>
      Ended(Downloaded(u, if failure.Some? then Err(failure.value) else Ok(Package(job, u.jobs[job].release))), job)
    case PlanEnds(job, outcome) => Ended(Planned(u, outcome), job)
  }

  // ---- the invariant -------------------------------------------------------

  /** The only job that may be running in a phase. */
  predicate JobFits(u: Updater, job: Job) {
    match job
    case CheckJob => u.state.phase == Checking
    case DownloadJob(release, verifying) =>
      u.state.phase == (if verifying then Verifying else Downloading) && u.release == Some(release)
    case PlanJob(package) => u.state.phase == Installing
  }

  predicate OneJob(u: Updater) {
    && (forall i, j :: i in u.jobs && j in u.jobs ==> i == j)
    && (forall i :: i in u.jobs ==> i < u.next && JobFits(u, u.jobs[i]))
    && (u.state.phase in {Checking, Downloading, Verifying} ==> u.jobs != map[])
  }

  predicate HasRelease(u: Updater) {
    u.release.Some? && u.release.value.available
  }

  /** A release is on offer from a check that found it until it is installed; its package is held while it is ready. */
  predicate Holdings(u: Updater) {
    && (u.state.phase in {Available, Downloading, Verifying, ReadyToInstall} ==> HasRelease(u))
    && (u.state.phase == Failed && Retryable(u.state.error) ==> HasRelease(u))
    && (u.state.phase in {Idle, Checking, UpToDate, Installing} ==> u.release.None?)
    && (u.state.phase == Failed && !Retryable(u.state.error) ==> u.release.None?)
    && (u.package.Some? <==> u.state.phase == ReadyToInstall)
    && (u.package.Some? ==> Some(u.package.value.release) == u.release)
    && u.state.phase !in {RestartRequired, Completed}
  }

  /** What is shown: the release on hand, an error exactly after a failure, a share of at most all. */
  predicate Shown(u: Updater) {
    && (u.release.Some? ==> u.state.availableVersion == Some(u.release.value.version)
                            && u.state.releaseNotes == u.release.value.notes)
    && (u.state.error.Some? <==> u.state.phase == Failed)
    && (u.state.progress.Some? ==> 0.0 <= u.state.progress.value <= 100.0)
    && (u.state.phase == Checking ==> u.release.None?)
  }

  /** A number that no running job has and no later job will get. */
  predicate Spent(u: Updater, number: nat) {
    number < u.next && number !in u.jobs
  }

  /** Packages are numbered by the downloads that made them, and each is handed out at most once. */
  predicate Numbered(u: Updater) {
    && (forall i :: 0 <= i < |u.handedOut| ==> Spent(u, u.handedOut[i].number))
    && (forall i, j :: 0 <= i < j < |u.handedOut| ==> u.handedOut[i].number != u.handedOut[j].number)
    && (u.package.Some? ==> Spent(u, u.package.value.number))
    && (u.package.Some? ==> forall i :: 0 <= i < |u.handedOut| ==> u.handedOut[i].number != u.package.value.number)
  }

  predicate Sound(u: Updater) {
    OneJob(u) && Holdings(u) && Shown(u) && Numbered(u)
  }

  lemma FreshIsSound()
    ensures Sound(Fresh())
  {
  }

  lemma StepKeepsOneJob(u: Updater, e: Event, b: Build)
    requires Sound(u) && Possible(u, e)
    ensures OneJob(Step(u, e, b))
  {
    if u.state.phase !in {Checking, Downloading, Verifying, Installing} {
      NoJobs(u);
      if Step(u, e, b).next > u.next { assert u.next in Step(u, e, b).jobs; }
    } else if e.DownloadVerifies? {
      assert JobFits(u, u.jobs[e.job]) && e.job in Step(u, e, b).jobs;
    } else if !e.CheckCalled? && !e.DownloadCalled? && !e.InstallCalled? {
      assert JobFits(u, u.jobs[e.job]);
    }
  }

  lemma NoJobs(u: Updater)
    requires OneJob(u) && u.state.phase !in {Checking, Downloading, Verifying, Installing}
    ensures u.jobs == map[]
  {
    if id :| id in u.jobs { assert JobFits(u, u.jobs[id]); }
  }

  lemma StepKeepsHoldings(u: Updater, e: Event, b: Build)
    requires Sound(u) && Possible(u, e)
    ensures Holdings(Step(u, e, b))
  {
  }

  lemma StepKeepsShown(u: Updater, e: Event, b: Build)
    requires Sound(u) && Possible(u, e)
    ensures Shown(Step(u, e, b))
  {
    hide Percent;
    match e {
      case DownloadReports(_, downloaded, total) => PercentIsBounded(downloaded, total);
      case CheckEnds(job, _, _) => assert JobFits(u, u.jobs[job]);
      case DownloadVerifies(job) => assert JobFits(u, u.jobs[job]);
      case DownloadEnds(job, _) => assert JobFits(u, u.jobs[job]);
      case PlanEnds(job, _) => assert JobFits(u, u.jobs[job]);
      case _ =>
    }
  }

  lemma StepKeepsNumbers(u: Updater, e: Event, b: Build)
    requires Sound(u) && Possible(u, e)
    ensures Numbered(Step(u, e, b))
  {
  }

  lemma StepIsSound(u: Updater, e: Event, b: Build)
    requires Sound(u) && Possible(u, e)
    ensures Sound(Step(u, e, b))
  {
    hide Step, OneJob, Holdings, Shown, Numbered;
    StepKeepsOneJob(u, e, b);
    StepKeepsHoldings(u, e, b);
    StepKeepsShown(u, e, b);
    StepKeepsNumbers(u, e, b);
  }

  /** Each step of the service either leaves the phase or changes it as the state type declares. */
  lemma StepIsPermitted(u: Updater, e: Event, b: Build)
    requires Sound(u) && Possible(u, e)
    ensures var next := Step(u, e, b).state.phase;
      next == u.state.phase || Permitted(u.state.phase, u.state.error, next)
  {
    hide Numbered, Shown, Percent;
  }

  // ---- runs ----------------------------------------------------------------

  /** The moments that a run passes through, whatever the order of calls and reports. */
  ghost predicate Run(us: seq<Updater>, es: seq<Event>, b: Build) {
    && |us| == |es| + 1
    && us[0] == Fresh()
    && forall i :: 0 <= i < |es| ==> Possible(us[i], es[i]) && us[i + 1] == Step(us[i], es[i], b)
  }

  lemma {:induction false} RunIsSound(us: seq<Updater>, es: seq<Event>, i: nat, b: Build)
    requires Run(us, es, b) && i < |us|
    ensures Sound(us[i])
  {
    hide Sound, Step, Possible;
    if i == 0 {
      FreshIsSound();
    } else {
      RunIsSound(us, es, i - 1, b);
      StepIsSound(us[i - 1], es[i - 1], b);
    }
  }

  /**
   * Safety over every interleaving: one job at most, every phase change declared, and a package
   * ready to install is one downloaded for the release on offer.
   */
  lemma RunIsSafe(us: seq<Updater>, es: seq<Event>, i: nat, b: Build)
    requires Run(us, es, b) && i < |us|
    ensures |us[i].jobs| <= 1
    ensures i < |es| ==>
      us[i + 1].state.phase == us[i].state.phase
        || Permitted(us[i].state.phase, us[i].state.error, us[i + 1].state.phase)
    ensures us[i].state.phase == ReadyToInstall ==>
      && us[i].release.Some? && us[i].release.value.available
      && us[i].package.Some? && us[i].package.value.release == us[i].release.value
    ensures forall j, k :: 0 <= j < k < |us[i].handedOut| ==> us[i].handedOut[j].number != us[i].handedOut[k].number
  {
    hide Step, Possible;
    RunIsSound(us, es, i, b);
    if i < |es| { StepIsPermitted(us[i], es[i], b); }
    AtMostOne(us[i]);
  }

  lemma AtMostOne(u: Updater)
    requires OneJob(u)
    ensures |u.jobs| <= 1
  {
    if id :| id in u.jobs {
      assert u.jobs.Keys == {id};
      assert |u.jobs.Keys| == |u.jobs|;
    }
  }

  /** A download that fails leaves its release in place, and calling again starts it anew. */
  lemma FailedDownloadCanBeRetried(u: Updater, job: nat, message: string, b: Build)
    requires Sound(u) && Possible(u, DownloadEnds(job, Some(message))) && b.configured
    ensures var failed := Step(u, DownloadEnds(job, Some(message)), b);
      && failed.release == u.release == Some(u.jobs[job].release)
      && failed.state.phase == Failed && failed.jobs == map[]
      && StartDownload(failed, b).Ok?
      && StartDownload(failed, b).value.jobs == map[failed.next := DownloadJob(u.jobs[job].release, false)]
  {
    var failed := Step(u, DownloadEnds(job, Some(message)), b);
    assert JobFits(u, u.jobs[job]);
    StepIsSound(u, DownloadEnds(job, Some(message)), b);
    NoJobs(failed);
  }

  /**
   * Calls are accepted exactly when they can do something: a check when nothing runs and no installation was
   * prepared, a download when a release is on offer that is neither held nor being fetched, and an installation
   * when a package is held.
   */
  lemma CallsAreAcceptedExactly(u: Updater, channel: Channel, b: Build)
    requires Sound(u)
    ensures StartCheck(u, channel, b).Ok? <==>
      b.configured && b.versionParses && u.jobs == map[] && u.state.phase != Installing
    ensures StartDownload(u, b).Ok? <==> b.configured && u.jobs == map[] && u.release.Some? && u.package.None?
    ensures ReservePackage(u, b).Ok? <==> b.installSupported && b.hasTarget && u.package.Some?
  {
    if u.state.phase !in {Checking, Downloading, Verifying, Installing} {
      NoJobs(u);
    } else if id :| id in u.jobs {
      assert JobFits(u, u.jobs[id]);
    }
  }

  /** The steps of an update that goes well, as the calls and reports arrive. */
  function Course(u: Updater, channel: Channel, release: Release, now: Option<u64>): seq<Event> {
    [CheckCalled(channel), CheckEnds(u.next, Ok(release), now), DownloadCalled, DownloadVerifies(u.next + 1),
     DownloadEnds(u.next + 1, None), InstallCalled]
  }

  /** The state after the first `n` steps, if each of them was possible. */
  function Follow(u: Updater, es: seq<Event>, n: nat, b: Build): Option<Updater>
    requires n <= |es|
  {
    if n == 0 then Some(u)
    else match Follow(u, es, n - 1, b)
    case None => None
    case Some(v) => if Possible(v, es[n - 1]) then Some(Step(v, es[n - 1], b)) else None
  }

  /** From any moment without work, an available release can be checked for, downloaded and handed out. */
  lemma UpdatesCanBeInstalled(u: Updater, channel: Channel, release: Release, now: Option<u64>, b: Build)
    requires Sound(u) && u.jobs == map[] && u.state.phase != Installing && release.available
    requires b.configured && b.versionParses && b.installSupported && b.hasTarget
    ensures var end := Follow(u, Course(u, channel, release, now), 6, b);
      && end.Some? && end.value.state.phase == Installing && end.value.state.channel == channel
      && end.value.handedOut == u.handedOut + [Package(u.next + 1, release)]
      && end.value.jobs == map[u.next + 2 := PlanJob(Package(u.next + 1, release))]
      && end.value.state.availableVersion == Some(release.version) && end.value.state.lastChecked == now
  {
    hide Follow, Sound, Step, Possible, StartCheck;
    var es := Course(u, channel, release, now);
    CallsAreAcceptedExactly(u, channel, b);
    Started(u, es, b);
    assert Possible(u, es[0]) by { CallsArePossible(u, channel); }
    var found := FindsRelease(u, channel, release, now, b);
    FollowNext(u, es, 0, u, b);
    FollowNext(u, es, 1, Step(u, es[0], b), b);
    CallsArePossible(found, channel);
    var ready := FetchesPackage(found, release, b);
    FollowNext(u, es, 2, found, b);
    FollowNext(u, es, 3, Step(found, es[2], b), b);
    FollowNext(u, es, 4, Step(Step(found, es[2], b), es[3], b), b);
    CallsArePossible(ready, channel);
    FollowNext(u, es, 5, ready, b);
    HandsPackageOut(ready, Package(u.next + 1, release), b);
  }

  lemma CallsArePossible(u: Updater, channel: Channel)
    ensures Possible(u, CheckCalled(channel)) && Possible(u, DownloadCalled) && Possible(u, InstallCalled)
  {
  }

  lemma HandsPackageOut(u: Updater, package: Package, b: Build)
    requires u.state.phase == ReadyToInstall && u.release.Some? && u.package == Some(package) && u.jobs == map[]
    requires b.installSupported && b.hasTarget && Possible(u, InstallCalled)
    ensures var end := Step(u, InstallCalled, b);
      && end.state == u.state.(phase := Installing) && end.handedOut == u.handedOut + [package]
      && end.jobs == map[u.next := PlanJob(package)]
  {
  }

  lemma Started(u: Updater, es: seq<Event>, b: Build)
    ensures Follow(u, es, 0, b) == Some(u)
  {
  }

  lemma FollowNext(u: Updater, es: seq<Event>, n: nat, v: Updater, b: Build)
    requires n < |es| && Follow(u, es, n, b) == Some(v) && Possible(v, es[n])
    ensures Follow(u, es, n + 1, b) == Some(Step(v, es[n], b))
  {
  }

  /** A check that finds a release puts it on offer. */
  lemma FindsRelease(u: Updater, channel: Channel, release: Release, now: Option<u64>, b: Build)
    returns (found: Updater)
    requires StartCheck(u, channel, b).Ok? && u.jobs == map[] && release.available
    ensures var e := CheckEnds(u.next, Ok(release), now);
      Possible(Step(u, CheckCalled(channel), b), e) && found == Step(Step(u, CheckCalled(channel), b), e, b)
    ensures found.jobs == map[] && found.next == u.next + 1 && found.handedOut == u.handedOut
    ensures found.release == Some(release) && found.package == None
    ensures found.state.phase == Available && found.state.channel == channel && found.state.lastChecked == now
    ensures found.state.availableVersion == Some(release.version) && found.state.error == None
  {
    found := Step(Step(u, CheckCalled(channel), b), CheckEnds(u.next, Ok(release), now), b);
  }

  /** A download of the release on offer, verified, leaves its package ready. */
  lemma FetchesPackage(u: Updater, release: Release, b: Build) returns (ready: Updater)
    requires b.configured && u.state.phase == Available && u.release == Some(release) && u.jobs == map[]
    ensures var (e1, e2, e3) := (DownloadCalled, DownloadVerifies(u.next), DownloadEnds(u.next, None));
      && Possible(Step(u, e1, b), e2) && Possible(Step(Step(u, e1, b), e2, b), e3)
      && ready == Step(Step(Step(u, e1, b), e2, b), e3, b)
    ensures ready.jobs == map[] && ready.next == u.next + 1 && ready.handedOut == u.handedOut
    ensures ready.release == Some(release) && ready.package == Some(Package(u.next, release))
    ensures ready.state.phase == ReadyToInstall && ready.state.channel == u.state.channel
    ensures ready.state.lastChecked == u.state.lastChecked
    ensures ready.state.availableVersion == u.state.availableVersion
  {
    var downloading := Step(u, DownloadCalled, b);
    assert downloading.jobs == map[u.next := DownloadJob(release, false)];
    var verifying := Step(downloading, DownloadVerifies(u.next), b);
    assert verifying.jobs == map[u.next := DownloadJob(release, true)];
    ready := Step(verifying, DownloadEnds(u.next, None), b);
  }

  /** While a job runs every call is refused and changes nothing. */
  lemma BusyRefusesCalls(u: Updater, channel: Channel, b: Build)
    requires Sound(u) && u.jobs != map[]
    ensures StartCheck(u, channel, b).Err? && StartDownload(u, b).Err? && ReservePackage(u, b).Err?
  {
    var id :| id in u.jobs;
    assert JobFits(u, u.jobs[id]);
  }

  /** The percentage shown is a percentage. */
  lemma PercentIsBounded(downloaded: u64, total: Option<u64>)
    ensures Percent(downloaded, total).Some? ==> 0.0 <= Percent(downloaded, total).value <= 100.0
    ensures total.Some? && 0 < downloaded == total.value ==> Percent(downloaded, total) == Some(100.0)
  {
    if total.Some? && total.value > 0 {
      ShareIsExact(downloaded as real, total.value as real);
    }
  }

  lemma ShareIsExact(d: real, n: real)
    requires d >= 0.0 && n > 0.0
    ensures d * 100.0 / n >= 0.0
    ensures d == n ==> d * 100.0 / n == 100.0
  {
    assert (n * 100.0) / n == 100.0;
  }

  // ---- the service ---------------------------------------------------------

  class AppUpdater {
    var state: State
    var release: Option<Release>
    var package: Option<Package>
    var jobs: map<nat, Job>
    var next: nat
    ghost var handedOut: seq<Package>
    const build: Build

    ghost function Value(): Updater
      reads this
    {
      Updater(state, release, package, jobs, next, handedOut)
    }

    constructor (build: Build)
      ensures Value() == Fresh() && this.build == build
    {
      state := State(Idle, Stable, None, None, 0, None, None, None, None);
      release, package, jobs, next, handedOut, this.build := None, None, map[], 0, [], build;
    }

    method Start(job: Job)
      modifies this`jobs, this`next
      ensures Value() == Spawn(old(Value()), job)
    {
      jobs := jobs[next := job];
      next := next + 1;
    }

    method Check(channel: Channel) returns (r: Result<(), ServiceError>)
      modifies this
      ensures Answered(StartCheck(old(Value()), channel, build), old(Value()), Value(), r)
    {
      if !build.configured {
        return Err(Unavailable);
      }
      if state.phase !in {Idle, UpToDate, Available, ReadyToInstall, Failed} {
        return Err(InvalidState);
      }
      if !build.versionParses {
        return Err(Unavailable);
      }
      release, package := None, None;
      state := state.(channel := channel, phase := Checking, availableVersion := None, releaseNotes := None,
        error := None,
                      downloadedBytes := 0, totalBytes := None, progress := None);
      Start(CheckJob);
      return Ok(());
    }

    method Download() returns (r: Result<(), ServiceError>)
      modifies this
      ensures Answered(StartDownload(old(Value()), build), old(Value()), Value(), r)
    {
      if !build.configured {
        return Err(Unavailable);
      }
      var retry := state.phase == Failed && state.error.Some? && state.error.value.code == "download_failed";
      if state.phase != Available && !retry {
        return Err(InvalidState);
      }
      if release.None? {
        return Err(InvalidState);
      }
      package := None;
      state := state.(phase := Downloading, error := None, downloadedBytes := 0, totalBytes := None, progress := None);
      Start(DownloadJob(release.value, false));
      return Ok(());
    }

    /** Hands the package out, once; the caller makes the plan and reports with `PlanEnded`. */
    method PrepareInstall() returns (r: Result<(), ServiceError>)
      modifies this
      ensures Answered(ReservePackage(old(Value()), build), old(Value()), Value(), r)
    {
      if !build.installSupported {
        return Err(Unavailable);
      }
      if state.phase != ReadyToInstall {
        return Err(InvalidState);
      }
      if release.None? || package.None? {
        return Err(InvalidState);
      }
      if !build.hasTarget {
        return Err(Unavailable);
      }
      var taken := package.value;
      release, package := None, None;
      handedOut := handedOut + [taken];
      state := state.(phase := Installing);
      Start(PlanJob(taken));
      return Ok(());
    }

    method CheckEnded(job: nat, found: Result<Release, string>, now: Option<u64>)
      requires job in jobs && jobs[job].CheckJob?
      modifies this
      ensures Value() == Step(old(Value()), CheckEnds(job, found, now), build)
    {
      if found.Err? {
        Fail("check_failed", found.error);
      } else if found.value.available {
        state := state.(lastChecked := now, availableVersion := Some(found.value.version),
          releaseNotes := found.value.notes,
                        phase := Available);
        release := Some(found.value);
      } else {
        state := state.(lastChecked := now, phase := UpToDate);
      }
      jobs := jobs - {job};
    }

    method DownloadReported(job: nat, downloaded: u64, total: Option<u64>)
      requires job in jobs && jobs[job].DownloadJob? && !jobs[job].verifying
      modifies this`state
      ensures Value() == Step(old(Value()), DownloadReports(job, downloaded, total), build)
    {
      state := state.(downloadedBytes := downloaded, totalBytes := total, progress := Percent(downloaded, total));
    }

    method DownloadVerifying(job: nat)
      requires job in jobs && jobs[job].DownloadJob? && !jobs[job].verifying
      modifies this`state, this`jobs
      ensures Value() == Step(old(Value()), DownloadVerifies(job), build)
    {
      state := state.(phase := Verifying);
      jobs := jobs[job := jobs[job].(verifying := true)];
    }

    method DownloadEnded(job: nat, failure: Option<string>)
      requires job in jobs && jobs[job].DownloadJob? && (failure.None? ==> jobs[job].verifying)
      modifies this
      ensures Value() == Step(old(Value()), DownloadEnds(job, failure), build)
    {
      if failure.Some? {
        Fail("download_failed", failure.value);
      } else {
        package := Some(Package(job, jobs[job].release));
        state := state.(phase := ReadyToInstall);
      }
      jobs := jobs - {job};
    }

    method PlanEnded(job: nat, outcome: Result<(), string>)
      requires job in jobs && jobs[job].PlanJob?
      modifies this
      ensures Value() == Step(old(Value()), PlanEnds(job, outcome), build)
    {
      if outcome.Err? {
        Fail("install_unavailable", outcome.error);
      }
      jobs := jobs - {job};
    }

    method Fail(code: string, message: string)
      modifies this`state
      ensures Value() == Failing(old(Value()), code, message)
    {
      state := state.(phase := Failed, error := Some(UpdateError(code, message)));
    }
  }

  /** An accepted call takes effect; a refused one changes nothing. */
  ghost predicate Answered(expected: Result<Updater, ServiceError>, before: Updater, after: Updater,
                           r: Result<(), ServiceError>)
  {
    match expected
    case Ok(u) => r == Ok(()) && after == u
    case Err(e) => r == Err(e) && after == before
  }
}
