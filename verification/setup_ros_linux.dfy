/** `runLinux` as a trace generator: given the facts it learns from its
    environment, the ordered list of actions it takes. Each action is
    rendered to the concrete step it performs by `StepOf`; commands are kept
    as literal argument vectors, and whatever a `bash -c` string does when
    run is not interpreted. */
module SetupRosLinux {
  import opened Wrappers
  import opened Command
  import opened Distribution
  import Apt
  import Pip

  /** What `runLinux` learns from its environment. */
  datatype Inputs = Inputs(
    sudoPresent: bool,            // whether `io.which("sudo", true)` succeeds
    useRos2Testing: string,       // `core.getInput('use-ros2-testing')`
    installConnext: string,       // `core.getInput('install-connext')`
    codename: string,             // output of the release-descriptor probe
    workspace: string,            // `GITHUB_WORKSPACE`
    rosDistributions: seq<string> // the required ROS distributions, in order
  )

  /** The two signing keys; their text is opaque here. */
  datatype KeyMaterial = OpenRoboticsKey | QcrKey

  /** One observable step of the run. */
  datatype Step =
    | Exec(cmd: Cmd)                             // run a command
    | CaptureStdout(cmd: Cmd)                    // run a command, keep its output
    | WriteFile(path: string, key: KeyMaterial)  // write a key file
    | ExportVariable(name: string, value: string)

  /** An action input counts as set only when it is exactly `true`. */
  predicate InputIsTrue(input: string) {
    input == "true"
  }

  /** `path.join(dir, name)` for a plain file name. */
  function JoinPath(dir: string, name: string): (r: string)
    ensures |r| >= |name| && r[|r| - |name|..] == name
    ensures |r| >= |dir|
    ensures dir != [] ==> r[..|dir|] == dir
  {
    if dir == [] then name
    else if dir[|dir| - 1] == '/' then dir + name
    else dir + "/" + name
  }

  /** The file name a key is saved under. */
  function KeyFile(key: KeyMaterial): string {
    match key
    case OpenRoboticsKey => "ros.key"
    case QcrKey => "qcr.key"
  }

  /** Where a key is saved: the key file inside the workspace. */
  function KeyPath(workspace: string, key: KeyMaterial): string {
    JoinPath(workspace, KeyFile(key))
  }

  /** The two keys never share a file. */
  lemma KeyPathsDistinct(workspace: string)
    ensures KeyPath(workspace, OpenRoboticsKey) != KeyPath(workspace, QcrKey)
  {
    var r := KeyPath(workspace, OpenRoboticsKey);
    var q := KeyPath(workspace, QcrKey);
    assert r[|r| - 7..] == "ros.key" && q[|q| - 7..] == "qcr.key";
    assert r[|r| - 7] == 'r' && q[|q| - 7] == 'q';
  }

  /** The actions of a run, named by what they do. */
  datatype Action =
    | UpdateIndexUnprivileged          // `apt-get update` while sudo is missing
    | InstallSudoUnprivileged          // `apt-get install ... sudo`
    | WriteUtcTimezone
    | UpdateIndex
    | DetectCodename
    | InstallBootstrapTools
    | GenerateLocale
    | ExportLang
    | LinkLocaltime
    | InstallTzdata
    | WriteKey(workspace: string, key: KeyMaterial)  // the key saved under the workspace
    | AddKey(workspace: string, key: KeyMaterial)    // that file handed to `apt-key add`
    | AddSourceList(repository: Repository)
    | Install(cmd: Cmd)                // an installer command of the APT or pip module
    | RemoveStaleRosdepList
    | RosdepInit
    | InstallRosBase(distro: string)

  const RosUrl: string := "http://packages.ros.org/ros/ubuntu"
  const Ros2Url: string := "http://packages.ros.org/ros2/ubuntu"
  const Ros2TestingUrl: string := "http://packages.ros.org/ros2-testing/ubuntu"
  const QcrUrl: string := "https://packages.qcr.ai"

  /** The ROS 2 repository: the testing channel exactly when asked for,
      the stable one otherwise. */
  function Ros2SourceUrl(useRos2Testing: bool): (url: string)
    ensures url == Ros2TestingUrl <==> useRos2Testing
    ensures url == Ros2Url <==> !useRos2Testing
  {
    if useRos2Testing then Ros2TestingUrl else Ros2Url
  }

  /** The three APT repositories a run defines; the ROS 2 one on the
      testing or the stable channel. */
  datatype Repository = RosRepository | Ros2Repository(testing: bool) | QcrRepository

  /** Where a repository's packages are served from. */
  function RepositoryUrl(r: Repository): string {
    match r
    case RosRepository => RosUrl
    case Ros2Repository(testing) => Ros2SourceUrl(testing)
    case QcrRepository => QcrUrl
  }

  /** The file under `/etc/apt/sources.list.d` that defines a repository;
      both ROS 2 channels share one. */
  function ListFile(r: Repository): string {
    match r
    case RosRepository => "ros-latest.list"
    case Ros2Repository(_) => "ros2-latest.list"
    case QcrRepository => "qcr-latest.list"
  }

  /** A repository is defined by `sudo bash -c` writing its one line. */
  lemma SourceListStep(r: Repository)
    ensures StepOf(AddSourceList(r)) == Exec(SudoBash(SourceListScript(RepositoryUrl(r), ListFile(r))))
  {
  }

  /** A key is added by `sudo apt-key add` on its file. */
  lemma AddKeyStep(workspace: string, key: KeyMaterial)
    ensures StepOf(AddKey(workspace, key)) == Exec(Sudo(["apt-key", "add", KeyPath(workspace, key)]))
  {
  }

  /** The rendered repository definitions tell the repositories apart: two
      of them issue the same command exactly when they define the same
      repository on the same channel. */
  lemma SourceListStepsDistinct(r1: Repository, r2: Repository)
    ensures StepOf(AddSourceList(r1)) == StepOf(AddSourceList(r2)) <==> r1 == r2
  {
    var s1 := SourceListScript(RepositoryUrl(r1), ListFile(r1));
    var s2 := SourceListScript(RepositoryUrl(r2), ListFile(r2));
    SourceListStep(r1);
    SourceListStep(r2);
    if r1 != r2 {
      SourceListScriptShape(r1);
      SourceListScriptShape(r2);
      if r1.Ros2Repository? && r2.Ros2Repository? {
        assert |s1| != |s2|;
      } else if r1 == QcrRepository || r2 == QcrRepository {
        assert s1[14] != s2[14];
      } else {
        assert s1[37] != s2[37];
      }
      assert SudoBash(s1).args[2] != SudoBash(s2).args[2];
    }
  }

  /** The characters of a repository definition that tell the URLs apart:
      the scheme at 14, the path at 37, and the length. */
  lemma SourceListScriptShape(r: Repository)
    ensures var s := SourceListScript(RepositoryUrl(r), ListFile(r));
            && |s| > 37
            && s[14] == (if r == QcrRepository then 's' else ':')
            && (r != QcrRepository ==> s[37] == (if r == RosRepository then '/' else '2'))
            && (r.Ros2Repository? ==> |s| == (if r.testing then 121 else 113))
  {
    var url := RepositoryUrl(r);
    var s := SourceListScript(url, ListFile(r));
    assert s[14] == url[4];
    if r != QcrRepository {
      assert s[37] == url[27];
    }
  }

  /** Every repository is served from its own URL. */
  lemma RepositoryUrlsDistinct(r1: Repository, r2: Repository)
    ensures RepositoryUrl(r1) == RepositoryUrl(r2) <==> r1 == r2
  {
    assert QcrUrl[4] == 's' && RosUrl[4] == ':' && Ros2Url[4] == ':' && Ros2TestingUrl[4] == ':';
    assert RosUrl[27] == '/' && Ros2Url[27] == '2' && Ros2TestingUrl[27] == '2';
    assert |Ros2Url| != |Ros2TestingUrl|;
  }

  /** Two repositories share a list file exactly when they are the same or
      both are ROS 2 channels, so the two channels cannot be defined side
      by side. */
  lemma ListFilesShared(r1: Repository, r2: Repository)
    ensures ListFile(r1) == ListFile(r2) <==> r1 == r2 || (r1.Ros2Repository? && r2.Ros2Repository?)
  {
    assert "ros-latest.list"[3] != "ros2-latest.list"[3];
    assert "ros-latest.list"[0] != "qcr-latest.list"[0];
    assert "ros2-latest.list"[0] != "qcr-latest.list"[0];
  }

  /** `sudo bash -c <script>`. */
  function SudoBash(script: string): Cmd {
    Sudo(["bash", "-c", script])
  }

  /** A one-line APT source `deb <url> $(lsb_release -sc) main` written to
      `/etc/apt/sources.list.d/<file>`. The release is looked up again by
      the shell at that point, not taken from the probed codename. */
  function SourceListScript(url: string, file: string): string {
    "echo \"deb " + url + " $(lsb_release -sc) main\" > /etc/apt/sources.list.d/" + file
  }

  /** The release-descriptor probe, run without sudo for its output. */
  const CodenameProbe: Cmd := Cmd("bash", ["-c", "source /etc/lsb-release ; echo -n \"$DISTRIB_CODENAME\""])

  /** The concrete step an action performs: only the key writes write a
      file, only the codename probe keeps a command's output and only the
      `LANG` export sets a variable; every other action runs a command. */
  function StepOf(a: Action): (r: Step)
    ensures r.WriteFile? <==> a.WriteKey?
    ensures r.CaptureStdout? <==> a == DetectCodename
    ensures r.ExportVariable? <==> a == ExportLang
  {
    match a
    case UpdateIndexUnprivileged => Exec(Cmd("apt-get", ["update"]))
    case InstallSudoUnprivileged =>
      Exec(Cmd("apt-get", ["install", "--no-install-recommends", "--quiet", "--yes", "sudo"]))
    case WriteUtcTimezone => Exec(SudoBash("echo 'Etc/UTC' > /etc/timezone"))
    case UpdateIndex => Exec(Sudo(["apt-get", "update"]))
    case DetectCodename => CaptureStdout(CodenameProbe)
    case InstallBootstrapTools => Exec(Apt.RunAptGetInstall(["curl", "gnupg2", "locales", "lsb-release"]))
    case GenerateLocale => Exec(Sudo(["locale-gen", "en_US", "en_US.UTF-8"]))
    case ExportLang => ExportVariable("LANG", "en_US.UTF-8")
    case LinkLocaltime => Exec(Sudo(["ln", "-sf", "/usr/share/zoneinfo/Etc/UTC", "/etc/localtime"]))
    case InstallTzdata => Exec(Apt.RunAptGetInstall(["tzdata"]))
    case WriteKey(workspace, key) => WriteFile(KeyPath(workspace, key), key)
    case AddKey(workspace, key) => Exec(Sudo(["apt-key", "add", KeyPath(workspace, key)]))
    case AddSourceList(r) => Exec(SudoBash(SourceListScript(RepositoryUrl(r), ListFile(r))))
    case Install(cmd) => Exec(cmd)
    case RemoveStaleRosdepList => Exec(SudoBash("rm /etc/ros/rosdep/sources.list.d/20-default.list || true"))
    case RosdepInit => Exec(Sudo(["rosdep", "init"]))
    case InstallRosBase(distro) => Exec(Apt.RunAptGetInstall(["ros-" + distro + "-ros-base"]))
  }

  /** The steps of a sequence of actions, one each, in order. */
  function Steps(t: seq<Action>): (r: seq<Step>)
    ensures |r| == |t|
    ensures forall k :: 0 <= k < |t| ==> r[k] == StepOf(t[k])
  {
    seq(|t|, k requires 0 <= k < |t| => StepOf(t[k]))
  }

  /** Actions that run a command for its effect without sudo (the codename
      probe, which only reads, is not one of them). */
  predicate RunsUnprivileged(a: Action) {
    || a == UpdateIndexUnprivileged
    || a == InstallSudoUnprivileged
    || (a.Install? && a.cmd.program != "sudo")
  }

  /** A step that runs a command, for its effect or its output, without
      sudo. */
  predicate RunsWithoutSudo(s: Step) {
    (s.Exec? || s.CaptureStdout?) && s.cmd.program != "sudo"
  }

  /** A step that runs `apt-get install`: `apt-get` directly followed by
      `install` anywhere in the argument vector, program included, so run
      directly, under `sudo`, or after environment assignments. */
  predicate RunsAptGetInstall(s: Step) {
    && (s.Exec? || s.CaptureStdout?)
    && exists i :: 0 <= i < |Argv(s.cmd)| - 1 && Argv(s.cmd)[i] == "apt-get" && Argv(s.cmd)[i + 1] == "install"
  }

  /** The actions (other than installer commands) that install APT
      packages: the bootstrap `sudo` install, the tools, the timezone data
      and each distribution. */
  predicate InstallsThroughApt(a: Action) {
    || a == InstallSudoUnprivileged
    || a == InstallBootstrapTools
    || a == InstallTzdata
    || a.InstallRosBase?
  }

  // The run.

  /** With sudo missing, refresh the index and install it, both
      unprivileged; nothing otherwise. */
  function EnsureSudo(sudoPresent: bool): seq<Action> {
    if sudoPresent then [] else [UpdateIndexUnprivileged, InstallSudoUnprivileged]
  }

  /** The three installer commands of a run, which depend on the codename. */
  datatype Installs = Installs(aptDependencies: Cmd, pipUpgrade: Cmd, pipDependencies: Cmd)

  /** `installAptDependencies`, then pip upgrading itself, then
      `installPython3Dependencies`, all for the same codename; the pip calls
      start from the command line the pip module is loaded with. */
  function InstallsFor(installConnext: bool, codename: string): (r: Installs)
    ensures Apt.IsNonInteractiveInstall(r.aptDependencies)
    ensures Apt.InstalledPackages(r.aptDependencies) == Apt.AptPackagesFor(codename)
    ensures EscalatedInstalls(r)
  {
    var upgrade := Pip.RunPython3PipInstall(Pip.InitialPipCommandLine, ["pip"], codename, None);
    var deps := Pip.InstallPython3Dependencies(upgrade.commandLine, codename, None);
    Installs(Apt.InstallAptDependencies(installConnext, codename), upgrade.invocation, deps.invocation)
  }

  /** Timezone, index refresh, codename probe, bootstrap tools, locale,
      timezone again, the localtime link and the timezone data. */
  const ClockAndLocale: seq<Action> := [
    WriteUtcTimezone, UpdateIndex, DetectCodename, InstallBootstrapTools,
    GenerateLocale, ExportLang, WriteUtcTimezone, LinkLocaltime, InstallTzdata
  ]

  /** Both keys written and added, the three repository definitions, then
      one index refresh. */
  function Repositories(useRos2Testing: bool, workspace: string): (r: seq<Action>)
    ensures |r| == 8
  {
    [ WriteKey(workspace, OpenRoboticsKey), AddKey(workspace, OpenRoboticsKey),
      WriteKey(workspace, QcrKey), AddKey(workspace, QcrKey),
      AddSourceList(RosRepository),
      AddSourceList(Ros2Repository(useRos2Testing)),
      AddSourceList(QcrRepository),
      UpdateIndex ]
  }

  /** APT dependencies, pip upgrading itself, pip dependencies. */
  function Installers(installs: Installs): (r: seq<Action>)
    ensures |r| == 3
  {
    [Install(installs.aptDependencies), Install(installs.pipUpgrade), Install(installs.pipDependencies)]
  }

  /** The stale default list removed (failure ignored), then `rosdep init`. */
  const RosdepSetup: seq<Action> := [RemoveStaleRosdepList, RosdepInit]

  /** `ros-<distro>-ros-base` installed for each required distribution, in
      order. */
  function InstallRosDistributions(distros: seq<string>): (r: seq<Action>)
    ensures |r| == |distros|
    ensures forall k :: 0 <= k < |distros| ==> r[k] == InstallRosBase(distros[k])
  {
    seq(|distros|, k requires 0 <= k < |distros| => InstallRosBase(distros[k]))
  }

  /** The run for given installer commands. */
  function Trace(sudoPresent: bool, useRos2Testing: bool, workspace: string,
                 installs: Installs, distros: seq<string>): seq<Action> {
    EnsureSudo(sudoPresent) + ClockAndLocale + Repositories(useRos2Testing, workspace)
    + Installers(installs) + RosdepSetup + InstallRosDistributions(distros)
  }

  /** `runLinux()`. */
  function RunLinux(inp: Inputs): seq<Action> {
    Trace(inp.sudoPresent, InputIsTrue(inp.useRos2Testing), inp.workspace,
          InstallsFor(InputIsTrue(inp.installConnext), inp.codename), inp.rosDistributions)
  }

  /** The concrete steps of `runLinux()`. */
  function RunLinuxSteps(inp: Inputs): seq<Step> {
    Steps(RunLinux(inp))
  }

  // Properties of a run.

  /** Every command is escalated, except the unprivileged `apt-get update`
      and `apt-get install sudo` that open the run when sudo is missing, and
      the codename probe, which only reads. */
  ghost predicate SudoBootstrapFirst(s: seq<Step>, sudoPresent: bool) {
    && (!sudoPresent ==>
          && |s| >= 2
          && s[0] == Exec(Cmd("apt-get", ["update"]))
          && s[1] == Exec(Cmd("apt-get", ["install", "--no-install-recommends", "--quiet", "--yes", "sudo"])))
    && (forall k :: 0 <= k < |s| && RunsWithoutSudo(s[k]) ==>
          (!sudoPresent && k < 2) || s[k] == CaptureStdout(CodenameProbe))
  }

  /** `w` occurs exactly twice, at `i` and `j`, with `a`, `b` and `c` in
      that order strictly between them. */
  ghost predicate TwiceAround(t: seq<Action>, w: Action, a: Action, b: Action, c: Action) {
    exists i, d, g, x, j ::
      && 0 <= i < d < g < x < j < |t|
      && t[i] == w && t[d] == a && t[g] == b && t[x] == c && t[j] == w
      && (forall k :: 0 <= k < |t| && t[k] == w ==> k == i || k == j)
  }

  /** The timezone is written exactly twice: before the codename probe and
      after `locale-gen`; `LANG` is exported after `locale-gen` and before
      the second write. */
  ghost predicate TimezoneAndLocaleOrdered(t: seq<Action>) {
    TwiceAround(t, WriteUtcTimezone, DetectCodename, GenerateLocale, ExportLang)
  }

  /** Action `s` occurs before position `bound`. */
  ghost predicate OccursBefore(t: seq<Action>, bound: int, s: Action) {
    exists i :: 0 <= i < bound <= |t| && t[i] == s
  }

  /** A key is saved under the workspace and then added, both before
      `bound`. */
  ghost predicate KeyAddedBefore(t: seq<Action>, bound: int, workspace: string, key: KeyMaterial) {
    exists i, j :: 0 <= i < j < bound <= |t| && t[i] == WriteKey(workspace, key) && t[j] == AddKey(workspace, key)
  }

  /** Both keys and all three source files are in place before `bound`. */
  ghost predicate RepositoriesBefore(t: seq<Action>, bound: int, workspace: string, useRos2Testing: bool) {
    && KeyAddedBefore(t, bound, workspace, OpenRoboticsKey)
    && KeyAddedBefore(t, bound, workspace, QcrKey)
    && OccursBefore(t, bound, AddSourceList(RosRepository))
    && OccursBefore(t, bound, AddSourceList(Ros2Repository(useRos2Testing)))
    && OccursBefore(t, bound, AddSourceList(QcrRepository))
  }

  /** Position of the last occurrence of `s` in `t`, or -1. */
  function LastIndexOf(t: seq<Action>, s: Action): (r: int)
    ensures -1 <= r < |t|
    ensures r >= 0 ==> t[r] == s
    ensures forall k :: r < k < |t| ==> t[k] != s
  {
    if |t| == 0 then -1
    else if t[|t| - 1] == s then |t| - 1
    else LastIndexOf(t[..|t| - 1], s)
  }

  /** All keys and source files precede the index refresh at `u`, and the
      three installer commands follow it in order. */
  ghost predicate RefreshBetween(t: seq<Action>, u: int, workspace: string, useRos2Testing: bool,
                                 installs: Installs) {
    && 0 <= u < |t| - 3
    && t[u] == UpdateIndex
    && RepositoriesBefore(t, u, workspace, useRos2Testing)
    && t[u + 1] == Install(installs.aptDependencies)
    && t[u + 2] == Install(installs.pipUpgrade)
    && t[u + 3] == Install(installs.pipDependencies)
  }

  /** The refresh ordering holds around the last index refresh of the
      run. */
  ghost predicate RepositoriesThenInstalls(t: seq<Action>, workspace: string, useRos2Testing: bool,
                                           installs: Installs) {
    RefreshBetween(t, LastIndexOf(t, UpdateIndex), workspace, useRos2Testing, installs)
  }

  /** The stale rosdep list is removed right before the single `rosdep
      init`, which is followed by exactly one install per distribution, in
      the given order, and nothing else. */
  ghost predicate RosdepThenDistributions(t: seq<Action>, distros: seq<string>) {
    var r := |t| - 1 - |distros|;
    && 1 <= r
    && t[r - 1] == RemoveStaleRosdepList
    && t[r] == RosdepInit
    && (forall k :: 0 <= k < |t| && t[k] == RosdepInit ==> k == r)
    && (forall k :: r < k < |t| ==> t[k] == InstallRosBase(distros[k - r - 1]))
  }

  /** Installer commands that all run under sudo. */
  predicate EscalatedInstalls(installs: Installs) {
    && installs.aptDependencies.program == "sudo"
    && installs.pipUpgrade.program == "sudo"
    && installs.pipDependencies.program == "sudo"
  }

  // Lemmas about single actions.

  /** The bootstrap pair and the codename probe run without sudo, the other
      actions that prepare the clock with it. */
  lemma EarlyActionEscalation(a: Action)
    requires || a.UpdateIndexUnprivileged? || a.InstallSudoUnprivileged? || a.WriteUtcTimezone?
             || a.UpdateIndex? || a.DetectCodename? || a.InstallBootstrapTools?
    ensures RunsWithoutSudo(StepOf(a)) <==> RunsUnprivileged(a) || a == DetectCodename
  {
  }

  /** The locale, localtime, timezone-data and rosdep actions run with sudo
      or run no command. */
  lemma LateActionEscalation(a: Action)
    requires || a.GenerateLocale? || a.ExportLang? || a.LinkLocaltime? || a.InstallTzdata?
             || a.RemoveStaleRosdepList? || a.RosdepInit?
    ensures RunsWithoutSudo(StepOf(a)) <==> RunsUnprivileged(a) || a == DetectCodename
  {
  }

  /** Among the actions with parameters only an installer command that is
      not escalated runs without sudo. */
  lemma ParameterisedActionEscalation(a: Action)
    requires a.Install? || a.InstallRosBase? || a.AddSourceList? || a.AddKey? || a.WriteKey?
    ensures RunsWithoutSudo(StepOf(a)) <==> RunsUnprivileged(a) || a == DetectCodename
  {
  }

  /** An action runs a command without sudo exactly when it is one of the
      two bootstrap commands, the codename probe, or an installer command
      that is not escalated. */
  lemma StepOfEscalation(a: Action)
    ensures RunsWithoutSudo(StepOf(a)) <==> RunsUnprivileged(a) || a == DetectCodename
  {
    if a.Install? || a.InstallRosBase? || a.AddSourceList? || a.AddKey? || a.WriteKey? {
      ParameterisedActionEscalation(a);
    } else if a.GenerateLocale? || a.ExportLang? || a.LinkLocaltime? || a.InstallTzdata?
              || a.RemoveStaleRosdepList? || a.RosdepInit? {
      LateActionEscalation(a);
    } else {
      EarlyActionEscalation(a);
    }
  }

  /** Every install through the APT module runs `apt-get install`, and
      does so non-interactively. */
  lemma AptModuleInstall(packages: seq<string>)
    ensures RunsAptGetInstall(Exec(Apt.RunAptGetInstall(packages)))
    ensures Apt.IsNonInteractiveInstall(Apt.RunAptGetInstall(packages))
  {
    Apt.InstallIsNonInteractive(packages);
    assert Argv(Apt.RunAptGetInstall(packages))[4] == "install";
  }

  /** `sudo bash -c <script>` does not run `apt-get install`, whatever the
      script says. */
  lemma SudoBashNoAptGet(script: string)
    ensures !RunsAptGetInstall(Exec(SudoBash(script)))
  {
    assert Argv(SudoBash(script)) == ["sudo", "bash", "-c", script];
  }

  /** Neither does `sudo apt-key add <path>`, whatever the path. */
  lemma AptKeyNoAptGet(path: string)
    ensures !RunsAptGetInstall(Exec(Sudo(["apt-key", "add", path])))
  {
    assert Argv(Sudo(["apt-key", "add", path])) == ["sudo", "apt-key", "add", path];
  }

  /** A command with no `apt-get` in it installs nothing through APT. */
  lemma NoAptGet(s: Step)
    requires s.Exec? || s.CaptureStdout?
    requires "apt-get" !in Argv(s.cmd)
    ensures !RunsAptGetInstall(s)
  {
  }

  /** Of the bootstrap pair, the timezone write, the refresh, the probe and
      the tool install, exactly the `sudo` install and the tool install run
      `apt-get install`; only the tool install is non-interactive. */
  lemma EarlyActionAptInstall(a: Action)
    requires || a.UpdateIndexUnprivileged? || a.InstallSudoUnprivileged? || a.WriteUtcTimezone?
             || a.UpdateIndex? || a.DetectCodename? || a.InstallBootstrapTools?
    ensures RunsAptGetInstall(StepOf(a)) <==> InstallsThroughApt(a)
    ensures InstallsThroughApt(a) && a != InstallSudoUnprivileged ==>
              StepOf(a).Exec? && Apt.IsNonInteractiveInstall(StepOf(a).cmd)
    ensures a == InstallSudoUnprivileged ==> !Apt.IsNonInteractiveInstall(StepOf(a).cmd)
    ensures a == InstallBootstrapTools ==>
              Apt.InstalledPackages(StepOf(a).cmd) == ["curl", "gnupg2", "locales", "lsb-release"]
  {
    match a
    case UpdateIndexUnprivileged =>
      assert Argv(StepOf(a).cmd) == ["apt-get", "update"];
    case InstallSudoUnprivileged =>
      assert Argv(StepOf(a).cmd)[1] == "install";
    case WriteUtcTimezone => SudoBashNoAptGet("echo 'Etc/UTC' > /etc/timezone");
    case UpdateIndex =>
      assert Argv(StepOf(a).cmd) == ["sudo", "apt-get", "update"];
    case DetectCodename => NoAptGet(StepOf(a));
    case InstallBootstrapTools => AptModuleInstall(["curl", "gnupg2", "locales", "lsb-release"]);
  }

  /** The locale, `LANG` and localtime actions never run `apt-get install`. */
  lemma LocaleActionAptInstall(a: Action)
    requires a.GenerateLocale? || a.ExportLang? || a.LinkLocaltime?
    ensures !RunsAptGetInstall(StepOf(a)) && !InstallsThroughApt(a)
  {
    if !a.ExportLang? {
      NoAptGet(StepOf(a));
    }
  }

  /** Of the timezone-data and rosdep actions only the timezone-data
      install runs `apt-get install`, non-interactively. */
  lemma LateActionAptInstall(a: Action)
    requires a.InstallTzdata? || a.RemoveStaleRosdepList? || a.RosdepInit?
    ensures RunsAptGetInstall(StepOf(a)) <==> InstallsThroughApt(a)
    ensures InstallsThroughApt(a) ==> StepOf(a).Exec? && Apt.IsNonInteractiveInstall(StepOf(a).cmd)
    ensures a == InstallTzdata ==> Apt.InstalledPackages(StepOf(a).cmd) == ["tzdata"]
  {
    match a
    case InstallTzdata => AptModuleInstall(["tzdata"]);
    case RemoveStaleRosdepList => SudoBashNoAptGet("rm /etc/ros/rosdep/sources.list.d/20-default.list || true");
    case RosdepInit => NoAptGet(StepOf(a));
  }

  /** A distribution install runs `apt-get install` non-interactively, and
      an installer command runs it when its own command does. */
  lemma InstallActionAptInstall(a: Action)
    requires a.Install? || a.InstallRosBase?
    ensures RunsAptGetInstall(StepOf(a)) <==> InstallsThroughApt(a) || (a.Install? && RunsAptGetInstall(Exec(a.cmd)))
    ensures InstallsThroughApt(a) ==> StepOf(a).Exec? && Apt.IsNonInteractiveInstall(StepOf(a).cmd)
    ensures a.InstallRosBase? ==> Apt.InstalledPackages(StepOf(a).cmd) == ["ros-" + a.distro + "-ros-base"]
  {
    if a.InstallRosBase? {
      AptModuleInstall(["ros-" + a.distro + "-ros-base"]);
    }
  }

  /** A repository definition does not run `apt-get install`. */
  lemma SourceListNoAptGet(r: Repository)
    ensures !RunsAptGetInstall(StepOf(AddSourceList(r)))
  {
    SourceListStep(r);
    SudoBashNoAptGet(SourceListScript(RepositoryUrl(r), ListFile(r)));
  }

  /** Adding a key does not run `apt-get install`. */
  lemma AddKeyNoAptGet(workspace: string, key: KeyMaterial)
    ensures !RunsAptGetInstall(StepOf(AddKey(workspace, key)))
  {
    AddKeyStep(workspace, key);
    AptKeyNoAptGet(KeyPath(workspace, key));
  }

  /** The key and repository actions never run `apt-get install`. */
  lemma SetupActionAptInstall(a: Action)
    requires a.AddSourceList? || a.AddKey? || a.WriteKey?
    ensures !RunsAptGetInstall(StepOf(a)) && !InstallsThroughApt(a)
  {
    match a
    case AddSourceList(r) => SourceListNoAptGet(r);
    case AddKey(workspace, key) => AddKeyNoAptGet(workspace, key);
    case WriteKey(_, _) =>
  }

  /** An action runs `apt-get install` exactly when it is the bootstrap
      `sudo` install, the tool install, the timezone-data install or a
      distribution install, or an installer command whose command does.
      All of them except the bootstrap install are non-interactive APT
      installs of their package lists; the bootstrap install carries
      neither environment marker and no `sudo`. */
  lemma StepOfAptInstall(a: Action)
    ensures RunsAptGetInstall(StepOf(a)) <==> InstallsThroughApt(a) || (a.Install? && RunsAptGetInstall(Exec(a.cmd)))
    ensures InstallsThroughApt(a) && a != InstallSudoUnprivileged ==>
              StepOf(a).Exec? && Apt.IsNonInteractiveInstall(StepOf(a).cmd)
    ensures a == InstallSudoUnprivileged ==> !Apt.IsNonInteractiveInstall(StepOf(a).cmd)
  {
    if a.Install? || a.InstallRosBase? {
      InstallActionAptInstall(a);
    } else if a.AddSourceList? || a.AddKey? || a.WriteKey? {
      SetupActionAptInstall(a);
    } else if a == GenerateLocale || a == ExportLang || a == LinkLocaltime {
      LocaleActionAptInstall(a);
    } else if a == InstallTzdata || a == RemoveStaleRosdepList || a == RosdepInit {
      LateActionAptInstall(a);
    } else {
      EarlyActionAptInstall(a);
    }
  }

  /** The packages each fixed APT install of a run names: the bootstrap
      tools, the timezone data, and `ros-<distro>-ros-base` for a
      distribution. */
  lemma StepOfAptPackages(a: Action)
    ensures a == InstallBootstrapTools ==>
              Apt.InstalledPackages(StepOf(a).cmd) == ["curl", "gnupg2", "locales", "lsb-release"]
    ensures a == InstallTzdata ==> Apt.InstalledPackages(StepOf(a).cmd) == ["tzdata"]
    ensures a.InstallRosBase? ==> Apt.InstalledPackages(StepOf(a).cmd) == ["ros-" + a.distro + "-ros-base"]
  {
    if a == InstallBootstrapTools {
      EarlyActionAptInstall(a);
    } else if a == InstallTzdata {
      LateActionAptInstall(a);
    } else if a.InstallRosBase? {
      InstallActionAptInstall(a);
    }
  }

  // Lemmas about the shape of a run.

  /** Group `g` occupies `t` from position `o` on. */
  ghost predicate GroupAt(t: seq<Action>, o: nat, g: seq<Action>) {
    o + |g| <= |t| && forall c :: 0 <= c < |g| ==> t[o + c] == g[c]
  }

  /** The shape of a run that opens with `e` bootstrap actions: the
      bootstrap pair (if any), the clock and locale group at `e`, the
      repositories at `e + 9`, the installers at `e + 17`, rosdep at
      `e + 20`, then one install per distribution from `e + 22`. */
  ghost predicate HasRunLayout(t: seq<Action>, e: nat, useRos2Testing: bool, workspace: string,
                               installs: Installs, distros: seq<string>) {
    && (e == 0 || e == 2)
    && |t| == e + 22 + |distros|
    && GroupAt(t, 0, EnsureSudo(e == 0))
    && GroupAt(t, e, ClockAndLocale)
    && GroupAt(t, e + 9, Repositories(useRos2Testing, workspace))
    && GroupAt(t, e + 17, Installers(installs))
    && GroupAt(t, e + 20, RosdepSetup)
    && GroupAt(t, e + 22, InstallRosDistributions(distros))
  }

  /** Appending keeps a group where it is. */
  lemma GroupAtAppendLeft(x: seq<Action>, y: seq<Action>, o: nat, g: seq<Action>)
    requires GroupAt(x, o, g)
    ensures GroupAt(x + y, o, g)
  {
  }

  /** The appended part is a group at the end of the old sequence. */
  lemma GroupAtAppendRight(x: seq<Action>, y: seq<Action>)
    ensures GroupAt(x + y, |x|, y)
  {
  }

  /** An action that is not in a group occurs nowhere in its range. */
  lemma GroupLacks(t: seq<Action>, o: nat, g: seq<Action>, a: Action)
    requires GroupAt(t, o, g)
    requires a !in g
    ensures forall k :: o <= k < o + |g| ==> t[k] != a
  {
    forall k | o <= k < o + |g|
      ensures t[k] != a
    {
      assert t[o + (k - o)] == g[k - o];
    }
  }

  /** An action that is in a group only at offsets `cs` occurs in its range
      only at those offsets. */
  lemma GroupOnlyAt(t: seq<Action>, o: nat, g: seq<Action>, a: Action, cs: set<int>)
    requires GroupAt(t, o, g)
    requires forall c :: 0 <= c < |g| && g[c] == a ==> c in cs
    ensures forall k :: o <= k < o + |g| && t[k] == a ==> k - o in cs
  {
    forall k | o <= k < o + |g| && t[k] == a
      ensures k - o in cs
    {
      assert t[o + (k - o)] == g[k - o];
    }
  }

  /** No command of a group runs unprivileged. */
  lemma GroupEscalated(t: seq<Action>, o: nat, g: seq<Action>)
    requires GroupAt(t, o, g)
    requires forall c :: 0 <= c < |g| ==> !RunsUnprivileged(g[c])
    ensures forall k :: o <= k < o + |g| ==> !RunsUnprivileged(t[k])
  {
    forall k | o <= k < o + |g|
      ensures !RunsUnprivileged(t[k])
    {
      assert t[o + (k - o)] == g[k - o];
    }
  }

  /** Where the timezone write sits among the groups. */
  lemma TimezoneOffsets(b: bool, useRos2Testing: bool, workspace: string,
                        installs: Installs, distros: seq<string>)
    ensures WriteUtcTimezone !in EnsureSudo(b)
    ensures WriteUtcTimezone !in Repositories(useRos2Testing, workspace)
    ensures WriteUtcTimezone !in Installers(installs)
    ensures WriteUtcTimezone !in RosdepSetup
    ensures WriteUtcTimezone !in InstallRosDistributions(distros)
    ensures forall c :: 0 <= c < |ClockAndLocale| && ClockAndLocale[c] == WriteUtcTimezone ==> c in {0, 6}
  {
  }

  /** Where `rosdep init` sits among the groups. */
  lemma RosdepInitOffsets(b: bool, useRos2Testing: bool, workspace: string,
                          installs: Installs, distros: seq<string>)
    ensures RosdepInit !in EnsureSudo(b)
    ensures RosdepInit !in ClockAndLocale
    ensures RosdepInit !in Repositories(useRos2Testing, workspace)
    ensures RosdepInit !in Installers(installs)
    ensures RosdepInit !in InstallRosDistributions(distros)
    ensures forall c :: 0 <= c < |RosdepSetup| && RosdepSetup[c] == RosdepInit ==> c in {1}
  {
  }

  /** No group after the repositories refreshes the index. */
  lemma NoLateRefresh(installs: Installs, distros: seq<string>)
    ensures UpdateIndex !in Installers(installs)
    ensures UpdateIndex !in RosdepSetup
    ensures UpdateIndex !in InstallRosDistributions(distros)
  {
  }

  /** Where a `ros2-latest.list` definition sits among the groups. */
  lemma Ros2SourceOffsets(b: bool, useRos2Testing: bool, workspace: string,
                          installs: Installs, distros: seq<string>, testing: bool)
    ensures AddSourceList(Ros2Repository(testing)) !in EnsureSudo(b)
    ensures AddSourceList(Ros2Repository(testing)) !in ClockAndLocale
    ensures AddSourceList(Ros2Repository(testing)) !in Installers(installs)
    ensures AddSourceList(Ros2Repository(testing)) !in RosdepSetup
    ensures AddSourceList(Ros2Repository(testing)) !in InstallRosDistributions(distros)
    ensures forall c ::
              (0 <= c < |Repositories(useRos2Testing, workspace)|
               && Repositories(useRos2Testing, workspace)[c] == AddSourceList(Ros2Repository(testing)))
              ==> c in {5}
  {
  }

  /** Outside the bootstrap pair every group runs escalated, given
      escalated installer commands. */
  lemma GroupsEscalated(useRos2Testing: bool, workspace: string, installs: Installs, distros: seq<string>)
    requires EscalatedInstalls(installs)
    ensures forall c :: 0 <= c < |ClockAndLocale| ==> !RunsUnprivileged(ClockAndLocale[c])
    ensures forall c :: 0 <= c < |Repositories(useRos2Testing, workspace)| ==>
              !RunsUnprivileged(Repositories(useRos2Testing, workspace)[c])
    ensures forall c :: 0 <= c < |Installers(installs)| ==> !RunsUnprivileged(Installers(installs)[c])
    ensures forall c :: 0 <= c < |RosdepSetup| ==> !RunsUnprivileged(RosdepSetup[c])
    ensures forall c :: 0 <= c < |InstallRosDistributions(distros)| ==>
              !RunsUnprivileged(InstallRosDistributions(distros)[c])
  {
  }

  /** An action in neither the bootstrap pair nor the clock and locale
      group occurs nowhere before position `e + 9`. */
  lemma HeadLacks(t: seq<Action>, e: nat, a: Action)
    requires (e == 0 || e == 2) && GroupAt(t, 0, EnsureSudo(e == 0)) && GroupAt(t, e, ClockAndLocale)
    requires a !in EnsureSudo(e == 0) && a !in ClockAndLocale
    ensures forall k :: 0 <= k < e + 9 ==> t[k] != a
  {
    GroupLacks(t, 0, EnsureSudo(e == 0), a);
    GroupLacks(t, e, ClockAndLocale, a);
  }

  /** An action in neither the repository nor the installer group occurs
      nowhere from position `e + 9` up to `e + 20`. */
  lemma MiddleLacks(t: seq<Action>, e: nat, useRos2Testing: bool, workspace: string,
                    installs: Installs, a: Action)
    requires GroupAt(t, e + 9, Repositories(useRos2Testing, workspace))
    requires GroupAt(t, e + 17, Installers(installs))
    requires a !in Repositories(useRos2Testing, workspace) && a !in Installers(installs)
    ensures forall k :: e + 9 <= k < e + 20 ==> t[k] != a
  {
    GroupLacks(t, e + 9, Repositories(useRos2Testing, workspace), a);
    GroupLacks(t, e + 17, Installers(installs), a);
  }

  /** An action in none of the installer, rosdep and distribution groups
      occurs nowhere from position `e + 17` on. */
  lemma TailLacks(t: seq<Action>, e: nat, installs: Installs, distros: seq<string>, a: Action)
    requires |t| == e + 22 + |distros|
    requires GroupAt(t, e + 17, Installers(installs)) && GroupAt(t, e + 20, RosdepSetup)
    requires GroupAt(t, e + 22, InstallRosDistributions(distros))
    requires a !in Installers(installs) && a !in RosdepSetup && a !in InstallRosDistributions(distros)
    ensures forall k :: e + 17 <= k < |t| ==> t[k] != a
  {
    GroupLacks(t, e + 17, Installers(installs), a);
    GroupLacks(t, e + 20, RosdepSetup, a);
    GroupLacks(t, e + 22, InstallRosDistributions(distros), a);
  }

  /** A trace that opens with the bootstrap pair exactly when sudo is
      missing, and runs nothing else unprivileged for its effect, renders to
      steps that meet `SudoBootstrapFirst`. */
  lemma StepsEscalation(t: seq<Action>, sudoPresent: bool)
    requires GroupAt(t, 0, EnsureSudo(sudoPresent))
    requires forall k :: 0 <= k < |t| && RunsUnprivileged(t[k]) ==> k < |EnsureSudo(sudoPresent)|
    ensures SudoBootstrapFirst(Steps(t), sudoPresent)
  {
    var s := Steps(t);
    if !sudoPresent {
      assert EnsureSudo(sudoPresent)[0] == UpdateIndexUnprivileged;
      assert EnsureSudo(sudoPresent)[1] == InstallSudoUnprivileged;
    }
    forall k | 0 <= k < |s| && RunsWithoutSudo(s[k])
      ensures (!sudoPresent && k < 2) || s[k] == CaptureStdout(CodenameProbe)
    {
      StepOfEscalation(t[k]);
    }
  }

  /** Every run has that shape, with two bootstrap actions exactly when
      sudo is missing. */
  lemma TraceLayout(sudoPresent: bool, useRos2Testing: bool, workspace: string,
                    installs: Installs, distros: seq<string>)
    ensures HasRunLayout(Trace(sudoPresent, useRos2Testing, workspace, installs, distros),
                         if sudoPresent then 0 else 2, useRos2Testing, workspace, installs, distros)
  {
    var b := EnsureSudo(sudoPresent);
    var p1 := b + ClockAndLocale;
    var p2 := p1 + Repositories(useRos2Testing, workspace);
    var p3 := p2 + Installers(installs);
    var p4 := p3 + RosdepSetup;
    var rest := InstallRosDistributions(distros);
    GroupAtAppendRight([], b);
    GroupAtAppendLeft(b, ClockAndLocale, 0, b);
    GroupAtAppendLeft(p1, Repositories(useRos2Testing, workspace), 0, b);
    GroupAtAppendLeft(p2, Installers(installs), 0, b);
    GroupAtAppendLeft(p3, RosdepSetup, 0, b);
    GroupAtAppendLeft(p4, rest, 0, b);
    GroupAtAppendRight(b, ClockAndLocale);
    GroupAtAppendLeft(p1, Repositories(useRos2Testing, workspace), |b|, ClockAndLocale);
    GroupAtAppendLeft(p2, Installers(installs), |b|, ClockAndLocale);
    GroupAtAppendLeft(p3, RosdepSetup, |b|, ClockAndLocale);
    GroupAtAppendLeft(p4, rest, |b|, ClockAndLocale);
    GroupAtAppendRight(p1, Repositories(useRos2Testing, workspace));
    GroupAtAppendLeft(p2, Installers(installs), |p1|, Repositories(useRos2Testing, workspace));
    GroupAtAppendLeft(p3, RosdepSetup, |p1|, Repositories(useRos2Testing, workspace));
    GroupAtAppendLeft(p4, rest, |p1|, Repositories(useRos2Testing, workspace));
    GroupAtAppendRight(p2, Installers(installs));
    GroupAtAppendLeft(p3, RosdepSetup, |p2|, Installers(installs));
    GroupAtAppendLeft(p4, rest, |p2|, Installers(installs));
    GroupAtAppendRight(p3, RosdepSetup);
    GroupAtAppendLeft(p4, rest, |p3|, RosdepSetup);
    GroupAtAppendRight(p4, rest);
  }

  /** The positions of the clock and locale group. */
  lemma ClockPositions(t: seq<Action>, e: nat)
    requires GroupAt(t, e, ClockAndLocale)
    ensures t[e] == WriteUtcTimezone && t[e + 1] == UpdateIndex && t[e + 2] == DetectCodename
    ensures t[e + 3] == InstallBootstrapTools && t[e + 4] == GenerateLocale && t[e + 5] == ExportLang
    ensures t[e + 6] == WriteUtcTimezone && t[e + 7] == LinkLocaltime && t[e + 8] == InstallTzdata
  {
    assert t[e] == ClockAndLocale[0] && t[e + 1] == ClockAndLocale[1] && t[e + 2] == ClockAndLocale[2];
    assert t[e + 3] == ClockAndLocale[3] && t[e + 4] == ClockAndLocale[4] && t[e + 5] == ClockAndLocale[5];
    assert t[e + 6] == ClockAndLocale[6] && t[e + 7] == ClockAndLocale[7] && t[e + 8] == ClockAndLocale[8];
  }

  /** The positions of the repository group. */
  lemma RepositoryPositions(t: seq<Action>, o: nat, useRos2Testing: bool, workspace: string)
    requires GroupAt(t, o, Repositories(useRos2Testing, workspace))
    ensures t[o] == WriteKey(workspace, OpenRoboticsKey)
    ensures t[o + 1] == AddKey(workspace, OpenRoboticsKey)
    ensures t[o + 2] == WriteKey(workspace, QcrKey)
    ensures t[o + 3] == AddKey(workspace, QcrKey)
    ensures t[o + 4] == AddSourceList(RosRepository)
    ensures t[o + 5] == AddSourceList(Ros2Repository(useRos2Testing))
    ensures t[o + 6] == AddSourceList(QcrRepository)
    ensures t[o + 7] == UpdateIndex
  {
    var r := Repositories(useRos2Testing, workspace);
    assert t[o] == r[0] && t[o + 1] == r[1] && t[o + 2] == r[2] && t[o + 3] == r[3];
    assert t[o + 4] == r[4] && t[o + 5] == r[5] && t[o + 6] == r[6] && t[o + 7] == r[7];
  }

  /** The positions of the installer group. */
  lemma InstallerPositions(t: seq<Action>, o: nat, installs: Installs)
    requires GroupAt(t, o, Installers(installs))
    ensures t[o] == Install(installs.aptDependencies)
    ensures t[o + 1] == Install(installs.pipUpgrade)
    ensures t[o + 2] == Install(installs.pipDependencies)
  {
    assert t[o] == Installers(installs)[0];
    assert t[o + 1] == Installers(installs)[1];
    assert t[o + 2] == Installers(installs)[2];
  }

  /** The distribution installs, position by position. */
  lemma DistributionPositions(t: seq<Action>, o: nat, distros: seq<string>)
    requires GroupAt(t, o, InstallRosDistributions(distros))
    ensures forall k :: 0 <= k < |distros| ==> t[o + k] == InstallRosBase(distros[k])
  {
    forall k | 0 <= k < |distros|
      ensures t[o + k] == InstallRosBase(distros[k])
    {
      assert t[o + k] == InstallRosDistributions(distros)[k];
    }
  }

  /** The repository group renders the ROS 2 list line for its channel. */
  lemma Ros2StepAt(t: seq<Action>, o: nat, useRos2Testing: bool, workspace: string)
    requires GroupAt(t, o, Repositories(useRos2Testing, workspace))
    ensures Exec(SudoBash(SourceListScript(Ros2SourceUrl(useRos2Testing), "ros2-latest.list"))) in Steps(t)
  {
    RepositoryPositions(t, o, useRos2Testing, workspace);
    SourceListStep(Ros2Repository(useRos2Testing));
    assert Steps(t)[o + 5] == StepOf(AddSourceList(Ros2Repository(useRos2Testing)));
  }

  /** With escalated installer commands only the bootstrap pair, which
      opens such a run when there is one, runs unprivileged. */
  lemma LayoutUnprivileged(t: seq<Action>, e: nat, useRos2Testing: bool, workspace: string,
                           installs: Installs, distros: seq<string>)
    requires HasRunLayout(t, e, useRos2Testing, workspace, installs, distros)
    requires EscalatedInstalls(installs)
    ensures forall k :: 0 <= k < |t| && RunsUnprivileged(t[k]) ==> k < e
  {
    GroupsEscalated(useRos2Testing, workspace, installs, distros);
    GroupEscalated(t, e, ClockAndLocale);
    GroupEscalated(t, e + 9, Repositories(useRos2Testing, workspace));
    GroupEscalated(t, e + 17, Installers(installs));
    GroupEscalated(t, e + 20, RosdepSetup);
    GroupEscalated(t, e + 22, InstallRosDistributions(distros));
  }

  /** The clock and locale group probes the codename as its third step. */
  lemma ProbeStep(t: seq<Action>, e: nat)
    requires GroupAt(t, e, ClockAndLocale)
    ensures Steps(t)[e + 2] == CaptureStdout(CodenameProbe)
  {
    assert t[e + 2] == ClockAndLocale[2];
  }

  /** With escalated installer commands, the rendered run is escalated but
      for the bootstrap pair and the codename probe, which it issues at
      `e + 2`. */
  lemma LayoutEscalation(t: seq<Action>, e: nat, useRos2Testing: bool, workspace: string,
                         installs: Installs, distros: seq<string>)
    requires HasRunLayout(t, e, useRos2Testing, workspace, installs, distros)
    requires EscalatedInstalls(installs)
    ensures SudoBootstrapFirst(Steps(t), e == 0)
    ensures Steps(t)[e + 2] == CaptureStdout(CodenameProbe)
  {
    LayoutUnprivileged(t, e, useRos2Testing, workspace, installs, distros);
    StepsEscalation(t, e == 0);
    ProbeStep(t, e);
  }

  /** The ordering follows from the positions of the five actions. */
  lemma TwiceAroundWitness(t: seq<Action>, e: nat, w: Action, a: Action, b: Action, c: Action)
    requires e + 7 <= |t|
    requires t[e] == w && t[e + 2] == a && t[e + 4] == b && t[e + 5] == c && t[e + 6] == w
    requires forall k :: 0 <= k < |t| && t[k] == w ==> k == e || k == e + 6
    ensures TwiceAround(t, w, a, b, c)
  {
  }

  /** In such a run only positions `e` and `e + 6` write the timezone. */
  lemma LayoutTimezoneOnlyTwice(t: seq<Action>, e: nat, useRos2Testing: bool, workspace: string,
                                installs: Installs, distros: seq<string>)
    requires HasRunLayout(t, e, useRos2Testing, workspace, installs, distros)
    ensures forall k :: 0 <= k < |t| && t[k] == WriteUtcTimezone ==> k == e || k == e + 6
  {
    TimezoneOffsets(e == 0, useRos2Testing, workspace, installs, distros);
    GroupLacks(t, 0, EnsureSudo(e == 0), WriteUtcTimezone);
    GroupOnlyAt(t, e, ClockAndLocale, WriteUtcTimezone, {0, 6});
    GroupLacks(t, e + 9, Repositories(useRos2Testing, workspace), WriteUtcTimezone);
    TailLacks(t, e, installs, distros, WriteUtcTimezone);
  }

  /** The timezone is written before the codename probe and again after
      `locale-gen`, nowhere else, and `LANG` is exported in between. */
  lemma LayoutTimezoneAndLocale(t: seq<Action>, e: nat, useRos2Testing: bool, workspace: string,
                                installs: Installs, distros: seq<string>)
    requires HasRunLayout(t, e, useRos2Testing, workspace, installs, distros)
    ensures TimezoneAndLocaleOrdered(t)
  {
    ClockPositions(t, e);
    LayoutTimezoneOnlyTwice(t, e, useRos2Testing, workspace, installs, distros);
    TwiceAroundWitness(t, e, WriteUtcTimezone, DetectCodename, GenerateLocale, ExportLang);
  }

  /** `LastIndexOf` finds `u` when `s` is at `u` and nowhere after it. */
  lemma LastIndexOfIs(t: seq<Action>, s: Action, u: int)
    requires 0 <= u < |t| && t[u] == s
    requires forall k :: u < k < |t| ==> t[k] != s
    ensures LastIndexOf(t, s) == u
  {
  }

  /** The repository group right up to `u` and the installers right after
      it establish the refresh ordering at `u`. */
  lemma RefreshBetweenAt(t: seq<Action>, u: int, workspace: string, useRos2Testing: bool,
                         installs: Installs)
    requires 7 <= u && u + 3 < |t|
    requires t[u - 7] == WriteKey(workspace, OpenRoboticsKey)
    requires t[u - 6] == AddKey(workspace, OpenRoboticsKey)
    requires t[u - 5] == WriteKey(workspace, QcrKey)
    requires t[u - 4] == AddKey(workspace, QcrKey)
    requires t[u - 3] == AddSourceList(RosRepository)
    requires t[u - 2] == AddSourceList(Ros2Repository(useRos2Testing))
    requires t[u - 1] == AddSourceList(QcrRepository)
    requires t[u] == UpdateIndex
    requires t[u + 1] == Install(installs.aptDependencies)
    requires t[u + 2] == Install(installs.pipUpgrade)
    requires t[u + 3] == Install(installs.pipDependencies)
    ensures RefreshBetween(t, u, workspace, useRos2Testing, installs)
  {
  }

  /** Keys are written and added and all three repository definitions are
      in place before the last index refresh, which is followed directly by
      the APT install, the pip upgrade and the pip install. */
  lemma LayoutRepositoriesThenInstalls(t: seq<Action>, e: nat, useRos2Testing: bool, workspace: string,
                                       installs: Installs, distros: seq<string>)
    requires HasRunLayout(t, e, useRos2Testing, workspace, installs, distros)
    ensures RepositoriesThenInstalls(t, workspace, useRos2Testing, installs)
  {
    RepositoryPositions(t, e + 9, useRos2Testing, workspace);
    InstallerPositions(t, e + 17, installs);
    NoLateRefresh(installs, distros);
    TailLacks(t, e, installs, distros, UpdateIndex);
    LastIndexOfIs(t, UpdateIndex, e + 16);
    RefreshBetweenAt(t, e + 16, workspace, useRos2Testing, installs);
  }

  /** `rosdep init` is run once, as the second rosdep action. */
  lemma LayoutRosdepInitOnce(t: seq<Action>, e: nat, useRos2Testing: bool, workspace: string,
                             installs: Installs, distros: seq<string>)
    requires HasRunLayout(t, e, useRos2Testing, workspace, installs, distros)
    ensures forall k :: 0 <= k < |t| && t[k] == RosdepInit ==> k == e + 21
  {
    RosdepInitOffsets(e == 0, useRos2Testing, workspace, installs, distros);
    HeadLacks(t, e, RosdepInit);
    MiddleLacks(t, e, useRos2Testing, workspace, installs, RosdepInit);
    GroupOnlyAt(t, e + 20, RosdepSetup, RosdepInit, {1});
    GroupLacks(t, e + 22, InstallRosDistributions(distros), RosdepInit);
  }

  /** The rosdep ordering follows from the positions around `r`. */
  lemma RosdepWitness(t: seq<Action>, r: int, distros: seq<string>)
    requires 1 <= r && |t| == r + 1 + |distros|
    requires t[r - 1] == RemoveStaleRosdepList && t[r] == RosdepInit
    requires forall k :: 0 <= k < |t| && t[k] == RosdepInit ==> k == r
    requires forall k :: 0 <= k < |distros| ==> t[r + 1 + k] == InstallRosBase(distros[k])
    ensures RosdepThenDistributions(t, distros)
  {
    forall k | r < k < |t|
      ensures t[k] == InstallRosBase(distros[k - r - 1])
    {
      assert t[r + 1 + (k - r - 1)] == InstallRosBase(distros[k - r - 1]);
    }
  }

  /** The stale list is removed right before the single `rosdep init`,
      after which come exactly the distribution installs, in order. */
  lemma LayoutRosdepThenDistributions(t: seq<Action>, e: nat, useRos2Testing: bool, workspace: string,
                                      installs: Installs, distros: seq<string>)
    requires HasRunLayout(t, e, useRos2Testing, workspace, installs, distros)
    ensures RosdepThenDistributions(t, distros)
  {
    LayoutRosdepInitOnce(t, e, useRos2Testing, workspace, installs, distros);
    DistributionPositions(t, e + 22, distros);
    assert t[e + 20] == RosdepSetup[0] && t[e + 21] == RosdepSetup[1];
    RosdepWitness(t, e + 21, distros);
  }

  /** A `ros2-latest.list` definition can only be the ROS 2 step of the
      run, whatever its URL. */
  lemma LayoutRos2SourceOnce(t: seq<Action>, e: nat, useRos2Testing: bool, workspace: string,
                             installs: Installs, distros: seq<string>, testing: bool)
    requires HasRunLayout(t, e, useRos2Testing, workspace, installs, distros)
    ensures forall k :: 0 <= k < |t| && t[k] == AddSourceList(Ros2Repository(testing)) ==> k == e + 14
  {
    var a := AddSourceList(Ros2Repository(testing));
    Ros2SourceOffsets(e == 0, useRos2Testing, workspace, installs, distros, testing);
    HeadLacks(t, e, a);
    GroupOnlyAt(t, e + 9, Repositories(useRos2Testing, workspace), a, {5});
    TailLacks(t, e, installs, distros, a);
  }

  /** The ROS 2 repository definition names the testing channel exactly
      when asked for and the stable channel otherwise; the other one never
      appears. */
  lemma LayoutRos2Channel(t: seq<Action>, e: nat, useRos2Testing: bool, workspace: string,
                          installs: Installs, distros: seq<string>)
    requires HasRunLayout(t, e, useRos2Testing, workspace, installs, distros)
    ensures AddSourceList(Ros2Repository(true)) in t <==> useRos2Testing
    ensures AddSourceList(Ros2Repository(false)) in t <==> !useRos2Testing
  {
    RepositoryPositions(t, e + 9, useRos2Testing, workspace);
    LayoutRos2SourceOnce(t, e, useRos2Testing, workspace, installs, distros, true);
    LayoutRos2SourceOnce(t, e, useRos2Testing, workspace, installs, distros, false);
  }

  /** No action of a group is an installer command. */
  lemma GroupHasNoInstall(t: seq<Action>, o: nat, g: seq<Action>)
    requires GroupAt(t, o, g)
    requires forall c :: 0 <= c < |g| ==> !g[c].Install?
    ensures forall k :: o <= k < o + |g| ==> !t[k].Install?
  {
    forall k | o <= k < o + |g|
      ensures !t[k].Install?
    {
      assert t[o + (k - o)] == g[k - o];
    }
  }

  /** Installer commands occur only in the installer group. */
  lemma LayoutInstallsOnlyInstallers(t: seq<Action>, e: nat, useRos2Testing: bool, workspace: string,
                                     installs: Installs, distros: seq<string>)
    requires HasRunLayout(t, e, useRos2Testing, workspace, installs, distros)
    ensures forall k :: 0 <= k < |t| && t[k].Install? ==> e + 17 <= k < e + 20
  {
    GroupHasNoInstall(t, 0, EnsureSudo(e == 0));
    GroupHasNoInstall(t, e, ClockAndLocale);
    GroupHasNoInstall(t, e + 9, Repositories(useRos2Testing, workspace));
    GroupHasNoInstall(t, e + 20, RosdepSetup);
    GroupHasNoInstall(t, e + 22, InstallRosDistributions(distros));
  }

  /** Every action that runs `apt-get install`, other than the bootstrap
      install and the installer commands, does so non-interactively. */
  lemma OtherAptInstall(a: Action)
    requires !a.Install? && a != InstallSudoUnprivileged
    ensures RunsAptGetInstall(StepOf(a)) ==> StepOf(a).Exec? && Apt.IsNonInteractiveInstall(StepOf(a).cmd)
  {
    StepOfAptInstall(a);
  }

  /** The bootstrap `sudo` install, in a trace that runs nothing
      unprivileged after its first `e` actions and opens with `apt-get
      update` when `e` is 2, can only be its second action. */
  lemma BootstrapInstallAt(t: seq<Action>, e: nat, k: nat)
    requires e == 0 || e == 2
    requires e == 2 ==> |t| >= 1 && t[0] == UpdateIndexUnprivileged
    requires forall j :: 0 <= j < |t| && RunsUnprivileged(t[j]) ==> j < e
    requires k < |t| && t[k] == InstallSudoUnprivileged
    ensures e == 2 && k == 1
  {
    assert RunsUnprivileged(t[k]);
  }

  /** An installer command among the given three runs `apt-get install`
      only as the non-interactive APT install. */
  lemma InstallerAptInstall(a: Action, installs: Installs)
    requires a.Install?
    requires a.cmd in {installs.aptDependencies, installs.pipUpgrade, installs.pipDependencies}
    requires Apt.IsNonInteractiveInstall(installs.aptDependencies)
    requires !RunsAptGetInstall(Exec(installs.pipUpgrade))
    requires !RunsAptGetInstall(Exec(installs.pipDependencies))
    ensures RunsAptGetInstall(StepOf(a)) ==> StepOf(a).Exec? && Apt.IsNonInteractiveInstall(StepOf(a).cmd)
  {
    assert StepOf(a) == Exec(a.cmd);
  }

  /** A trace whose installer commands are the given three, which runs
      nothing unprivileged after its first `e` actions, and which opens with
      `apt-get update` when `e` is 2: with a non-interactive APT installer
      command and pip commands that do not run `apt-get install`, every
      `apt-get install` it renders but the one at position 1 of a run
      without sudo is non-interactive. */
  lemma AptInstallsOfTrace(t: seq<Action>, e: nat, installs: Installs)
    requires e == 0 || e == 2
    requires e == 2 ==> |t| >= 1 && t[0] == UpdateIndexUnprivileged
    requires forall k :: 0 <= k < |t| && RunsUnprivileged(t[k]) ==> k < e
    requires forall k :: 0 <= k < |t| && t[k].Install? ==>
               t[k].cmd in {installs.aptDependencies, installs.pipUpgrade, installs.pipDependencies}
    requires Apt.IsNonInteractiveInstall(installs.aptDependencies)
    requires !RunsAptGetInstall(Exec(installs.pipUpgrade))
    requires !RunsAptGetInstall(Exec(installs.pipDependencies))
    ensures forall k :: 0 <= k < |Steps(t)| && RunsAptGetInstall(Steps(t)[k]) ==>
              (e == 2 && k == 1) || (Steps(t)[k].Exec? && Apt.IsNonInteractiveInstall(Steps(t)[k].cmd))
  {
    var s := Steps(t);
    forall k | 0 <= k < |s| && RunsAptGetInstall(s[k])
      ensures (e == 2 && k == 1) || (s[k].Exec? && Apt.IsNonInteractiveInstall(s[k].cmd))
    {
      if t[k] == InstallSudoUnprivileged {
        BootstrapInstallAt(t, e, k);
      } else if t[k].Install? {
        InstallerAptInstall(t[k], installs);
        assert s[k] == StepOf(t[k]);
      } else {
        OtherAptInstall(t[k]);
      }
    }
  }

  /** In a run, installer commands are the three of its installer group. */
  lemma LayoutInstallCommands(t: seq<Action>, e: nat, useRos2Testing: bool, workspace: string,
                              installs: Installs, distros: seq<string>)
    requires HasRunLayout(t, e, useRos2Testing, workspace, installs, distros)
    ensures forall k :: 0 <= k < |t| && t[k].Install? ==>
              t[k].cmd in {installs.aptDependencies, installs.pipUpgrade, installs.pipDependencies}
  {
    LayoutInstallsOnlyInstallers(t, e, useRos2Testing, workspace, installs, distros);
    InstallerPositions(t, e + 17, installs);
  }

  /** With a non-interactive APT installer command and pip commands that do
      not run `apt-get install`, every `apt-get install` of the rendered run
      but the bootstrap one, at position 1 of a run without sudo, is
      non-interactive, and that one is not. */
  lemma LayoutAptInstalls(t: seq<Action>, e: nat, useRos2Testing: bool, workspace: string,
                          installs: Installs, distros: seq<string>)
    requires HasRunLayout(t, e, useRos2Testing, workspace, installs, distros)
    requires EscalatedInstalls(installs)
    requires Apt.IsNonInteractiveInstall(installs.aptDependencies)
    requires !RunsAptGetInstall(Exec(installs.pipUpgrade))
    requires !RunsAptGetInstall(Exec(installs.pipDependencies))
    ensures forall k :: 0 <= k < |Steps(t)| && RunsAptGetInstall(Steps(t)[k]) ==>
              (e == 2 && k == 1) || (Steps(t)[k].Exec? && Apt.IsNonInteractiveInstall(Steps(t)[k].cmd))
    ensures e == 2 ==> RunsAptGetInstall(Steps(t)[1]) && !Apt.IsNonInteractiveInstall(Steps(t)[1].cmd)
  {
    LayoutInstallCommands(t, e, useRos2Testing, workspace, installs, distros);
    LayoutUnprivileged(t, e, useRos2Testing, workspace, installs, distros);
    if e == 2 {
      assert t[0] == EnsureSudo(false)[0];
      assert t[1] == EnsureSudo(false)[1];
      StepOfAptInstall(t[1]);
    }
    AptInstallsOfTrace(t, e, installs);
  }

  // The installer commands of a run.

  /** The pip executable a codename selects: `pip` on the legacy releases,
      `pip3` otherwise. */
  function PipBinaryFor(codename: string): string {
    if IsLegacyCodename(codename) then "pip" else "pip3"
  }

  /** The installer commands of a run: the non-interactive APT install of
      the composed list, then pip upgrading itself and pip installing the
      fixed list, both with the binary the codename selects and under sudo. */
  lemma InstallsForCodename(installConnext: bool, codename: string)
    ensures var ins := InstallsFor(installConnext, codename);
            && Apt.IsNonInteractiveInstall(ins.aptDependencies)
            && Apt.InstalledPackages(ins.aptDependencies) == Apt.AptPackagesFor(codename)
            && ins.pipUpgrade == Sudo([PipBinaryFor(codename), "install", "--upgrade", "pip"])
            && ins.pipDependencies == Sudo([PipBinaryFor(codename), "install", "--upgrade"] + Pip.Pip3Packages)
            && EscalatedInstalls(ins)
  {
    var ins := InstallsFor(installConnext, codename);
    var upgrade := Pip.RunPython3PipInstall(Pip.InitialPipCommandLine, ["pip"], codename, None);
    var line := [PipBinaryFor(codename), "install", "--upgrade"];
    assert upgrade.commandLine == line;
    var deps := Pip.InstallPython3Dependencies(upgrade.commandLine, codename, None);
    assert deps.commandLine == line;
    assert ins.pipUpgrade.args == line + ["pip"];
    assert ins.pipDependencies.args == line + Pip.Pip3Packages;
  }

  /** A pip command, escalated, does not mention `apt-get`, whichever
      binary it runs and whether it installs pip itself or the fixed list. */
  lemma PipCommandNoAptGet(bin: string, packages: seq<string>)
    requires bin != "apt-get"
    requires packages == ["pip"] || packages == Pip.Pip3Packages
    ensures !RunsAptGetInstall(Exec(Sudo([bin, "install", "--upgrade"] + packages)))
  {
    Pip.AptGetNotPipPackage();
    var line := ["sudo", bin, "install", "--upgrade"];
    assert "apt-get" !in packages;
    assert "apt-get" !in line;
    assert Argv(Sudo([bin, "install", "--upgrade"] + packages)) == line + packages;
    NoAptGet(Exec(Sudo([bin, "install", "--upgrade"] + packages)));
  }

  /** Neither pip command of a run mentions `apt-get`. */
  lemma PipInstallsNoAptGet(installConnext: bool, codename: string)
    ensures !RunsAptGetInstall(Exec(InstallsFor(installConnext, codename).pipUpgrade))
    ensures !RunsAptGetInstall(Exec(InstallsFor(installConnext, codename).pipDependencies))
  {
    InstallsForCodename(installConnext, codename);
    PipCommandNoAptGet(PipBinaryFor(codename), ["pip"]);
    PipCommandNoAptGet(PipBinaryFor(codename), Pip.Pip3Packages);
  }

  // Lemmas about `runLinux`.

  /** Every command a run issues is escalated except the unprivileged
      bootstrap pair, which opens the run exactly when sudo is missing, and
      the codename probe, which the run does issue, right after the first
      timezone write and index refresh. */
  lemma RunLinuxEscalation(inp: Inputs)
    ensures SudoBootstrapFirst(RunLinuxSteps(inp), inp.sudoPresent)
    ensures RunLinuxSteps(inp)[if inp.sudoPresent then 2 else 4] == CaptureStdout(CodenameProbe)
  {
    var rt := InputIsTrue(inp.useRos2Testing);
    var installs := InstallsFor(InputIsTrue(inp.installConnext), inp.codename);
    var e := if inp.sudoPresent then 0 else 2;
    TraceLayout(inp.sudoPresent, rt, inp.workspace, installs, inp.rosDistributions);
    LayoutEscalation(RunLinux(inp), e, rt, inp.workspace, installs, inp.rosDistributions);
  }

  /** The timezone is written before the codename probe and again after
      `locale-gen`, and nowhere else; `LANG` is exported in between. */
  lemma RunLinuxTimezoneAndLocale(inp: Inputs)
    ensures TimezoneAndLocaleOrdered(RunLinux(inp))
  {
    var rt := InputIsTrue(inp.useRos2Testing);
    var installs := InstallsFor(InputIsTrue(inp.installConnext), inp.codename);
    var e := if inp.sudoPresent then 0 else 2;
    TraceLayout(inp.sudoPresent, rt, inp.workspace, installs, inp.rosDistributions);
    LayoutTimezoneAndLocale(RunLinux(inp), e, rt, inp.workspace, installs, inp.rosDistributions);
  }

  /** In every run the repositories precede the last index refresh, which
      is followed by the APT, pip-upgrade and pip installs for the probed
      codename; the stale rosdep list is removed right before the single
      `rosdep init`, and one install per distribution follows, in order. */
  lemma RunLinuxOrdering(inp: Inputs)
    ensures RepositoriesThenInstalls(RunLinux(inp), inp.workspace, InputIsTrue(inp.useRos2Testing),
                                     InstallsFor(InputIsTrue(inp.installConnext), inp.codename))
    ensures RosdepThenDistributions(RunLinux(inp), inp.rosDistributions)
  {
    var rt := InputIsTrue(inp.useRos2Testing);
    var installs := InstallsFor(InputIsTrue(inp.installConnext), inp.codename);
    var e := if inp.sudoPresent then 0 else 2;
    TraceLayout(inp.sudoPresent, rt, inp.workspace, installs, inp.rosDistributions);
    LayoutRepositoriesThenInstalls(RunLinux(inp), e, rt, inp.workspace, installs, inp.rosDistributions);
    LayoutRosdepThenDistributions(RunLinux(inp), e, rt, inp.workspace, installs, inp.rosDistributions);
  }

  /** A run adds the ROS 2 testing channel exactly when the input is the
      string `true`, and the stable channel otherwise. */
  lemma RunLinuxRos2Channel(inp: Inputs)
    ensures AddSourceList(Ros2Repository(true)) in RunLinux(inp)
            <==> inp.useRos2Testing == "true"
    ensures AddSourceList(Ros2Repository(false)) in RunLinux(inp)
            <==> inp.useRos2Testing != "true"
  {
    var rt := InputIsTrue(inp.useRos2Testing);
    var installs := InstallsFor(InputIsTrue(inp.installConnext), inp.codename);
    var e := if inp.sudoPresent then 0 else 2;
    TraceLayout(inp.sudoPresent, rt, inp.workspace, installs, inp.rosDistributions);
    LayoutRos2Channel(RunLinux(inp), e, rt, inp.workspace, installs, inp.rosDistributions);
  }

  /** The command a run issues for the ROS 2 repository writes the
      testing-channel line when the input is the string `true` and the
      stable-channel line otherwise, both to `ros2-latest.list`. */
  lemma RunLinuxRos2Step(inp: Inputs)
    ensures inp.useRos2Testing == "true" ==>
              Exec(SudoBash(SourceListScript(Ros2TestingUrl, "ros2-latest.list"))) in RunLinuxSteps(inp)
    ensures inp.useRos2Testing != "true" ==>
              Exec(SudoBash(SourceListScript(Ros2Url, "ros2-latest.list"))) in RunLinuxSteps(inp)
  {
    var rt := InputIsTrue(inp.useRos2Testing);
    var installs := InstallsFor(InputIsTrue(inp.installConnext), inp.codename);
    var e := if inp.sudoPresent then 0 else 2;
    TraceLayout(inp.sudoPresent, rt, inp.workspace, installs, inp.rosDistributions);
    Ros2StepAt(RunLinux(inp), e + 9, rt, inp.workspace);
  }

  /** Every `apt-get install` a run issues is a non-interactive APT install
      (the tools, the timezone data, the composed dependency list and each
      distribution), except the unprivileged `apt-get install ... sudo` that
      opens a run without sudo, which is not. */
  lemma RunLinuxAptInstalls(inp: Inputs)
    ensures forall k :: 0 <= k < |RunLinuxSteps(inp)| && RunsAptGetInstall(RunLinuxSteps(inp)[k]) ==>
              || (!inp.sudoPresent && k == 1)
              || (RunLinuxSteps(inp)[k].Exec? && Apt.IsNonInteractiveInstall(RunLinuxSteps(inp)[k].cmd))
    ensures !inp.sudoPresent ==>
              RunsAptGetInstall(RunLinuxSteps(inp)[1]) && !Apt.IsNonInteractiveInstall(RunLinuxSteps(inp)[1].cmd)
  {
    var rt := InputIsTrue(inp.useRos2Testing);
    var installs := InstallsFor(InputIsTrue(inp.installConnext), inp.codename);
    var e := if inp.sudoPresent then 0 else 2;
    PipInstallsNoAptGet(InputIsTrue(inp.installConnext), inp.codename);
    TraceLayout(inp.sudoPresent, rt, inp.workspace, installs, inp.rosDistributions);
    LayoutAptInstalls(RunLinux(inp), e, rt, inp.workspace, installs, inp.rosDistributions);
  }

  /** The `install-connext` input changes nothing in the run. */
  lemma InstallConnextIgnored(inp: Inputs, installConnext: string)
    ensures RunLinux(inp.(installConnext := installConnext)) == RunLinux(inp)
  {
    Apt.ConnextNeverInstalled(InputIsTrue(inp.installConnext), inp.codename);
  }

  /** A release other than `bionic` and `xenial` (say `focal`): the base
      APT list unchanged and `pip3`. */
  lemma NonLegacyInstalls(installConnext: bool, codename: string)
    requires !IsLegacyCodename(codename)
    ensures InstallsFor(installConnext, codename)
         == Installs(Apt.RunAptGetInstall(Apt.AptDependencies),
                     Sudo(["pip3", "install", "--upgrade", "pip"]),
                     Sudo(["pip3", "install", "--upgrade"] + Pip.Pip3Packages))
  {
    Apt.NonLegacyGetsBaseList(codename);
    InstallsForCodename(installConnext, codename);
  }

  /** `bionic` or `xenial`: the base list plus OpenSplice with every
      `python3` prefix shortened, and `pip`; the APT install still carries
      both environment markers. */
  lemma LegacyInstalls(installConnext: bool, codename: string)
    requires IsLegacyCodename(codename)
    ensures InstallsFor(installConnext, codename)
         == Installs(Apt.RunAptGetInstall(Apt.RenamePrefixes(Apt.AptDependencies + ["libopensplice69"])),
                     Sudo(["pip", "install", "--upgrade", "pip"]),
                     Sudo(["pip", "install", "--upgrade"] + Pip.Pip3Packages))
    ensures Apt.IsNonInteractiveInstall(InstallsFor(installConnext, codename).aptDependencies)
  {
    Apt.LegacyPackagesByPrefix(codename);
    InstallsForCodename(installConnext, codename);
  }
}
