/** The pip side of provisioning. The source keeps the installer command
    line in one module-level array whose first slot (the binary) is
    overwritten on every call; here that array is explicit state, passed in
    and handed back by every call. */
module Pip {
  import opened Wrappers
  import opened Command
  import opened Distribution

  /** The interpreter-level packages, in installation order. */
  const Pip3Packages: seq<string> := [
    "argcomplete",
    "coverage",
    "cryptography",
    "empy",
    "flake8<3.8",
    "flake8-blind-except",
    "flake8-builtins",
    "flake8-class-newline",
    "flake8-comprehensions",
    "flake8-deprecated",
    "flake8-docstrings",
    "flake8-import-order",
    "flake8-quotes",
    "ifcfg",
    "importlib-metadata==2.*",
    "importlib-resources",
    "lark-parser",
    "mock",
    "mypy",
    "nose",
    "pep8",
    "pydocstyle",
    "pyparsing",
    "pytest",
    "pytest-cov",
    "pytest-mock",
    "pytest-repeat",
    "pytest-rerunfailures",
    "pytest-runner",
    "setuptools",
    "wheel"
  ]

  /** `apt-get` is not a pip package name. */
  lemma AptGetNotPipPackage()
    ensures "apt-get" !in Pip3Packages
  {
    // `apt-get` has seven characters and no pip package name does.
    assert forall i :: 0 <= i < |Pip3Packages| ==> |Pip3Packages[i]| != 7;
  }

  /** The shared three-slot command line: binary, `install`, `--upgrade`. */
  type PipCommandLine = t: seq<string> | |t| == 3 witness ["pip3", "install", "--upgrade"]

  /** Its value when the module is loaded. */
  const InitialPipCommandLine: PipCommandLine := ["pip3", "install", "--upgrade"]

  /** The command lines reachable from the initial one: only the binary
      slot varies, and it names one of the two pip executables. */
  predicate IsPipCommandLine(t: PipCommandLine) {
    t[0] in {"pip", "pip3"} && t[1] == "install" && t[2] == "--upgrade"
  }

  /** One call's effect: the command line left behind and the command run. */
  datatype PipCall = PipCall(commandLine: PipCommandLine, invocation: Cmd)

  /** `run_with_sudo` when omitted means "use sudo". */
  function SudoEnabled(runWithSudo: Option<bool>): (b: bool)
    ensures runWithSudo.None? ==> b
    ensures runWithSudo.Some? ==> b == runWithSudo.value
  {
    runWithSudo.GetOr(true)
  }

  /** The argument vector a pip invocation hands to pip, with the `sudo`
      wrapper (if any) removed: binary first, then pip's own arguments. */
  function PipArgv(c: Cmd, sudo: bool): seq<string> {
    if sudo then c.args else Argv(c)
  }

  /** `runPython3PipInstall(packages, codename, run_with_sudo)` issued while
      the shared command line is `commandLine`. */
  function RunPython3PipInstall(commandLine: PipCommandLine, packages: seq<string>,
                                codename: string, runWithSudo: Option<bool>): (r: PipCall)
    ensures r.commandLine[1..] == commandLine[1..]
    ensures IsLegacyCodename(codename) ==> r.commandLine[0] == "pip"
    ensures !IsLegacyCodename(codename) ==> r.commandLine == commandLine
    ensures IsPipCommandLine(commandLine) ==> IsPipCommandLine(r.commandLine)
    ensures SudoEnabled(runWithSudo) ==> r.invocation.program == "sudo"
    ensures !SudoEnabled(runWithSudo) ==> r.invocation.program == r.commandLine[0]
    ensures PipArgv(r.invocation, SudoEnabled(runWithSudo)) == r.commandLine + packages
  {
    var line := commandLine[0 := if IsLegacyCodename(codename) then "pip" else commandLine[0]];
    var args := line + packages;
    if SudoEnabled(runWithSudo) then
      PipCall(line, Sudo(line + packages))
    else
      PipCall(line, Cmd(args[0], args[1..]))
  }

  /** With and without sudo a call leaves the same command line behind, and
      the unprivileged command is the privileged one with `sudo` stripped. */
  lemma SudoOnlyWraps(commandLine: PipCommandLine, packages: seq<string>, codename: string)
    ensures var escalated := RunPython3PipInstall(commandLine, packages, codename, Some(true));
            var plain := RunPython3PipInstall(commandLine, packages, codename, Some(false));
            && escalated.commandLine == plain.commandLine
            && escalated.invocation.program == "sudo"
            && plain.invocation == Unwrap(escalated.invocation)
  {
  }

  /** Omitting `run_with_sudo` is the same as passing `true`. */
  lemma OmittedSudoMeansSudo(commandLine: PipCommandLine, packages: seq<string>, codename: string)
    ensures RunPython3PipInstall(commandLine, packages, codename, None)
         == RunPython3PipInstall(commandLine, packages, codename, Some(true))
  {
  }

  /** `installPython3Dependencies(codename, run_with_sudo)`: the fixed list,
      whole and in order, after `<binary> install --upgrade`. */
  function InstallPython3Dependencies(commandLine: PipCommandLine, codename: string,
                                      runWithSudo: Option<bool>): (r: PipCall)
    ensures var argv := PipArgv(r.invocation, SudoEnabled(runWithSudo));
            && |argv| == 3 + 31
            && argv[..3] == r.commandLine
            && argv[3..] == Pip3Packages
    ensures IsLegacyCodename(codename) ==> r.commandLine == ["pip"] + commandLine[1..]
    ensures !IsLegacyCodename(codename) ==> r.commandLine == commandLine
    ensures SudoEnabled(runWithSudo) ==> r.invocation.program == "sudo"
    ensures !SudoEnabled(runWithSudo) ==> r.invocation.program == r.commandLine[0]
  {
    RunPython3PipInstall(commandLine, Pip3Packages, codename, runWithSudo)
  }

  /** One pip call as the caller makes it. */
  datatype PipRequest = PipRequest(packages: seq<string>, codename: string, runWithSudo: Option<bool>)

  /** Issues `reqs` in order against the shared command line, starting from
      `start`; yields the final command line and every command run. */
  function RunPipSession(start: PipCommandLine, reqs: seq<PipRequest>): (r: (PipCommandLine, seq<Cmd>))
    ensures |r.1| == |reqs|
    decreases |reqs|
  {
    if |reqs| == 0 then (start, [])
    else
      var (line, cmds) := RunPipSession(start, reqs[..|reqs| - 1]);
      var last := reqs[|reqs| - 1];
      var call := RunPython3PipInstall(line, last.packages, last.codename, last.runWithSudo);
      (call.commandLine, cmds + [call.invocation])
  }

  /** Some request among the first `n` names a legacy codename. */
  ghost predicate LegacySeen(reqs: seq<PipRequest>, n: int) {
    exists j :: 0 <= j < n && j < |reqs| && IsLegacyCodename(reqs[j].codename)
  }

  /** The binary a pip command runs, looking through `sudo`. */
  function InstallerBinary(c: Cmd, sudo: bool): string
    requires sudo ==> |c.args| > 0
  {
    if sudo then c.args[0] else c.program
  }

  /** A call runs the binary it leaves in the command line. */
  lemma CallRunsItsBinary(commandLine: PipCommandLine, packages: seq<string>,
                          codename: string, runWithSudo: Option<bool>)
    ensures var r := RunPython3PipInstall(commandLine, packages, codename, runWithSudo);
            |r.invocation.args| > 0 &&
            InstallerBinary(r.invocation, SudoEnabled(runWithSudo)) == r.commandLine[0]
  {
  }

  /** The installer binary call `k` of a session is expected to run. */
  ghost function ExpectedBinary(reqs: seq<PipRequest>, k: int): string {
    if LegacySeen(reqs, k + 1) then "pip" else "pip3"
  }

  /** Whether a legacy codename was seen depends only on the requests seen. */
  lemma LegacySeenPrefix(reqs: seq<PipRequest>, n: nat, k: int)
    requires n <= |reqs| && k <= n
    ensures LegacySeen(reqs[..n], k) == LegacySeen(reqs, k)
  {
    if LegacySeen(reqs, k) {
      var j :| 0 <= j < k && j < |reqs| && IsLegacyCodename(reqs[j].codename);
      assert reqs[..n][j] == reqs[j];
    }
  }

  /** A session's last call starts from the command line the earlier calls
      left behind. */
  lemma SessionStep(start: PipCommandLine, reqs: seq<PipRequest>)
    requires |reqs| > 0
    ensures var n := |reqs| - 1;
            RunPipSession(start, reqs).0
            == RunPython3PipInstall(RunPipSession(start, reqs[..n]).0, reqs[n].packages,
                                    reqs[n].codename, reqs[n].runWithSudo).commandLine
  {
  }

  /** A legacy codename is seen among the first `n + 1` requests exactly when
      it is seen among the first `n` or request `n` names one. */
  lemma LegacySeenStep(reqs: seq<PipRequest>, n: nat)
    requires n < |reqs|
    ensures LegacySeen(reqs, n + 1) <==> LegacySeen(reqs, n) || IsLegacyCodename(reqs[n].codename)
  {
    if IsLegacyCodename(reqs[n].codename) {
      assert LegacySeen(reqs, n + 1);
    }
  }

  /** The command line a session leaves behind, from the initial one: the
      binary is `pip` once any request named a legacy codename, `pip3`
      otherwise, and `install --upgrade` never moves. */
  lemma {:induction false} SessionCommandLine(reqs: seq<PipRequest>)
    ensures RunPipSession(InitialPipCommandLine, reqs).0
         == [ExpectedBinary(reqs, |reqs| - 1), "install", "--upgrade"]
    decreases |reqs|
  {
    if |reqs| > 0 {
      var n := |reqs| - 1;
      SessionCommandLine(reqs[..n]);
      LegacySeenPrefix(reqs, n, n);
      LegacySeenStep(reqs, n);
      SessionStep(InitialPipCommandLine, reqs);
    }
  }

  /** The binary slot is sticky: from the initial command line, call `k`
      runs `pip` exactly when some call up to and including `k` named a
      legacy codename, and `pip3` otherwise. */
  lemma {:induction false} StickyInstallerBinary(reqs: seq<PipRequest>)
    ensures forall k :: 0 <= k < |reqs| ==>
              var c := RunPipSession(InitialPipCommandLine, reqs).1[k];
              |c.args| > 0 &&
              InstallerBinary(c, SudoEnabled(reqs[k].runWithSudo)) == ExpectedBinary(reqs, k)
    decreases |reqs|
  {
    if |reqs| > 0 {
      var n := |reqs| - 1;
      var prefix := reqs[..n];
      StickyInstallerBinary(prefix);
      SessionCommandLine(reqs);
      var cmds := RunPipSession(InitialPipCommandLine, prefix).1;
      var all := RunPipSession(InitialPipCommandLine, reqs).1;
      assert all[..n] == cmds;
      forall k | 0 <= k < n
        ensures |all[k].args| > 0
        ensures InstallerBinary(all[k], SudoEnabled(reqs[k].runWithSudo)) == ExpectedBinary(reqs, k)
      {
        LegacySeenPrefix(reqs, n, k + 1);
        assert all[k] == cmds[k];
        assert prefix[k] == reqs[k];
      }
    }
  }
}
