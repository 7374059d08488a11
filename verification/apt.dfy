/** The APT side of provisioning: the base package table, the per-codename
    overrides, the legacy `python3` -> `python` renaming and the
    non-interactive `apt-get install` invocation. */
module Apt {
  import opened Strings
  import opened Command
  import opened Distribution

  /** The RTI Connext package; declared by the source but never installed
      by it. */
  const ConnextAptPackageName: string := "rti-connext-dds-5.3.1"

  /** Fixed prefix of every install: two environment assignments that `sudo`
      applies to `apt-get` (no debconf dialogs, RTI licence pre-accepted),
      then `apt-get install` with its non-interactive flags. */
  const AptCommandLine: seq<string> := [
    "DEBIAN_FRONTEND=noninteractive",
    "RTI_NC_LICENSE_ACCEPTED=yes",
    "apt-get",
    "install",
    "--no-install-recommends",
    "--quiet",
    "--yes"
  ]

  /** Distribution-independent system packages. */
  const AptDependencies: seq<string> := [
    "libssl-dev",
    "python3-dev",
    "build-essential",
    "clang",
    "cmake",
    "git",
    "lcov",
    "libc++-dev",
    "libc++abi-dev",
    "python3-catkin-pkg-modules",
    "python3-pip",
    "python3-vcstool",
    "python3-rospkg",
    "python3-rosdep",
    "python3-numpy",
    "wget",
    "libasio-dev",
    "libtinyxml2-dev"
  ]

  /** Extra packages per codename; only the legacy releases have an entry
      (OpenSplice). */
  const DistributionSpecificAptDependencies: map<string, seq<string>> :=
    map["bionic" := ["libopensplice69"], "xenial" := ["libopensplice69"]]

  /** Number of arguments before the package names. */
  const PrefixLength: nat := 7

  /** `sudo DEBIAN_FRONTEND=noninteractive RTI_NC_LICENSE_ACCEPTED=yes
      apt-get install --no-install-recommends --quiet --yes <packages>`. */
  function RunAptGetInstall(packages: seq<string>): (c: Cmd)
    ensures c.program == "sudo"
    ensures |c.args| == PrefixLength + |packages|
    ensures c.args[..PrefixLength] == AptCommandLine
    ensures c.args[PrefixLength..] == packages
  {
    Sudo(AptCommandLine + packages)
  }

  /** The package names an install command asks for (the inverse of
      `RunAptGetInstall`). */
  function InstalledPackages(c: Cmd): (r: seq<string>)
    requires |c.args| >= PrefixLength
    ensures |r| == |c.args| - PrefixLength
  {
    c.args[PrefixLength..]
  }

  /** An install command that cannot block on a prompt: escalated, with both
      environment markers set before `apt-get` and the confirmation flags. */
  predicate IsNonInteractiveInstall(c: Cmd) {
    && c.program == "sudo"
    && |c.args| >= PrefixLength
    && c.args[0] == "DEBIAN_FRONTEND=noninteractive"
    && c.args[1] == "RTI_NC_LICENSE_ACCEPTED=yes"
    && c.args[2] == "apt-get"
    && c.args[3] == "install"
    && "--no-install-recommends" in c.args[4..PrefixLength]
    && "--yes" in c.args[4..PrefixLength]
  }

  /** Every install is non-interactive whatever the packages, and the
      package list is recovered unchanged and in order. */
  lemma InstallIsNonInteractive(packages: seq<string>)
    ensures IsNonInteractiveInstall(RunAptGetInstall(packages))
    ensures InstalledPackages(RunAptGetInstall(packages)) == packages
  {
    var args := RunAptGetInstall(packages).args;
    assert args[4..PrefixLength] == ["--no-install-recommends", "--quiet", "--yes"];
  }

  /** The legacy spelling of one package name: `pkg.replace('python3', 'python')`.
      A name without `python3` is kept; otherwise the first `python3` in it,
      and only that one, loses its `3`. */
  function LegacyName(pkg: string): (r: string)
    ensures !Contains(pkg, "python3") ==> r == pkg
    ensures forall i :: IsFirstOccurrence(pkg, "python3", i) ==> r == pkg[..i] + "python" + pkg[i + 7..]
  {
    ReplaceFirst(pkg, "python3", "python")
  }

  /** `pkgs.map(LegacyName)`: a fresh list, position by position. */
  function LegacyNames(pkgs: seq<string>): (r: seq<string>)
    ensures |r| == |pkgs|
    ensures forall i :: 0 <= i < |pkgs| ==> r[i] == LegacyName(pkgs[i])
  {
    seq(|pkgs|, i requires 0 <= i < |pkgs| => LegacyName(pkgs[i]))
  }

  /** The package list `installAptDependencies` installs for `codename`. */
  function AptPackagesFor(codename: string): (r: seq<string>)
    ensures |r| == |AptDependencies| + (if IsLegacyCodename(codename) then 1 else 0)
    ensures !IsLegacyCodename(codename) ==> r == AptDependencies
  {
    var additional :=
      if codename in DistributionSpecificAptDependencies
      then DistributionSpecificAptDependencies[codename] else [];
    var packages := AptDependencies + additional;
    if IsLegacyCodename(codename) then LegacyNames(packages) else packages
  }

  /** `installAptDependencies(installConnext, codename)`. */
  function InstallAptDependencies(installConnext: bool, codename: string): (c: Cmd)
    ensures IsNonInteractiveInstall(c)
    ensures InstalledPackages(c) == AptPackagesFor(codename)
  {
    InstallIsNonInteractive(AptPackagesFor(codename));
    RunAptGetInstall(AptPackagesFor(codename))
  }

  /** A name without a `3` has nothing to rename. */
  lemma LegacyNameKeepsPlainName(pkg: string)
    requires '3' !in pkg
    ensures LegacyName(pkg) == pkg
  {
    MissingCharNotContained(pkg, "python3", '3');
  }

  /** A `python3-` package becomes the `python-` package of the same name. */
  lemma LegacyNameRenamesPrefix(pkg: string)
    requires |pkg| >= 7 && pkg[..7] == "python3"
    ensures LegacyName(pkg) == "python" + pkg[7..]
  {
    ReplaceFirstAtStart(pkg, "python3", "python");
  }

  /** Any codename other than `bionic` and `xenial` (unknown and empty ones
      included) gets exactly the base list: no override, no renaming. */
  lemma NonLegacyGetsBaseList(codename: string)
    requires !IsLegacyCodename(codename)
    ensures AptPackagesFor(codename) == AptDependencies
  {
  }

  /** A legacy codename gets the base list plus OpenSplice, renamed element
      by element, so each position comes from the same position of the
      input. */
  lemma LegacyComposition(codename: string)
    requires IsLegacyCodename(codename)
    ensures AptPackagesFor(codename) == LegacyNames(AptDependencies + ["libopensplice69"])
    ensures |AptPackagesFor(codename)| == |AptDependencies| + 1 == 19
  {
  }

  /** A name that contains no `3` at all or starts with `python3`. */
  predicate HasSimpleInterpreterToken(pkg: string) {
    '3' !in pkg || (|pkg| >= 7 && pkg[..7] == "python3")
  }

  /** Renaming stated without a substring search, for names of that shape:
      a name with a `3` loses the `3` of its `python3` prefix. */
  function RenamePrefix(pkg: string): string {
    if '3' !in pkg || |pkg| < 7 then pkg else "python" + pkg[7..]
  }

  /** `pkgs.map(RenamePrefix)`. */
  function RenamePrefixes(pkgs: seq<string>): (r: seq<string>)
    ensures |r| == |pkgs|
  {
    seq(|pkgs|, i requires 0 <= i < |pkgs| => RenamePrefix(pkgs[i]))
  }

  /** On such names the search-based rename and the prefix rename agree. */
  lemma LegacyNamesByPrefix(pkgs: seq<string>)
    requires forall i :: 0 <= i < |pkgs| ==> HasSimpleInterpreterToken(pkgs[i])
    ensures LegacyNames(pkgs) == RenamePrefixes(pkgs)
  {
    forall i | 0 <= i < |pkgs|
      ensures LegacyNames(pkgs)[i] == RenamePrefixes(pkgs)[i]
    {
      if '3' in pkgs[i] {
        LegacyNameRenamesPrefix(pkgs[i]);
      } else {
        LegacyNameKeepsPlainName(pkgs[i]);
      }
    }
  }

  /** Every name of the legacy input list has the simple shape. */
  lemma LegacyInputIsSimple()
    ensures forall i :: 0 <= i < |AptDependencies + ["libopensplice69"]| ==>
      HasSimpleInterpreterToken((AptDependencies + ["libopensplice69"])[i])
  {
  }

  /** On the legacy codenames the installed list is the base list plus
      OpenSplice with the `3` dropped from every `python3-` prefix. */
  lemma LegacyPackagesByPrefix(codename: string)
    requires IsLegacyCodename(codename)
    ensures AptPackagesFor(codename) == RenamePrefixes(AptDependencies + ["libopensplice69"])
  {
    LegacyComposition(codename);
    LegacyInputIsSimple();
    LegacyNamesByPrefix(AptDependencies + ["libopensplice69"]);
  }

  /** The legacy releases get `python-pip` where the base list has
      `python3-pip` (the renaming the release naming requires). */
  lemma LegacyRenamesPip(codename: string)
    requires IsLegacyCodename(codename)
    ensures AptPackagesFor(codename)[10] == "python-pip"
  {
    LegacyComposition(codename);
    LegacyNameRenamesPrefix("python3-pip");
  }

  /** OpenSplice is appended last, under its own name. */
  lemma LegacyAppendsOpenSplice(codename: string)
    requires IsLegacyCodename(codename)
    ensures AptPackagesFor(codename)[18] == "libopensplice69"
  {
    LegacyComposition(codename);
    LegacyNameKeepsPlainName("libopensplice69");
  }

  /** No base package is dropped: for every codename, position `i` of the
      installed list holds base package `i` itself or its legacy rename. */
  lemma NoBasePackageDropped(codename: string)
    ensures |AptPackagesFor(codename)| >= |AptDependencies|
    ensures forall i :: 0 <= i < |AptDependencies| ==>
      AptPackagesFor(codename)[i] in {AptDependencies[i], LegacyName(AptDependencies[i])}
  {
    if IsLegacyCodename(codename) {
      LegacyComposition(codename);
    }
  }

  /** OpenSplice is installed exactly for the legacy codenames. */
  lemma OpenSpliceIffLegacy(codename: string)
    ensures "libopensplice69" in AptPackagesFor(codename) <==> IsLegacyCodename(codename)
  {
    if IsLegacyCodename(codename) {
      LegacyAppendsOpenSplice(codename);
    }
  }

  /** The Connext package name has a `3` that is not part of a `python3`
      prefix. */
  lemma ConnextIsNotSimple()
    ensures !HasSimpleInterpreterToken(ConnextAptPackageName)
    ensures forall pkg :: HasSimpleInterpreterToken(pkg) ==> RenamePrefix(pkg) != ConnextAptPackageName
  {
    assert ConnextAptPackageName[18] == '3';
    assert ConnextAptPackageName[0] == 'r';
    forall pkg | HasSimpleInterpreterToken(pkg)
      ensures RenamePrefix(pkg) != ConnextAptPackageName
    {
      if '3' in pkg && |pkg| >= 7 {
        assert RenamePrefix(pkg)[0] == 'p';
      }
    }
  }

  /** The `installConnext` flag changes nothing, and the Connext package is
      never among the installed names. */
  lemma ConnextNeverInstalled(installConnext: bool, codename: string)
    ensures InstallAptDependencies(installConnext, codename) == InstallAptDependencies(!installConnext, codename)
    ensures ConnextAptPackageName !in InstalledPackages(InstallAptDependencies(installConnext, codename))
  {
    var input := AptDependencies + ["libopensplice69"];
    LegacyInputIsSimple();
    ConnextIsNotSimple();
    var r := AptPackagesFor(codename);
    if IsLegacyCodename(codename) {
      LegacyPackagesByPrefix(codename);
      assert forall i :: 0 <= i < |r| ==> r[i] == RenamePrefix(input[i]);
    } else {
      assert forall i :: 0 <= i < |r| ==> r[i] == input[i];
    }
  }
}
