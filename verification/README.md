# setup-ros provisioning, modelled in Dafny

This project models the part of the `setup-ros` GitHub Action that builds the
commands it runs to provision an Ubuntu worker for ROS. It covers three parts:

- **APT module.** It composes the system package list for a distribution
  codename: a base list, plus OpenSplice on `bionic` and `xenial`. On those two
  legacy releases it renames `python3` to `python`. It wraps the list in a
  non-interactive `sudo apt-get install` command that always carries
  `DEBIAN_FRONTEND=noninteractive` and `RTI_NC_LICENSE_ACCEPTED=yes`.
- **pip module.** It builds `<binary> install --upgrade <packages>`, with or
  without `sudo`. The binary is kept in a module-level command line that is
  overwritten on every call. A legacy codename sets it to `pip`, and from then
  on it stays `pip`. The model passes that command line in and returns it
  explicitly, so the source's shared state becomes a state machine.
- **`runLinux`.** It is a trace generator: a pure function from what the run
  learns from its environment to the ordered actions it takes. The inputs are
  whether `sudo` exists, the two action inputs, the probed codename, the
  workspace directory and the required ROS distributions. `StepOf` renders
  each action to the concrete command, file write or variable export it
  performs.

Files:

| file | module | contents |
|---|---|---|
| `wrappers.dfy` | `Wrappers` | `Option`, for omitted JavaScript parameters |
| `strings.dfy` | `Strings` | substring search, and JavaScript `replace` with a string pattern and a replacement without `$`, which rewrites the first occurrence only |
| `command.dfy` | `Command` | `Cmd(program, args)`, `sudo` wrapping |
| `distribution.dfy` | `Distribution` | the legacy-codename test |
| `apt.ts` → `apt.dfy` | `Apt` | package tables, list composition, `runAptGetInstall`, `installAptDependencies` |
| `pip.ts` → `pip.dfy` | `Pip` | the pip package table, the shared command line, `runPython3PipInstall`, `installPython3Dependencies`, sessions of several calls |
| `setup-ros-linux.ts` → `setup_ros_linux.dfy` | `SetupRosLinux` | actions, `StepOf`, the run, its layout and its ordering properties |

The run is
`EnsureSudo ++ ClockAndLocale ++ Repositories ++ Installers ++ RosdepSetup ++ InstallRosDistributions`.
`Trace` builds this sequence and `RunLinux` (src/setup-ros-linux.ts:114-207)
applies it to the run's inputs; neither carries a contract of its own.
`TraceLayout` proves where each group sits. Every property of the run is then
derived from the positions of the groups, through small generic lemmas about
a group at an offset (`GroupLacks`, `GroupOnlyAt`, `GroupEscalated`).

## Model

| member | source | states |
|---|---|---|
| `Apt.RunAptGetInstall` | src/package_manager/apt.ts:61-63 | The command is `sudo` with the fixed seven-argument prefix, followed by exactly the given packages in their order |
| `Apt.InstallIsNonInteractive` | src/package_manager/apt.ts:5-13 | For every package list, the install is escalated, sets both environment markers before `apt-get install`, and passes `--no-install-recommends` and `--yes`; the package list is recovered unchanged from the command |
| `Apt.InstallAptDependencies` | src/package_manager/apt.ts:70-79 | The dependency install is non-interactive and installs exactly the list composed for the codename |
| `Apt.AptPackagesFor` | src/package_manager/apt.ts:71-77 | The list has one entry more than the 18-entry base list on `bionic` and `xenial` and is exactly the base list on every other codename; `Apt.NoBasePackageDropped`, `Apt.OpenSpliceIffLegacy` and `Apt.LegacyPackagesByPrefix` state its contents |
| `Apt.LegacyName` | src/package_manager/apt.ts:76 | A name without `python3` is unchanged; otherwise the first occurrence of `python3`, and only it, becomes `python` |
| `Apt.LegacyNames` | src/package_manager/apt.ts:76 | The rename keeps the length, and element `i` of the output is the rename of element `i` of the input |
| `Apt.LegacyNameKeepsPlainName` | src/package_manager/apt.ts:76 | A name without `python3` (no `3` at all, e.g. `libopensplice69`, `wget`) is unchanged |
| `Apt.LegacyNameRenamesPrefix` | src/package_manager/apt.ts:76 | A name that starts with `python3` becomes `python` followed by the rest of the name |
| `Apt.NonLegacyGetsBaseList` | src/package_manager/apt.ts:70-78 | Every codename other than `bionic` and `xenial`, including unknown and empty ones, gets exactly the 18-entry base list |
| `Apt.LegacyComposition` | src/package_manager/apt.ts:71-77 | A legacy codename gets the base list plus `libopensplice69`, renamed element by element; its length is 19 |
| `Apt.LegacyInputIsSimple` | src/package_manager/apt.ts:15-46 | Every name in the legacy input list either has no `3` or starts with `python3` |
| `Apt.LegacyNamesByPrefix` | src/package_manager/apt.ts:76 | On names of that shape, the search-based first-occurrence rename agrees with an independent prefix rename |
| `Apt.LegacyPackagesByPrefix` | src/package_manager/apt.ts:71-77 | On legacy codenames, the composed list is the base list plus OpenSplice, with the `3` dropped from every `python3` prefix |
| `Apt.LegacyRenamesPip` | src/package_manager/apt.ts:75-76 | Legacy codenames install `python-pip` where the base list has `python3-pip` |
| `Apt.LegacyAppendsOpenSplice` | src/package_manager/apt.ts:37-46 | OpenSplice is appended last, under its own name |
| `Apt.NoBasePackageDropped` | src/package_manager/apt.ts:71-77 | For every codename, position `i` of the composed list holds base package `i` or its legacy rename, so no base package is dropped |
| `Apt.OpenSpliceIffLegacy` | src/package_manager/apt.ts:72-74 | `libopensplice69` is installed if and only if the codename is `bionic` or `xenial` |
| `Apt.ConnextIsNotSimple` | src/package_manager/apt.ts:3 | The Connext package name is not the prefix rename of any name of the simple shape |
| `Apt.ConnextNeverInstalled` | src/package_manager/apt.ts:70-78 | Flipping `installConnext` leaves the install unchanged, and `rti-connext-dds-5.3.1` is never among the installed names |
| `Pip.SudoEnabled` | src/package_manager/pip.ts:51 | An omitted `run_with_sudo` means sudo; a given one is used as is |
| `Pip.RunPython3PipInstall` | src/package_manager/pip.ts:46-59 | Only the binary slot of the shared command line changes. A legacy codename sets it to `pip`, and any other codename leaves it as it was. With sudo the command is `sudo` and the wrapped argument vector is the command line followed by the packages; without sudo it is the same vector run directly |
| `Pip.SudoOnlyWraps` | src/package_manager/pip.ts:53-58 | With and without sudo the same command line is left behind, and the unprivileged command is the escalated one with `sudo` stripped |
| `Pip.OmittedSudoMeansSudo` | src/package_manager/pip.ts:51 | Omitting `run_with_sudo` gives the same call as passing `true` |
| `Pip.CallRunsItsBinary` | src/package_manager/pip.ts:52-57 | A call runs the binary that it leaves in the command line |
| `Pip.InstallPython3Dependencies` | src/package_manager/pip.ts:67-71 | The argument vector is the new three-entry command line followed by the fixed 31-entry list, whole and in order. A legacy codename puts `pip` in the binary slot and keeps the rest; any other codename leaves the command line as it was. With sudo (also when it is omitted) the program is `sudo`; without it, the program is the binary |
| `Pip.RunPipSession` | src/package_manager/pip.ts:37-52 | A session of calls through the shared command line issues one command per call; `Pip.SessionCommandLine` and `Pip.StickyInstallerBinary` state which binary each runs |
| `Pip.SessionCommandLine` | src/package_manager/pip.ts:37-52 | Starting from `pip3 install --upgrade`, after any sequence of calls the binary is `pip` if any call named a legacy codename and `pip3` otherwise; `install` and `--upgrade` never move |
| `Pip.StickyInstallerBinary` | src/package_manager/pip.ts:52-57 | Call `k` of a session runs `pip` exactly when some call up to and including `k` named a legacy codename; otherwise it runs `pip3` |
| `SetupRosLinux.KeyPathsDistinct` | src/setup-ros-linux.ts:162-166 | The two signing keys are saved under different file names in the workspace |
| `SetupRosLinux.Ros2SourceUrl` | src/setup-ros-linux.ts:176 | The ROS 2 URL is the testing channel if and only if testing is asked for, and the stable channel if and only if it is not |
| `SetupRosLinux.SourceListStepsDistinct` | src/setup-ros-linux.ts:168-183 | Two repository definitions render to the same `sudo bash -c` command if and only if they define the same repository; in particular the testing and stable ROS 2 lines differ |
| `SetupRosLinux.RepositoryUrlsDistinct` | src/setup-ros-linux.ts:168-183 | The three repositories, and the two ROS 2 channels, are served from pairwise different URLs |
| `SetupRosLinux.ListFilesShared` | src/setup-ros-linux.ts:168-183 | Two repositories share a list file if and only if they are the same or both are ROS 2 channels |
| `SetupRosLinux.StepOf` | src/setup-ros-linux.ts:103-205 | An action becomes a file write exactly when it saves a key, captured output exactly when it is the codename probe, and a variable export exactly when it exports `LANG`; every other action runs a command |
| `SetupRosLinux.StepOfEscalation` | src/setup-ros-linux.ts:103-205 | An action runs a command without sudo if and only if it is one of the two bootstrap commands, the codename probe (`bash -c` reading `/etc/lsb-release`), or an installer command that is not escalated |
| `SetupRosLinux.StepOfAptInstall` | src/setup-ros-linux.ts:118-205 | An action runs `apt-get install` if and only if it is the bootstrap `sudo` install, the tool install, the timezone-data install, a distribution install, or an installer command that itself runs `apt-get install`. All of these except the bootstrap install and the installer commands are non-interactive; the bootstrap install is not. For an installer command this depends on the command, and `SetupRosLinux.InstallsFor` and `SetupRosLinux.RunLinuxAptInstalls` show it for the ones a run issues |
| `SetupRosLinux.StepOfAptPackages` | src/setup-ros-linux.ts:142-205 | The tool install names `curl gnupg2 locales lsb-release`, the timezone install names `tzdata`, and a distribution install names `ros-<distro>-ros-base` |
| `SetupRosLinux.TraceLayout` | src/setup-ros-linux.ts:114-207 | Every run has the group layout: a bootstrap pair only when sudo is missing, then clock and locale, repositories, installers, rosdep, and one install per distribution |
| `SetupRosLinux.StepsEscalation` | src/setup-ros-linux.ts:103-129 | A trace that opens with the bootstrap pair exactly when sudo is missing, and runs nothing else unprivileged, renders to steps in which every command without sudo is one of the first two, or the codename probe |
| `SetupRosLinux.LayoutEscalation` | src/setup-ros-linux.ts:103-139 | In every run layout with escalated installer commands, only the bootstrap pair and the codename probe run without sudo, and the probe is the third step after the bootstrap pair |
| `SetupRosLinux.LayoutAptInstalls` | src/setup-ros-linux.ts:118-206 | In every run layout whose APT install is non-interactive and whose pip commands do not run `apt-get install`, every step that runs `apt-get install` is non-interactive, except the bootstrap install, which is not |
| `SetupRosLinux.LayoutUnprivileged` | src/setup-ros-linux.ts:135-206 | With escalated installer commands, no action after the bootstrap pair runs unprivileged |
| `SetupRosLinux.LayoutTimezoneOnlyTwice` | src/setup-ros-linux.ts:135-156 | The timezone is written at exactly two positions of the run |
| `SetupRosLinux.LayoutRosdepInitOnce` | src/setup-ros-linux.ts:201-202 | `rosdep init` occurs at exactly one position of the run |
| `SetupRosLinux.LayoutRos2SourceOnce` | src/setup-ros-linux.ts:173-177 | A ROS 2 repository definition of either channel can occur only at the ROS 2 step of the run |
| `SetupRosLinux.LastIndexOf` | src/setup-ros-linux.ts:185 | The result is -1 or a position holding the action, and no later position holds it |
| `SetupRosLinux.InstallsFor` | src/setup-ros-linux.ts:191-198 | The APT install of a run is non-interactive and names exactly the list composed for the probed codename, and all three installer commands are escalated |
| `SetupRosLinux.InstallsForCodename` | src/setup-ros-linux.ts:191-198 | The installer commands of a run are the non-interactive APT install of the list composed for the probed codename, then `sudo <pip or pip3> install --upgrade pip`, then the same binary installing the fixed pip list, all escalated and with one codename |
| `SetupRosLinux.RunLinuxEscalation` | src/setup-ros-linux.ts:103-139 | Without sudo, the run's first two steps are the unprivileged `apt-get update` and `apt-get install ... sudo`. The codename probe runs without sudo, as the third step after any bootstrap pair. Every other command runs under sudo |
| `SetupRosLinux.RunLinuxTimezoneAndLocale` | src/setup-ros-linux.ts:135-156 | The UTC timezone is written exactly twice, first before the codename probe and again after `locale-gen`; `LANG` is exported between `locale-gen` and the second write |
| `SetupRosLinux.RunLinuxOrdering` | src/setup-ros-linux.ts:160-206 | Both keys are saved and added, and all three repository files are written, before the last index refresh. That refresh is followed directly by the APT install, the pip self-upgrade and the pip dependency install. The stale rosdep list is removed right before the single `rosdep init`, after which come exactly the distribution installs, in order |
| `SetupRosLinux.RunLinuxRos2Channel` | src/setup-ros-linux.ts:132-177 | The ROS 2 testing channel is defined if and only if the input is exactly `true`; the stable channel is defined if and only if it is not |
| `SetupRosLinux.RunLinuxRos2Step` | src/setup-ros-linux.ts:173-177 | The run issues the `sudo bash -c` command that writes the testing-channel line when the input is `true`, and the stable-channel line otherwise |
| `SetupRosLinux.RunLinuxAptInstalls` | src/setup-ros-linux.ts:118-206 | Every step of the run that runs `apt-get install` is a non-interactive install, except the bootstrap `apt-get install ... sudo` when sudo is missing, which is not |
| `SetupRosLinux.InstallConnextIgnored` | src/setup-ros-linux.ts:133-191 | The `install-connext` input does not change the run |
| `SetupRosLinux.NonLegacyInstalls` | src/setup-ros-linux.ts:191-198 | On a non-legacy release, the run installs the base APT list and uses `pip3` |
| `SetupRosLinux.LegacyInstalls` | src/setup-ros-linux.ts:191-198 | On `bionic` or `xenial`, the run installs the renamed list plus OpenSplice and uses `pip`; the APT install stays non-interactive |
| `Strings.IndexOf` | src/package_manager/apt.ts:76 | The search finds a position if and only if the pattern occurs, and the position it finds is the first occurrence |
| `Strings.ReplaceFirst` | src/package_manager/apt.ts:76 | For a replacement without `$`: without the pattern the string is unchanged. Otherwise only the first occurrence is replaced, and the length changes by the difference of the two lengths |
| `Strings.ReplaceFirstAtStart` | src/package_manager/apt.ts:76 | A string that starts with the pattern has that prefix replaced |
| `Command.Unwrap` | src/package_manager/pip.ts:53-57 | Stripping `sudo` gives a command whose argument vector, program first, is the one `sudo` was given |

## Left out

- Running commands. `utils.exec` and the `@actions/exec` runner are not part
  of this model. Their exit codes, error propagation and fail-fast behaviour
  are not modelled, so the trace is every command a run issues when every
  command succeeds.
- `determineDistribCodename`. The bash probe of `/etc/lsb-release` becomes
  the `codename` input, taken exactly as read. The source does not trim it,
  and the model does not either.
- The environment: the `io.which` probe, `core.getInput`,
  `process.env.GITHUB_WORKSPACE` and `utils.getRequiredRosDistributions`
  become fields of `Inputs`. `core.exportVariable` and `fs.writeFileSync`
  become trace steps.
- The signing-key text, which is opaque: only which key goes to which file,
  and where in the run, is modelled.
- Shell semantics inside `bash -c` strings, such as `$(lsb_release -sc)`,
  `|| true` and the redirections. These strings are kept literally and not
  interpreted.
- SetupRosLinux.JoinPath: models `path.join` only for a plain file name
  (an empty directory, or one with or without a trailing `/`). It does not
  model the normalisation of `.`, `..` or repeated separators.
- Strings.ReplaceFirst: requires a replacement without `$`. JavaScript
  `replace` gives `$&`, `` $` ``, `$'` and `$$` a special meaning in the
  replacement, and these patterns are not modelled. The only replacement the
  code passes is `python`.
- An unset `GITHUB_WORKSPACE`. The code casts it to `string`, so
  `path.join` throws at src/setup-ros-linux.ts:162 and the run stops there.
  The model takes the workspace as a string and always continues.
- SetupRosLinux.StepOfAptInstall: states non-interactivity per action only
  for the fixed APT installs. An installer command is an arbitrary command,
  so whether it is non-interactive is stated on the run instead.
- SetupRosLinux.RunLinuxRos2Step: shows that the command for the selected
  channel is issued. The converse, that the command for the other channel is
  never issued, follows from `SetupRosLinux.RunLinuxRos2Channel` on actions
  and `SetupRosLinux.SourceListStepsDistinct` on rendered commands; it is not
  stated as one lemma about the rendered run.
- JavaScript prototype lookups in `distributionSpecificAptDependencies[codename]`.
  For example, the codename `constructor` would pick up an inherited property.
  The table is modelled as a map with only the keys `bionic` and `xenial`.
- Asynchronous scheduling. Every `await` completes before the next step, so
  the trace is strictly sequential.
- Mutation of the shared tables. `concat` and `map` return fresh arrays, and
  in the model all values are immutable, so the base tables cannot change.

## Behaviour of the code worth noting

- src/package_manager/apt.ts:70: `installConnext` is accepted but never
  read, so the Connext package is never installed
  (`Apt.ConnextNeverInstalled`, `SetupRosLinux.InstallConnextIgnored`).
- src/package_manager/apt.ts:76: the legacy rename is JavaScript `replace`
  with a string pattern, so it rewrites only the first `python3` in each name
  (`Apt.LegacyName`).
- src/setup-ros-linux.ts:162-166: exactly two signing keys are saved and
  added, `ros.key` and `qcr.key` (`SetupRosLinux.KeyPathsDistinct`).
- src/setup-ros-linux.ts:201: the stale rosdep list is removed by a
  `bash -c` command ending in `|| true`, kept literally as the command string.
- src/package_manager/pip.ts:37-52: the pip binary slot is module-level
  state. In a process that made an earlier legacy call it stays `pip`
  (`Pip.StickyInstallerBinary`). `runLinux` makes both of its pip calls with
  one codename, starting from the command line the module is loaded with.
