# Saropa Log Capture release and dev tooling, modelled in Dafny

This project models the decision logic of the Python scripts that build,
check and release the Saropa Log Capture VS Code extension:

- the shared modules under `scripts/modules/`:
  - prerequisite and environment checks;
  - the git-state gate and the version/changelog reconciler;
  - the publish helpers and the report builder;
  - the step recorder, the yes/no prompt and the exit-code table;
- the three entry scripts:
  - `scripts/dev.py`, the developer pipeline;
  - `scripts/init_environment.py`, one-time environment setup;
  - `scripts/build_and_install.py`, a quick local build.

Nothing external is executed in the model. Every subprocess goes through a
fake runner (`Base.Runner`, a function from argument vector to exit status
and output). Each check returns the argument vectors it issued, so a
statement such as "no pull is run" is a statement about that trace.

Other inputs are modelled as follows:

- Files are values (`TextFile`, `Manifest`) plus a writable flag.
- Standard input is the list of lines the user types plus a read position;
  reading past the end stands for EOF and for an interrupt.
- Today's date and elapsed seconds are parameters.
- The three `main` functions are modelled over the outcomes of their
  steps. Each one has a method that builds the run log, step-time list or
  call list step by step, proved equal to a pipeline function. Lemmas then
  state the halting rules of that function.

The modules follow the source files: `Base`, `Text`, `Constants`,
`Display`, `Utils`, `ChecksPrereqs`, `ChecksEnvironment`, `Patterns`
(literal scanners for the two changelog regexes), `ChecksProject`,
`Publish`, `Report`, `Dev`, `InitEnvironment`, `BuildAndInstall`.

`scripts/dev.py` and `scripts/init_environment.py` carry their own copies
of several module functions. Each shared function is modelled once:

- `check_node`, `check_npm`, `check_git`, `check_vscode_cli`,
  `check_global_npm_packages`, `check_vscode_extensions`, `ask_yn`,
  `read_package_version` and `run_step` are the same logic as the module
  versions in `ChecksPrereqs`, `ChecksEnvironment`, `Display` and `Utils`.
- `check_node_modules` and the fatal `check_file_line_limits` of the two
  scripts are the same logic as each other (`scripts/dev.py:382-428`,
  `scripts/init_environment.py:189-258`) and live in `Dev`.
- The two scripts' `check_gh_cli` differs from the module's: it never
  blocks. The setup script's version is `InitEnvironment.CheckGhCli`;
  dev.py's always passes, so its run-log row is a constant pass.

Behaviour of the code that the model keeps as written:

- `_check_if_behind` returns True for diverged histories. Every
  relationship other than "behind" passes without a pull, although the
  docstring says divergence fails.
- `has_unreleased_section` is anchored at line starts, but the
  substitution in `_stamp_changelog` is not. A mid-line
  `## [Unreleased]` is therefore stamped but does not count as a section
  (`ChecksProject.MidLineHeaderNotASection`).
- `ensure_dependencies` runs no install when `package-lock.json` is
  missing and `node_modules` exists.
- The version string "unknown" counts as a validation failure.
- The return codes of `git rev-parse HEAD`, `git add -A`, `git status` and
  the branch query are ignored.
- `dev.py`'s bump re-renders major and minor through `int()` and starts
  from "0.0.0" when the field is missing. `_bump_patch` keeps major and
  minor verbatim. The two agree on canonical versions
  (`Dev.BumpsAgreeOnCanonical`).
- `prompt_auto_install`'s docstring says it returns True when an install
  was attempted. A failed install returns False, like a skipped one
  (`BuildAndInstall.FailedInstallLooksSkipped`).
- `build_and_install.py`'s `step_dependencies` installs whenever
  `node_modules` is absent, even without a `package.json`
  (`BuildAndInstall.DependenciesIgnorePackageJson`).
- `if not vsix_path` rejects an empty path as well as None
  (`BuildAndInstall.UsablePath`). In dev.py's main the package row
  records `vsix_path is not None`, so an empty path would be logged as
  passed and still return 1 (`Dev.EmptyPackagePathFails`). The glob
  behind `step_package` never yields an empty path, and the bump never
  yields an empty version (`Dev.BumpedVersionNonEmpty`).

## Model

| member | source | states |
|---|---|---|
| Constants.ExitCode.Code | scripts/modules/constants.py:39-55 | codes lie in 0..14; 0 exactly for SUCCESS and 14 exactly for USER_CANCELLED |
| Constants.FromCode | scripts/modules/constants.py:39-55 | a status names a category iff it is in 0..14, and that category carries that status |
| Constants.FromCodeRoundTrip | scripts/modules/constants.py:39-55 | reading a category back from its code gives the category |
| Constants.CodesDistinct | scripts/modules/constants.py:39-55 | distinct categories have distinct codes |
| Constants.CodesCover | scripts/modules/constants.py:39-55 | every status 0..14 belongs to some category |
| Constants.CancelNotFailure | scripts/modules/constants.py:55 | USER_CANCELLED's code differs from every failure code; failure codes lie in 1..13 |
| Constants.RequiredListsShape | scripts/modules/constants.py:23-33 | the required extensions and global packages are fixed 3- and 2-element lists without repeats |
| Display.Reply | scripts/modules/display.py:50-56 | input() gives the typed line at the read position, or EOF past the end |
| Display.Hint | scripts/modules/display.py:49 | the hint is "Y/n" when the default is yes and "y/N" otherwise |
| Display.AskYn | scripts/modules/display.py:44-62 | EOF or a blank answer gives the default; any other answer gives whether it strips and lower-cases to "y" or "yes" |
| Display.BlankAnswerIsDefault | scripts/modules/display.py:57-58 | an all-whitespace answer returns the default |
| Display.DefaultIgnoredWhenAnswered | scripts/modules/display.py:57-59 | a non-blank answer decides regardless of the default |
| Display.YesAccepts | scripts/modules/display.py:59 | "y"/"yes" in any case with surrounding spaces accepts, whatever the default |
| Display.OtherAnswerDeclines | scripts/modules/display.py:59 | any other non-blank answer declines even with default yes |
| Display.AnswerCaseInsensitive | scripts/modules/display.py:51-59 | lower-casing the answer never changes the verdict |
| Display.LowerStrip | scripts/modules/display.py:51-53 | stripping and lower-casing commute |
| Utils.RunLog.constructor | scripts/modules/utils.py:56-70 | a results list starts empty |
| Utils.RunLog.RunStep | scripts/modules/utils.py:56-70 | appends exactly one (name, passed, elapsed) entry, earlier entries unchanged, and returns the step's verdict |
| Utils.RunLog.Append | scripts/dev.py:803-806 | appends exactly one entry, as main does directly for the version bump (and the package) |
| Utils.PassedCount | scripts/modules/report.py:25 | the count is at most the log length, and equals it iff every step passed |
| Utils.PassedCountAppend | scripts/modules/report.py:25 | the passed count is additive over concatenated logs |
| Utils.ReadPackageVersion | scripts/modules/utils.py:31-43 | the "version" field verbatim; "unknown" when the file is unreadable, invalid JSON or lacks the field |
| ChecksPrereqs.CheckNode | scripts/modules/checks_prereqs.py:17-34 | non-zero exit gives False; otherwise the major read from stripped, v-less output decides (>= 18); an unparsable major raises ValueError |
| ChecksPrereqs.NodeVersionVerdict | scripts/modules/checks_prereqs.py:28-34 | output "v<major>.<rest>" followed by any trailing whitespace, such as the newline node prints, passes exactly when major >= 18 |
| ChecksPrereqs.NodeMajorOf | scripts/modules/checks_prereqs.py:28-29 | the major read from "v<major>.<rest>" plus trailing whitespace is major |
| ChecksPrereqs.OutputStripped | scripts/modules/checks_prereqs.py:28 | strip() of that output removes exactly the trailing whitespace |
| ChecksPrereqs.NodeSilentRaises | scripts/modules/checks_prereqs.py:28-29 | empty output makes int() raise |
| ChecksPrereqs.VersionProbe | scripts/modules/checks_prereqs.py:37-62 | check_npm and check_git pass iff their `--version` command exits 0 |
| ChecksPrereqs.CheckGhCli | scripts/modules/checks_prereqs.py:65-89 | passes iff gh is on PATH and the auth probe finishes in time with status 0 |
| ChecksPrereqs.GhCliBlocks | scripts/modules/checks_prereqs.py:73-83 | a missing gh or a timed-out probe blocks |
| ChecksPrereqs.CheckVsceAuth | scripts/modules/checks_prereqs.py:92-119 | exit 0 passes; otherwise passes iff lower-cased stderr contains "unknown command" or "not a vsce command" |
| ChecksPrereqs.VsceOldReleaseTolerated | scripts/modules/checks_prereqs.py:109-115 | the old-vsce message anywhere in stderr lets the check pass |
| ChecksPrereqs.VsceSilentFailureBlocks | scripts/modules/checks_prereqs.py:117-119 | any other failure with empty stderr blocks |
| ChecksEnvironment.CheckVscodeCli | scripts/modules/checks_environment.py:21-33 | always passes |
| ChecksEnvironment.Missing | scripts/modules/checks_environment.py:54-61 | the missing items are no more than the required ones |
| ChecksEnvironment.MissingMembers | scripts/modules/checks_environment.py:54-56 | an item is missing iff it is required and not present |
| ChecksEnvironment.MissingOrdered | scripts/modules/checks_environment.py:54-61 | missing items keep list order |
| ChecksEnvironment.NothingPresentMissesAll | scripts/modules/checks_environment.py:54-61 | with nothing present every item is missing, in order |
| ChecksEnvironment.AllPresentMissesNone | scripts/modules/checks_environment.py:54-61 | with everything present nothing is installed |
| ChecksEnvironment.Commands | scripts/modules/checks_environment.py:57-61 | one install command per missing item |
| ChecksEnvironment.CommandsAt | scripts/modules/checks_environment.py:57-61 | the i-th install is for the i-th missing item |
| ChecksEnvironment.AllSucceededMeans | scripts/modules/checks_environment.py:62-68 | the verdict holds iff every issued install exited 0 |
| ChecksEnvironment.InstalledGlobals | scripts/modules/checks_environment.py:43-52 | a failed or unparsable `npm list` gives the empty installed set |
| ChecksEnvironment.InstallMissing | scripts/modules/checks_environment.py:54-68 | installs exactly the missing items in list order, continues after failures, and passes iff every install succeeded |
| ChecksEnvironment.CheckGlobalNpmPackages | scripts/modules/checks_environment.py:36-68 | lists global packages, then installs exactly the missing ones in order; passes iff all those installs succeed |
| ChecksEnvironment.FailedListingInstallsAll | scripts/modules/checks_environment.py:43-52 | a failed or unparsable listing installs both packages |
| ChecksEnvironment.InstalledExtensionsLowered | scripts/modules/checks_environment.py:88 | the ids read from `code --list-extensions` (the stripped, lower-cased listing split with splitlines) are lower-case and hold no line break |
| ChecksEnvironment.CheckVscodeExtensions | scripts/modules/checks_environment.py:71-105 | no `code` or a failed listing passes with no installs; otherwise installs exactly the extensions not listed (case-insensitively) and passes iff all installs succeed |
| ChecksEnvironment.ExtensionCaseIgnored | scripts/modules/checks_environment.py:88-92 | an extension listed in another letter case is not reinstalled |
| Patterns.SubCountZero | scripts/modules/checks_project.py:308-313 | the substitution count is zero iff the pattern matches nowhere |
| Patterns.SubUnchanged | scripts/modules/checks_project.py:308-313 | with no match the text is unchanged |
| Patterns.SubPlacesReplacement | scripts/modules/checks_project.py:308-310 | with a match the replacement occurs in the result |
| Patterns.MatchReplaced | scripts/modules/publish.py:65-70 | a match anywhere makes the count positive |
| Patterns.CurrentHeaderMatches | scripts/modules/publish.py:65 | a header written "## [v] - Current" or "## [v] - current" matches, and the match spans the whole header |
| Patterns.CurrentAt | scripts/modules/publish.py:65 | at any position of any text, the version header followed by " - Current" or " - current" is a match spanning exactly those characters |
| ChecksProject.Preview | scripts/modules/checks_project.py:37-43 | at most 10 changed lines shown, then "... and N-10 more" |
| ChecksProject.CheckWorkingTree | scripts/modules/checks_project.py:21-44 | status failure gives False with no prompt; a clean tree gives True with no prompt; a dirty tree shows the preview and returns the default-no answer |
| ChecksProject.DirtyTreeDefaultsToNo | scripts/modules/checks_project.py:44 | on a dirty tree EOF or a blank answer declines |
| ChecksProject.CheckIfBehind | scripts/modules/checks_project.py:47-77 | always asks HEAD then upstream; runs merge-base iff upstream exists and differs from HEAD; pulls iff in addition merge-base equals HEAD; fails iff that pull fails |
| ChecksProject.NotBehindPasses | scripts/modules/checks_project.py:75-77 | diverged or ahead passes with no pull |
| ChecksProject.CheckRemoteSync | scripts/modules/checks_project.py:80-91 | fetch first; a fetch failure fails and classifies nothing; otherwise the verdict of _check_if_behind |
| ChecksProject.FetchFailureStopsSync | scripts/modules/checks_project.py:87-89 | a failed fetch never reaches rev-parse |
| ChecksProject.EnsureDependencies | scripts/modules/checks_project.py:94-121 | installs iff package.json exists and node_modules is missing or older than package.json per the lock; passes iff package.json exists and any install succeeds |
| ChecksProject.MissingLockNoInstall | scripts/modules/checks_project.py:114-121 | with node_modules present and no lock file nothing is installed |
| ChecksProject.RunNpmInstall | scripts/modules/checks_project.py:124-134 | runs `npm install` once and passes iff it exits 0 |
| ChecksProject.Violations | scripts/modules/checks_project.py:191-201 | at most one message per file |
| ChecksProject.ViolationsEmpty | scripts/modules/checks_project.py:191-211 | no violations iff no .ts file exceeds 300 lines |
| ChecksProject.ViolationsMention | scripts/modules/checks_project.py:193-201 | each message names an over-limit file with its line count |
| ChecksProject.CollectViolations | scripts/modules/checks_project.py:189-201 | the walk collects exactly the violations |
| ChecksProject.CheckFileLineLimits | scripts/modules/checks_project.py:179-211 | the modules' check always passes and reports exactly the violations |
| ChecksProject.BumpPatch | scripts/modules/checks_project.py:242-245 | returns iff the version has three dot-parts and the last parses as an integer |
| ChecksProject.BumpPatchIncrements | scripts/modules/checks_project.py:242-245 | major and minor text kept; patch plus one |
| ChecksProject.BumpedStep | scripts/modules/checks_project.py:242-245 | bumping the k-th bump gives the (k+1)-th |
| ChecksProject.BumpedParts | scripts/modules/checks_project.py:242-245 | the k-th bump keeps major and minor and has patch+k |
| ChecksProject.BumpsClosedForm | scripts/modules/checks_project.py:276-282 | k loop iterations give the closed-form k-th bump |
| ChecksProject.BumpsChange | scripts/modules/checks_project.py:282-284 | one or more bumps always change the version |
| ChecksProject.BumpsDefinedFirst | scripts/modules/checks_project.py:276-282 | any successful bump chain starts from a bumpable version |
| ChecksProject.WritePackageVersion | scripts/modules/checks_project.py:248-266 | succeeds iff the manifest is a readable object and writable; then only "version" changes, to the new value; on failure nothing changes |
| ChecksProject.BumpUntilUntagged | scripts/modules/checks_project.py:275-282 | the loop ends at an untagged version, at a declined prompt, or at an unbumpable version; every passed iteration was tagged and confirmed |
| ChecksProject.BumpOnce | scripts/modules/checks_project.py:276-282 | one iteration stops on an unbumpable version or a declined prompt, else bumps the patch |
| ChecksProject.HeadroomPositive | scripts/modules/checks_project.py:276-282 | a tagged bumped version leaves headroom, so the loop terminates on a finite tag set |
| ChecksProject.EnsureUntaggedVersion | scripts/modules/checks_project.py:269-289 | an untagged result is written only if it changed; a decline returns the tagged version with False and no write; an unbumpable version raises ValueError |
| ChecksProject.UnreleasedSectionFound | scripts/modules/checks_project.py:217-232 | an unreadable changelog has no Unreleased section; a line beginning with "## [Unreleased]" in any letter case, at the start of the file or after a line break, is one |
| ChecksProject.TaggedIffListed | scripts/modules/checks_project.py:235-239 | a version counts as tagged exactly when the listing of the tag "v"+version is non-blank, i.e. when "v"+version is in the tag set |
| ChecksProject.StampChangelog | scripts/modules/checks_project.py:292-323 | succeeds iff readable, writable and a case-insensitive Unreleased header occurs; then every one becomes "## [v] - date"; otherwise the file is untouched |
| ChecksProject.UnreleasedSectionStamps | scripts/modules/checks_project.py:217-232 | a changelog with an Unreleased section can always be stamped |
| ChecksProject.MidLineHeaderNotASection | scripts/modules/checks_project.py:217-232 | a mid-line header is stamped but is not a section |
| ChecksProject.ValidateVersionChangelog | scripts/modules/checks_project.py:326-352 | checks in order version "unknown", Unreleased section, tag conflict, stamp; each failure stops the later steps: any False result leaves the changelog as it was, a tagged result (declined bump) changes nothing, and package.json is either untouched or carries the returned version; success means an untagged version written to package.json and the changelog equal to the stamp of the original |
| Publish.ConfirmPublish | scripts/modules/publish.py:21-44 | publishes only on an explicit y/yes; EOF and blank decline |
| Publish.PublishDefaultsToDecline | scripts/modules/publish.py:41 | EOF or a blank answer declines |
| Publish.FinalizeChangelog | scripts/modules/publish.py:47-83 | succeeds iff readable, writable and a "## [v] - Current/current" header occurs; then every one becomes dated; otherwise the file is untouched |
| Publish.CurrentHeaderFinalized | scripts/modules/publish.py:65-70 | a changelog containing the Current header is finalized and then carries the dated header |
| Publish.BranchName | scripts/modules/publish.py:160-164 | the stripped branch name, or "main" when blank |
| Publish.PushToOrigin | scripts/modules/publish.py:152-173 | queries the branch, then pushes it once; passes iff the push exits 0 |
| Publish.BlankBranchPushesMain | scripts/modules/publish.py:164 | a blank branch name pushes "main" |
| Publish.GitCommitAndPush | scripts/modules/publish.py:123-149 | add and status always run; nothing staged ends there; success means nothing staged or the commit succeeded |
| Publish.CleanTreeNoCommit | scripts/modules/publish.py:131-138 | a clean tree passes with no commit and no push |
| Publish.CommitFailureNoPush | scripts/modules/publish.py:140-147 | a failed commit fails with no push |
| Publish.CommitPushedOnce | scripts/modules/publish.py:140-149 | a successful commit is followed by one branch query and one push, whose status decides |
| Publish.CreateGitTag | scripts/modules/publish.py:176-203 | creates tag "v"+version first; pushes only if that succeeded; passes iff both succeed |
| Publish.VersionHeaderIsSection | scripts/modules/publish.py:251-256 | a version header line also starts a section |
| Publish.Notes | scripts/modules/publish.py:260-261 | the stripped section text, or "Release {version}" when that is empty; never empty |
| Publish.ExtractChangelogSection | scripts/modules/publish.py:233-261 | an unreadable file gives the fallback; otherwise the collected section's notes; never empty |
| Publish.CollectSkipsPreamble | scripts/modules/publish.py:247-250 | lines before the version header are ignored |
| Publish.CollectKeepsBody | scripts/modules/publish.py:251-257 | while collecting, non-header lines are kept in order |
| Publish.SectionBetweenHeaders | scripts/modules/publish.py:247-260 | the section is exactly the lines strictly between the version header and the next "## [" header |
| Publish.LastSectionToEnd | scripts/modules/publish.py:247-260 | the last section runs to the end of the file |
| Publish.RepeatedHeaderSkipped | scripts/modules/publish.py:251-256 | a repeated version header is skipped, not a stop |
| Publish.MissingHeaderFallsBack | scripts/modules/publish.py:244-245 | no version header gives the fallback text |
| Report.BuildReportHeader | scripts/modules/report.py:18-38 | six lines; version line; the results line counts passed and failed = total - passed |
| Report.PassedCountIsSize | scripts/modules/report.py:25 | passed is the number of true flags |
| Report.AllPassedReportsNoFailures | scripts/modules/report.py:34-35 | with no failures the results line omits the failed count |
| Report.FailureReported | scripts/modules/report.py:34 | any failure shows "N passed, M failed" |
| Report.KindNamed | scripts/modules/report.py:27 | publish and analysis reports differ in title and file name |
| Report.StepLines | scripts/modules/report.py:67-71 | one step line per result |
| Report.StepLinesAt | scripts/modules/report.py:67-71 | the i-th step line is for the i-th result |
| Report.StepStatus | scripts/modules/report.py:69 | a step line says PASS iff the step passed, FAIL otherwise |
| Report.StepRowsInOrder | scripts/modules/report.py:41-76 | the report's step rows come last, in run-log order |
| Report.ReleaseLinesOnlyWhenPublishing | scripts/modules/report.py:63-65 | marketplace and release links appear iff publishing |
| Report.AppendStepLines | scripts/modules/report.py:67-71 | the loop appends exactly the step lines |
| Report.SaveReport | scripts/modules/report.py:41-76 | report name by kind; lines are header, artifact, links, step rows; text joined by newlines |
| Dev.CheckNodeModules | scripts/dev.py:382-400 | installs only when package.json exists and node_modules is missing; passes iff package.json exists and node_modules exists or the install succeeds |
| Dev.CheckFileLineLimits | scripts/dev.py:403-428 | fatal variant: passes iff no .ts file is over 300 lines; reports exactly the violations |
| Dev.FirstUnreleasedFrom | scripts/dev.py:443-448 | finds the first line whose strip is "## [Unreleased]", or none |
| Dev.FirstSectionFrom | scripts/dev.py:459-468 | finds the first line starting with "## ", or none |
| Dev.InsertAboveDated | scripts/dev.py:459-470 | the insertion point is never after the freshly dated line |
| Dev.NoUnreleasedNoUpdate | scripts/dev.py:449-451 | no Unreleased line gives no update |
| Dev.UpdateShape | scripts/dev.py:443-470 | the result is two lines longer; lines above the insertion point kept; the new Unreleased section inserted there; the dated line and the rest shifted by two |
| Dev.UpdateInPlace | scripts/dev.py:443-470 | with no earlier section the new section lands directly above the dated header |
| Dev.UpdateReopensUnreleased | scripts/dev.py:459-470 | after the update the first Unreleased line is the inserted one |
| Dev.FirstUnreleasedAt | scripts/dev.py:443-448 | the search finds the first matching index |
| Dev.FirstSectionAt | scripts/dev.py:459-468 | the section search finds the first section index |
| Dev.UpdateChangelog | scripts/dev.py:431-480 | the result equals RolledOver: unreadable, no Unreleased line or unwritable leaves the file and fails; otherwise writes the updated lines |
| Dev.FindUnreleased | scripts/dev.py:443-448 | the loop returns the first Unreleased index, or -1 |
| Dev.FindSection | scripts/dev.py:459-468 | the loop returns the first section index, or the fallback |
| Dev.NextOfPartsIncrements | scripts/dev.py:494-505 | the new version has three parts: the same major and minor numbers and patch plus one |
| Dev.DevNextOfParts | scripts/dev.py:494-505 | a three-number version bumps to int(major).int(minor).(patch+1) |
| Dev.BumpPatchOfParts | scripts/modules/checks_project.py:242-245 | the modules' bump joins major and minor verbatim with patch+1 |
| Dev.BumpsAgreeOnCanonical | scripts/dev.py:494-505 | on canonical versions dev.py's and the modules' bumps agree |
| Dev.MissingVersionStartsAtZero | scripts/dev.py:493 | a missing version field bumps to "0.0.1" |
| Dev.BumpPatchVersion | scripts/dev.py:483-521 | None with no write for an unreadable manifest, a non-three-part or non-numeric version or an unwritable file; otherwise writes the bumped version, leaves the changelog as RolledOver for the new version gives it, and returns the new version even if that update fails |
| Dev.DevMain | scripts/dev.py:745-870 | the run log and exit status built step by step equal the staged pipeline's |
| Dev.RunPrereqs | scripts/dev.py:763-774 | logs five rows; errors iff node, npm or git failed |
| Dev.RunSetup | scripts/dev.py:777-799 | logs the unskipped setup rows; errors iff one of them failed |
| Dev.RunTail | scripts/dev.py:803-870 | logs bump, compile, limits and package rows up to the first failure |
| Dev.PrereqsAllLogged | scripts/dev.py:763-774 | all five prerequisites are logged whatever fails; gh and code always pass |
| Dev.PrereqFailureHalts | scripts/dev.py:772-774 | a node, npm or git failure returns 1 with only the prerequisite rows |
| Dev.SetupRowsPass | scripts/dev.py:777-799 | the setup rows all pass iff the setup stage passes |
| Dev.SetupRunsToTheEnd | scripts/dev.py:777-799 | all setup rows are logged before the stage halts on any failure |
| Dev.TailSucceedsIffAllPassed | scripts/dev.py:803-870 | with no empty bump or path, the later stages exit 0 iff all their rows passed |
| Dev.DevSucceedsIffAllPassed | scripts/dev.py:745-870 | with no empty bump or path, main returns 0 iff every logged step passed, else 1 |
| Dev.SkippedStagesNotLogged | scripts/dev.py:777-814 | skipped global npm, extensions and compile stages add no row |
| Dev.LaterStagesHaltAtFailure | scripts/dev.py:803-835 | past setup, and with no empty bump or path, main returns 1 iff the last logged step failed |
| Dev.EmptyPackagePathFails | scripts/dev.py:831-835 | an empty package path is logged as passed yet main returns 1 |
| Dev.BumpedVersionNonEmpty | scripts/dev.py:505-521 | a successful bump never yields the empty string |
| Dev.AllPassedConcat | scripts/dev.py:745-870 | a log passes iff both its parts do |
| Dev.OmitsConcat | scripts/dev.py:777-814 | a name absent from both parts is absent from the whole log |
| InitEnvironment.CheckGhCli | scripts/init_environment.py:106-118 | always passes; probes auth only when gh is on PATH |
| InitEnvironment.GhCliNeverBlocksHere | scripts/init_environment.py:106-118 | the setup check passes where the modules' check blocks |
| InitEnvironment.InitMain | scripts/init_environment.py:261-311 | the error counter and call list built step by step equal the staged pipeline's |
| InitEnvironment.InitSucceedsIffAllPass | scripts/init_environment.py:261-311 | returns 0 iff node, npm, git, all setup checks, compile and line limits pass; otherwise 1 |
| InitEnvironment.NodeRaiseEndsMain | scripts/init_environment.py:267-268 | a raising check_node ends main after one call |
| InitEnvironment.PrereqsAllRun | scripts/init_environment.py:267-279 | all five prerequisite checks run whatever fails; gh and code never decide |
| InitEnvironment.SetupAllRun | scripts/init_environment.py:281-295 | all three setup checks run, then any failure returns 1 |
| InitEnvironment.CompileFailureHalts | scripts/init_environment.py:297-299 | a compile failure returns 1 before the line limits |
| InitEnvironment.LineLimitsFatal | scripts/init_environment.py:301-307 | a line-limit violation returns 1 |
| BuildAndInstall.StepDependencies | scripts/build_and_install.py:219-232 | existing node_modules passes without commands; otherwise one `npm install` decides |
| BuildAndInstall.DependenciesIgnorePackageJson | scripts/build_and_install.py:219-232 | unlike dev.py, the install runs without checking for package.json |
| BuildAndInstall.StepCompile | scripts/build_and_install.py:235-247 | one `npm run compile`; passes iff it exits 0 |
| BuildAndInstall.StepPackage | scripts/build_and_install.py:250-283 | a path iff packaging exits 0 and a .vsix exists; the most recently modified one |
| BuildAndInstall.PromptAutoInstall | scripts/build_and_install.py:366-404 | installs iff code is on PATH and the stripped answer lower-cases to y/yes; passes iff that install succeeds |
| BuildAndInstall.PromptIsAskYnDefaultNo | scripts/build_and_install.py:385-391 | the answer handling is a yes/no prompt defaulting to no |
| BuildAndInstall.FailedInstallLooksSkipped | scripts/build_and_install.py:397-400 | a failed install returns False, as a skip does |
| BuildAndInstall.BuildMain | scripts/build_and_install.py:442-511 | the step-time list, commands and prompts read, built step by step, equal the staged pipeline's |
| BuildAndInstall.PackageStage | scripts/build_and_install.py:474-505 | packaging, then the install prompt, as the pipeline states |
| BuildAndInstall.DependencyFailureRecordsNothing | scripts/build_and_install.py:457-460 | a dependency failure returns 1 with no step time and no prompt read |
| BuildAndInstall.SkippedCompileRecordsZero | scripts/build_and_install.py:464-468 | a skipped compile records ("Compile", 0.0) and runs no compile; --skip-compile reads no answer |
| BuildAndInstall.CompileFailureRecordsOnlyDependencies | scripts/build_and_install.py:471-477 | a compile failure returns 1 with only the dependency time |
| BuildAndInstall.BuildSucceedsIff | scripts/build_and_install.py:442-511 | returns 0 iff dependencies pass, compile is skipped or passes, and packaging gives a non-empty path; then three step times |
| BuildAndInstall.AutoInstallFlagIgnored | scripts/build_and_install.py:501-505 | --auto-install changes nothing: the prompt runs either way |

## Left out

- ChecksProject.StampChangelog: the dated header is inserted literally, whereas re.subn reads its replacement as a template (a backslash in the version would be unescaped or raise re.error); versions are taken to contain no backslash.
- Subprocess spawning, the Windows shell flag and timeouts are not modelled. Commands are a fake runner; the gh auth timeout is an input. The runner always returns an exit status: on POSIX, `run` starts the program directly, so a missing node, npm, git, npx or code raises FileNotFoundError instead (for example in `check_node`, or in dev.py's `--auto-install` step); that exception is not modelled.
- Terminal output is left out: colours, the logo and banners, headings, install instructions, `print_timing` and `print_success_banner`.
- `elapsed_str` and all wall-clock arithmetic are left out. Elapsed seconds are given as inputs. Report.TotalTime sums them as exact reals; float rounding of that sum and of its formatting is not modelled.
- `datetime.now` is not modelled; today's date is a parameter.
- `argparse` is not modelled; the flags are booleans.
- The two changelog regexes are modelled as exact scanners. Patterns.CurrentHeaderMatches: the lemma covers the single-space spelling only; runs of other whitespace, including line breaks, are matched by the scanner but not stated in a lemma.
- Letter case is folded for ASCII letters only, and `int()` is read over ASCII digits only (Text.ParseInt): the non-ASCII decimal digits Python's `int()` also accepts, such as Arabic-Indic digits, give None here; this affects `check_node`, `_bump_patch` and `bump_patch_version`. `str.lower` on other scripts, and the non-ASCII letters `re.IGNORECASE` also matches (such as the long s against 's'), are not modelled.
- `git tag -l` glob matching is not modelled. The tag set is a finite set of exact names.
- JSON layout is not modelled: key order, indentation and non-object top-level values. Manifest values are strings.
- File writes are modelled as succeeding entirely or not at all. A write that fails halfway is not modelled.
- Line splitting follows `readlines()` on '\n' after universal-newline translation. Other separators that `str.splitlines` honours matter in `check_working_tree`'s preview and in the extension listing of `check_vscode_extensions` (both copies); both use Text.SplitLines, which splits on all of them.
- `os.walk` and line counting are not modelled. Files are given as (path, content) pairs, and skipping `node_modules` is assumed of that input.
- `ensure_dependencies` is not given real timestamps. mtimes are integers.
- `step_package` does not glob or sort by mtime. Its .vsix files arrive already sorted by age, and the KB size text is given.
- `os.path.abspath` of the .vsix is treated as the path itself.
- `step_compile` and `step_test` in scripts/modules/checks_project.py are single command runs outside the named core and are not modelled. Their dev.py and build counterparts are step outcomes or `StepCompile`.
- `publish_marketplace`, `create_github_release`, `step_package` (publish.py) and `_print_gh_troubleshooting` are not modelled. They are command wrappers with no decision logic beyond the exit status.
- scripts/remove_extension.py and scripts/modules/install.py are not modelled. Their substance is file-system deletion and platform openers.
- Dev.DevMain: main is taken over abstract step outcomes (DevOutcomes), not over the check functions. A raising `check_node` and the install and report prompts after packaging are not modelled; dev.py's `save_report` and timing summary are also left out.
- InitEnvironment.InitMain: main is taken over abstract step outcomes (InitOutcomes); `verify_compile` is an outcome.
- BuildAndInstall.BuildMain: `save_report`, the timing summary and the banner are left out; the build report is not modelled.
- No function maps pipeline failures to `ExitCode` values. The three mains return only 0 or 1, and the table is modelled as constants with its properties.
