/** The one-time environment setup: prerequisites, development packages
    and project dependencies, a verifying compile and the fatal 300-line
    limit, with an error counter deciding where it halts. The checks it
    shares with the release tooling and the developer pipeline are
    modelled there; main is taken over their verdicts. */
module InitEnvironment {
  import opened Base
  import ChecksPrereqs

  /** `gh auth status`, issued with no timeout here. */
  const GhAuthCmd: seq<string> := ["gh", "auth", "status"]

  /** check_gh_cli as the setup script has it: it probes the login only
      when gh is on PATH and passes whatever the probe says. */
  function CheckGhCli(ghOnPath: bool): (r: Checked)
    ensures r.ok
    ensures r.trace == (if ghOnPath then [GhAuthCmd] else [])
  {
    if !ghOnPath then Checked(true, []) else Checked(true, [GhAuthCmd])
  }

  /** What each check of main reports. check_node may raise ValueError on
      an unparsable major version, which ends main. */
  datatype InitOutcomes = InitOutcomes(
    node: Py<bool>, npm: bool, git: bool,
    globalNpm: bool, extensions: bool, nodeModules: bool,
    compile: bool, lineLimits: bool)

  /** The exit status of main (or the exception it raises) and the checks
      it called, in order. */
  datatype InitRun = InitRun(exit: Py<int>, calls: seq<string>)

  const PrereqCalls: seq<string> :=
    ["check_node", "check_npm", "check_git", "check_gh_cli", "check_vscode_cli"]
  const SetupCalls: seq<string> :=
    ["check_global_npm_packages", "check_vscode_extensions", "check_node_modules"]

  /** The three blocking prerequisites passed (node did not raise). */
  predicate PrereqsPass(o: InitOutcomes) {
    o.node == Return(true) && o.npm && o.git
  }

  predicate SetupPasses(o: InitOutcomes) {
    o.globalNpm && o.extensions && o.nodeModules
  }

  /** What main does: the five prerequisite checks all run (only node,
      npm and git count), then any counted failure stops with 1; the three
      setup checks all run, then any failure stops with 1; a failed
      compile stops with 1 at once; a line-limit violation ends with 1. */
  function InitPipeline(o: InitOutcomes): InitRun {
    if o.node.Raise? then InitRun(Raise(o.node.exception), ["check_node"])
    else if !PrereqsPass(o) then InitRun(Return(1), PrereqCalls)
    else if !SetupPasses(o) then InitRun(Return(1), PrereqCalls + SetupCalls)
    else if !o.compile then InitRun(Return(1), PrereqCalls + SetupCalls + ["verify_compile"])
    else InitRun(Return(if o.lineLimits then 0 else 1),
                 PrereqCalls + SetupCalls + ["verify_compile", "check_file_line_limits"])
  }

  /** main: the checks in order, an error counter, and the halting points. */
  method InitMain(o: InitOutcomes) returns (r: InitRun)
    ensures r == InitPipeline(o)
  {
    var errors := 0;
    var calls := ["check_node"];
    if o.node.Raise? {
      return InitRun(Raise(o.node.exception), calls);
    }
    if !o.node.value { errors := errors + 1; }
    calls := calls + ["check_npm"];
    if !o.npm { errors := errors + 1; }
    calls := calls + ["check_git"];
    if !o.git { errors := errors + 1; }
    calls := calls + ["check_gh_cli", "check_vscode_cli"];
    assert calls == PrereqCalls;
    if errors > 0 {
      return InitRun(Return(1), calls);
    }
    calls := calls + ["check_global_npm_packages"];
    if !o.globalNpm { errors := errors + 1; }
    calls := calls + ["check_vscode_extensions"];
    if !o.extensions { errors := errors + 1; }
    calls := calls + ["check_node_modules"];
    if !o.nodeModules { errors := errors + 1; }
    assert calls == PrereqCalls + SetupCalls;
    if errors > 0 {
      return InitRun(Return(1), calls);
    }
    calls := calls + ["verify_compile"];
    if !o.compile {
      return InitRun(Return(1), calls);
    }
    calls := calls + ["check_file_line_limits"];
    if !o.lineLimits { errors := errors + 1; }
    if errors > 0 {
      return InitRun(Return(1), calls);
    }
    return InitRun(Return(0), calls);
  }

  // ---------------------------------------------------------------------
  // Properties

  /** Unlike the release tooling's check, the setup script's gh check never
      blocks: not even when gh is missing, which blocks there. */
  lemma GhCliNeverBlocksHere(ghOnPath: bool, auth: ChecksPrereqs.AuthProbe)
    ensures CheckGhCli(ghOnPath).ok
    ensures !ChecksPrereqs.CheckGhCli(false, auth) && CheckGhCli(false).ok
  {
    ChecksPrereqs.GhCliBlocks(auth);
  }

  /** main returns 0 exactly when every counted check passed, and 1 on any
      other outcome that does not raise. */
  lemma InitSucceedsIffAllPass(o: InitOutcomes)
    ensures InitPipeline(o).exit == Return(0) <==>
      PrereqsPass(o) && SetupPasses(o) && o.compile && o.lineLimits
    ensures o.node.Return? ==> InitPipeline(o).exit.Return? && InitPipeline(o).exit.value in {0, 1}
  {
  }

  /** An unparsable Node.js version ends main before any other check. */
  lemma NodeRaiseEndsMain(o: InitOutcomes)
    requires o.node.Raise?
    ensures InitPipeline(o).exit.Raise? && InitPipeline(o).calls == ["check_node"]
  {
  }

  /** When check_node returns, all five prerequisite checks run, whatever
      the earlier ones reported; the gh and code checks never decide. */
  lemma PrereqsAllRun(o: InitOutcomes)
    requires o.node.Return?
    ensures |InitPipeline(o).calls| >= 5 && InitPipeline(o).calls[..5] == PrereqCalls
    ensures InitPipeline(o).exit == Return(1) <==>
      !PrereqsPass(o) || !SetupPasses(o) || !o.compile || !o.lineLimits
  {
    var calls := InitPipeline(o).calls;
    assert calls[..5] == PrereqCalls;
  }

  /** Once the prerequisites pass, all three setup checks run even when an
      earlier one failed, and then any failure stops main. */
  lemma SetupAllRun(o: InitOutcomes)
    requires PrereqsPass(o)
    ensures var calls := InitPipeline(o).calls;
      |calls| >= 8 && calls[5..8] == SetupCalls
    ensures !SetupPasses(o) ==> InitPipeline(o) == InitRun(Return(1), PrereqCalls + SetupCalls)
  {
    var calls := InitPipeline(o).calls;
    assert calls[5..8] == SetupCalls;
  }

  /** A failed compile stops main at once: the line limits are not checked. */
  lemma CompileFailureHalts(o: InitOutcomes)
    requires PrereqsPass(o) && SetupPasses(o) && !o.compile
    ensures InitPipeline(o).exit == Return(1)
    ensures "check_file_line_limits" !in InitPipeline(o).calls
  {
  }

  /** A line-limit violation is fatal even when everything else passed. */
  lemma LineLimitsFatal(o: InitOutcomes)
    requires PrereqsPass(o) && SetupPasses(o) && o.compile && !o.lineLimits
    ensures InitPipeline(o).exit == Return(1)
    ensures InitPipeline(o).calls[|InitPipeline(o).calls| - 1] == "check_file_line_limits"
  {
  }
}
