/** The local build: dependencies, an optional compile, packaging into a
    .vsix, then an offer to install it through the `code` CLI. main keeps
    the seconds of each finished step and returns 1 at the first failure. */
module BuildAndInstall {
  import opened Base
  import opened Text
  import opened Display
  import ChecksProject
  import Dev

  const NpmInstallCmd: seq<string> := ChecksProject.NpmInstallCmd
  const CompileCmd: seq<string> := ["npm", "run", "compile"]
  const PackageCmd: seq<string> := ["npx", "@vscode/vsce", "package", "--no-dependencies"]

  function InstallCmd(vsix: string): seq<string> {
    ["code", "--install-extension", vsix]
  }

  /** step_dependencies: an existing node_modules passes; otherwise
      `npm install` decides. package.json is not looked at. */
  function StepDependencies(nodeModules: bool, run: Runner): (r: Checked)
    ensures nodeModules ==> r == Checked(true, [])
    ensures !nodeModules ==> r.trace == [NpmInstallCmd] && (r.ok <==> run(NpmInstallCmd).returnCode == 0)
  {
    if nodeModules then Checked(true, [])
    else Checked(run(NpmInstallCmd).returnCode == 0, [NpmInstallCmd])
  }

  /** step_compile: `npm run compile` exits 0. */
  function StepCompile(run: Runner): (r: Checked)
    ensures r.trace == [CompileCmd] && (r.ok <==> run(CompileCmd).returnCode == 0)
  {
    Checked(run(CompileCmd).returnCode == 0, [CompileCmd])
  }

  /** step_package: vsce must exit 0, and then the newest .vsix in the
      project root is the result (vsixByAge lists them oldest first). */
  function StepPackage(run: Runner, vsixByAge: seq<string>): (r: Option<string>)
    ensures r.Some? <==> run(PackageCmd).returnCode == 0 && vsixByAge != []
    ensures r.Some? ==> r.value == vsixByAge[|vsixByAge| - 1]
  {
    if run(PackageCmd).returnCode != 0 then None
    else if vsixByAge == [] then None
    else Some(vsixByAge[|vsixByAge| - 1])
  }

  /** prompt_auto_install: without `code` on PATH, or at end of input, it
      declines without asking further; an answer other than y/yes (after
      stripping, any case) declines; otherwise the install runs, and the
      result is whether it exited 0. */
  function PromptAutoInstall(codeOnPath: bool, reply: Option<string>, vsix: string, run: Runner): (r: Checked)
    ensures r.trace != [] <==> codeOnPath && reply.Some? && IsYes(reply.value)
    ensures r.trace != [] ==> r.trace == [InstallCmd(vsix)]
    ensures r.ok <==> r.trace != [] && run(InstallCmd(vsix)).returnCode == 0
  {
    if !codeOnPath then Checked(false, [])
    else match reply
      case None => Checked(false, [])
      case Some(answer) =>
        if !IsYes(answer) then Checked(false, [])
        else Checked(run(InstallCmd(vsix)).returnCode == 0, [InstallCmd(vsix)])
  }

  /** The switches main reads. */
  datatype BuildFlags = BuildFlags(skipCompile: bool, autoInstall: bool, noLogo: bool)

  /** What main finds on disk: node_modules, `code` on PATH, and the .vsix
      files in the project root from oldest to newest. */
  datatype BuildEnv = BuildEnv(nodeModules: bool, codeOnPath: bool, vsixByAge: seq<string>)

  /** main's exit status, its step_times, the commands it issued and how
      many answers it read from standard input. */
  datatype BuildRun = BuildRun(exit: int, stepTimes: seq<(string, real)>, trace: seq<seq<string>>, read: nat)

  /** Whether main skips the compile: the switch, else the answer to
      "Run compile step?" (default yes); the question is not asked when the
      switch is given. */
  predicate SkipsCompile(f: BuildFlags, stdin: seq<string>) {
    f.skipCompile || !RunCompileAnswer(stdin, 0)
  }

  /** The answer to "Run compile step?" read at position pos. */
  predicate RunCompileAnswer(stdin: seq<string>, pos: nat) {
    AskYn(Reply(stdin, pos), true)
  }

  /** A path main can go on with: one was returned, and it is not empty. */
  predicate UsablePath(vsix: Option<string>) {
    vsix.Some? && vsix.value != ""
  }

  /** What main does, up to its report and timing summary. */
  function BuildPipeline(f: BuildFlags, env: BuildEnv, stdin: seq<string>, run: Runner, secs: string -> real): BuildRun {
    var deps := StepDependencies(env.nodeModules, run);
    if !deps.ok then BuildRun(1, [], deps.trace, 0)
    else
      var read := if f.skipCompile then 0 else 1;
      var skip := SkipsCompile(f, stdin);
      var times := [("Dependencies", secs("Dependencies"))];
      var trace := if skip then deps.trace else deps.trace + [CompileCmd];
      if !skip && !StepCompile(run).ok then BuildRun(1, times, trace, read)
      else
        var compiled := ("Compile", if skip then 0.0 else secs("Compile"));
        PackageAndInstall(env, stdin, read, run, secs, times + [compiled], trace)
  }

  /** The end of main: package, then the install offer, whose outcome main
      ignores; the answer, if asked, is read at position pos. */
  function PackageAndInstall(env: BuildEnv, stdin: seq<string>, pos: nat, run: Runner, secs: string -> real,
                             times: seq<(string, real)>, trace: seq<seq<string>>): BuildRun {
    var vsix := StepPackage(run, env.vsixByAge);
    var packaged := trace + [PackageCmd];
    if !UsablePath(vsix) then BuildRun(1, times, packaged, pos)
    else
      var install := PromptAutoInstall(env.codeOnPath, Reply(stdin, pos), vsix.value, run);
      BuildRun(0, times + [("Package", secs("Package"))], packaged + install.trace,
               pos + (if env.codeOnPath then 1 else 0))
  }

  /** main: each step in turn, its seconds appended to step_times once it
      has passed, and 1 at the first failure. */
  method BuildMain(f: BuildFlags, env: BuildEnv, stdin: seq<string>, run: Runner, secs: string -> real)
    returns (r: BuildRun)
    ensures r == BuildPipeline(f, env, stdin, run, secs)
  {
    var pos := 0;
    var deps := StepDependencies(env.nodeModules, run);
    var trace := deps.trace;
    if !deps.ok {
      return BuildRun(1, [], trace, pos);
    }
    var stepTimes := [("Dependencies", secs("Dependencies"))];
    var skipCompile := f.skipCompile;
    if !skipCompile {
      skipCompile := !RunCompileAnswer(stdin, pos);
      pos := pos + 1;
    }
    if skipCompile {
      stepTimes := stepTimes + [("Compile", 0.0)];
    } else {
      var compiled := StepCompile(run);
      trace := trace + compiled.trace;
      if !compiled.ok {
        return BuildRun(1, stepTimes, trace, pos);
      }
      stepTimes := stepTimes + [("Compile", secs("Compile"))];
    }
    r := PackageStage(env, stdin, pos, run, secs, stepTimes, trace);
  }

  /** The end of main: packaging and the install offer. */
  method PackageStage(env: BuildEnv, stdin: seq<string>, pos: nat, run: Runner, secs: string -> real,
                      stepTimes: seq<(string, real)>, trace: seq<seq<string>>) returns (r: BuildRun)
    ensures r == PackageAndInstall(env, stdin, pos, run, secs, stepTimes, trace)
  {
    var vsix := StepPackage(run, env.vsixByAge);
    var commands := trace + [PackageCmd];
    if vsix.None? || vsix.value == "" {
      return BuildRun(1, stepTimes, commands, pos);
    }
    var times := stepTimes + [("Package", secs("Package"))];
    var install := PromptAutoInstall(env.codeOnPath, Reply(stdin, pos), vsix.value, run);
    var read := pos;
    if env.codeOnPath {
      read := read + 1;
    }
    return BuildRun(0, times, commands + install.trace, read);
  }

  // ---------------------------------------------------------------------
  // Properties

  /** prompt_auto_install asks as ask_yn would with a default of no: it
      installs exactly when `code` is there and ask_yn(default False)
      would have said yes. */
  lemma PromptIsAskYnDefaultNo(codeOnPath: bool, reply: Option<string>, vsix: string, run: Runner)
    ensures PromptAutoInstall(codeOnPath, reply, vsix, run).trace != [] <==> codeOnPath && AskYn(reply, false)
  {
    if reply.Some? && Strip(reply.value) == [] {
      assert Normalize(reply.value) == [];
    }
  }

  /** An install that was attempted and failed reports False, the same as
      one that was never attempted. */
  lemma FailedInstallLooksSkipped(reply: string, vsix: string, run: Runner)
    requires IsYes(reply) && run(InstallCmd(vsix)).returnCode != 0
    ensures PromptAutoInstall(true, Some(reply), vsix, run).trace == [InstallCmd(vsix)]
    ensures !PromptAutoInstall(true, Some(reply), vsix, run).ok
  {
  }

  /** With node_modules missing and no package.json, the developer
      pipeline fails without running anything, while the build runs
      `npm install` and lets it decide. */
  lemma DependenciesIgnorePackageJson(run: Runner)
    ensures Dev.CheckNodeModules(false, false, run) == Checked(false, [])
    ensures StepDependencies(false, run).trace == [NpmInstallCmd]
    ensures StepDependencies(false, run).ok <==> run(NpmInstallCmd).returnCode == 0
  {
  }

  /** A dependency failure returns 1 before any step time is recorded or
      any question asked. */
  lemma DependencyFailureRecordsNothing(f: BuildFlags, env: BuildEnv, stdin: seq<string>, run: Runner, secs: string -> real)
    requires !env.nodeModules && run(NpmInstallCmd).returnCode != 0
    ensures BuildPipeline(f, env, stdin, run, secs) == BuildRun(1, [], [NpmInstallCmd], 0)
  {
  }

  /** The switch skips the compile without reading an answer, and a
      skipped compile is recorded with zero seconds and never run. */
  lemma SkippedCompileRecordsZero(f: BuildFlags, env: BuildEnv, stdin: seq<string>, run: Runner, secs: string -> real)
    requires StepDependencies(env.nodeModules, run).ok && SkipsCompile(f, stdin)
    ensures var r := BuildPipeline(f, env, stdin, run, secs);
      && |r.stepTimes| >= 2 && r.stepTimes[1] == ("Compile", 0.0)
      && CompileCmd !in r.trace
      && (f.skipCompile ==> r.read == (if r.exit == 0 && env.codeOnPath then 1 else 0))
  {
  }

  /** A compile that runs and fails returns 1 with only the dependencies'
      time recorded. */
  lemma CompileFailureRecordsOnlyDependencies(f: BuildFlags, env: BuildEnv, stdin: seq<string>, run: Runner, secs: string -> real)
    requires StepDependencies(env.nodeModules, run).ok && !SkipsCompile(f, stdin)
    requires run(CompileCmd).returnCode != 0
    ensures var r := BuildPipeline(f, env, stdin, run, secs);
      r.exit == 1 && r.stepTimes == [("Dependencies", secs("Dependencies"))]
  {
  }

  /** main returns 0 exactly when the dependencies pass, the compile is
      skipped or passes, and packaging yields a path; then step_times names
      the three steps in order. What the install offer does never changes
      the exit status. */
  lemma BuildSucceedsIff(f: BuildFlags, env: BuildEnv, stdin: seq<string>, run: Runner, secs: string -> real)
    ensures var r := BuildPipeline(f, env, stdin, run, secs);
      && (r.exit == 0 <==>
           && StepDependencies(env.nodeModules, run).ok
           && (SkipsCompile(f, stdin) || run(CompileCmd).returnCode == 0)
           && UsablePath(StepPackage(run, env.vsixByAge)))
      && (r.exit == 0 || r.exit == 1)
      && (r.exit == 0 ==> |r.stepTimes| == 3 && r.stepTimes[0].0 == "Dependencies"
                          && r.stepTimes[1].0 == "Compile" && r.stepTimes[2].0 == "Package")
  {
  }

  /** --auto-install changes nothing: the install question is asked either way. */
  lemma AutoInstallFlagIgnored(f: BuildFlags, env: BuildEnv, stdin: seq<string>, run: Runner, secs: string -> real)
    ensures BuildPipeline(f.(autoInstall := true), env, stdin, run, secs)
         == BuildPipeline(f.(autoInstall := false), env, stdin, run, secs)
  {
  }
}
