/** The developer pipeline: prerequisites, development packages, project
    dependencies, a patch-version bump that also rolls the changelog over,
    compile, the fatal 300-line limit and packaging, each recorded in a run
    log. The pipeline is taken over the outcomes of its steps; the bump,
    the changelog rollover, the line limit and the dependency check are
    modelled on their own. */
module Dev {
  import opened Base
  import opened Text
  import opened Patterns
  import opened Utils
  import ChecksProject

  // ---------------------------------------------------------------------
  // Project dependencies

  /** check_node_modules: no package.json blocks; an existing node_modules
      passes without looking further; otherwise `npm install` decides. */
  function CheckNodeModules(packageJson: bool, nodeModules: bool, run: Runner): (r: Checked)
    ensures r.trace != [] <==> packageJson && !nodeModules
    ensures r.trace != [] ==> r.trace == [ChecksProject.NpmInstallCmd]
    ensures r.ok <==> packageJson && (nodeModules || run(ChecksProject.NpmInstallCmd).returnCode == 0)
  {
    if !packageJson then Checked(false, [])
    else if nodeModules then Checked(true, [])
    else Checked(run(ChecksProject.NpmInstallCmd).returnCode == 0, [ChecksProject.NpmInstallCmd])
  }

  // ---------------------------------------------------------------------
  // Line limits

  /** check_file_line_limits, the blocking variant: the same violations as
      the project check, and any of them fails the step. */
  method CheckFileLineLimits(files: seq<ChecksProject.SourceFile>) returns (ok: bool, violations: seq<string>)
    ensures violations == ChecksProject.Violations(files)
    ensures ok <==> forall i | 0 <= i < |files| :: !ChecksProject.OverLimit(files[i])
  {
    violations := ChecksProject.CollectViolations(files);
    ChecksProject.ViolationsEmpty(files);
    ok := violations == [];
  }

  // ---------------------------------------------------------------------
  // Changelog rollover

  /** A line that strips to exactly "## [Unreleased]" (letter case counts). */
  predicate IsUnreleasedLine(line: string) {
    Strip(line) == UnreleasedHeader
  }

  /** A line that opens a section. */
  predicate IsSectionLine(line: string) {
    StartsWith(line, "## ")
  }

  /** The line the released section gets: "## [version] - today" and a newline. */
  function DatedLine(version: string, today: string): string {
    DatedHeader(version, today) + "\n"
  }

  /** The fresh section inserted above the newest one. */
  const NewSection: seq<string> := ["## [Unreleased]\n", "\n"]

  /** The index of the first Unreleased line at or after i, if any. */
  function FirstUnreleasedFrom(lines: seq<string>, i: nat): (r: Option<nat>)
    requires i <= |lines|
    ensures r.Some? ==> i <= r.value < |lines| && IsUnreleasedLine(lines[r.value])
    ensures r.Some? ==> forall k :: i <= k < r.value ==> !IsUnreleasedLine(lines[k])
    ensures r.None? ==> forall k :: i <= k < |lines| ==> !IsUnreleasedLine(lines[k])
    decreases |lines| - i
  {
    if i == |lines| then None
    else if IsUnreleasedLine(lines[i]) then Some(i)
    else FirstUnreleasedFrom(lines, i + 1)
  }

  /** The index of the first Unreleased line, if any. */
  function FirstUnreleased(lines: seq<string>): Option<nat>
    ensures FirstUnreleased(lines).Some? ==> FirstUnreleased(lines).value < |lines|
  {
    FirstUnreleasedFrom(lines, 0)
  }

  /** The index of the first line opening a section at or after i, if any. */
  function FirstSectionFrom(lines: seq<string>, i: nat): (r: Option<nat>)
    requires i <= |lines|
    ensures r.Some? ==> i <= r.value < |lines| && IsSectionLine(lines[r.value])
    ensures r.Some? ==> forall k :: i <= k < r.value ==> !IsSectionLine(lines[k])
    ensures r.None? ==> forall k :: i <= k < |lines| ==> !IsSectionLine(lines[k])
    decreases |lines| - i
  {
    if i == |lines| then None
    else if IsSectionLine(lines[i]) then Some(i)
    else FirstSectionFrom(lines, i + 1)
  }

  /** The index of the first line opening a section, if any. */
  function FirstSection(lines: seq<string>): Option<nat> {
    FirstSectionFrom(lines, 0)
  }

  /** Where the new section goes once the Unreleased line at u is dated:
      above the first section line, or at u when none is found. */
  function InsertIndex(dated: seq<string>, u: nat): nat {
    match FirstSection(dated)
    case Some(h) => h
    case None => u
  }

  /** The changelog's lines after update_changelog: the first Unreleased
      line dated, then the fresh section inserted; None when there is no
      Unreleased line. */
  function UpdatedLines(lines: seq<string>, version: string, today: string): Option<seq<string>> {
    match FirstUnreleased(lines)
    case None => None
    case Some(u) =>
      var dated := lines[u := DatedLine(version, today)];
      InsertAboveDated(lines, version, today, u);
      var h := InsertIndex(dated, u);
      Some(dated[..h] + NewSection + dated[h..])
  }

  /** The outcome of update_changelog: an unreadable file, one without an
      Unreleased line or one that cannot be written fails and stays as it
      was; otherwise the file holds the updated lines. */
  function RolledOver(changelog: TextFile, writable: bool, version: string, today: string): Rewrite {
    match changelog
    case Unreadable => Rewrite(false, changelog)
    case Text(content) =>
      match UpdatedLines(Lines(content), version, today)
      case None => Rewrite(false, changelog)
      case Some(lines) => if writable then Rewrite(true, Text(Concat(lines))) else Rewrite(false, changelog)
  }

  /** update_changelog: reads the changelog's lines, finds the first
      Unreleased line, dates it, inserts a fresh Unreleased section above
      the first section line and writes the lines back. */
  method UpdateChangelog(changelog: TextFile, writable: bool, version: string, today: string) returns (r: Rewrite)
    ensures r == RolledOver(changelog, writable, version, today)
    ensures changelog.Unreadable? ==> r == Rewrite(false, changelog)
    ensures changelog.Text? && (UpdatedLines(Lines(changelog.content), version, today).None? || !writable) ==>
      r == Rewrite(false, changelog)
    ensures changelog.Text? && UpdatedLines(Lines(changelog.content), version, today).Some? && writable ==>
      r == Rewrite(true, Text(Concat(UpdatedLines(Lines(changelog.content), version, today).value)))
  {
    if changelog.Unreadable? {
      return Rewrite(false, changelog);
    }
    var lines := Lines(changelog.content);
    var unreleasedIdx := FindUnreleased(lines);
    if unreleasedIdx == -1 {
      return Rewrite(false, changelog);
    }
    InsertAboveDated(lines, version, today, unreleasedIdx);
    lines := lines[unreleasedIdx := DatedLine(version, today)];
    var insertIdx := FindSection(lines, unreleasedIdx);
    lines := lines[..insertIdx] + NewSection + lines[insertIdx..];
    if !writable {
      return Rewrite(false, changelog);
    }
    r := Rewrite(true, Text(Concat(lines)));
  }

  /** The first loop of update_changelog: the index of the first Unreleased line, or -1. */
  method FindUnreleased(lines: seq<string>) returns (idx: int)
    ensures idx == -1 <==> FirstUnreleased(lines).None?
    ensures idx != -1 ==> idx == FirstUnreleased(lines).value
  {
    idx := -1;
    var i := 0;
    while i < |lines|
      invariant 0 <= i <= |lines|
      invariant FirstUnreleased(lines) == FirstUnreleasedFrom(lines, i)
    {
      if IsUnreleasedLine(lines[i]) {
        idx := i;
        return;
      }
      i := i + 1;
    }
  }

  /** The second loop of update_changelog: the index of the first section
      line, or the fallback when there is none. */
  method FindSection(lines: seq<string>, fallback: nat) returns (idx: nat)
    ensures idx == InsertIndex(lines, fallback)
  {
    idx := fallback;
    var i := 0;
    while i < |lines|
      invariant 0 <= i <= |lines|
      invariant FirstSection(lines) == FirstSectionFrom(lines, i)
    {
      if IsSectionLine(lines[i]) {
        idx := i;
        return;
      }
      i := i + 1;
    }
  }

  // ---------------------------------------------------------------------
  // Version bump

  /** The version bump_patch_version computes: exactly three dot-separated
      parts, each read with int(); the numbers are written back as read, so
      "01.2.3" becomes "1.2.4". None for any other shape. */
  function DevNextVersion(prev: string): Option<string> {
    NextOfParts(Split(prev, '.'))
  }

  /** The next version from the dot-separated parts of the current one. */
  function NextOfParts(parts: seq<string>): Option<string> {
    if |parts| != 3 then None
    else
      var major, minor, patch := ParseInt(parts[0]), ParseInt(parts[1]), ParseInt(parts[2]);
      if major.None? || minor.None? || patch.None? then None
      else Some(IntToString(major.value) + "." + IntToString(minor.value) + "." + IntToString(patch.value + 1))
  }

  /** The version the bump starts from: the field, or "0.0.0" when absent. */
  function CurrentVersion(fields: map<string, string>): string {
    if "version" in fields then fields["version"] else "0.0.0"
  }

  /** bump_patch_version: reads package.json, computes the next version,
      writes it back and then rolls the changelog over. The new version is
      returned even when the changelog update fails; any failure before
      that returns None and leaves both files as they were. */
  method BumpPatchVersion(m: Manifest, pkgWritable: bool, changelog: TextFile, changelogWritable: bool, today: string)
    returns (r: Option<string>, m': Manifest, changelog': TextFile)
    ensures !m.Fields? ==> r.None? && m' == m && changelog' == changelog
    ensures m.Fields? && (DevNextVersion(CurrentVersion(m.fields)).None? || !pkgWritable) ==>
      r.None? && m' == m && changelog' == changelog
    ensures r.Some? <==> m.Fields? && DevNextVersion(CurrentVersion(m.fields)).Some? && pkgWritable
    ensures r.Some? ==>
      && r == DevNextVersion(CurrentVersion(m.fields))
      && m' == Fields(m.fields["version" := r.value])
      && ReadPackageVersion(m') == r.value
      && changelog' == RolledOver(changelog, changelogWritable, r.value, today).file
  {
    if !m.Fields? {
      return None, m, changelog;
    }
    var current := CurrentVersion(m.fields);
    var next := DevNextVersion(current);
    if next.None? || !pkgWritable {
      return None, m, changelog;
    }
    m' := Fields(m.fields["version" := next.value]);
    var update := UpdateChangelog(changelog, changelogWritable, next.value, today);
    changelog' := update.file;
    r := next;
  }

  // ---------------------------------------------------------------------
  // The pipeline

  /** The command-line switches main reads. */
  datatype DevFlags = DevFlags(skipCompile: bool, skipExtensions: bool, skipGlobalNpm: bool)

  /** What each step of main reports: the blocking checks' verdicts, the
      bumped version (None when the bump failed) and the package path
      (None when packaging failed). The GitHub CLI and VS Code CLI checks
      always pass here and take no input. */
  datatype DevOutcomes = DevOutcomes(
    node: bool, npm: bool, git: bool,
    globalNpm: bool, extensions: bool, nodeModules: bool,
    bumped: Option<string>, compile: bool, lineLimits: bool, vsix: Option<string>)

  /** The exit status of main and the run log it built. */
  datatype DevRun = DevRun(exit: int, log: seq<StepResult>)

  /** A run-log row for a step: its name, its verdict, its (opaque) seconds. */
  function Row(name: string, passed: bool, secs: string -> real): StepResult {
    StepResult(name, passed, secs(name))
  }

  /** Every row of a log passed. */
  predicate AllPassed(log: seq<StepResult>) {
    forall i :: 0 <= i < |log| ==> log[i].passed
  }

  /** No row of a log has the given name. */
  predicate Omits(log: seq<StepResult>, name: string) {
    forall i :: 0 <= i < |log| ==> log[i].name != name
  }

  function PrereqRows(o: DevOutcomes, secs: string -> real): seq<StepResult> {
    [Row("Node.js", o.node, secs), Row("npm", o.npm, secs), Row("git", o.git, secs),
     Row("GitHub CLI", true, secs), Row("VS Code CLI", true, secs)]
  }

  function SetupRows(o: DevOutcomes, f: DevFlags, secs: string -> real): seq<StepResult> {
    (if f.skipGlobalNpm then [] else [Row("Global npm pkgs", o.globalNpm, secs)])
    + (if f.skipExtensions then [] else [Row("VS Code extensions", o.extensions, secs)])
    + [Row("node_modules", o.nodeModules, secs)]
  }

  function CompileRows(o: DevOutcomes, f: DevFlags, secs: string -> real): seq<StepResult> {
    if f.skipCompile then [] else [Row("Compile", o.compile, secs)]
  }

  predicate PrereqsPass(o: DevOutcomes) {
    o.node && o.npm && o.git
  }

  predicate SetupPasses(o: DevOutcomes, f: DevFlags) {
    (f.skipGlobalNpm || o.globalNpm) && (f.skipExtensions || o.extensions) && o.nodeModules
  }

  /** Python's truth value of a `str | None`: present and not empty. */
  predicate Truthy(s: Option<string>) {
    s.Some? && s.value != ""
  }

  /** The bump and the package report a present but empty string only if
      the step behind them returns one: the log row (`is not None`) and the
      halting test (`if not`) then disagree. */
  predicate NoEmptyResults(o: DevOutcomes) {
    o.bumped != Some("") && o.vsix != Some("")
  }

  /** The stages after setup, each stopping main with 1 at its own
      failure: the bump, the compile (unless skipped), the line limits and
      the package. The bump and package rows record whether a value came
      back; main goes on only when that value is a non-empty string. */
  function TailRun(o: DevOutcomes, f: DevFlags, secs: string -> real): DevRun {
    var bump := [Row("Version bump", o.bumped.Some?, secs)];
    if !Truthy(o.bumped) then DevRun(1, bump)
    else
      var built := bump + CompileRows(o, f, secs);
      if !f.skipCompile && !o.compile then DevRun(1, built)
      else
        var limits := built + [Row("File line limits", o.lineLimits, secs)];
        if !o.lineLimits then DevRun(1, limits)
        else DevRun(if Truthy(o.vsix) then 0 else 1, limits + [Row("Package", o.vsix.Some?, secs)])
  }

  /** What main does: every prerequisite runs, then any failure among them
      stops with 1; every setup stage that is not skipped runs, then any
      failure stops with 1; then the remaining stages. */
  function DevPipeline(o: DevOutcomes, f: DevFlags, secs: string -> real): DevRun {
    var pre := PrereqRows(o, secs);
    if !PrereqsPass(o) then DevRun(1, pre)
    else
      var setup := pre + SetupRows(o, f, secs);
      if !SetupPasses(o, f) then DevRun(1, setup)
      else
        var tail := TailRun(o, f, secs);
        DevRun(tail.exit, setup + tail.log)
  }

  /** main, up to the report: the steps in order through run_step, with an
      error counter for the stages that run to the end before halting. */
  method DevMain(o: DevOutcomes, f: DevFlags, secs: string -> real) returns (exit: int, results: seq<StepResult>)
    ensures DevRun(exit, results) == DevPipeline(o, f, secs)
  {
    var log := new RunLog();
    var errors := RunPrereqs(log, o, secs);
    if errors > 0 {
      return 1, log.entries;
    }
    errors := RunSetup(log, o, f, secs);
    if errors > 0 {
      return 1, log.entries;
    }
    exit := RunTail(log, o, f, secs);
    results := log.entries;
  }

  /** The prerequisite checks of main: all run, failures counted; the
      GitHub CLI and VS Code CLI checks are informational. */
  method RunPrereqs(log: RunLog, o: DevOutcomes, secs: string -> real) returns (errors: nat)
    modifies log
    ensures log.entries == old(log.entries) + PrereqRows(o, secs)
    ensures errors > 0 <==> !PrereqsPass(o)
  {
    errors := 0;
    var passed := log.RunStep("Node.js", o.node, secs("Node.js"));
    if !passed { errors := errors + 1; }
    passed := log.RunStep("npm", o.npm, secs("npm"));
    if !passed { errors := errors + 1; }
    passed := log.RunStep("git", o.git, secs("git"));
    if !passed { errors := errors + 1; }
    passed := log.RunStep("GitHub CLI", true, secs("GitHub CLI"));
    passed := log.RunStep("VS Code CLI", true, secs("VS Code CLI"));
  }

  /** The setup stages of main: each one that is not skipped runs and
      counts its failure. */
  method RunSetup(log: RunLog, o: DevOutcomes, f: DevFlags, secs: string -> real) returns (errors: nat)
    modifies log
    ensures log.entries == old(log.entries) + SetupRows(o, f, secs)
    ensures errors > 0 <==> !SetupPasses(o, f)
  {
    errors := 0;
    var passed;
    if !f.skipGlobalNpm {
      passed := log.RunStep("Global npm pkgs", o.globalNpm, secs("Global npm pkgs"));
      if !passed { errors := errors + 1; }
    }
    if !f.skipExtensions {
      passed := log.RunStep("VS Code extensions", o.extensions, secs("VS Code extensions"));
      if !passed { errors := errors + 1; }
    }
    passed := log.RunStep("node_modules", o.nodeModules, secs("node_modules"));
    if !passed { errors := errors + 1; }
  }

  /** The stages of main after setup, each returning 1 at its failure. */
  method RunTail(log: RunLog, o: DevOutcomes, f: DevFlags, secs: string -> real) returns (exit: int)
    modifies log
    ensures log.entries == old(log.entries) + TailRun(o, f, secs).log
    ensures exit == TailRun(o, f, secs).exit
  {
    log.Append("Version bump", o.bumped.Some?, secs("Version bump"));
    if !Truthy(o.bumped) {
      return 1;
    }
    var passed;
    if !f.skipCompile {
      passed := log.RunStep("Compile", o.compile, secs("Compile"));
      if !passed {
        return 1;
      }
    }
    passed := log.RunStep("File line limits", o.lineLimits, secs("File line limits"));
    if !passed {
      return 1;
    }
    log.Append("Package", o.vsix.Some?, secs("Package"));
    exit := if Truthy(o.vsix) then 0 else 1;
  }

  // ---------------------------------------------------------------------
  // Properties

  /** The dated line opens a section, so the new section never goes below it. */
  lemma DatedLineIsSection(version: string, today: string)
    ensures IsSectionLine(DatedLine(version, today))
  {
    assert DatedLine(version, today)[..3] == "## ";
  }

  lemma InsertAboveDated(lines: seq<string>, version: string, today: string, u: nat)
    requires u < |lines|
    ensures InsertIndex(lines[u := DatedLine(version, today)], u) <= u
  {
    var dated := lines[u := DatedLine(version, today)];
    DatedLineIsSection(version, today);
    assert IsSectionLine(dated[u]);
  }

  /** Without an Unreleased line nothing is rewritten. */
  lemma NoUnreleasedNoUpdate(lines: seq<string>, version: string, today: string)
    requires forall k :: 0 <= k < |lines| ==> !IsUnreleasedLine(lines[k])
    ensures UpdatedLines(lines, version, today).None?
  {
  }

  /** The rollover in full: with u the first Unreleased line and h the
      first section line once u is dated (h <= u), the result has two more
      lines; the lines above h are untouched; the fresh section sits at h;
      the dated line takes u's place two lines down; every other line moves
      down by two. */
  lemma {:induction false} UpdateShape(lines: seq<string>, version: string, today: string)
    requires FirstUnreleased(lines).Some?
    ensures var u := FirstUnreleased(lines).value;
      var h := InsertIndex(lines[u := DatedLine(version, today)], u);
      && UpdatedLines(lines, version, today).Some?
      && var r := UpdatedLines(lines, version, today).value;
      && h <= u
      && |r| == |lines| + 2
      && (forall k :: 0 <= k < h ==> r[k] == lines[k])
      && r[h] == "## [Unreleased]\n" && r[h + 1] == "\n"
      && r[u + 2] == DatedLine(version, today)
      && (forall k :: h <= k < |lines| && k != u ==> r[k + 2] == lines[k])
  {
    var u := FirstUnreleased(lines).value;
    var dated := lines[u := DatedLine(version, today)];
    InsertAboveDated(lines, version, today, u);
    var h := InsertIndex(dated, u);
    var r := dated[..h] + NewSection + dated[h..];
    assert UpdatedLines(lines, version, today) == Some(r);
    forall k | h <= k < |lines|
      ensures r[k + 2] == dated[k]
    {
    }
  }

  /** When the Unreleased line is the first section line, as in a
      changelog whose newest section is the open one, the fresh section
      goes right above the dated line. */
  lemma UpdateInPlace(pre: seq<string>, unreleased: string, post: seq<string>, version: string, today: string)
    requires IsUnreleasedLine(unreleased)
    requires forall k :: 0 <= k < |pre| ==> !IsSectionLine(pre[k]) && !IsUnreleasedLine(pre[k])
    ensures UpdatedLines(pre + [unreleased] + post, version, today)
      == Some(pre + NewSection + [DatedLine(version, today)] + post)
  {
    var lines := pre + [unreleased] + post;
    var u := |pre|;
    var line := DatedLine(version, today);
    assert forall k :: 0 <= k < u ==> lines[k] == pre[k];
    FirstUnreleasedAt(lines, 0, u);
    var dated := pre + [line] + post;
    assert lines[u := line] == dated;
    assert forall k :: 0 <= k < u ==> dated[k] == pre[k];
    DatedLineIsSection(version, today);
    FirstSectionAt(dated, 0, u);
    var rest := [line] + post;
    ConcatAssoc(pre, [line], post);
    SplitAtJoin(pre, rest);
    ConcatAssoc(pre + NewSection, [line], post);
  }

  lemma ConcatAssoc(a: seq<string>, b: seq<string>, c: seq<string>)
    ensures a + b + c == a + (b + c)
  {
  }

  lemma SplitAtJoin(a: seq<string>, b: seq<string>)
    ensures (a + b)[..|a|] == a && (a + b)[|a|..] == b
  {
  }

  /** After a rollover the changelog again has an open Unreleased section,
      found first, at the insertion point. */
  lemma UpdateReopensUnreleased(lines: seq<string>, version: string, today: string)
    requires FirstUnreleased(lines).Some?
    ensures var u := FirstUnreleased(lines).value;
      FirstUnreleased(UpdatedLines(lines, version, today).value)
        == Some(InsertIndex(lines[u := DatedLine(version, today)], u))
  {
    var u := FirstUnreleased(lines).value;
    var h := InsertIndex(lines[u := DatedLine(version, today)], u);
    UpdateShape(lines, version, today);
    var r := UpdatedLines(lines, version, today).value;
    assert r[h] == UnreleasedHeader + "\n";
    UnreleasedHeaderLine();
    assert forall k :: 0 <= k < h ==> r[k] == lines[k];
    assert forall k :: 0 <= k < h ==> !IsUnreleasedLine(r[k]);
    FirstUnreleasedAt(r, 0, h);
  }

  /** The fresh section's header line is an Unreleased line. */
  lemma UnreleasedHeaderLine()
    ensures IsUnreleasedLine(UnreleasedHeader + "\n")
  {
    StripNewline(UnreleasedHeader);
  }

  lemma {:induction false} FirstUnreleasedAt(lines: seq<string>, i: nat, h: nat)
    requires i <= h < |lines| && IsUnreleasedLine(lines[h])
    requires forall k :: i <= k < h ==> !IsUnreleasedLine(lines[k])
    ensures FirstUnreleasedFrom(lines, i) == Some(h)
    decreases h - i
  {
    if i < h {
      FirstUnreleasedAt(lines, i + 1, h);
    }
  }

  lemma {:induction false} FirstSectionAt(lines: seq<string>, i: nat, h: nat)
    requires i <= h < |lines| && IsSectionLine(lines[h])
    requires forall k :: i <= k < h ==> !IsSectionLine(lines[k])
    ensures FirstSectionFrom(lines, i) == Some(h)
    decreases h - i
  {
    if i < h {
      FirstSectionAt(lines, i + 1, h);
    }
  }

  lemma StripNewline(s: string)
    requires s != [] && !IsSpace(s[0]) && !IsSpace(s[|s| - 1])
    ensures Strip(s + "\n") == s
  {
    var t := s + "\n";
    assert RStrip(t) == RStrip(s);
    assert RStrip(s) == s;
    assert LStrip(s) == s;
    assert LStrip(t) == t;
  }

  /** The next version keeps the values of major and minor and raises the
      patch number by one. */
  lemma NextOfPartsIncrements(parts: seq<string>)
    requires NextOfParts(parts).Some?
    ensures var next := Split(NextOfParts(parts).value, '.');
      && |next| == 3
      && ParseInt(next[0]) == ParseInt(parts[0])
      && ParseInt(next[1]) == ParseInt(parts[1])
      && ParseInt(next[2]) == Some(ParseInt(parts[2]).value + 1)
  {
    var a, b, c := ParseInt(parts[0]).value, ParseInt(parts[1]).value, ParseInt(parts[2]).value;
    NumbersJoined(NextOfParts(parts).value, a, b, c + 1);
    ParseIntRoundTrip(a);
    ParseIntRoundTrip(b);
    ParseIntRoundTrip(c + 1);
  }

  /** Three numbers joined with dots split back into their numerals. */
  lemma NumbersJoined(v: string, a: int, b: int, c: int)
    requires v == IntToString(a) + "." + IntToString(b) + "." + IntToString(c)
    ensures Split(v, '.') == [IntToString(a), IntToString(b), IntToString(c)]
  {
    IntToStringNoDot(a);
    IntToStringNoDot(b);
    IntToStringNoDot(c);
    SplitThree(IntToString(a), IntToString(b), IntToString(c));
  }

  /** The developer bump of a version that splits into three numerals. */
  lemma DevNextOfParts(v: string, a: int, b: int, c: int)
    requires |Split(v, '.')| == 3
    requires ParseInt(Split(v, '.')[0]) == Some(a)
    requires ParseInt(Split(v, '.')[1]) == Some(b)
    requires ParseInt(Split(v, '.')[2]) == Some(c)
    ensures DevNextVersion(v) == Some(IntToString(a) + "." + IntToString(b) + "." + IntToString(c + 1))
  {
  }

  /** The release tooling's bump of a version that splits into three
      parts, the last a numeral. */
  lemma BumpPatchOfParts(v: string, c: int)
    requires |Split(v, '.')| == 3 && ParseInt(Split(v, '.')[2]) == Some(c)
    ensures ChecksProject.BumpPatch(v)
      == Return(Split(v, '.')[0] + "." + Split(v, '.')[1] + "." + IntToString(c + 1))
  {
  }

  /** A number written the usual way has no dot and reads back as itself. */
  lemma CanonicalPart(n: nat)
    ensures '.' !in NatToString(n) && ParseInt(NatToString(n)) == Some(n) && IntToString(n) == NatToString(n)
  {
    NatToStringNoDot(n);
    ParseIntRoundTrip(n);
  }

  /** On a version written the usual way the developer bump and the
      release tooling's bump agree. */
  lemma BumpsAgreeOnCanonical(a: nat, b: nat, c: nat)
    ensures var v := NatToString(a) + "." + NatToString(b) + "." + NatToString(c);
      var w := NatToString(a) + "." + NatToString(b) + "." + NatToString(c + 1);
      DevNextVersion(v) == Some(w) && ChecksProject.BumpPatch(v) == Return(w)
  {
    CanonicalPart(a);
    CanonicalPart(b);
    CanonicalPart(c);
    CanonicalPart(c + 1);
    var v := NatToString(a) + "." + NatToString(b) + "." + NatToString(c);
    SplitThree(NatToString(a), NatToString(b), NatToString(c));
    DevNextOfParts(v, a, b, c);
    BumpPatchOfParts(v, c);
  }

  /** A package.json without a version field is bumped from "0.0.0". */
  lemma MissingVersionStartsAtZero(fields: map<string, string>)
    requires "version" !in fields
    ensures DevNextVersion(CurrentVersion(fields)) == Some("0.0.1")
  {
    assert CurrentVersion(fields) == "0.0.0";
    ZeroSplits();
    ZeroNext();
  }

  lemma ZeroSplits()
    ensures Split("0.0.0", '.') == ["0", "0", "0"]
  {
    ZeroVersionParts();
    SplitThree("0", "0", "0");
  }

  lemma ZeroNext()
    ensures NextOfParts(["0", "0", "0"]) == Some("0.0.1")
  {
    ZeroVersionParts();
    CanonicalPart(0);
    CanonicalPart(1);
  }

  lemma ZeroVersionParts()
    ensures NatToString(0) == "0" && NatToString(1) == "1"
    ensures "0" + "." + "0" + "." + "0" == "0.0.0" && "0" + "." + "0" + "." + "1" == "0.0.1"
  {
  }

  lemma AllPassedConcat(a: seq<StepResult>, b: seq<StepResult>)
    ensures AllPassed(a + b) <==> AllPassed(a) && AllPassed(b)
  {
    if AllPassed(a) && AllPassed(b) {
      forall i | 0 <= i < |a + b|
        ensures (a + b)[i].passed
      {
        if i >= |a| {
          assert (a + b)[i] == b[i - |a|];
        }
      }
    }
    if AllPassed(a + b) {
      forall i | 0 <= i < |a|
        ensures a[i].passed
      {
        assert (a + b)[i] == a[i];
      }
      forall i | 0 <= i < |b|
        ensures b[i].passed
      {
        assert (a + b)[|a| + i] == b[i];
      }
    }
  }

  lemma OmitsConcat(a: seq<StepResult>, b: seq<StepResult>, name: string)
    requires Omits(a, name) && Omits(b, name)
    ensures Omits(a + b, name)
  {
    forall i | 0 <= i < |a + b|
      ensures (a + b)[i].name != name
    {
      if i >= |a| {
        assert (a + b)[i] == b[i - |a|];
      }
    }
  }

  /** Every prerequisite runs and is logged, in order, whatever the
      earlier ones reported; the GitHub CLI and VS Code CLI rows always
      pass, and the prerequisite rows all pass exactly when the blocking
      three do. */
  lemma PrereqsAllLogged(o: DevOutcomes, f: DevFlags, secs: string -> real)
    ensures var log := DevPipeline(o, f, secs).log;
      && |log| >= 5 && log[..5] == PrereqRows(o, secs)
      && log[3].passed && log[4].passed
    ensures AllPassed(PrereqRows(o, secs)) <==> PrereqsPass(o)
  {
    var pre := PrereqRows(o, secs);
    if PrereqsPass(o) && SetupPasses(o, f) {
      var rest := SetupRows(o, f, secs) + TailRun(o, f, secs).log;
      assert DevPipeline(o, f, secs).log == pre + rest;
      assert (pre + rest)[..5] == pre;
    } else if PrereqsPass(o) {
      assert (pre + SetupRows(o, f, secs))[..5] == pre;
    }
    if !PrereqsPass(o) {
      assert !pre[0].passed || !pre[1].passed || !pre[2].passed;
    }
  }

  /** A failed prerequisite stops main with 1 before any later stage. */
  lemma PrereqFailureHalts(o: DevOutcomes, f: DevFlags, secs: string -> real)
    requires !(o.node && o.npm && o.git)
    ensures DevPipeline(o, f, secs) == DevRun(1, PrereqRows(o, secs))
  {
  }

  /** The setup rows all pass exactly when no stage that ran failed. */
  lemma SetupRowsPass(o: DevOutcomes, f: DevFlags, secs: string -> real)
    ensures AllPassed(SetupRows(o, f, secs)) <==> SetupPasses(o, f)
  {
    var g := if f.skipGlobalNpm then [] else [Row("Global npm pkgs", o.globalNpm, secs)];
    var e := if f.skipExtensions then [] else [Row("VS Code extensions", o.extensions, secs)];
    var n := [Row("node_modules", o.nodeModules, secs)];
    assert n[0].passed <==> o.nodeModules;
    assert !f.skipGlobalNpm ==> (g[0].passed <==> o.globalNpm);
    assert !f.skipExtensions ==> (e[0].passed <==> o.extensions);
    AllPassedConcat(g, e);
    AllPassedConcat(g + e, n);
  }

  /** Once the prerequisites pass, every setup stage that is not skipped
      runs, even after another one failed; any failure then stops main. */
  lemma SetupRunsToTheEnd(o: DevOutcomes, f: DevFlags, secs: string -> real)
    requires PrereqsPass(o)
    ensures var log := DevPipeline(o, f, secs).log;
      var n := 5 + |SetupRows(o, f, secs)|;
      && |log| >= n && log[5..n] == SetupRows(o, f, secs)
      && (!SetupPasses(o, f) ==> DevPipeline(o, f, secs).exit == 1 && |log| == n)
  {
    var pre := PrereqRows(o, secs);
    var setup := SetupRows(o, f, secs);
    var n := 5 + |setup|;
    if SetupPasses(o, f) {
      var tail := TailRun(o, f, secs).log;
      assert DevPipeline(o, f, secs).log == pre + setup + tail;
      assert (pre + setup + tail)[5..n] == setup;
    } else {
      assert (pre + setup)[5..n] == setup;
    }
  }

  /** The stages after setup: exit 0 exactly when every row passed. */
  lemma TailSucceedsIffAllPassed(o: DevOutcomes, f: DevFlags, secs: string -> real)
    requires NoEmptyResults(o)
    ensures var tail := TailRun(o, f, secs);
      (tail.exit == 0 <==> AllPassed(tail.log)) && (tail.exit == 0 || tail.exit == 1)
  {
    var bump := [Row("Version bump", o.bumped.Some?, secs)];
    assert bump[0].passed <==> o.bumped.Some?;
    if o.bumped.Some? {
      var compile := CompileRows(o, f, secs);
      var built := bump + compile;
      AllPassedConcat(bump, compile);
      if f.skipCompile || o.compile {
        var limits := [Row("File line limits", o.lineLimits, secs)];
        var package := [Row("Package", o.vsix.Some?, secs)];
        assert limits[0].passed <==> o.lineLimits;
        assert package[0].passed <==> o.vsix.Some?;
        AllPassedConcat(built, limits);
        AllPassedConcat(built + limits, package);
      } else {
        assert !compile[0].passed;
      }
    }
  }

  /** main exits 0 exactly when every row it logged passed, and 1 otherwise. */
  lemma DevSucceedsIffAllPassed(o: DevOutcomes, f: DevFlags, secs: string -> real)
    requires NoEmptyResults(o)
    ensures var run := DevPipeline(o, f, secs);
      (run.exit == 0 <==> AllPassed(run.log)) && (run.exit == 0 || run.exit == 1)
  {
    var pre := PrereqRows(o, secs);
    var setup := SetupRows(o, f, secs);
    PrereqsAllLogged(o, f, secs);
    SetupRowsPass(o, f, secs);
    AllPassedConcat(pre, setup);
    if PrereqsPass(o) && SetupPasses(o, f) {
      TailSucceedsIffAllPassed(o, f, secs);
      AllPassedConcat(pre + setup, TailRun(o, f, secs).log);
    }
  }

  /** A skipped stage leaves no row in the run log. */
  lemma SkippedStagesNotLogged(o: DevOutcomes, f: DevFlags, secs: string -> real)
    ensures var log := DevPipeline(o, f, secs).log;
      && (f.skipGlobalNpm ==> Omits(log, "Global npm pkgs"))
      && (f.skipExtensions ==> Omits(log, "VS Code extensions"))
      && (f.skipCompile ==> Omits(log, "Compile"))
  {
    if f.skipGlobalNpm {
      OmittedIfSkipped(o, f, secs, "Global npm pkgs");
    }
    if f.skipExtensions {
      OmittedIfSkipped(o, f, secs, "VS Code extensions");
    }
    if f.skipCompile {
      OmittedIfSkipped(o, f, secs, "Compile");
    }
  }

  lemma OmittedIfSkipped(o: DevOutcomes, f: DevFlags, secs: string -> real, name: string)
    requires Omits(PrereqRows(o, secs), name)
    requires name != "node_modules" && name != "Version bump" && name != "File line limits" && name != "Package"
    requires name == "Global npm pkgs" ==> f.skipGlobalNpm
    requires name == "VS Code extensions" ==> f.skipExtensions
    requires name == "Compile" ==> f.skipCompile
    ensures Omits(DevPipeline(o, f, secs).log, name)
  {
    var g := if f.skipGlobalNpm then [] else [Row("Global npm pkgs", o.globalNpm, secs)];
    var e := if f.skipExtensions then [] else [Row("VS Code extensions", o.extensions, secs)];
    var n := [Row("node_modules", o.nodeModules, secs)];
    OmitsConcat(g, e, name);
    OmitsConcat(g + e, n, name);
    var pre := PrereqRows(o, secs);
    var setup := SetupRows(o, f, secs);
    OmitsConcat(pre, setup, name);
    if PrereqsPass(o) && SetupPasses(o, f) {
      TailOmits(o, f, secs, name);
      OmitsConcat(pre + setup, TailRun(o, f, secs).log, name);
    }
  }

  lemma TailOmits(o: DevOutcomes, f: DevFlags, secs: string -> real, name: string)
    requires name != "Version bump" && name != "File line limits" && name != "Package"
    requires name == "Compile" ==> f.skipCompile
    ensures Omits(TailRun(o, f, secs).log, name)
  {
    var bump := [Row("Version bump", o.bumped.Some?, secs)];
    var compile := CompileRows(o, f, secs);
    var limits := [Row("File line limits", o.lineLimits, secs)];
    OmitsConcat(bump, compile, name);
    OmitsConcat(bump + compile, limits, name);
    OmitsConcat(bump + compile + limits, [Row("Package", o.vsix.Some?, secs)], name);
  }

  /** Past setup, main stops at the first failing stage, and that stage is
      the last row of the log. */
  lemma LaterStagesHaltAtFailure(o: DevOutcomes, f: DevFlags, secs: string -> real)
    requires PrereqsPass(o) && SetupPasses(o, f) && NoEmptyResults(o)
    ensures var run := DevPipeline(o, f, secs);
      run.exit == 1 <==> !run.log[|run.log| - 1].passed
  {
  }

  /** An empty package path is logged as a passing step, yet main still
      returns 1: the only run whose log is all passes and which fails. */
  lemma EmptyPackagePathFails(o: DevOutcomes, f: DevFlags, secs: string -> real)
    requires PrereqsPass(o) && SetupPasses(o, f) && Truthy(o.bumped)
    requires (f.skipCompile || o.compile) && o.lineLimits && o.vsix == Some("")
    ensures var run := DevPipeline(o, f, secs);
      run.exit == 1 && AllPassed(run.log)
  {
    var pre := PrereqRows(o, secs);
    var setup := SetupRows(o, f, secs);
    var bump := [Row("Version bump", o.bumped.Some?, secs)];
    var compile := CompileRows(o, f, secs);
    var limits := [Row("File line limits", o.lineLimits, secs)];
    var package := [Row("Package", o.vsix.Some?, secs)];
    PrereqsAllLogged(o, f, secs);
    SetupRowsPass(o, f, secs);
    AllPassedConcat(pre, setup);
    AllPassedConcat(bump, compile);
    AllPassedConcat(bump + compile, limits);
    AllPassedConcat(bump + compile + limits, package);
    AllPassedConcat(pre + setup, TailRun(o, f, secs).log);
  }

  /** The version bump never yields an empty string, so its row and its
      halting test agree. */
  lemma {:induction false} BumpedVersionNonEmpty(parts: seq<string>)
    requires NextOfParts(parts).Some?
    ensures NextOfParts(parts) != Some("")
  {
    var v := NextOfParts(parts).value;
    assert v[|IntToString(ParseInt(parts[0]).value)|] == '.';
  }
}
