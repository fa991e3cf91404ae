/** Project state checks run before packaging: the git working tree and its
    upstream, the npm dependencies, the 300-line limit on TypeScript
    sources, and the version gate that resolves tag conflicts and stamps
    the changelog. Git and npm go through the runner; the files involved
    are values, each with a flag saying whether writing it succeeds. */
module ChecksProject {
  import opened Base
  import opened Text
  import opened Constants
  import opened Display
  import opened Utils
  import opened Patterns

  // ---------------------------------------------------------------------
  // Git

  const StatusCmd: seq<string> := ["git", "status", "--porcelain"]
  const RevParseHeadCmd: seq<string> := ["git", "rev-parse", "HEAD"]
  const RevParseUpstreamCmd: seq<string> := ["git", "rev-parse", "@{u}"]
  const MergeBaseCmd: seq<string> := ["git", "merge-base", "HEAD", "@{u}"]
  const PullCmd: seq<string> := ["git", "pull", "--ff-only"]
  const FetchCmd: seq<string> := ["git", "fetch", "origin"]

  /** The verdict on the working tree, the change lines shown to the user,
      and whether the user was asked to continue. */
  datatype TreeCheck = TreeCheck(ok: bool, shown: seq<string>, prompted: bool)

  /** The changed-file lines shown before the prompt: at most ten, then a
      note counting the rest. */
  function Preview(changed: seq<string>): (r: seq<string>)
    ensures |changed| <= 10 ==> r == changed
    ensures |changed| > 10 ==>
      |r| == 11 && r[..10] == changed[..10] && r[10] == "... and " + NatToString(|changed| - 10) + " more"
  {
    if |changed| <= 10 then changed
    else changed[..10] + ["... and " + NatToString(|changed| - 10) + " more"]
  }

  /** check_working_tree: a failed `git status` blocks, a clean tree
      passes, and a dirty one passes only if the user says yes (default no). */
  function CheckWorkingTree(status: Completed, reply: Option<string>): (r: TreeCheck)
    ensures status.returnCode != 0 ==> !r.ok && !r.prompted
    ensures r.prompted <==> status.returnCode == 0 && Strip(status.stdout) != []
    ensures status.returnCode == 0 && !r.prompted ==> r.ok && r.shown == []
    ensures r.prompted ==>
      (r.ok == AskYn(reply, false) && r.shown == Preview(SplitLines(Strip(status.stdout))))
  {
    if status.returnCode != 0 then TreeCheck(false, [], false)
    else if Strip(status.stdout) == [] then TreeCheck(true, [], false)
    else
      var changed := SplitLines(Strip(status.stdout));
      TreeCheck(AskYn(reply, false), Preview(changed), true)
  }

  /** _check_if_behind: compares HEAD with its upstream through merge-base
      and fast-forwards when behind. Only a failed fast-forward fails: no
      upstream, equal heads, a local branch ahead and diverged branches all
      pass. The exit status of `git rev-parse HEAD` is not consulted. */
  function CheckIfBehind(run: Runner): (r: Checked)
    ensures |r.trace| >= 2 && r.trace[..2] == [RevParseHeadCmd, RevParseUpstreamCmd]
    ensures (MergeBaseCmd in r.trace) <==>
      && run(RevParseUpstreamCmd).returnCode == 0
      && Strip(run(RevParseHeadCmd).stdout) != Strip(run(RevParseUpstreamCmd).stdout)
    ensures (PullCmd in r.trace) <==>
      && run(RevParseUpstreamCmd).returnCode == 0
      && Strip(run(RevParseHeadCmd).stdout) != Strip(run(RevParseUpstreamCmd).stdout)
      && Strip(run(MergeBaseCmd).stdout) == Strip(run(RevParseHeadCmd).stdout)
    ensures !r.ok <==> PullCmd in r.trace && run(PullCmd).returnCode != 0
  {
    var local := run(RevParseHeadCmd);
    var remote := run(RevParseUpstreamCmd);
    if remote.returnCode != 0 || Strip(local.stdout) == Strip(remote.stdout) then
      Checked(true, [RevParseHeadCmd, RevParseUpstreamCmd])
    else
      var base := run(MergeBaseCmd);
      if Strip(base.stdout) == Strip(local.stdout) then
        Checked(run(PullCmd).returnCode == 0, [RevParseHeadCmd, RevParseUpstreamCmd, MergeBaseCmd, PullCmd])
      else
        Checked(true, [RevParseHeadCmd, RevParseUpstreamCmd, MergeBaseCmd])
  }

  /** check_remote_sync: fetch origin first, then compare with the upstream. */
  function CheckRemoteSync(run: Runner): (r: Checked)
    ensures r.trace != [] && r.trace[0] == FetchCmd
    ensures run(FetchCmd).returnCode != 0 ==> !r.ok && r.trace == [FetchCmd]
    ensures run(FetchCmd).returnCode == 0 ==>
      r.ok == CheckIfBehind(run).ok && r.trace == [FetchCmd] + CheckIfBehind(run).trace
  {
    if run(FetchCmd).returnCode != 0 then Checked(false, [FetchCmd])
    else
      var behind := CheckIfBehind(run);
      Checked(behind.ok, [FetchCmd] + behind.trace)
  }

  // ---------------------------------------------------------------------
  // Dependencies

  const NpmInstallCmd: seq<string> := ["npm", "install"]

  /** What ensure_dependencies sees on disk: whether package.json is a file,
      whether node_modules is a directory, the modification time of
      node_modules/.package-lock.json if it is a file, and that of
      package.json. */
  datatype DepState = DepState(packageJson: bool, nodeModules: bool, lockMtime: Option<int>, packageMtime: int)

  /** node_modules is missing, or package.json is newer than the lock file.
      A missing lock file does not count as stale. */
  predicate Stale(d: DepState) {
    !d.nodeModules || (d.lockMtime.Some? && d.packageMtime > d.lockMtime.value)
  }

  /** ensure_dependencies: no package.json blocks; stale dependencies run
      `npm install`, whose exit status decides; otherwise nothing runs. */
  function EnsureDependencies(d: DepState, run: Runner): (r: Checked)
    ensures r.trace == (if d.packageJson && Stale(d) then [NpmInstallCmd] else [])
    ensures r.ok <==> d.packageJson && (Stale(d) ==> run(NpmInstallCmd).returnCode == 0)
  {
    if !d.packageJson then Checked(false, [])
    else if !d.nodeModules then RunNpmInstall(run)
    else if d.lockMtime.Some? && d.packageMtime > d.lockMtime.value then RunNpmInstall(run)
    else Checked(true, [])
  }

  /** _run_npm_install */
  function RunNpmInstall(run: Runner): (r: Checked)
    ensures r.trace == [NpmInstallCmd]
    ensures r.ok <==> run(NpmInstallCmd).returnCode == 0
  {
    Checked(run(NpmInstallCmd).returnCode == 0, [NpmInstallCmd])
  }

  // ---------------------------------------------------------------------
  // Line limits

  /** A file under src/ in walk order: its path relative to the project
      root and its text. */
  datatype SourceFile = SourceFile(path: string, content: string)

  /** The number of lines iterating the open file yields. */
  function LineCount(f: SourceFile): nat {
    |Lines(f.content)|
  }

  predicate OverLimit(f: SourceFile) {
    EndsWith(f.path, ".ts") && LineCount(f) > MaxFileLines
  }

  /** "<path> (<count> lines)" */
  function ViolationMessage(f: SourceFile): string {
    f.path + " (" + NatToString(LineCount(f)) + " lines)"
  }

  /** The messages for the files over the limit, in walk order. */
  function Violations(files: seq<SourceFile>): (r: seq<string>)
    ensures |r| <= |files|
  {
    if files == [] then []
    else
      var last := files[|files| - 1];
      Violations(files[..|files| - 1]) + (if OverLimit(last) then [ViolationMessage(last)] else [])
  }

  /** The walk over src/ that collects the violation messages. */
  method CollectViolations(files: seq<SourceFile>) returns (violations: seq<string>)
    ensures violations == Violations(files)
  {
    violations := [];
    var i := 0;
    while i < |files|
      invariant 0 <= i <= |files|
      invariant violations == Violations(files[..i])
    {
      assert files[..i + 1][..i] == files[..i];
      if OverLimit(files[i]) {
        violations := violations + [ViolationMessage(files[i])];
      } else {
        assert violations + [] == violations;
      }
      i := i + 1;
    }
    assert files[..i] == files;
  }

  /** check_file_line_limits (release pipeline): reports the violations
      and passes regardless. */
  method CheckFileLineLimits(files: seq<SourceFile>) returns (ok: bool, violations: seq<string>)
    ensures ok
    ensures violations == Violations(files)
  {
    violations := CollectViolations(files);
    ok := true;
  }

  // ---------------------------------------------------------------------
  // Version and changelog

  /** Some line of the changelog starts with "## [Unreleased]", in any letter case. */
  predicate HasUnreleasedSection(changelog: TextFile) {
    changelog.Text? &&
    exists line | line in Lines(changelog.content) :: MatchesCIAt(line, 0, UnreleasedHeader)
  }

  /** _is_version_tagged: the tag "v<version>" is among the repository's tags. */
  predicate IsVersionTagged(tags: set<string>, version: string) {
    "v" + version in tags
  }

  /** _bump_patch: the version must split on '.' into exactly three parts
      whose last is an integer, else ValueError. */
  function BumpPatch(version: string): (r: Py<string>)
    ensures r.Return? <==> |Split(version, '.')| == 3 && ParseInt(Split(version, '.')[2]).Some?
  {
    var parts := Split(version, '.');
    if |parts| != 3 then Raise("ValueError")
    else match ParseInt(parts[2])
      case None => Raise("ValueError")
      case Some(patch) => Return(parts[0] + "." + parts[1] + "." + IntToString(patch + 1))
  }

  /** The outcome of a write to package.json, and the manifest afterwards. */
  datatype Written = Written(ok: bool, manifest: Manifest)

  /** _write_package_version: sets "version" and keeps every other field;
      fails, leaving the manifest as it was, when it cannot be read or
      parsed or cannot be written. */
  function WritePackageVersion(m: Manifest, writable: bool, version: string): (r: Written)
    ensures r.ok <==> m.Fields? && writable
    ensures !r.ok ==> r.manifest == m
    ensures r.ok ==> && r.manifest.Fields?
                     && ReadPackageVersion(r.manifest) == version
                     && r.manifest.fields.Keys == m.fields.Keys + {"version"}
                     && (forall k | k in m.fields && k != "version" :: r.manifest.fields[k] == m.fields[k])
  {
    if m.Fields? && writable then Written(true, Fields(m.fields["version" := version])) else Written(false, m)
  }

  /** The version after k patch bumps, or the ValueError one of them raises. */
  function Bumps(version: string, k: nat): Py<string> {
    if k == 0 then Return(version)
    else match Bumps(version, k - 1)
      case Raise(e) => Raise(e)
      case Return(v) => BumpPatch(v)
  }

  /** The answer to the i-th "Bump to ...?" question (default yes). */
  predicate Confirmed(stdin: seq<string>, pos: nat, i: nat) {
    AskYn(Reply(stdin, pos + i), true)
  }

  /** Each of the first k versions in the bump chain was tagged, could be
      bumped, and the user agreed to bump it. */
  predicate BumpedThrough(version: string, tags: set<string>, stdin: seq<string>, pos: nat, k: nat) {
    forall i | 0 <= i < k ::
      && Bumps(version, i).Return?
      && IsVersionTagged(tags, Bumps(version, i).value)
      && Confirmed(stdin, pos, i)
  }

  /** Why the bump loop stopped: an untagged version was reached, the user
      declined a bump, or the tagged version could not be bumped. */
  datatype LoopExit = Available | Declined | Unbumpable

  /** The loop of _ensure_untagged_version: while the current version is
      tagged, work out the next patch version, then ask whether to bump to
      it (default yes). The questions read stdin from pos on. */
  method BumpUntilUntagged(version: string, tags: set<string>, stdin: seq<string>, pos: nat)
    returns (exit: LoopExit, cur: string, bumps: nat)
    ensures Bumps(version, bumps) == Return(cur) && BumpedThrough(version, tags, stdin, pos, bumps)
    ensures exit == Available <==> !IsVersionTagged(tags, cur)
    ensures exit == Unbumpable <==> IsVersionTagged(tags, cur) && BumpPatch(cur).Raise?
    ensures exit == Declined <==>
      IsVersionTagged(tags, cur) && BumpPatch(cur).Return? && !Confirmed(stdin, pos, bumps)
  {
    cur := version;
    bumps := 0;
    while IsVersionTagged(tags, cur)
      invariant ReachedBy(version, bumps, cur)
      invariant BumpedThrough(version, tags, stdin, pos, bumps)
      decreases bumps == 0, Headroom(version, bumps, tags)
    {
      if bumps >= 1 {
        HeadroomPositive(version, bumps, tags);
      }
      var stop, next := BumpOnce(version, tags, stdin, pos, bumps, cur);
      if stop.Some? {
        ReachedByBumps(version, bumps, cur);
        return stop.value, cur, bumps;
      }
      cur := next;
      bumps := bumps + 1;
    }
    ReachedByBumps(version, bumps, cur);
    exit := Available;
  }

  /** cur is the version reached after k bumps, in closed form. */
  predicate ReachedBy(version: string, k: nat, cur: string) {
    && (k == 0 ==> cur == version)
    && (k >= 1 ==> BumpPatch(version).Return? && cur == Bumped(version, k))
  }

  lemma ReachedByBumps(version: string, k: nat, cur: string)
    requires ReachedBy(version, k, cur)
    ensures Bumps(version, k) == Return(cur)
  {
    if k >= 1 {
      BumpsClosedForm(version, k);
    }
  }

  /** One pass of the loop body on the tagged version cur, reached after
      k bumps: stop when it cannot be bumped or the user declines,
      otherwise hand back the next version. */
  method BumpOnce(version: string, tags: set<string>, stdin: seq<string>, pos: nat, k: nat, cur: string)
    returns (stop: Option<LoopExit>, next: string)
    requires IsVersionTagged(tags, cur)
    requires ReachedBy(version, k, cur) && BumpedThrough(version, tags, stdin, pos, k)
    ensures stop == Some(Unbumpable) <==> BumpPatch(cur).Raise?
    ensures stop == Some(Declined) <==> BumpPatch(cur).Return? && !Confirmed(stdin, pos, k)
    ensures stop != Some(Available)
    ensures stop.None? ==> ReachedBy(version, k + 1, next) && BumpedThrough(version, tags, stdin, pos, k + 1)
  {
    var bumped := BumpPatch(cur);
    if bumped.Raise? {
      return Some(Unbumpable), cur;
    }
    if !Confirmed(stdin, pos, k) {
      return Some(Declined), cur;
    }
    ReachedByBumps(version, k, cur);
    BumpedThroughExtend(version, tags, stdin, pos, k, cur);
    NextBumped(version, k, cur);
    stop, next := None, bumped.value;
  }

  /** _ensure_untagged_version: runs the bump loop; a refusal fails with
      the current version and an unbumpable version raises ValueError. Once
      an untagged version is reached, package.json is rewritten if it
      differs from the original. asked counts the questions put. */
  method EnsureUntaggedVersion(version: string, tags: set<string>, stdin: seq<string>, pos: nat,
                               pkg: Manifest, writable: bool)
    returns (result: Py<(string, bool)>, bumps: nat, asked: nat, pkg': Manifest)
    ensures Bumps(version, bumps).Return? && BumpedThrough(version, tags, stdin, pos, bumps)
    ensures var cur := Bumps(version, bumps).value;
      && (!IsVersionTagged(tags, cur) ==>
            && asked == bumps
            && (cur == version ==> result == Return((cur, true)) && pkg' == pkg)
            && (cur != version ==>
                  var w := WritePackageVersion(pkg, writable, cur);
                  result == Return((cur, w.ok)) && pkg' == w.manifest))
      && (IsVersionTagged(tags, cur) && BumpPatch(cur).Raise? ==>
            asked == bumps && result == Raise("ValueError") && pkg' == pkg)
      && (IsVersionTagged(tags, cur) && BumpPatch(cur).Return? ==>
            asked == bumps + 1 && !Confirmed(stdin, pos, bumps) && result == Return((cur, false)) && pkg' == pkg)
  {
    var exit, cur;
    exit, cur, bumps := BumpUntilUntagged(version, tags, stdin, pos);
    match exit
    case Unbumpable =>
      result, asked, pkg' := Raise("ValueError"), bumps, pkg;
    case Declined =>
      result, asked, pkg' := Return((cur, false)), bumps + 1, pkg;
    case Available =>
      asked := bumps;
      if cur != version {
        var w := WritePackageVersion(pkg, writable, cur);
        result, pkg' := Return((cur, w.ok)), w.manifest;
      } else {
        result, pkg' := Return((cur, true)), pkg;
      }
  }

  /** _stamp_changelog: every "## [Unreleased]", in any letter case and
      anywhere in the text, becomes the dated version header. Fails, and
      leaves the file as it was, when the file cannot be read, holds no such
      header, or cannot be written. */
  function StampChangelog(changelog: TextFile, writable: bool, version: string, today: string): (r: Rewrite)
    ensures r.ok <==> changelog.Text? && writable && MatchesFrom(Unreleased, changelog.content, 0)
    ensures !r.ok ==> r.file == changelog
    ensures r.ok ==> && r.file == Text(Sub(Unreleased, DatedHeader(version, today), changelog.content).text)
                     && exists o :: OccursAt(r.file.content, DatedHeader(version, today), o)
  {
    match changelog
    case Unreadable => Rewrite(false, changelog)
    case Text(content) =>
      var header := DatedHeader(version, today);
      var s := Sub(Unreleased, header, content);
      SubCountZero(Unreleased, header, content, 0);
      if s.count == 0 || !writable then Rewrite(false, changelog)
      else
        SubPlacesReplacement(Unreleased, header, content, 0);
        Rewrite(true, Text(s.text))
  }

  /** The two project files the version gate reads and writes. */
  datatype Project = Project(manifest: Manifest, manifestWritable: bool,
                             changelog: TextFile, changelogWritable: bool)

  /** validate_version_changelog: a readable version, then an Unreleased
      section, then an untagged version (bumping on request), then the
      stamp. On success the version is untagged, package.json carries it
      and the changelog holds its dated header. */
  method ValidateVersionChangelog(p: Project, tags: set<string>, stdin: seq<string>, pos: nat, today: string)
    returns (result: Py<(string, bool)>, bumps: nat, asked: nat, p': Project)
    ensures var v := ReadPackageVersion(p.manifest);
      && (v == "unknown" ==> result == Return((v, false)) && asked == 0 && p' == p)
      && (v != "unknown" && !HasUnreleasedSection(p.changelog) ==>
            result == Return((v, false)) && asked == 0 && p' == p)
      && (result.Raise? ==> result == Raise("ValueError") && p' == p)
      && (result.Return? && result.value.1 ==>
            && v != "unknown" && HasUnreleasedSection(p.changelog)
            && Bumps(v, bumps) == Return(result.value.0)
            && BumpedThrough(v, tags, stdin, pos, bumps)
            && !IsVersionTagged(tags, result.value.0)
            && ReadPackageVersion(p'.manifest) == result.value.0
            && p'.changelog.Text?
            && exists o :: OccursAt(p'.changelog.content, DatedHeader(result.value.0, today), o))
    ensures p'.manifestWritable == p.manifestWritable && p'.changelogWritable == p.changelogWritable
    ensures result.Return? && !result.value.1 ==> p'.changelog == p.changelog
    ensures result.Return? && result.value.1 ==>
      p'.changelog == StampChangelog(p.changelog, p.changelogWritable, result.value.0, today).file
    ensures result.Return? && IsVersionTagged(tags, result.value.0) ==> p' == p
    ensures p'.manifest == p.manifest
      || (result.Return? && p'.manifest == WritePackageVersion(p.manifest, p.manifestWritable, result.value.0).manifest)
  {
    var v := ReadPackageVersion(p.manifest);
    if v == "unknown" {
      return Return((v, false)), 0, 0, p;
    }
    if !HasUnreleasedSection(p.changelog) {
      return Return((v, false)), 0, 0, p;
    }
    var tagged, pkg';
    tagged, bumps, asked, pkg' := EnsureUntaggedVersion(v, tags, stdin, pos, p.manifest, p.manifestWritable);
    if tagged.Raise? {
      return tagged, bumps, asked, p;
    }
    var version := tagged.value.0;
    if !tagged.value.1 {
      return Return((version, false)), bumps, asked, p.(manifest := pkg');
    }
    var stamp := StampChangelog(p.changelog, p.changelogWritable, version, today);
    result := Return((version, stamp.ok));
    p' := p.(manifest := pkg', changelog := stamp.file);
  }

  // ---------------------------------------------------------------------
  // Properties

  /** The patch number of a version whose first bump succeeds. */
  function PatchOf(version: string): int
    requires BumpPatch(version).Return?
  {
    ParseInt(Split(version, '.')[2]).value
  }

  /** The closed form of k bumps: the patch number raised by k, the major
      and minor parts untouched. */
  function Bumped(version: string, k: nat): string
    requires BumpPatch(version).Return?
  {
    var parts := Split(version, '.');
    parts[0] + "." + parts[1] + "." + IntToString(PatchOf(version) + k)
  }

  lemma BumpedFirst(version: string)
    requires BumpPatch(version).Return?
    ensures BumpPatch(version) == Return(Bumped(version, 1))
  {
  }

  /** A bumped version splits back into the same major and minor parts and
      the raised patch number. */
  lemma BumpedParts(version: string, k: nat)
    requires BumpPatch(version).Return?
    ensures var parts := Split(version, '.');
      && Split(Bumped(version, k), '.') == [parts[0], parts[1], IntToString(PatchOf(version) + k)]
      && ParseInt(IntToString(PatchOf(version) + k)) == Some(PatchOf(version) + k)
  {
    var parts := Split(version, '.');
    SplitPartsNoSeparator(version, '.');
    assert '.' !in parts[0] && '.' !in parts[1];
    IntToStringNoDot(PatchOf(version) + k);
    SplitThree(parts[0], parts[1], IntToString(PatchOf(version) + k));
    ParseIntRoundTrip(PatchOf(version) + k);
  }

  /** Bumping a bumped version raises its patch number by one more. */
  lemma BumpedStep(version: string, k: nat)
    requires BumpPatch(version).Return?
    ensures BumpPatch(Bumped(version, k)) == Return(Bumped(version, k + 1))
  {
    BumpedParts(version, k);
  }

  /** The bump chain follows the closed form once the first bump succeeds. */
  lemma BumpsClosedForm(version: string, k: nat)
    requires k >= 1 && BumpPatch(version).Return?
    ensures Bumps(version, k) == Return(Bumped(version, k))
    decreases k
  {
    if k == 1 {
      BumpsFirst(version);
    } else {
      BumpsClosedForm(version, k - 1);
      BumpsStep(version, k - 1);
    }
  }

  lemma BumpsFirst(version: string)
    requires BumpPatch(version).Return?
    ensures Bumps(version, 1) == Return(Bumped(version, 1))
  {
    BumpedFirst(version);
    BumpsNext(version, 0, version);
  }

  lemma BumpsStep(version: string, k: nat)
    requires BumpPatch(version).Return? && Bumps(version, k) == Return(Bumped(version, k))
    ensures Bumps(version, k + 1) == Return(Bumped(version, k + 1))
  {
    BumpsNext(version, k, Bumped(version, k));
    BumpedStep(version, k);
  }

  /** The next version in the loop is the closed form one step further. */
  lemma NextBumped(version: string, k: nat, cur: string)
    requires k == 0 ==> cur == version
    requires k >= 1 ==> BumpPatch(version).Return? && cur == Bumped(version, k)
    requires BumpPatch(cur).Return?
    ensures BumpPatch(version).Return? && BumpPatch(cur).value == Bumped(version, k + 1)
  {
    if k == 0 {
      BumpedFirst(version);
    } else {
      BumpedStep(version, k);
    }
  }

  lemma BumpedThroughExtend(version: string, tags: set<string>, stdin: seq<string>, pos: nat, k: nat, cur: string)
    requires BumpedThrough(version, tags, stdin, pos, k)
    requires Bumps(version, k) == Return(cur) && IsVersionTagged(tags, cur) && Confirmed(stdin, pos, k)
    ensures BumpedThrough(version, tags, stdin, pos, k + 1)
  {
  }

  /** One more link of the bump chain is one more _bump_patch. */
  lemma BumpsNext(version: string, k: nat, cur: string)
    requires Bumps(version, k) == Return(cur)
    ensures Bumps(version, k + 1) == BumpPatch(cur)
  {
  }

  /** _bump_patch raises the patch number by one and keeps major and minor. */
  lemma BumpPatchIncrements(version: string)
    requires BumpPatch(version).Return?
    ensures var parts := Split(version, '.');
      var next := Split(BumpPatch(version).value, '.');
      && |next| == 3 && next[0] == parts[0] && next[1] == parts[1]
      && ParseInt(next[2]) == Some(ParseInt(parts[2]).value + 1)
  {
    BumpedFirst(version);
    BumpedParts(version, 1);
  }

  /** Any bump changes the version, so package.json is rewritten exactly
      when at least one bump was accepted. */
  lemma BumpsChange(version: string, k: nat)
    requires k >= 1 && Bumps(version, k).Return?
    ensures Bumps(version, k).value != version
  {
    BumpsDefinedFirst(version, k);
    BumpsClosedForm(version, k);
    BumpedParts(version, k);
    assert ParseInt(Split(Bumped(version, k), '.')[2]) != ParseInt(Split(version, '.')[2]);
  }

  /** A chain of k >= 1 bumps that succeeds starts with a successful bump. */
  lemma {:induction false} BumpsDefinedFirst(version: string, k: nat)
    requires k >= 1 && Bumps(version, k).Return?
    ensures BumpPatch(version).Return?
  {
    if k > 1 {
      assert Bumps(version, k - 1).Return?;
      BumpsDefinedFirst(version, k - 1);
    }
  }

  /** The longest tag, which bounds the patch numbers a bump chain can meet. */
  ghost function MaxLen(tags: set<string>): (m: nat)
    ensures forall t | t in tags :: |t| <= m
    decreases tags
  {
    if tags == {} then 0
    else
      var t :| t in tags;
      var rest := MaxLen(tags - {t});
      if |t| > rest then |t| else rest
  }

  /** How far the patch number of the k-th bump is below 10^MaxLen(tags). */
  ghost function Headroom(version: string, k: nat, tags: set<string>): int {
    if k >= 1 && BumpPatch(version).Return? then Pow10(MaxLen(tags)) - (PatchOf(version) + k) else 0
  }

  /** A tagged bumped version has a patch number shorter than the longest
      tag, so the bump loop always ends. */
  lemma HeadroomPositive(version: string, k: nat, tags: set<string>)
    requires k >= 1 && BumpPatch(version).Return?
    requires IsVersionTagged(tags, Bumped(version, k))
    ensures Headroom(version, k, tags) > 0
  {
    var n := PatchOf(version) + k;
    var s := IntToString(n);
    var m := MaxLen(tags);
    assert |"v" + Bumped(version, k)| <= m;
    assert |s| < m;
    if n >= 0 {
      NatToStringBound(n);
      Pow10Monotone(|s|, m);
    }
  }

  /** A header at the start of a line is also found by the stamp, so a
      changelog that passes the section check is always stamped when it
      can be written. */
  lemma UnreleasedSectionStamps(changelog: TextFile, writable: bool, version: string, today: string)
    requires HasUnreleasedSection(changelog) && writable
    ensures StampChangelog(changelog, writable, version, today).ok
  {
    var content := changelog.content;
    var line :| line in Lines(content) && MatchesCIAt(line, 0, UnreleasedHeader);
    LineOccurs(content, line);
    var o :| OccursAt(content, line, o);
    var h := |UnreleasedHeader|;
    assert content[o..o + h] == line[..h];
    assert MatchLen(Unreleased, content, o).Some?;
  }

  /** has_unreleased_section: an unreadable changelog has no section, and
      a line beginning with "## [Unreleased]" in any letter case, at the
      start of the file or after a line break, is one. */
  lemma UnreleasedSectionFound(pre: string, h: string, rest: string)
    requires pre == [] || pre[|pre| - 1] == '\n'
    requires |h| == |UnreleasedHeader| && Lower(h) == Lower(UnreleasedHeader)
    ensures !HasUnreleasedSection(Unreadable)
    ensures HasUnreleasedSection(Text(pre + h + rest))
  {
    assert '\n' !in h by {
      forall k | 0 <= k < |h| ensures h[k] != '\n' {
        assert LowerChar(h[k]) == Lower(UnreleasedHeader)[k];
      }
    }
    FirstLineBegins(h, rest, []);
    assert [] + h == h;
    var first := LinesFrom(h + rest, [])[0];
    assert first[..|h|] == h;
    assert MatchesCIAt(first, 0, UnreleasedHeader);
    if pre == [] {
      assert pre + h + rest == h + rest;
    } else {
      assert pre + h + rest == pre + (h + rest);
      LinesFromAppend(pre, h + rest, []);
      assert first in Lines(pre + h + rest);
    }
  }

  /** The output of `git tag -l <name>`: the name on a line of its own when
      the tag exists, nothing otherwise. */
  function TagListing(tags: set<string>, name: string): string {
    if name in tags then name + "\n" else ""
  }

  /** _is_version_tagged reads a non-blank listing of "v<version>" as
      tagged: that is exactly membership of the tag in the set. */
  lemma TaggedIffListed(tags: set<string>, version: string)
    ensures IsVersionTagged(tags, version) <==> Strip(TagListing(tags, "v" + version)) != []
  {
    var listing := TagListing(tags, "v" + version);
    StripShape(listing);
    if "v" + version in tags {
      assert listing[0] == 'v';
    } else {
      assert listing == [];
    }
  }

  /** The converse fails: the stamp is not anchored to line starts, so a
      header in mid-line is stamped although the section check rejects it. */
  lemma MidLineHeaderNotASection()
    ensures var content := "x " + UnreleasedHeader;
      !HasUnreleasedSection(Text(content)) && MatchesFrom(Unreleased, content, 0)
  {
    var content := "x " + UnreleasedHeader;
    assert Lines(content) == [content] by {
      assert '\n' !in content;
      LinesNoBreak(content, []);
      assert [] + content == content;
    }
    HeaderNotAtStart(content);
    HeaderAfterTwo(content);
  }

  lemma HeaderNotAtStart(content: string)
    requires |content| >= |UnreleasedHeader| && content[0] == 'x'
    ensures !MatchesCIAt(content, 0, UnreleasedHeader)
  {
    assert Lower(content[..|UnreleasedHeader|])[0] == 'x';
    assert Lower(UnreleasedHeader)[0] == '#';
  }

  lemma HeaderAfterTwo(content: string)
    requires content == "x " + UnreleasedHeader
    ensures MatchLen(Unreleased, content, 2).Some?
  {
    assert content[2..2 + |UnreleasedHeader|] == UnreleasedHeader;
  }

  lemma {:induction false} LinesNoBreak(s: string, cur: string)
    requires '\n' !in s && cur + s != []
    ensures LinesFrom(s, cur) == [cur + s]
    decreases |s|
  {
    if s == [] {
      assert cur + s == cur;
    } else {
      assert s[0] != '\n' && '\n' !in s[1..];
      LinesNoBreak(s[1..], cur + [s[0]]);
      assert (cur + [s[0]]) + s[1..] == cur + s;
    }
  }

  /** A failed fast-forward is the only way the upstream comparison fails;
      an ahead or diverged branch passes without pulling. */
  lemma NotBehindPasses(run: Runner)
    requires run(RevParseUpstreamCmd).returnCode == 0
    requires Strip(run(MergeBaseCmd).stdout) != Strip(run(RevParseHeadCmd).stdout)
    ensures CheckIfBehind(run).ok && PullCmd !in CheckIfBehind(run).trace
  {
  }

  /** A failed fetch blocks before any comparison runs. */
  lemma FetchFailureStopsSync(run: Runner)
    requires run(FetchCmd).returnCode != 0
    ensures !CheckRemoteSync(run).ok && RevParseHeadCmd !in CheckRemoteSync(run).trace
  {
  }

  /** An absent .package-lock.json never triggers an install. */
  lemma MissingLockNoInstall(d: DepState, run: Runner)
    requires d.packageJson && d.nodeModules && d.lockMtime.None?
    ensures EnsureDependencies(d, run) == Checked(true, [])
  {
  }

  /** A dirty tree with no answer, or a blank one, blocks. */
  lemma DirtyTreeDefaultsToNo(status: Completed, reply: Option<string>)
    requires status.returnCode == 0 && Strip(status.stdout) != []
    requires reply.None? || Strip(reply.value) == []
    ensures !CheckWorkingTree(status, reply).ok
  {
  }

  /** Violations names exactly the TypeScript files over the limit. */
  lemma {:induction false} ViolationsEmpty(files: seq<SourceFile>)
    ensures Violations(files) == [] <==> forall i | 0 <= i < |files| :: !OverLimit(files[i])
    decreases |files|
  {
    if files != [] {
      var init := files[..|files| - 1];
      ViolationsEmpty(init);
      assert forall i | 0 <= i < |init| :: init[i] == files[i];
    }
  }

  /** Each message names its file and line count, so it is never empty. */
  lemma {:induction false} ViolationsMention(files: seq<SourceFile>, i: nat)
    requires i < |Violations(files)|
    ensures exists j | 0 <= j < |files| :: OverLimit(files[j]) && Violations(files)[i] == ViolationMessage(files[j])
    decreases |files|
  {
    var init := files[..|files| - 1];
    var last := files[|files| - 1];
    if i < |Violations(init)| {
      ViolationsMention(init, i);
      var j :| 0 <= j < |init| && OverLimit(init[j]) && Violations(init)[i] == ViolationMessage(init[j]);
      assert files[j] == init[j];
    } else {
      assert Violations(files)[i] == ViolationMessage(last);
    }
  }
}
