/** The irreversible publish steps: the final confirmation, dating the
    changelog's "Current" header, the release commit and its push, the
    annotated release tag, and the release notes taken from the changelog.
    Git goes through the runner; the changelog is a value with a flag
    saying whether writing it succeeds; today's date is a parameter.
    Packaging, the marketplace upload and the GitHub release are not part
    of this model. */
module Publish {
  import opened Base
  import opened Text
  import opened Display
  import opened Patterns
  import ChecksProject

  // ---------------------------------------------------------------------
  // Confirmation

  /** confirm_publish: the summary is shown, then only an explicit yes
      proceeds; no answer, a blank answer or end of input declines. */
  function ConfirmPublish(reply: Option<string>): (r: bool)
    ensures r <==> reply.Some? && Strip(reply.value) != [] && IsYes(reply.value)
  {
    AskYn(reply, false)
  }

  // ---------------------------------------------------------------------
  // Changelog

  /** finalize_changelog: every "## [version] - Current" (or "current",
      any whitespace around the dash) becomes the dated header. An
      unreadable file, no such header or a failed write fails, and only a
      success changes the file. */
  function FinalizeChangelog(changelog: TextFile, writable: bool, version: string, today: string): (r: Rewrite)
    ensures r.ok <==> changelog.Text? && writable && MatchesFrom(CurrentHeader(version), changelog.content, 0)
    ensures !r.ok ==> r.file == changelog
    ensures r.ok ==> && r.file == Text(Sub(CurrentHeader(version), DatedHeader(version, today), changelog.content).text)
                     && exists o :: OccursAt(r.file.content, DatedHeader(version, today), o)
  {
    match changelog
    case Unreadable => Rewrite(false, changelog)
    case Text(content) =>
      var header := DatedHeader(version, today);
      var s := Sub(CurrentHeader(version), header, content);
      SubCountZero(CurrentHeader(version), header, content, 0);
      if s.count == 0 || !writable then Rewrite(false, changelog)
      else
        SubPlacesReplacement(CurrentHeader(version), header, content, 0);
        Rewrite(true, Text(s.text))
  }

  // ---------------------------------------------------------------------
  // Git

  const AddAllCmd: seq<string> := ["git", "add", "-A"]
  const BranchCmd: seq<string> := ["git", "rev-parse", "--abbrev-ref", "HEAD"]

  function CommitCmd(version: string): seq<string> {
    ["git", "commit", "-m", "release: v" + version]
  }

  function PushCmd(branch: string): seq<string> {
    ["git", "push", "origin", branch]
  }

  /** The release tag of a version. */
  function Tag(version: string): string {
    "v" + version
  }

  function TagCmd(version: string): seq<string> {
    ["git", "tag", "-a", Tag(version), "-m", "Release " + version]
  }

  /** Any `git push`, of a branch or of a tag. */
  predicate IsPush(cmd: seq<string>) {
    |cmd| >= 2 && cmd[0] == "git" && cmd[1] == "push"
  }

  /** The branch _push_to_origin pushes: the stripped output of the
      branch query, or "main" when that output is blank. */
  function BranchName(stdout: string): (b: string)
    ensures b != []
    ensures Strip(stdout) != [] ==> b == Strip(stdout)
  {
    var name := Strip(stdout);
    if name == [] then "main" else name
  }

  /** _push_to_origin: asks git for the current branch (its exit status is
      not consulted), then pushes that branch to origin; the push decides. */
  function PushToOrigin(run: Runner): (r: Checked)
    ensures |r.trace| == 2 && r.trace[0] == BranchCmd && IsPush(r.trace[1])
    ensures r.trace[1] == PushCmd(BranchName(run(BranchCmd).stdout))
    ensures r.ok <==> run(r.trace[1]).returnCode == 0
  {
    var branch := BranchName(run(BranchCmd).stdout);
    Checked(run(PushCmd(branch)).returnCode == 0, [BranchCmd, PushCmd(branch)])
  }

  /** `git status --porcelain` printed nothing but whitespace. */
  predicate NothingStaged(run: Runner) {
    Strip(run(ChecksProject.StatusCmd).stdout) == []
  }

  /** git_commit_and_push: stages everything (its exit status is not
      consulted), then with nothing staged succeeds at once; otherwise
      commits the release and, only if the commit worked, pushes. */
  function GitCommitAndPush(version: string, run: Runner): (r: Checked)
    ensures |r.trace| >= 2 && r.trace[0] == AddAllCmd && r.trace[1] == ChecksProject.StatusCmd
    ensures NothingStaged(run) <==> |r.trace| == 2
    ensures r.ok ==> NothingStaged(run) || run(CommitCmd(version)).returnCode == 0
  {
    var staged := [AddAllCmd, ChecksProject.StatusCmd];
    if NothingStaged(run) then Checked(true, staged)
    else if run(CommitCmd(version)).returnCode != 0 then
      Checked(false, staged + [CommitCmd(version)])
    else
      var push := PushToOrigin(run);
      Checked(push.ok, staged + [CommitCmd(version)] + push.trace)
  }

  /** create_git_tag: creates the annotated tag "v<version>" and pushes it
      only once creation has succeeded; both must succeed. */
  function CreateGitTag(version: string, run: Runner): (r: Checked)
    ensures r.trace != [] && r.trace[0] == TagCmd(version)
    ensures r.ok <==> run(TagCmd(version)).returnCode == 0 && run(PushCmd(Tag(version))).returnCode == 0
    ensures !IsPush(r.trace[0])
    ensures |r.trace| == 2 <==> run(TagCmd(version)).returnCode == 0
    ensures |r.trace| <= 2 && (|r.trace| == 2 ==> r.trace[1] == PushCmd(Tag(version)))
  {
    assert TagCmd(version)[1][0] != 'p';
    if run(TagCmd(version)).returnCode != 0 then Checked(false, [TagCmd(version)])
    else Checked(run(PushCmd(Tag(version))).returnCode == 0, [TagCmd(version), PushCmd(Tag(version))])
  }

  // ---------------------------------------------------------------------
  // Release notes

  const SectionStart: string := "## ["

  /** The lines the section scan keeps from lines, given whether it is
      already collecting: a header of this version starts (or restarts)
      collecting and is itself dropped; while collecting, any other
      version header ends the scan; other lines are kept while collecting. */
  function Collect(lines: seq<string>, version: string, collecting: bool): seq<string>
    decreases |lines|
  {
    if lines == [] then []
    else if StartsWith(lines[0], VersionHeader(version)) then Collect(lines[1..], version, true)
    else if collecting && StartsWith(lines[0], SectionStart) then []
    else (if collecting then [lines[0]] else []) + Collect(lines[1..], version, collecting)
  }

  /** The generic notes used when the changelog gives none. */
  function Fallback(version: string): string {
    "Release " + version
  }

  /** The notes made from the collected lines: joined and stripped, or the
      generic text when that leaves nothing. */
  function Notes(section: seq<string>, version: string): (r: string)
    ensures r != []
    ensures Strip(Concat(section)) != [] ==> r == Strip(Concat(section))
    ensures Strip(Concat(section)) == [] ==> r == Fallback(version)
  {
    var notes := Strip(Concat(section));
    if notes == [] then Fallback(version) else notes
  }

  /** extract_changelog_section: scans the changelog's lines once with a
      collecting flag, then joins and strips what it kept. An unreadable
      changelog gives the generic text; the result is never empty. */
  method ExtractChangelogSection(changelog: TextFile, version: string) returns (r: string)
    ensures r != []
    ensures changelog.Unreadable? ==> r == Fallback(version)
    ensures changelog.Text? ==> r == Notes(Collect(Lines(changelog.content), version, false), version)
  {
    if changelog.Unreadable? {
      return Fallback(version);
    }
    var lines := Lines(changelog.content);
    var collecting := false;
    var section: seq<string> := [];
    var i := 0;
    var stopped := false;
    while i < |lines| && !stopped
      invariant 0 <= i <= |lines|
      invariant !stopped ==> section + Collect(lines[i..], version, collecting) == Collect(lines, version, false)
      invariant stopped ==> section == Collect(lines, version, false)
      decreases |lines| - i, !stopped
    {
      var line := lines[i];
      assert lines[i..][0] == line && lines[i..][1..] == lines[i + 1..];
      if StartsWith(line, VersionHeader(version)) {
        collecting := true;
        i := i + 1;
      } else if collecting && StartsWith(line, SectionStart) {
        assert section + [] == section;
        stopped := true;
      } else {
        if collecting {
          section := section + [line];
        } else {
          assert [] + Collect(lines[i + 1..], version, collecting) == Collect(lines[i + 1..], version, collecting);
        }
        i := i + 1;
      }
    }
    if !stopped {
      assert section + [] == section;
    }
    r := Notes(section, version);
  }

  // ---------------------------------------------------------------------
  // Properties

  /** The publish prompt defaults to no: without an answer nothing is published. */
  lemma PublishDefaultsToDecline(reply: Option<string>)
    requires reply.None? || Strip(reply.value) == []
    ensures !ConfirmPublish(reply)
  {
  }

  /** A "## [version] - Current" or "... - current" header anywhere in a
      writable changelog is dated, and the dated header then stands in it. */
  lemma CurrentHeaderFinalized(before: string, version: string, word: string, after: string, today: string)
    requires word == "Current" || word == "current"
    ensures var content := before + VersionHeader(version) + " - " + word + after;
      var r := FinalizeChangelog(Text(content), true, version, today);
      r.ok && exists o :: OccursAt(r.file.content, DatedHeader(version, today), o)
  {
    var content := before + VersionHeader(version) + " - " + word + after;
    CurrentHeaderMatches(version, word, before, after);
    assert MatchLen(CurrentHeader(version), content, |before|).Some?;
  }

  /** A branch query that prints nothing pushes "main". */
  lemma BlankBranchPushesMain(run: Runner)
    requires Strip(run(BranchCmd).stdout) == []
    ensures PushToOrigin(run).trace == [BranchCmd, PushCmd("main")]
  {
  }

  /** With nothing staged there is no commit and no push, and the step passes. */
  lemma CleanTreeNoCommit(version: string, run: Runner)
    requires NothingStaged(run)
    ensures var r := GitCommitAndPush(version, run);
      r.ok && CommitCmd(version) !in r.trace && forall i :: 0 <= i < |r.trace| ==> !IsPush(r.trace[i])
  {
    var r := GitCommitAndPush(version, run);
    assert r.trace == [AddAllCmd, ChecksProject.StatusCmd];
  }

  /** A failed commit is never pushed. */
  lemma CommitFailureNoPush(version: string, run: Runner)
    requires !NothingStaged(run)
    requires run(CommitCmd(version)).returnCode != 0
    ensures var r := GitCommitAndPush(version, run);
      !r.ok && forall i :: 0 <= i < |r.trace| ==> !IsPush(r.trace[i])
  {
    var r := GitCommitAndPush(version, run);
    assert r.trace == [AddAllCmd, ChecksProject.StatusCmd, CommitCmd(version)];
  }

  /** A committed release is pushed exactly once, to the current branch. */
  lemma CommitPushedOnce(version: string, run: Runner)
    requires !NothingStaged(run)
    requires run(CommitCmd(version)).returnCode == 0
    ensures var r := GitCommitAndPush(version, run);
      && r.trace == [AddAllCmd, ChecksProject.StatusCmd, CommitCmd(version), BranchCmd,
                     PushCmd(BranchName(run(BranchCmd).stdout))]
      && (r.ok <==> run(PushCmd(BranchName(run(BranchCmd).stdout))).returnCode == 0)
  {
  }

  /** Every header of this version also opens a section. */
  lemma VersionHeaderIsSection(line: string, version: string)
    ensures StartsWith(line, VersionHeader(version)) ==> StartsWith(line, SectionStart)
  {
    if StartsWith(line, VersionHeader(version)) {
      assert line[..|SectionStart|] == VersionHeader(version)[..|SectionStart|];
    }
  }

  /** Lines before the first header of this version contribute nothing. */
  lemma {:induction false} CollectSkipsPreamble(pre: seq<string>, rest: seq<string>, version: string)
    requires forall k :: 0 <= k < |pre| ==> !StartsWith(pre[k], VersionHeader(version))
    ensures Collect(pre + rest, version, false) == Collect(rest, version, false)
    decreases |pre|
  {
    if pre != [] {
      assert (pre + rest)[0] == pre[0] && (pre + rest)[1..] == pre[1..] + rest;
      CollectSkipsPreamble(pre[1..], rest, version);
      assert Collect(pre + rest, version, false) == [] + Collect(pre[1..] + rest, version, false);
    } else {
      assert pre + rest == rest;
    }
  }

  /** While collecting, lines that open no section are all kept, in order. */
  lemma {:induction false} CollectKeepsBody(body: seq<string>, rest: seq<string>, version: string)
    requires forall k :: 0 <= k < |body| ==> !StartsWith(body[k], SectionStart)
    ensures Collect(body + rest, version, true) == body + Collect(rest, version, true)
    decreases |body|
  {
    if body != [] {
      assert (body + rest)[0] == body[0] && (body + rest)[1..] == body[1..] + rest;
      VersionHeaderIsSection(body[0], version);
      CollectKeepsBody(body[1..], rest, version);
      assert Collect(body + rest, version, true) == [body[0]] + Collect(body[1..] + rest, version, true);
      assert body == [body[0]] + body[1..];
    } else {
      assert body + rest == rest;
    }
  }

  /** The section is exactly the lines strictly after the first header of
      this version and before the next header of another version. */
  lemma SectionBetweenHeaders(pre: seq<string>, header: string, body: seq<string>,
                              next: string, post: seq<string>, version: string)
    requires forall k :: 0 <= k < |pre| ==> !StartsWith(pre[k], VersionHeader(version))
    requires StartsWith(header, VersionHeader(version))
    requires forall k :: 0 <= k < |body| ==> !StartsWith(body[k], SectionStart)
    requires StartsWith(next, SectionStart) && !StartsWith(next, VersionHeader(version))
    ensures Collect(pre + [header] + body + [next] + post, version, false) == body
  {
    var tail := [next] + post;
    assert pre + [header] + body + [next] + post == pre + ([header] + (body + tail));
    CollectSkipsPreamble(pre, [header] + (body + tail), version);
    assert ([header] + (body + tail))[1..] == body + tail;
    CollectKeepsBody(body, tail, version);
    assert body + [] == body;
  }

  /** The last section runs to the end of the file. */
  lemma LastSectionToEnd(pre: seq<string>, header: string, body: seq<string>, version: string)
    requires forall k :: 0 <= k < |pre| ==> !StartsWith(pre[k], VersionHeader(version))
    requires StartsWith(header, VersionHeader(version))
    requires forall k :: 0 <= k < |body| ==> !StartsWith(body[k], SectionStart)
    ensures Collect(pre + [header] + body, version, false) == body
  {
    var lines := [header] + body;
    JoinThree(pre, [header], body);
    CollectSkipsPreamble(pre, lines, version);
    assert lines[0] == header && lines[1..] == body;
    CollectToEnd(body, version);
  }

  /** Collecting through lines that open no section keeps them all. */
  lemma CollectToEnd(body: seq<string>, version: string)
    requires forall k :: 0 <= k < |body| ==> !StartsWith(body[k], SectionStart)
    ensures Collect(body, version, true) == body
  {
    CollectKeepsBody(body, [], version);
    EmptyTail(body);
  }

  lemma EmptyTail(s: seq<string>)
    ensures s + [] == s
  {
  }

  lemma JoinThree(a: seq<string>, b: seq<string>, c: seq<string>)
    ensures a + b + c == a + (b + c)
  {
  }

  /** A second header of the same version inside the section is dropped and
      collecting goes on past it. */
  lemma RepeatedHeaderSkipped(header: string, first: seq<string>, again: string, second: seq<string>,
                              version: string)
    requires StartsWith(header, VersionHeader(version)) && StartsWith(again, VersionHeader(version))
    requires forall k :: 0 <= k < |first| ==> !StartsWith(first[k], SectionStart)
    requires forall k :: 0 <= k < |second| ==> !StartsWith(second[k], SectionStart)
    ensures Collect([header] + first + [again] + second, version, false) == first + second
  {
    var tail := [again] + second;
    var lines := [header] + (first + tail);
    JoinFour([header], first, [again], second);
    assert lines[0] == header && lines[1..] == first + tail;
    assert Collect(lines, version, false) == Collect(first + tail, version, true);
    CollectKeepsBody(first, tail, version);
    assert tail[0] == again && tail[1..] == second;
    assert Collect(tail, version, true) == Collect(second, version, true);
    CollectKeepsBody(second, [], version);
    assert second + [] == second;
  }

  lemma JoinFour(a: seq<string>, b: seq<string>, c: seq<string>, d: seq<string>)
    ensures a + b + c + d == a + (b + (c + d))
  {
  }

  /** A changelog without a header of this version yields nothing to
      collect, and so the generic release notes. */
  lemma MissingHeaderFallsBack(lines: seq<string>, version: string)
    requires forall k :: 0 <= k < |lines| ==> !StartsWith(lines[k], VersionHeader(version))
    ensures Collect(lines, version, false) == []
    ensures Notes(Collect(lines, version, false), version) == Fallback(version)
  {
    CollectSkipsPreamble(lines, [], version);
    assert lines + [] == lines;
  }
}
