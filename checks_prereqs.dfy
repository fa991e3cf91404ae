/** Prerequisite tool checks: Node.js 18 or later, npm, git, an
    authenticated GitHub CLI, and marketplace credentials for vsce. Each
    check looks at the result of one command; whether a program is on PATH
    and whether the auth probe timed out arrive as inputs. */
module ChecksPrereqs {
  import opened Base
  import opened Text

  /** The oldest Node.js major version the tooling accepts. */
  const MinNodeMajor: int := 18

  /** What `gh auth status` did under its ten-second timeout. */
  datatype AuthProbe = TimedOut | Exited(returnCode: int)

  /** The major version check_node reads from `node --version` output:
      stripped, leading 'v's dropped, the text before the first '.' read
      with int(); None when int() raises ValueError. */
  function NodeMajor(stdout: string): Option<int> {
    var version := LStripChar(Strip(stdout), 'v');
    ParseInt(Split(version, '.')[0])
  }

  /** check_node: False when node exits non-zero, otherwise whether the
      major version is at least 18; an unparsable major raises. */
  function CheckNode(result: Completed): (r: Py<bool>)
    ensures result.returnCode != 0 ==> r == Return(false)
    ensures result.returnCode == 0 ==> (r.Raise? <==> NodeMajor(result.stdout).None?)
    ensures result.returnCode == 0 && NodeMajor(result.stdout).Some? ==>
      r == Return(NodeMajor(result.stdout).value >= MinNodeMajor)
  {
    if result.returnCode != 0 then Return(false)
    else
      match NodeMajor(result.stdout)
      case None => Raise("ValueError")
      case Some(major) => Return(major >= MinNodeMajor)
  }

  /** check_npm and check_git: the tool is usable exactly when its
      `--version` command exits 0. */
  function VersionProbe(result: Completed): (r: bool)
    ensures r <==> result.returnCode == 0
  {
    result.returnCode == 0
  }

  /** check_gh_cli (blocking): gh must be on PATH and its auth probe must
      finish in time with status 0. */
  function CheckGhCli(ghOnPath: bool, auth: AuthProbe): (r: bool)
    ensures r <==> ghOnPath && auth == Exited(0)
  {
    if !ghOnPath then false
    else match auth
      case TimedOut => false
      case Exited(rc) => rc == 0
  }

  const UnknownCommand: string := "unknown command"
  const NotVsceCommand: string := "not a vsce command"

  /** check_vsce_auth: the token is verified, or the installed vsce is too
      old to have verify-pat (recognised from its lower-cased stderr) and
      the check lets the pipeline go on. */
  function CheckVsceAuth(result: Completed): (r: bool)
    ensures result.returnCode == 0 ==> r
    ensures result.returnCode != 0 ==>
      (r <==> (Contains(Lower(result.stderr), UnknownCommand) ||
               Contains(Lower(result.stderr), NotVsceCommand)))
  {
    if result.returnCode == 0 then true
    else
      var stderr := Lower(result.stderr);
      Contains(stderr, UnknownCommand) || Contains(stderr, NotVsceCommand)
  }

  // ---------------------------------------------------------------------
  // Properties

  /** Output of the usual shape "v<major>.<rest>", followed by any
      whitespace such as the newline node prints, is accepted exactly when
      the major version is at least 18. */
  lemma NodeVersionVerdict(major: nat, rest: string, ws: string, err: string)
    requires rest == [] || !IsSpace(rest[|rest| - 1])
    requires forall i :: 0 <= i < |ws| ==> IsSpace(ws[i])
    ensures CheckNode(Completed(0, "v" + NatToString(major) + "." + rest + ws, err))
      == Return(major >= 18)
  {
    NodeMajorOf(major, rest, ws);
  }

  lemma NodeMajorOf(major: nat, rest: string, ws: string)
    requires rest == [] || !IsSpace(rest[|rest| - 1])
    requires forall i :: 0 <= i < |ws| ==> IsSpace(ws[i])
    ensures NodeMajor("v" + NatToString(major) + "." + rest + ws) == Some(major)
  {
    var digits := NatToString(major);
    OutputStripped(digits, rest, ws);
    DropV(digits, rest);
    NatToStringNoDot(major);
    assert digits + "." + rest == digits + ['.'] + rest;
    SplitAfterSeparator(digits, '.', rest);
    ParseIntRoundTrip(major);
    assert IntToString(major) == digits;
  }

  /** strip() takes off exactly the trailing whitespace. */
  lemma OutputStripped(digits: string, rest: string, ws: string)
    requires rest == [] || !IsSpace(rest[|rest| - 1])
    requires forall i :: 0 <= i < |ws| ==> IsSpace(ws[i])
    ensures Strip("v" + digits + "." + rest + ws) == "v" + digits + "." + rest
  {
    var out := "v" + digits + "." + rest;
    assert out[0] == 'v';
    assert out[|out| - 1] == if rest == [] then '.' else rest[|rest| - 1];
    StripTrailing(out, ws);
  }

  /** strip() of a text that starts and ends with a non-space, followed by
      whitespace, gives back that text. */
  lemma StripTrailing(s: string, ws: string)
    requires s != [] && !IsSpace(s[0]) && !IsSpace(s[|s| - 1])
    requires forall i :: 0 <= i < |ws| ==> IsSpace(ws[i])
    ensures Strip(s + ws) == s
  {
    assert (s + ws)[0] == s[0];
    RStripTrailing(s, ws);
  }

  /** rstrip() of a text that ends in a non-space, followed by whitespace,
      gives back that text. */
  lemma {:induction false} RStripTrailing(s: string, ws: string)
    requires s != [] && !IsSpace(s[|s| - 1])
    requires forall i :: 0 <= i < |ws| ==> IsSpace(ws[i])
    ensures RStrip(s + ws) == s
    decreases |ws|
  {
    if ws == [] {
      assert s + ws == s;
    } else {
      var shorter := ws[..|ws| - 1];
      assert (s + ws)[..|s + ws| - 1] == s + shorter;
      RStripTrailing(s, shorter);
    }
  }

  lemma DropV(digits: string, rest: string)
    requires digits != [] && IsDigit(digits[0])
    ensures LStripChar("v" + digits + "." + rest, 'v') == digits + "." + rest
  {
    var out := "v" + digits + "." + rest;
    assert out[1..] == digits + "." + rest;
    assert LStripChar(out[1..], 'v') == out[1..];
  }

  /** A node that prints nothing makes check_node raise. */
  lemma NodeSilentRaises(err: string)
    ensures CheckNode(Completed(0, "", err)).Raise?
  {
    assert Strip("") == "";
    assert LStripChar("", 'v') == "";
    assert Split("", '.') == [""];
  }

  /** A missing gh blocks whatever the probe would have said, and so does a
      timed-out probe. */
  lemma GhCliBlocks(auth: AuthProbe)
    ensures !CheckGhCli(false, auth)
    ensures !CheckGhCli(true, TimedOut)
  {
  }

  /** The message older vsce releases print is recognised wherever it
      stands in stderr. */
  lemma VsceOldReleaseTolerated(rc: int, out: string, before: string, after: string)
    requires rc != 0
    ensures CheckVsceAuth(Completed(rc, out, before + UnknownCommand + after))
  {
    var s := before + UnknownCommand + after;
    var l := Lower(s);
    var k := |before|;
    forall i | 0 <= i < |UnknownCommand| ensures l[k + i] == UnknownCommand[i] {
      assert s[k + i] == UnknownCommand[i];
    }
    assert l[k..k + |UnknownCommand|] == UnknownCommand;
    assert OccursAt(l, UnknownCommand, k);
  }

  /** Any other failure of verify-pat with an empty stderr blocks. */
  lemma VsceSilentFailureBlocks(rc: int, out: string)
    requires rc != 0
    ensures !CheckVsceAuth(Completed(rc, out, ""))
  {
  }
}
