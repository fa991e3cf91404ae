/** The run report a pipeline saves at its end: a header with the pass and
    fail counts, optional package and publish lines, then one line per
    recorded step in run-log order. Clock readings (the generation time,
    the file-name timestamp) and the formatting of seconds arrive as
    parameters; the directory creation and the file write are not
    modelled, the method returns the file name and the text it writes. */
module Report {
  import opened Base
  import opened Text
  import opened Constants
  import opened Utils

  /** The packaged extension when its path names a file: its base name
      and its size in KB as formatted with one decimal. */
  datatype Artifact = Artifact(baseName: string, sizeText: string)

  /** "Publish" or "Analysis" in the title. */
  function Kind(isPublish: bool): string {
    if isPublish then "Publish" else "Analysis"
  }

  /** "publish" or "analyze" in the file name. */
  function FileKind(isPublish: bool): string {
    if isPublish then "publish" else "analyze"
  }

  /** The sum of the recorded step times. */
  function TotalTime(results: seq<StepResult>): real {
    if results == [] then 0.0 else results[0].elapsed + TotalTime(results[1..])
  }

  /** The counts line: the failed count only when some step failed. */
  function ResultsLine(passed: nat, failed: nat): string {
    if failed != 0 then "Results: " + NatToString(passed) + " passed, " + NatToString(failed) + " failed"
    else "Results: " + NatToString(passed) + " passed"
  }

  /** _build_report_header: title, generation time, version, a blank line,
      the counts (passed rows, and the rest as failed), the total time. */
  function BuildReportHeader(results: seq<StepResult>, version: string, isPublish: bool,
                             generated: string, fmt: real -> string): (r: seq<string>)
    ensures |r| == 6
    ensures r[2] == "Extension version: " + version && r[3] == ""
    ensures r[4] == ResultsLine(PassedCount(results), |results| - PassedCount(results))
  {
    var passed := PassedCount(results);
    [ "Saropa Log Capture — " + Kind(isPublish) + " Report",
      "Generated: " + generated,
      "Extension version: " + version,
      "",
      ResultsLine(passed, |results| - passed),
      "Total time: " + fmt(TotalTime(results)) ]
  }

  function ReportName(ts: string, isPublish: bool): string {
    ts + "_saropa_log_capture_" + FileKind(isPublish) + "_report.log"
  }

  function ArtifactLines(vsix: Option<Artifact>): seq<string> {
    match vsix
    case None => []
    case Some(a) => ["VSIX file: " + a.baseName, "VSIX size: " + a.sizeText + " KB"]
  }

  function MarketplaceLine(): string {
    "Marketplace: " + MarketplaceUrl
  }

  /** The link to the release of this version on GitHub. */
  function ReleaseLine(version: string): string {
    "GitHub release: " + RepoUrl + "/releases/tag/v" + version
  }

  function PublishLines(version: string, isPublish: bool): seq<string> {
    if isPublish then [MarketplaceLine(), ReleaseLine(version)] else []
  }

  /** One Step Details row: status, name padded to 25, time right-aligned in 8. */
  function StepLine(s: StepResult, fmt: real -> string): string {
    "  [" + (if s.passed then "PASS" else "FAIL") + "] " + PadRight(s.name, 25) + " " + PadLeft(fmt(s.elapsed), 8)
  }

  function StepLines(results: seq<StepResult>, fmt: real -> string): (r: seq<string>)
    ensures |r| == |results|
  {
    if results == [] then [] else StepLines(results[..|results| - 1], fmt) + [StepLine(results[|results| - 1], fmt)]
  }

  /** Everything save_report puts in the report, line by line. */
  function ReportLines(results: seq<StepResult>, version: string, vsix: Option<Artifact>, isPublish: bool,
                       generated: string, fmt: real -> string): seq<string>
  {
    BuildReportHeader(results, version, isPublish, generated, fmt) + ArtifactLines(vsix)
      + PublishLines(version, isPublish) + ["", "Step Details:"] + StepLines(results, fmt)
  }

  /** "\n".join(lines) */
  function JoinLines(lines: seq<string>): string {
    if lines == [] then ""
    else if |lines| == 1 then lines[0]
    else lines[0] + "\n" + JoinLines(lines[1..])
  }

  /** save_report: builds the header, the optional package and publish
      lines and one row per step, and returns the report's file name and
      the text written to it (the lines joined with newlines, plus one). */
  method SaveReport(results: seq<StepResult>, version: string, vsix: Option<Artifact>, isPublish: bool,
                    generated: string, ts: string, fmt: real -> string)
    returns (name: string, lines: seq<string>, text: string)
    ensures name == ReportName(ts, isPublish)
    ensures lines == ReportLines(results, version, vsix, isPublish, generated, fmt)
    ensures text == JoinLines(lines) + "\n"
  {
    name := ReportName(ts, isPublish);
    lines := BuildReportHeader(results, version, isPublish, generated, fmt);
    lines := lines + ArtifactLines(vsix);
    lines := lines + PublishLines(version, isPublish);
    lines := lines + ["", "Step Details:"];
    lines := AppendStepLines(lines, results, fmt);
    text := JoinLines(lines) + "\n";
  }

  lemma StepLinesSnoc(results: seq<StepResult>, fmt: real -> string, i: nat)
    requires i < |results|
    ensures StepLines(results[..i + 1], fmt) == StepLines(results[..i], fmt) + [StepLine(results[i], fmt)]
  {
    assert results[..i + 1][..i] == results[..i];
  }

  lemma AppendAssoc(a: seq<string>, b: seq<string>, x: string)
    ensures a + b + [x] == a + (b + [x])
  {
  }

  /** The Step Details loop: one row per result, appended in order. */
  method AppendStepLines(head: seq<string>, results: seq<StepResult>, fmt: real -> string)
    returns (lines: seq<string>)
    ensures lines == head + StepLines(results, fmt)
  {
    lines := head;
    var i := 0;
    while i < |results|
      invariant 0 <= i <= |results|
      invariant lines == head + StepLines(results[..i], fmt)
    {
      var line := StepLine(results[i], fmt);
      StepLinesSnoc(results, fmt, i);
      AppendAssoc(head, StepLines(results[..i], fmt), line);
      lines := lines + [line];
      i := i + 1;
    }
    assert results[..i] == results;
  }

  // ---------------------------------------------------------------------
  // Properties

  /** The passed count is the number of rows whose flag is set. */
  lemma {:induction false} PassedCountIsSize(log: seq<StepResult>)
    ensures PassedCount(log) == |set i | 0 <= i < |log| && log[i].passed|
    decreases |log|
  {
    if log != [] {
      var init := log[..|log| - 1];
      var last := log[|log| - 1];
      PassedCountIsSize(init);
      assert log == init + [last];
      PassedCountAppend(init, [last]);
      var s := set i | 0 <= i < |log| && log[i].passed;
      var t := set i | 0 <= i < |init| && init[i].passed;
      if last.passed {
        assert s == t + {|init|};
      } else {
        assert s == t;
      }
    }
  }

  /** With every step passed the counts line names no failures. */
  lemma AllPassedReportsNoFailures(results: seq<StepResult>, version: string, isPublish: bool,
                                   generated: string, fmt: real -> string)
    requires forall i :: 0 <= i < |results| ==> results[i].passed
    ensures BuildReportHeader(results, version, isPublish, generated, fmt)[4]
      == "Results: " + NatToString(|results|) + " passed"
  {
  }

  /** With some step failed the counts line gives both counts, and they
      add up to the number of steps. */
  lemma FailureReported(results: seq<StepResult>, version: string, isPublish: bool,
                        generated: string, fmt: real -> string, k: nat)
    requires k < |results| && !results[k].passed
    ensures var passed := PassedCount(results);
      && passed < |results|
      && BuildReportHeader(results, version, isPublish, generated, fmt)[4]
           == "Results: " + NatToString(passed) + " passed, " + NatToString(|results| - passed) + " failed"
  {
  }

  /** The row's status is PASS exactly for a passed step. */
  lemma StepStatus(s: StepResult, fmt: real -> string)
    ensures StepLine(s, fmt)[3..7] == "PASS" <==> s.passed
    ensures StepLine(s, fmt)[3..7] == "FAIL" <==> !s.passed
  {
    var line := StepLine(s, fmt);
    var status := if s.passed then "PASS" else "FAIL";
    assert line == "  [" + status + "] " + PadRight(s.name, 25) + " " + PadLeft(fmt(s.elapsed), 8);
    assert line[3..7] == status;
  }

  lemma {:induction false} StepLinesAt(results: seq<StepResult>, fmt: real -> string, i: nat)
    requires i < |results|
    ensures StepLines(results, fmt)[i] == StepLine(results[i], fmt)
    decreases |results|
  {
    if i < |results| - 1 {
      StepLinesAt(results[..|results| - 1], fmt, i);
    }
  }

  /** The report ends with one row per step, in run-log order. */
  lemma StepRowsInOrder(results: seq<StepResult>, version: string, vsix: Option<Artifact>, isPublish: bool,
                        generated: string, fmt: real -> string, i: nat)
    requires i < |results|
    ensures var lines := ReportLines(results, version, vsix, isPublish, generated, fmt);
      && |lines| == 8 + |ArtifactLines(vsix)| + |PublishLines(version, isPublish)| + |results|
      && lines[|lines| - |results| + i] == StepLine(results[i], fmt)
  {
    StepLinesAt(results, fmt, i);
  }

  lemma StepLineOpensWithSpace(s: StepResult, fmt: real -> string)
    ensures StepLine(s, fmt)[0] == ' '
  {
  }

  /** The two publish links start "Gi" and "Ma"; no other line of the report does. */
  lemma LinksShape(version: string)
    ensures |ReleaseLine(version)| >= 2 && ReleaseLine(version)[0] == 'G' && ReleaseLine(version)[1] == 'i'
    ensures |MarketplaceLine()| >= 2 && MarketplaceLine()[0] == 'M'
  {
  }

  lemma HeaderHasNoLinks(results: seq<StepResult>, version: string, isPublish: bool,
                         generated: string, fmt: real -> string)
    ensures var header := BuildReportHeader(results, version, isPublish, generated, fmt);
      ReleaseLine(version) !in header && MarketplaceLine() !in header
  {
    var header := BuildReportHeader(results, version, isPublish, generated, fmt);
    LinksShape(version);
    assert header[0][0] == 'S' && header[1][1] == 'e' && header[2][0] == 'E';
    assert header[3] == [] && header[4][0] == 'R' && header[5][0] == 'T';
  }

  lemma {:induction false} StepsHaveNoLinks(results: seq<StepResult>, version: string, fmt: real -> string)
    ensures ReleaseLine(version) !in StepLines(results, fmt) && MarketplaceLine() !in StepLines(results, fmt)
    decreases |results|
  {
    if results != [] {
      StepsHaveNoLinks(results[..|results| - 1], version, fmt);
      StepLineOpensWithSpace(results[|results| - 1], fmt);
      LinksShape(version);
    }
  }

  /** The marketplace and release lines are in the report exactly when it
      is a publish report. */
  lemma ReleaseLinesOnlyWhenPublishing(results: seq<StepResult>, version: string, vsix: Option<Artifact>,
                                       isPublish: bool, generated: string, fmt: real -> string)
    ensures var lines := ReportLines(results, version, vsix, isPublish, generated, fmt);
      && (ReleaseLine(version) in lines <==> isPublish)
      && (MarketplaceLine() in lines <==> isPublish)
  {
    HeaderHasNoLinks(results, version, isPublish, generated, fmt);
    StepsHaveNoLinks(results, version, fmt);
    LinksShape(version);
    var art := ArtifactLines(vsix);
    assert art == [] || (art[0][0] == 'V' && art[1][0] == 'V');
    var tail: seq<string> := ["", "Step Details:"];
    assert tail[1][0] == 'S';
  }

  /** The title and the file name tell a publish run from an analysis run. */
  lemma KindNamed(results: seq<StepResult>, version: string, generated: string, fmt: real -> string, ts: string)
    ensures BuildReportHeader(results, version, true, generated, fmt)[0]
      != BuildReportHeader(results, version, false, generated, fmt)[0]
    ensures ReportName(ts, true) != ReportName(ts, false)
  {
    var prefix := "Saropa Log Capture — ";
    var k := |prefix|;
    assert BuildReportHeader(results, version, true, generated, fmt)[0][k] == 'P';
    assert BuildReportHeader(results, version, false, generated, fmt)[0][k] == 'A';
    var n := |ts| + |"_saropa_log_capture_"|;
    assert ReportName(ts, true)[n] == 'p' && ReportName(ts, false)[n] == 'a';
  }
}
