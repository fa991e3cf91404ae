/** The step recorder behind every timed pipeline and the tolerant read of
    the extension's version. Wall-clock time is not modelled: a step's
    elapsed seconds arrive as an opaque value. */
module Utils {
  import opened Base

  /** One row of a run log: the step's name, whether it passed, its seconds. */
  datatype StepResult = StepResult(name: string, passed: bool, elapsed: real)

  /** The results list a pipeline threads through run_step. */
  class RunLog {
    var entries: seq<StepResult>

    constructor()
      ensures entries == []
    {
      entries := [];
    }

    /** run_step: records the finished step at the end of the log and hands
        its verdict back unchanged. */
    method RunStep(name: string, passed: bool, elapsed: real) returns (r: bool)
      modifies this
      ensures entries == old(entries) + [StepResult(name, passed, elapsed)]
      ensures r == passed
    {
      entries := entries + [StepResult(name, passed, elapsed)];
      r := passed;
    }

    /** Appends a row directly, as main does for steps that yield more than a verdict. */
    method Append(name: string, passed: bool, elapsed: real)
      modifies this
      ensures entries == old(entries) + [StepResult(name, passed, elapsed)]
    {
      entries := entries + [StepResult(name, passed, elapsed)];
    }
  }

  /** Number of passing rows in a log. */
  function PassedCount(log: seq<StepResult>): (n: nat)
    ensures n <= |log|
    ensures n == |log| <==> forall i :: 0 <= i < |log| ==> log[i].passed
  {
    if log == [] then 0
    else (if log[0].passed then 1 else 0) + PassedCount(log[1..])
  }

  /** The version field of package.json, verbatim and unchecked; "unknown"
      when the file cannot be read or parsed or has no such field. */
  function ReadPackageVersion(m: Manifest): (v: string)
    ensures m.Fields? && "version" in m.fields ==> v == m.fields["version"]
    ensures m.Missing? || m.Malformed? ==> v == "unknown"
    ensures m.Fields? && "version" !in m.fields ==> v == "unknown"
  {
    match m
    case Fields(fs) => if "version" in fs then fs["version"] else "unknown"
    case _ => "unknown"
  }

  /** The passed count of a log is the sum over any split of it. */
  lemma {:induction false} PassedCountAppend(a: seq<StepResult>, b: seq<StepResult>)
    ensures PassedCount(a + b) == PassedCount(a) + PassedCount(b)
    decreases |a|
  {
    if a == [] {
      assert a + b == b;
    } else {
      assert (a + b)[1..] == a[1..] + b;
      PassedCountAppend(a[1..], b);
    }
  }
}
