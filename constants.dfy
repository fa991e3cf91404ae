/** Fixed values shared by the tooling: the line budget for TypeScript
    sources, the marketplace and repository links, the development
    prerequisites, and the table of exit codes by failure category. */
module Constants {
  import opened Base

  /** Most lines a TypeScript source file may have. */
  const MaxFileLines: nat := 300

  const MarketplaceUrl: string :=
    "https://marketplace.visualstudio.com/items?itemName=saropa.saropa-log-capture"
  const RepoUrl: string := "https://github.com/saropa/saropa-log-capture"

  /** VS Code extensions a development machine must have, in install order. */
  const RequiredVscodeExtensions: seq<string> := [
    "connor4312.esbuild-problem-matchers",
    "dbaeumer.vscode-eslint",
    "ms-vscode.extension-test-runner"
  ]

  /** Global npm packages a development machine must have, in install order. */
  const RequiredGlobalNpmPackages: seq<string> := ["yo", "generator-code"]

  /** One exit code per failure category. */
  datatype ExitCode =
    | Success
    | PrerequisiteFailed
    | WorkingTreeDirty
    | RemoteSyncFailed
    | DependencyFailed
    | CompileFailed
    | TestFailed
    | QualityFailed
    | VersionInvalid
    | ChangelogFailed
    | PackageFailed
    | GitFailed
    | PublishFailed
    | ReleaseFailed
    | UserCancelled
  {
    /** The process status the category stands for. */
    function Code(): (c: nat)
      ensures c <= 14
      ensures c == 0 <==> this == Success
      ensures c == 14 <==> this == UserCancelled
    {
      match this
      case Success => 0
      case PrerequisiteFailed => 1
      case WorkingTreeDirty => 2
      case RemoteSyncFailed => 3
      case DependencyFailed => 4
      case CompileFailed => 5
      case TestFailed => 6
      case QualityFailed => 7
      case VersionInvalid => 8
      case ChangelogFailed => 9
      case PackageFailed => 10
      case GitFailed => 11
      case PublishFailed => 12
      case ReleaseFailed => 13
      case UserCancelled => 14
    }

    /** Every category except success and a user's cancellation. */
    predicate IsFailure() {
      this != Success && this != UserCancelled
    }
  }

  /** The category a process status stands for, if any. */
  function FromCode(c: int): (r: Option<ExitCode>)
    ensures r.Some? <==> 0 <= c <= 14
    ensures r.Some? ==> r.value.Code() == c
  {
    if c == 0 then Some(Success)
    else if c == 1 then Some(PrerequisiteFailed)
    else if c == 2 then Some(WorkingTreeDirty)
    else if c == 3 then Some(RemoteSyncFailed)
    else if c == 4 then Some(DependencyFailed)
    else if c == 5 then Some(CompileFailed)
    else if c == 6 then Some(TestFailed)
    else if c == 7 then Some(QualityFailed)
    else if c == 8 then Some(VersionInvalid)
    else if c == 9 then Some(ChangelogFailed)
    else if c == 10 then Some(PackageFailed)
    else if c == 11 then Some(GitFailed)
    else if c == 12 then Some(PublishFailed)
    else if c == 13 then Some(ReleaseFailed)
    else if c == 14 then Some(UserCancelled)
    else None
  }

  /** Reading a category back from its code gives the category. */
  lemma FromCodeRoundTrip(e: ExitCode)
    ensures FromCode(e.Code()) == Some(e)
  {
  }

  /** No two categories share a code. */
  lemma CodesDistinct(a: ExitCode, b: ExitCode)
    requires a != b
    ensures a.Code() != b.Code()
  {
    FromCodeRoundTrip(a);
    FromCodeRoundTrip(b);
  }

  /** Every status from 0 to 14 belongs to a category. */
  lemma CodesCover(c: int)
    requires 0 <= c <= 14
    ensures exists e: ExitCode :: e.Code() == c
  {
    assert FromCode(c).value.Code() == c;
  }

  /** A cancellation is never reported with a failure's code, nor a
      failure with success's code. */
  lemma CancelNotFailure(e: ExitCode)
    requires e.IsFailure()
    ensures e.Code() != UserCancelled.Code() && e.Code() != Success.Code()
    ensures 1 <= e.Code() <= 13
  {
  }

  /** The prerequisite lists have fixed sizes and no repeated entries. */
  lemma RequiredListsShape()
    ensures |RequiredVscodeExtensions| == 3 && |RequiredGlobalNpmPackages| == 2
    ensures forall i, j :: 0 <= i < j < |RequiredVscodeExtensions| ==>
      RequiredVscodeExtensions[i] != RequiredVscodeExtensions[j]
    ensures forall i, j :: 0 <= i < j < |RequiredGlobalNpmPackages| ==>
      RequiredGlobalNpmPackages[i] != RequiredGlobalNpmPackages[j]
  {
  }
}
