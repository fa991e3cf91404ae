/** Development conveniences: the VS Code CLI, the required global npm
    packages and the required VS Code extensions. The two install checks
    list what is present, then install each missing item in list order,
    carrying on after a failed install. Commands go through the runner;
    each check also returns the commands it issued, in order. */
module ChecksEnvironment {
  import opened Base
  import opened Text
  import opened Constants

  const NpmListCmd: seq<string> := ["npm", "list", "-g", "--depth=0", "--json"]
  const ListExtensionsCmd: seq<string> := ["code", "--list-extensions"]

  function NpmInstallCmd(pkg: string): seq<string> {
    ["npm", "install", "-g", pkg]
  }

  function ExtensionInstallCmd(ext: string): seq<string> {
    ["code", "--install-extension", ext]
  }

  /** check_vscode_cli never blocks: a missing `code` only warns. */
  function CheckVscodeCli(codeOnPath: bool): (r: bool)
    ensures r
  {
    true
  }

  /** The items of required that present rejects, in their order. */
  function Missing(required: seq<string>, present: string -> bool): (r: seq<string>)
    ensures |r| <= |required|
    decreases |required|
  {
    if required == [] then []
    else
      var init := required[..|required| - 1];
      var last := required[|required| - 1];
      Missing(init, present) + (if present(last) then [] else [last])
  }

  /** The commands cmdOf gives for items, one per item, in item order. */
  function Commands(cmdOf: string -> seq<string>, items: seq<string>): (r: seq<seq<string>>)
    ensures |r| == |items|
  {
    if items == [] then [] else Commands(cmdOf, items[..|items| - 1]) + [cmdOf(items[|items| - 1])]
  }

  /** Every command in cmds exited 0. */
  predicate AllSucceeded(run: Runner, cmds: seq<seq<string>>)
    decreases |cmds|
  {
    cmds == [] || (AllSucceeded(run, cmds[..|cmds| - 1]) && run(cmds[|cmds| - 1]).returnCode == 0)
  }

  /** The globally installed packages: the keys under "dependencies" when
      the listing exits 0 and its output parses (parseDependencies stands
      for json.loads followed by reading those keys); otherwise none. */
  function InstalledGlobals(listing: Completed, parseDependencies: string -> Option<set<string>>): (r: set<string>)
    ensures listing.returnCode != 0 ==> r == {}
    ensures parseDependencies(listing.stdout).None? ==> r == {}
  {
    if listing.returnCode == 0 && parseDependencies(listing.stdout).Some? then
      parseDependencies(listing.stdout).value
    else {}
  }

  /** The listed extension ids, lower-cased, one per output line. */
  function InstalledExtensions(listing: string): set<string> {
    var lines := SplitLines(Lower(Strip(listing)));
    set i | 0 <= i < |lines| :: lines[i]
  }

  /** Every id read from the listing is lower-case and holds no line break. */
  lemma InstalledExtensionsLowered(listing: string)
    ensures forall e :: e in InstalledExtensions(listing) ==> Lower(e) == e
    ensures forall e, k :: e in InstalledExtensions(listing) && 0 <= k < |e| ==> !IsLineBreak(e[k])
  {
    var lowered := Lower(Strip(listing));
    SplitLinesFromPieces(lowered, []);
    forall e | e in InstalledExtensions(listing) ensures Lower(e) == e {
      forall k | 0 <= k < |e| ensures LowerChar(e[k]) == e[k] {
        assert e in SplitLines(lowered);
        var j :| 0 <= j < |lowered| && lowered[j] == e[k];
      }
    }
  }

  /** The loop both install checks share: for each required item in turn,
      install it unless present, and note any failed install. */
  method InstallMissing(required: seq<string>, present: string -> bool,
                        cmdOf: string -> seq<string>, run: Runner)
    returns (allOk: bool, issued: seq<seq<string>>)
    ensures issued == Commands(cmdOf, Missing(required, present))
    ensures allOk <==> AllSucceeded(run, issued)
  {
    allOk := true;
    issued := [];
    var i := 0;
    while i < |required|
      invariant 0 <= i <= |required|
      invariant issued == Commands(cmdOf, Missing(required[..i], present))
      invariant allOk <==> AllSucceeded(run, issued)
    {
      var item := required[i];
      MissingStep(required, present, i);
      if !present(item) {
        var result := run(cmdOf(item));
        CommandsAppend(cmdOf, Missing(required[..i], present), item);
        AllSucceededAppend(run, issued, cmdOf(item));
        issued := issued + [cmdOf(item)];
        if result.returnCode != 0 {
          allOk := false;
        }
      } else {
        assert Missing(required[..i], present) + [] == Missing(required[..i], present);
      }
      i := i + 1;
    }
    assert required[..i] == required;
  }

  /** check_global_npm_packages: lists the global packages, then installs
      exactly the missing ones, in list order, and succeeds iff every one
      of those installs did. */
  method CheckGlobalNpmPackages(run: Runner, parseDependencies: string -> Option<set<string>>)
    returns (allOk: bool, trace: seq<seq<string>>)
    ensures var installed := InstalledGlobals(run(NpmListCmd), parseDependencies);
      var missing := Missing(RequiredGlobalNpmPackages, p => p in installed);
      && trace == [NpmListCmd] + Commands(NpmInstallCmd, missing)
      && (allOk <==> AllSucceeded(run, Commands(NpmInstallCmd, missing)))
  {
    var installed := InstalledGlobals(run(NpmListCmd), parseDependencies);
    var installs;
    allOk, installs := InstallMissing(RequiredGlobalNpmPackages, p => p in installed, NpmInstallCmd, run);
    trace := [NpmListCmd] + installs;
  }

  /** check_vscode_extensions: with no `code` or a failed listing, nothing
      is installed and the check passes; otherwise it installs exactly the
      extensions whose lower-cased id is not listed, in list order, and
      succeeds iff every one of those installs did. */
  method CheckVscodeExtensions(codeOnPath: bool, run: Runner)
    returns (allOk: bool, trace: seq<seq<string>>)
    ensures !codeOnPath ==> allOk && trace == []
    ensures codeOnPath && run(ListExtensionsCmd).returnCode != 0 ==>
      allOk && trace == [ListExtensionsCmd]
    ensures codeOnPath && run(ListExtensionsCmd).returnCode == 0 ==>
      var installed := InstalledExtensions(run(ListExtensionsCmd).stdout);
      var missing := Missing(RequiredVscodeExtensions, e => Lower(e) in installed);
      && trace == [ListExtensionsCmd] + Commands(ExtensionInstallCmd, missing)
      && (allOk <==> AllSucceeded(run, Commands(ExtensionInstallCmd, missing)))
  {
    if !codeOnPath {
      return true, [];
    }
    var listing := run(ListExtensionsCmd);
    if listing.returnCode != 0 {
      return true, [ListExtensionsCmd];
    }
    var installed := InstalledExtensions(listing.stdout);
    var installs;
    allOk, installs := InstallMissing(RequiredVscodeExtensions, e => Lower(e) in installed, ExtensionInstallCmd, run);
    trace := [ListExtensionsCmd] + installs;
  }

  // ---------------------------------------------------------------------
  // Properties

  lemma MissingStep(required: seq<string>, present: string -> bool, i: nat)
    requires i < |required|
    ensures Missing(required[..i + 1], present)
      == Missing(required[..i], present) + (if present(required[i]) then [] else [required[i]])
  {
    assert required[..i + 1][..i] == required[..i];
  }

  lemma CommandsAppend(cmdOf: string -> seq<string>, items: seq<string>, item: string)
    ensures Commands(cmdOf, items + [item]) == Commands(cmdOf, items) + [cmdOf(item)]
  {
    assert (items + [item])[..|items|] == items;
  }

  lemma AllSucceededAppend(run: Runner, cmds: seq<seq<string>>, cmd: seq<string>)
    ensures AllSucceeded(run, cmds + [cmd]) <==> AllSucceeded(run, cmds) && run(cmd).returnCode == 0
  {
    assert (cmds + [cmd])[..|cmds|] == cmds;
  }

  /** AllSucceeded means what it says: every listed command exited 0. */
  lemma {:induction false} AllSucceededMeans(run: Runner, cmds: seq<seq<string>>)
    ensures AllSucceeded(run, cmds) <==> forall i :: 0 <= i < |cmds| ==> run(cmds[i]).returnCode == 0
    decreases |cmds|
  {
    if cmds != [] {
      var init := cmds[..|cmds| - 1];
      AllSucceededMeans(run, init);
      assert forall i :: 0 <= i < |init| ==> init[i] == cmds[i];
    }
  }

  /** The install commands are issued one per item, in item order. */
  lemma {:induction false} CommandsAt(cmdOf: string -> seq<string>, items: seq<string>, i: nat)
    requires i < |items|
    ensures Commands(cmdOf, items)[i] == cmdOf(items[i])
    decreases |items|
  {
    if i < |items| - 1 {
      CommandsAt(cmdOf, items[..|items| - 1], i);
    }
  }

  /** An item is missing exactly when it is required and not present. */
  lemma {:induction false} MissingMembers(required: seq<string>, present: string -> bool, x: string)
    ensures x in Missing(required, present) <==> x in required && !present(x)
    decreases |required|
  {
    if required != [] {
      var init := required[..|required| - 1];
      var last := required[|required| - 1];
      assert required == init + [last];
      MissingMembers(init, present, x);
    }
  }

  /** Missing keeps the order of the list it filters: it is a subsequence. */
  lemma {:induction false} MissingOrdered(required: seq<string>, present: string -> bool, i: nat, j: nat)
    requires i < j < |Missing(required, present)|
    ensures exists a, b :: (0 <= a < b < |required| && required[a] == Missing(required, present)[i] &&
                            required[b] == Missing(required, present)[j])
    decreases |required|
  {
    var init := required[..|required| - 1];
    var last := required[|required| - 1];
    var m := Missing(init, present);
    if j < |m| {
      MissingOrdered(init, present, i, j);
      var a, b :| 0 <= a < b < |init| && init[a] == m[i] && init[b] == m[j];
      assert required[a] == m[i] && required[b] == m[j];
    } else {
      assert Missing(required, present)[j] == last;
      MissingMembers(init, present, m[i]);
      var a :| 0 <= a < |init| && init[a] == m[i];
      assert required[a] == m[i] && required[|required| - 1] == last;
    }
  }

  /** When nothing is present every item is missing, in the original order. */
  lemma {:induction false} NothingPresentMissesAll(required: seq<string>, present: string -> bool)
    requires forall x :: !present(x)
    ensures Missing(required, present) == required
    decreases |required|
  {
    if required != [] {
      NothingPresentMissesAll(required[..|required| - 1], present);
    }
  }

  /** When everything is present nothing is missing. */
  lemma {:induction false} AllPresentMissesNone(required: seq<string>, present: string -> bool)
    requires forall x :: x in required ==> present(x)
    ensures Missing(required, present) == []
    decreases |required|
  {
    if required != [] {
      assert required == required[..|required| - 1] + [required[|required| - 1]];
      AllPresentMissesNone(required[..|required| - 1], present);
    }
  }

  /** A failed or unparsable npm listing installs both packages, in order. */
  lemma FailedListingInstallsAll(listing: Completed, parseDependencies: string -> Option<set<string>>)
    requires listing.returnCode != 0 || parseDependencies(listing.stdout).None?
    ensures var installed := InstalledGlobals(listing, parseDependencies);
      Missing(RequiredGlobalNpmPackages, p => p in installed) == RequiredGlobalNpmPackages
  {
    var installed := InstalledGlobals(listing, parseDependencies);
    NothingPresentMissesAll(RequiredGlobalNpmPackages, p => p in installed);
  }

  /** Extension ids match whatever their letter case in the listing. */
  lemma ExtensionCaseIgnored(listing: string, ext: string)
    requires ext in RequiredVscodeExtensions
    requires Lower(ext) in InstalledExtensions(listing)
    ensures ext !in Missing(RequiredVscodeExtensions, e => Lower(e) in InstalledExtensions(listing))
  {
    MissingMembers(RequiredVscodeExtensions, e => Lower(e) in InstalledExtensions(listing), ext);
  }
}
