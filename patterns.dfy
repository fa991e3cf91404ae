/** The two regular expressions the changelog rewrites use, as exact
    scanners, and re.subn over them.

    `## \[Unreleased\]` with IGNORECASE is a fixed text matched without
    regard to ASCII letter case. `(## \[V\])\s+-\s+[Cc]urrent` (V escaped)
    needs no backtracking: a run of whitespace can only be followed by '-'
    or by a letter when it is taken whole, so each `\s+` takes the longest
    run, which may cross line breaks. Neither pattern matches the empty
    string, so re.subn is the left-to-right scan that replaces a match and
    resumes after it, or copies one character and moves on. */
module Patterns {
  import opened Base
  import opened Text

  const UnreleasedHeader: string := "## [Unreleased]"

  datatype Pattern =
    | Unreleased               // ## \[Unreleased\], case-insensitive
    | CurrentHeader(version: string)  // (## \[version\])\s+-\s+[Cc]urrent

  /** "## [" + version + "]" */
  function VersionHeader(version: string): string {
    "## [" + version + "]"
  }

  /** The header a released version gets: "## [version] - today". */
  function DatedHeader(version: string, today: string): string {
    VersionHeader(version) + " - " + today
  }

  /** Length of the whitespace run starting at j. */
  function SpaceRun(s: string, j: nat): (n: nat)
    requires j <= |s|
    ensures j + n <= |s|
    ensures forall k :: j <= k < j + n ==> IsSpace(s[k])
    ensures j + n == |s| || !IsSpace(s[j + n])
    decreases |s| - j
  {
    if j < |s| && IsSpace(s[j]) then 1 + SpaceRun(s, j + 1) else 0
  }

  /** The length of the match of p starting at i, if p matches there. */
  function MatchLen(p: Pattern, s: string, i: nat): (r: Option<nat>)
    requires i <= |s|
    ensures r.Some? ==> 1 <= r.value && i + r.value <= |s|
  {
    match p
    case Unreleased =>
      if MatchesCIAt(s, i, UnreleasedHeader) then Some(|UnreleasedHeader|) else None
    case CurrentHeader(v) =>
      var h := VersionHeader(v);
      if !OccursAt(s, h, i) then None
      else
        var j := i + |h|;
        var w1 := SpaceRun(s, j);
        if w1 == 0 || j + w1 == |s| || s[j + w1] != '-' then None
        else
          var k := j + w1 + 1;
          var w2 := SpaceRun(s, k);
          if w2 > 0 && (OccursAt(s, "Current", k + w2) || OccursAt(s, "current", k + w2))
          then Some(k + w2 + 7 - i)
          else None
  }

  /** p matches somewhere at or after position i. */
  predicate MatchesFrom(p: Pattern, s: string, i: nat)
    requires i <= |s|
  {
    exists j | i <= j <= |s| :: MatchLen(p, s, j).Some?
  }

  /** The outcome of re.subn: the rewritten text and the number of matches replaced. */
  datatype Substitution = Substitution(text: string, count: nat)

  /** re.subn(p, rep, s[i..]) */
  function SubFrom(p: Pattern, rep: string, s: string, i: nat): (r: Substitution)
    requires i <= |s|
    decreases |s| - i
  {
    if i == |s| then Substitution("", 0)
    else
      match MatchLen(p, s, i)
      case Some(n) =>
        var rest := SubFrom(p, rep, s, i + n);
        Substitution(rep + rest.text, rest.count + 1)
      case None =>
        var rest := SubFrom(p, rep, s, i + 1);
        Substitution([s[i]] + rest.text, rest.count)
  }

  function Sub(p: Pattern, rep: string, s: string): Substitution {
    SubFrom(p, rep, s, 0)
  }

  // ---------------------------------------------------------------------
  // Properties

  /** No replacement happens exactly when the pattern matches nowhere. */
  lemma {:induction false} SubCountZero(p: Pattern, rep: string, s: string, i: nat)
    requires i <= |s|
    ensures SubFrom(p, rep, s, i).count == 0 <==> !MatchesFrom(p, s, i)
    decreases |s| - i
  {
    if i < |s| {
      SubCountZero(p, rep, s, i + 1);
      MatchesFromStep(p, s, i);
    } else {
      assert MatchLen(p, s, i).None?;
    }
  }

  /** A match at or after i is a match at i or one at or after i + 1. */
  lemma MatchesFromStep(p: Pattern, s: string, i: nat)
    requires i < |s|
    ensures MatchesFrom(p, s, i) <==> MatchLen(p, s, i).Some? || MatchesFrom(p, s, i + 1)
  {
    if MatchLen(p, s, i).None? {
      if MatchesFrom(p, s, i) {
        var j :| i <= j <= |s| && MatchLen(p, s, j).Some?;
        assert i + 1 <= j;
      }
      if MatchesFrom(p, s, i + 1) {
        var j :| i + 1 <= j <= |s| && MatchLen(p, s, j).Some?;
        assert i <= j;
      }
    }
  }

  /** With nothing replaced the text comes back unchanged. */
  lemma {:induction false} SubUnchanged(p: Pattern, rep: string, s: string, i: nat)
    requires i <= |s|
    requires SubFrom(p, rep, s, i).count == 0
    ensures SubFrom(p, rep, s, i).text == s[i..]
    decreases |s| - i
  {
    if i < |s| {
      match MatchLen(p, s, i)
      case Some(n) =>
        assert false;
      case None =>
        SubUnchanged(p, rep, s, i + 1);
        assert [s[i]] + s[i + 1..] == s[i..];
    }
  }

  /** When anything is replaced, the replacement text stands in the result. */
  lemma {:induction false} SubPlacesReplacement(p: Pattern, rep: string, s: string, i: nat)
    requires i <= |s|
    requires SubFrom(p, rep, s, i).count > 0
    ensures exists o :: OccursAt(SubFrom(p, rep, s, i).text, rep, o)
    decreases |s| - i
  {
    var r := SubFrom(p, rep, s, i);
    assert i < |s|;
    match MatchLen(p, s, i)
    case Some(n) =>
      var rest := SubFrom(p, rep, s, i + n);
      assert r.text == rep + rest.text;
      assert r.text[..|rep|] == rep;
      assert OccursAt(r.text, rep, 0);
    case None =>
      var rest := SubFrom(p, rep, s, i + 1);
      assert r.text == [s[i]] + rest.text;
      assert rest.count == r.count;
      SubPlacesReplacement(p, rep, s, i + 1);
      var o :| OccursAt(rest.text, rep, o);
      OccursShift(rest.text, rep, s[i], o);
  }

  lemma OccursShift(t: string, p: string, c: char, o: int)
    requires OccursAt(t, p, o)
    ensures OccursAt([c] + t, p, o + 1)
  {
    assert ([c] + t)[o + 1..o + 1 + |p|] == t[o..o + |p|];
  }

  /** A match anywhere means at least one replacement. */
  lemma MatchReplaced(p: Pattern, rep: string, s: string, j: nat)
    requires j <= |s| && MatchLen(p, s, j).Some?
    ensures Sub(p, rep, s).count > 0
  {
    SubCountZero(p, rep, s, 0);
  }

  /** "## [<version>] - Current" and "... - current" are found wherever they stand. */
  lemma CurrentHeaderMatches(version: string, word: string, before: string, after: string)
    requires word == "Current" || word == "current"
    ensures var s := before + VersionHeader(version) + " - " + word + after;
      MatchLen(CurrentHeader(version), s, |before|)
        == Some(|VersionHeader(version)| + 3 + |word|)
  {
    var h := VersionHeader(version);
    var s := before + h + " - " + word + after;
    HeaderLaidOut(before, h, word, after);
    CurrentAt(version, word, s, |before|);
  }

  /** Where the pieces of "before + h + ' - ' + word + after" stand. */
  lemma HeaderLaidOut(before: string, h: string, word: string, after: string)
    requires |word| == 7
    ensures var s := before + h + " - " + word + after;
      var j := |before| + |h|;
      j + 3 + |word| <= |s| && OccursAt(s, h, |before|)
      && s[j] == ' ' && s[j + 1] == '-' && s[j + 2] == ' ' && OccursAt(s, word, j + 3)
  {
    var s := before + h + " - " + word + after;
    var j := |before| + |h|;
    assert s[|before|..j] == h;
    assert s[j + 3..j + 3 + |word|] == word;
  }

  /** The scanner accepts "h - word" with single spaces at position i of any text. */
  lemma CurrentAt(version: string, word: string, s: string, i: nat)
    requires word == "Current" || word == "current"
    requires i + |VersionHeader(version)| + 3 + |word| <= |s|
    requires OccursAt(s, VersionHeader(version), i)
    requires var j := i + |VersionHeader(version)|;
      s[j] == ' ' && s[j + 1] == '-' && s[j + 2] == ' ' && OccursAt(s, word, j + 3)
    ensures MatchLen(CurrentHeader(version), s, i) == Some(|VersionHeader(version)| + 3 + |word|)
  {
    var j := i + |VersionHeader(version)|;
    assert s[j + 3] == word[0];
    assert SpaceRun(s, j + 1) == 0;
    assert SpaceRun(s, j) == 1;
    assert SpaceRun(s, j + 3) == 0;
    assert SpaceRun(s, j + 2) == 1;
  }
}
