/** The yes/no prompt every script uses. Standard input is modelled as the
    sequence of lines the user will type and a read position; reading past
    the end stands for end of input (EOFError) and for an interrupt
    (KeyboardInterrupt), which the prompt treats alike. */
module Display {
  import opened Base
  import opened Text

  /** What input() gives at read position pos: a line, or None at end of input. */
  function Reply(stdin: seq<string>, pos: nat): (r: Option<string>)
    ensures r.Some? <==> pos < |stdin|
    ensures r.Some? ==> r.value == stdin[pos]
  {
    if pos < |stdin| then Some(stdin[pos]) else None
  }

  /** The hint shown after the question: the capital letter marks the default. */
  function Hint(default: bool): (h: string)
    ensures |h| == 3 && h[1] == '/' && Lower(h) == "y/n"
    ensures default <==> h[0] == 'Y'
    ensures !default <==> h[2] == 'N'
  {
    if default then "Y/n" else "y/N"
  }

  /** The answer as the prompt reads it: stripped and lower-cased. */
  function Normalize(answer: string): string {
    Lower(Strip(answer))
  }

  predicate IsYes(answer: string) {
    var a := Normalize(answer);
    a == "y" || a == "yes"
  }

  /** ask_yn: the default on end of input or on a blank answer, otherwise
      whether the answer is "y" or "yes" in any letter case. */
  function AskYn(reply: Option<string>, default: bool): (r: bool)
    ensures reply.None? ==> r == default
    ensures reply.Some? && Strip(reply.value) == [] ==> r == default
    ensures reply.Some? && Strip(reply.value) != [] ==> (r <==> IsYes(reply.value))
  {
    match reply
    case None => default
    case Some(answer) =>
      var a := Normalize(answer);
      if a == [] then default else a == "y" || a == "yes"
  }

  /** An answer made only of whitespace counts as no answer. */
  lemma BlankAnswerIsDefault(answer: string, default: bool)
    requires forall i :: 0 <= i < |answer| ==> IsSpace(answer[i])
    ensures AskYn(Some(answer), default) == default
  {
    StripShape(answer);
  }

  /** A non-blank answer decides alone: the default no longer matters. */
  lemma DefaultIgnoredWhenAnswered(answer: string)
    requires exists i :: 0 <= i < |answer| && !IsSpace(answer[i])
    ensures AskYn(Some(answer), true) == AskYn(Some(answer), false)
  {
    StripShape(answer);
  }

  /** "Y", " yes ", "YES" and the like all accept, whatever the default. */
  lemma YesAccepts(answer: string, default: bool)
    requires IsYes(answer)
    ensures AskYn(Some(answer), default)
  {
  }

  /** A non-blank answer other than yes declines, even when the default is yes. */
  lemma OtherAnswerDeclines(answer: string, default: bool)
    requires Strip(answer) != [] && !IsYes(answer)
    ensures !AskYn(Some(answer), default)
  {
  }

  /** Case never changes the verdict. */
  lemma AnswerCaseInsensitive(answer: string, default: bool)
    ensures AskYn(Some(Lower(answer)), default) == AskYn(Some(answer), default)
  {
    var s := Strip(answer);
    var t := Strip(Lower(answer));
    LowerStrip(answer);
    LowerIdempotent(s);
  }

  /** Lower-casing commutes with stripping (no ASCII letter is whitespace). */
  lemma LowerStrip(s: string)
    ensures Strip(Lower(s)) == Lower(Strip(s))
  {
    StripIsLStripRStrip(s);
    StripIsLStripRStrip(Lower(s));
    LStripLower(s);
    RStripLower(LStrip(s));
  }

  lemma {:induction false} LStripLower(s: string)
    ensures LStrip(Lower(s)) == Lower(LStrip(s))
    decreases |s|
  {
    if s != [] {
      var l := Lower(s);
      assert l[1..] == Lower(s[1..]);
      assert IsSpace(l[0]) == IsSpace(s[0]);
      if IsSpace(s[0]) {
        LStripLower(s[1..]);
        assert LStrip(l) == LStrip(l[1..]);
      } else {
        assert LStrip(l) == l;
      }
    }
  }

  lemma {:induction false} RStripLower(s: string)
    ensures RStrip(Lower(s)) == Lower(RStrip(s))
    decreases |s|
  {
    if s != [] {
      var l := Lower(s);
      assert l[..|s| - 1] == Lower(s[..|s| - 1]);
      assert IsSpace(l[|s| - 1]) == IsSpace(s[|s| - 1]);
      if IsSpace(s[|s| - 1]) {
        RStripLower(s[..|s| - 1]);
        assert RStrip(l) == RStrip(l[..|s| - 1]);
      } else {
        assert RStrip(l) == l;
      }
    }
  }
}
