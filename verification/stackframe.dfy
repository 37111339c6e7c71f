/**
 Best-effort parsing of a stack-trace frame such as
 `    at add (http://localhost:3000/libs/t2.js:158:3)` (Chromium) or
 `add@http://localhost:3000/libs/t.js:2:14` (Firefox) into a function name and
 a code address. The two regular expressions the parser uses, `/\((.+?)\)/`
 and `/at (.+?)\(/`, share one shape: an opening text, then a lazy non-empty
 group of any characters but line terminators, then a closing character. That
 shape is modelled exactly, as JavaScript's backtracking search runs it.
 */
module StackFrame {
  import opened Options

  /** The characters `.` refuses in a regular expression without the `s` flag. */
  predicate IsLineTerminator(c: char) {
    c == '\n' || c == '\r' || c == '\U{2028}' || c == '\U{2029}'
  }

  /** A captured group: the positions `lo .. hi` of the subject string. */
  datatype Span = Span(lo: nat, hi: nat)

  // ---------------------------------------------------------------------
  // The scan, in the order the regular-expression engine tries things
  // ---------------------------------------------------------------------

  /**
   With the group started at `lo` and `s[lo .. j]` consumed, the lazy group
   first tries to stop and see `close` at `j`; otherwise `.` consumes one more
   character. The group fails once it runs off the string or meets a line
   terminator.
   */
  function CloseFrom(s: string, lo: nat, close: char, j: nat): (r: Option<nat>)
    requires lo < j
    ensures r.Some? ==> j <= r.value < |s| && s[r.value] == close
    decreases |s| - j
  {
    if |s| <= j || IsLineTerminator(s[j - 1]) then None
    else if s[j] == close then Some(j)
    else CloseFrom(s, lo, close, j + 1)
  }

  /** `String.prototype.match` with `open(.+?)close`, from start position `i` on: the first match's group. */
  function FirstMatch(s: string, open: string, close: char, i: nat): (r: Option<Span>)
    ensures r.Some? ==> i + |open| <= r.value.lo < r.value.hi < |s|
    decreases |s| - i
  {
    if |s| <= i + |open| then None
    else if s[i .. i + |open|] == open && CloseFrom(s, i + |open|, close, i + |open| + 1).Some? then
      Some(Span(i + |open|, CloseFrom(s, i + |open|, close, i + |open| + 1).value))
    else FirstMatch(s, open, close, i + 1)
  }

  /** The text of the first group `open(.+?)close` matches in `s`, if any. */
  function MatchGroup(s: string, open: string, close: char): (g: Option<string>) {
    match FirstMatch(s, open, close, 0)
    case Some(Span(lo, hi)) => Some(s[lo .. hi])
    case None => None
  }

  /** The two regular expressions of the parser. */
  const ParenOpen := "("
  const ParenClose := ')'
  const NameOpen := "at "
  const NameClose := '('

  /** `CodeInfo`: `codeName` is absent when the frame has no `at … (` shape. */
  datatype CodeInfo = CodeInfo(codeAddress: string, codeName: Option<string>)

  /**
   `parseCodeLocation`: the address is the group of the leftmost `(…)` match,
   or the whole location when there is none; the name is the group of the
   leftmost `at …(` match, trailing space included, and absent exactly when
   there is no such match.
   */
  function ParseCodeLocation(codeLocation: string): (info: CodeInfo)
    ensures forall i, hi :: LeftmostMatch(codeLocation, ParenOpen, ParenClose, i, hi) ==>
      info.codeAddress == codeLocation[i + 1 .. hi]
    ensures (forall i, hi :: !MatchAt(codeLocation, ParenOpen, ParenClose, i, hi)) ==>
      info.codeAddress == codeLocation
    ensures forall i, hi :: LeftmostMatch(codeLocation, NameOpen, NameClose, i, hi) ==>
      info.codeName == Some(codeLocation[i + 3 .. hi])
    ensures info.codeName.None? <==>
      forall i, hi :: !MatchAt(codeLocation, NameOpen, NameClose, i, hi)
  {
    MatchGroupIsLeftmostCapture(codeLocation, ParenOpen, ParenClose);
    MatchGroupIsLeftmostCapture(codeLocation, NameOpen, NameClose);
    var address := match MatchGroup(codeLocation, ParenOpen, ParenClose)
      case Some(inner) => inner
      case None => codeLocation;
    CodeInfo(address, MatchGroup(codeLocation, NameOpen, NameClose))
  }

  // ---------------------------------------------------------------------
  // What the scan finds, stated declaratively
  // ---------------------------------------------------------------------

  /**
   A lazy group started at `lo` ends at `hi`: `s[lo .. hi]` is a non-empty
   run without line terminators, `s[hi]` is `close`, and no shorter run ends
   at a `close`.
   */
  ghost predicate ShortestRun(s: string, lo: int, close: char, hi: int) {
    && 0 <= lo < hi < |s|
    && s[hi] == close
    && (forall k :: lo <= k < hi ==> !IsLineTerminator(s[k]))
    && (forall k :: lo < k < hi ==> s[k] != close)
  }

  /** The expression `open(.+?)close` matches at start position `i`, with its group ending at `hi`. */
  ghost predicate MatchAt(s: string, open: string, close: char, i: int, hi: int) {
    && 0 <= i
    && i + |open| <= |s|
    && s[i .. i + |open|] == open
    && ShortestRun(s, i + |open|, close, hi)
  }

  /** The match at `i` is the leftmost one. */
  ghost predicate LeftmostMatch(s: string, open: string, close: char, i: int, hi: int) {
    && MatchAt(s, open, close, i, hi)
    && (forall i', hi' :: 0 <= i' < i ==> !MatchAt(s, open, close, i', hi'))
  }

  /** A lazy group has at most one end. */
  lemma ShortestRunUnique(s: string, lo: int, close: char, hi: int, hi': int)
    requires ShortestRun(s, lo, close, hi) && ShortestRun(s, lo, close, hi')
    ensures hi == hi'
  {
  }

  /** The inner scan finds exactly the end of the shortest run, given the part already consumed. */
  lemma {:induction false} CloseFromFindsShortestRun(s: string, lo: nat, close: char, j: nat)
    requires lo < j <= |s|
    requires forall k :: lo <= k < j - 1 ==> !IsLineTerminator(s[k])
    requires forall k :: lo < k < j ==> s[k] != close
    ensures CloseFrom(s, lo, close, j).Some? ==> ShortestRun(s, lo, close, CloseFrom(s, lo, close, j).value)
    ensures CloseFrom(s, lo, close, j).None? ==> forall hi :: !ShortestRun(s, lo, close, hi)
    decreases |s| - j
  {
    if |s| <= j || IsLineTerminator(s[j - 1]) {
    } else if s[j] != close {
      CloseFromFindsShortestRun(s, lo, close, j + 1);
    }
  }

  /** The scan's test at one start position decides whether the expression matches there. */
  lemma MatchAtStart(s: string, open: string, close: char, i: nat)
    requires i + |open| < |s|
    ensures s[i .. i + |open|] == open && CloseFrom(s, i + |open|, close, i + |open| + 1).Some? ==>
      MatchAt(s, open, close, i, CloseFrom(s, i + |open|, close, i + |open| + 1).value)
    ensures !(s[i .. i + |open|] == open && CloseFrom(s, i + |open|, close, i + |open| + 1).Some?) ==>
      forall hi :: !MatchAt(s, open, close, i, hi)
  {
    CloseFromFindsShortestRun(s, i + |open|, close, i + |open| + 1);
  }

  /** No match starts where the opening text and one character no longer fit. */
  lemma NoMatchPastEnd(s: string, open: string, close: char, i: nat)
    requires |s| <= i + |open|
    ensures forall i', hi' :: i <= i' ==> !MatchAt(s, open, close, i', hi')
  {
  }

  /**
   The outer scan from `i` finds the leftmost match at or after `i`, and
   reports none exactly when there is none.
   */
  lemma {:induction false} FirstMatchFindsLeftmost(s: string, open: string, close: char, i: nat)
    ensures FirstMatch(s, open, close, i).Some? ==>
      var sp := FirstMatch(s, open, close, i).value;
      && MatchAt(s, open, close, sp.lo - |open|, sp.hi)
      && i <= sp.lo - |open|
      && (forall i', hi' :: i <= i' < sp.lo - |open| ==> !MatchAt(s, open, close, i', hi'))
    ensures FirstMatch(s, open, close, i).None? ==>
      forall i', hi' :: i <= i' ==> !MatchAt(s, open, close, i', hi')
    decreases |s| - i
  {
    if i + |open| < |s| {
      MatchAtStart(s, open, close, i);
      if !(s[i .. i + |open|] == open && CloseFrom(s, i + |open|, close, i + |open| + 1).Some?) {
        FirstMatchFindsLeftmost(s, open, close, i + 1);
        assert FirstMatch(s, open, close, i) == FirstMatch(s, open, close, i + 1);
      }
    } else {
      NoMatchPastEnd(s, open, close, i);
    }
  }

  /**
   The group text is the capture of the leftmost match, and there is no
   group text exactly when the expression matches nowhere.
   */
  lemma MatchGroupIsLeftmostCapture(s: string, open: string, close: char)
    ensures forall i, hi :: LeftmostMatch(s, open, close, i, hi) ==>
      MatchGroup(s, open, close) == Some(s[i + |open| .. hi])
    ensures MatchGroup(s, open, close).None? <==> forall i, hi :: !MatchAt(s, open, close, i, hi)
  {
    FirstMatchFindsLeftmost(s, open, close, 0);
    forall i, hi | LeftmostMatch(s, open, close, i, hi)
      ensures MatchGroup(s, open, close) == Some(s[i + |open| .. hi])
    {
      var sp := FirstMatch(s, open, close, 0).value;
      assert i == sp.lo - |open|;
      ShortestRunUnique(s, sp.lo, close, hi, sp.hi);
    }
  }

  /** No character of `s` ends a line. */
  ghost predicate NoLineTerminators(s: string) {
    forall k :: 0 <= k < |s| ==> !IsLineTerminator(s[k])
  }

  /**
   On a location without line terminators, `/\((.+?)\)/` matches at `i` with
   its group ending at `hi` exactly when `s[i]` is `(` and `s[hi]` is the
   first `)` at least two places after it: the address is the content of the
   first parenthesised segment with non-empty content.
   */
  lemma ParenMatchWithoutTerminators(s: string, i: int, hi: int)
    requires NoLineTerminators(s)
    ensures MatchAt(s, ParenOpen, ParenClose, i, hi) <==>
      && 0 <= i && i + 2 <= hi < |s|
      && s[i] == '(' && s[hi] == ')'
      && (forall k :: i + 1 < k < hi ==> s[k] != ')')
  {
    if 0 <= i < |s| {
      assert s[i .. i + 1] == [s[i]];
    }
  }

  /** In the Chromium-style frame below, `at …(` first matches at 2 and its group ends at 9. */
  lemma ChromiumNameMatch(s: string)
    requires s == "  at add (t.js:1)"
    ensures LeftmostMatch(s, NameOpen, NameClose, 2, 9)
  {
    assert s[2 .. 5] == NameOpen;
    assert ShortestRun(s, 5, NameClose, 9);
    forall i', hi' | 0 <= i' < 2 ensures !MatchAt(s, NameOpen, NameClose, i', hi') {
      assert s[i' .. i' + 3][0] == s[i'] == ' ';
    }
  }

  /** In the Chromium-style frame below, `(…)` first matches at 9 and its group ends at 16. */
  lemma ChromiumParenMatch(s: string)
    requires s == "  at add (t.js:1)"
    ensures LeftmostMatch(s, ParenOpen, ParenClose, 9, 16)
  {
    assert s[9 .. 10] == ParenOpen;
    assert ShortestRun(s, 10, ParenClose, 16);
    forall i', hi' | 0 <= i' < 9 ensures !MatchAt(s, ParenOpen, ParenClose, i', hi') {
      assert s[i' .. i' + 1][0] == s[i'] != '(';
    }
  }

  /** A Chromium-style frame: the name keeps its trailing space. */
  lemma ChromiumFrame(s: string)
    requires s == "  at add (t.js:1)"
    ensures ParseCodeLocation(s) == CodeInfo("t.js:1", Some("add "))
  {
    ChromiumNameMatch(s);
    ChromiumParenMatch(s);
    assert s[5 .. 9] == "add ";
    assert s[10 .. 16] == "t.js:1";
  }

  /** A Firefox-style frame: no parenthesised address and no name. */
  lemma FirefoxFrame(s: string)
    requires s == "add@t.js:2"
    ensures ParseCodeLocation(s) == CodeInfo(s, None)
  {
    assert forall k :: 0 <= k < |s| ==> s[k] != '(';
    assert forall k :: 0 <= k < |s| - 1 ==> s[k] != 'a' || s[k + 1] != 't';
  }
}
