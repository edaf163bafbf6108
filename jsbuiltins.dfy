/** The few JavaScript built-ins whose exact behaviour the chat demo depends on:
    `String.prototype.indexOf` / `replace` with a string pattern,
    `String.prototype.trim`, `Array.prototype.slice` with relative indices, and
    the `parsed || fallback` idiom. */
module JsBuiltins {
  import opened Wrappers

  /** `parseInt(x, 10) || d`: a missing or non-numeric value (None) and 0 both
      fall back to `d`. */
  function OrDefault(x: Option<int>, d: int): (r: int)
    ensures r == d || (x.Some? && r == x.value && r != 0)
    ensures x.Some? && x.value != 0 ==> r == x.value
  {
    if x.Some? && x.value != 0 then x.value else d
  }

  /** `parseFloat(x) || d` over reals. */
  function OrDefaultReal(x: Option<real>, d: real): (r: real)
    ensures r == d || (x.Some? && r == x.value && r != 0.0)
    ensures x.Some? && x.value != 0.0 ==> r == x.value
  {
    if x.Some? && x.value != 0.0 then x.value else d
  }

  // ---------------------------------------------------------------------------
  // indexOf and replace with a string pattern

  /** `pat` occurs in `s` starting at index `i`. */
  predicate OccursAt(s: string, pat: string, i: int) {
    0 <= i && i + |pat| <= |s| && s[i..i + |pat|] == pat
  }

  /** `s.indexOf(pat)`: the first index at which `pat` occurs, or None for -1. */
  function IndexOf(s: string, pat: string): (r: Option<nat>)
    ensures r.Some? ==> OccursAt(s, pat, r.value)
    ensures r.Some? ==> forall j :: 0 <= j < r.value ==> !OccursAt(s, pat, j)
    ensures r.None? ==> forall j :: 0 <= j <= |s| ==> !OccursAt(s, pat, j)
    decreases |s|
  {
    if |pat| > |s| then None
    else if s[..|pat|] == pat then Some(0)
    else
      assert !OccursAt(s, pat, 0);
      var rest := IndexOf(s[1..], pat);
      ShiftOccurs(s, pat);
      match rest
      case None => None
      case Some(k) => Some(k + 1)
  }

  lemma ShiftOccurs(s: string, pat: string)
    requires |s| > 0
    ensures forall j :: 1 <= j ==> (OccursAt(s, pat, j) <==> OccursAt(s[1..], pat, j - 1))
  {
    forall j | 1 <= j
      ensures OccursAt(s, pat, j) <==> OccursAt(s[1..], pat, j - 1)
    {
      if j + |pat| <= |s| {
        assert s[1..][j - 1..j - 1 + |pat|] == s[j..j + |pat|];
      }
    }
  }

  /** `s.replace(pat, rep)` with a string pattern: only the FIRST occurrence of
      `pat`, wherever it is, is replaced. The `$&`, `$1`, ... patterns that
      JavaScript expands in a replacement string are not modelled; the one
      replacement used here is '', which has none. */
  function ReplaceFirst(s: string, pat: string, rep: string): (r: string)
    ensures IndexOf(s, pat).None? ==> r == s
    ensures IndexOf(s, pat).Some? ==> |r| == |s| - |pat| + |rep|
    ensures IndexOf(s, pat).Some? ==>
              var i := IndexOf(s, pat).value;
              && r[..i] == s[..i]
              && r[i..i + |rep|] == rep
              && r[i + |rep|..] == s[i + |pat|..]
  {
    match IndexOf(s, pat)
    case None => s
    case Some(i) => s[..i] + rep + s[i + |pat|..]
  }

  /** An occurrence after the first one survives the replacement, shifted by
      the difference in length. */
  lemma ReplaceKeepsLaterOccurrence(s: string, pat: string, rep: string, j: int)
    requires IndexOf(s, pat).Some? && j >= IndexOf(s, pat).value + |pat|
    requires OccursAt(s, pat, j)
    ensures OccursAt(ReplaceFirst(s, pat, rep), pat, j - |pat| + |rep|)
  {
    var i := IndexOf(s, pat).value;
    var r := ReplaceFirst(s, pat, rep);
    var k := j - |pat| + |rep|;
    assert r[k..k + |pat|] == s[i + |pat|..][j - i - |pat|..j - i];
  }

  /** Removing a prefix that is the pattern itself gives back the rest. */
  lemma ReplaceLeadingPattern(pat: string, t: string)
    ensures ReplaceFirst(pat + t, pat, "") == t
  {
    assert (pat + t)[..|pat|] == pat;
    assert (pat + t)[|pat|..] == t;
  }

  // ---------------------------------------------------------------------------
  // trim

  /** ECMAScript WhiteSpace and LineTerminator code points, which `trim` strips. */
  predicate IsJsWhitespace(c: char) {
    c == '\t' || c == '\n' || c == '\U{000B}' || c == '\U{000C}' || c == '\r' || c == ' '
    || c == '\U{00A0}' || c == '\U{1680}' || ('\U{2000}' <= c <= '\U{200A}')
    || c == '\U{2028}' || c == '\U{2029}' || c == '\U{202F}' || c == '\U{205F}'
    || c == '\U{3000}' || c == '\U{FEFF}'
  }

  /** The index of the first non-whitespace character at or after `i` (|s| if none). */
  function SkipLeading(s: string, i: nat): (r: nat)
    requires i <= |s|
    ensures i <= r <= |s|
    ensures forall k :: i <= k < r ==> IsJsWhitespace(s[k])
    ensures r < |s| ==> !IsJsWhitespace(s[r])
    decreases |s| - i
  {
    if i < |s| && IsJsWhitespace(s[i]) then SkipLeading(s, i + 1) else i
  }

  /** The end of `s[..j]` once its trailing whitespace is dropped (0 if none is left). */
  function SkipTrailing(s: string, j: nat): (r: nat)
    requires j <= |s|
    ensures r <= j
    ensures forall k :: r <= k < j ==> IsJsWhitespace(s[k])
    ensures r > 0 ==> !IsJsWhitespace(s[r - 1])
    decreases j
  {
    if j > 0 && IsJsWhitespace(s[j - 1]) then SkipTrailing(s, j - 1) else j
  }

  /** `s.trim()`: the text between the first and the last non-whitespace character. */
  function Trim(s: string): (r: string)
    ensures |r| <= |s|
    ensures r != "" ==> !IsJsWhitespace(r[0]) && !IsJsWhitespace(r[|r| - 1])
    ensures forall i :: 0 <= i < |s| && !IsJsWhitespace(s[i]) ==> r != ""
    ensures r != "" ==>
              var a := SkipLeading(s, 0);
              && a + |r| <= |s| && r == s[a..a + |r|]
              && forall k :: a + |r| <= k < |s| ==> IsJsWhitespace(s[k])
  {
    var a := SkipLeading(s, 0);
    var b := SkipTrailing(s, |s|);
    if a < b then s[a..b] else ""
  }

  /** `s.trim()` is empty exactly when every character of `s` is whitespace. */
  lemma TrimEmptyIff(s: string)
    ensures Trim(s) == "" <==> forall i :: 0 <= i < |s| ==> IsJsWhitespace(s[i])
  {
    var a := SkipLeading(s, 0);
    var b := SkipTrailing(s, |s|);
    if a >= b {
      forall i | 0 <= i < |s| ensures IsJsWhitespace(s[i]) {
      }
    } else {
      assert !IsJsWhitespace(s[a]);
    }
  }

  /** Trimming twice is trimming once. */
  lemma TrimIdempotent(s: string)
    ensures Trim(Trim(s)) == Trim(s)
  {
    var u := Trim(s);
    if u != "" {
      assert SkipLeading(u, 0) == 0;
      assert SkipTrailing(u, |u|) == |u|;
      assert u[0..|u|] == u;
    }
  }

  // ---------------------------------------------------------------------------
  // Array.prototype.slice

  /** A relative index of `slice` resolved against `len`: negative values count
      from the end, and the result is clamped to [0, len]. */
  function RelativeIndex(k: int, len: nat): (r: nat)
    ensures r <= len
    ensures 0 <= k <= len ==> r == k
    ensures k > len ==> r == len
    ensures k < 0 && len + k >= 0 ==> r == len + k
    ensures len + k < 0 ==> r == 0
  {
    if k < 0 then (if len + k < 0 then 0 else len + k)
    else if k < len then k
    else len
  }

  /** `s.slice(start, end)`. */
  function Slice<T>(s: seq<T>, start: int, end: int): (r: seq<T>)
    ensures |r| <= |s|
    ensures var from := RelativeIndex(start, |s|);
            from + |r| <= |s| && r == s[from..from + |r|]
    ensures |r| == if RelativeIndex(end, |s|) > RelativeIndex(start, |s|)
                   then RelativeIndex(end, |s|) - RelativeIndex(start, |s|) else 0
  {
    var from := RelativeIndex(start, |s|);
    var to := RelativeIndex(end, |s|);
    if from < to then s[from..to] else []
  }

  /** With non-negative bounds, slice is the ordinary sub-sequence clamped to the length. */
  lemma SliceNonNegative<T>(s: seq<T>, start: int, end: int)
    requires 0 <= start <= end
    ensures var from := if start < |s| then start else |s|;
            var to := if end < |s| then end else |s|;
            Slice(s, start, end) == s[from..to]
  {
  }
}
