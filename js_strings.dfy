/** The two JavaScript string facts the validation schemas depend on:
    what `String.prototype.trim` strips (ECMAScript, "White Space" and
    "Line Terminators" in the lexical grammar chapter), and which
    characters a regular-expression `.` refuses to match (the line
    terminators, when the `s` flag is not given). */
module JsStrings {

  /** ECMAScript LineTerminator: LF, CR, LINE SEPARATOR, PARAGRAPH SEPARATOR. */
  predicate IsLineTerminator(c: char)
  {
    c == '\n' || c == '\r' || c == '\U{2028}' || c == '\U{2029}'
  }

  /** ECMAScript WhiteSpace: TAB, VT, FF, ZWNBSP and every Unicode "Zs" space. */
  predicate IsWhiteSpace(c: char)
  {
    c == '\t' || c == '\U{000B}' || c == '\U{000C}' || c == '\U{FEFF}'
    || c == ' ' || c == '\U{00A0}' || c == '\U{1680}'
    || ('\U{2000}' <= c <= '\U{200A}')
    || c == '\U{202F}' || c == '\U{205F}' || c == '\U{3000}'
  }

  /** The characters `trim` removes from both ends. */
  predicate IsTrimmable(c: char)
  {
    IsWhiteSpace(c) || IsLineTerminator(c)
  }

  /** `s` without its leading trimmable characters: a suffix of `s`. */
  function TrimStart(s: string): (r: string)
    ensures |r| <= |s| && r == s[|s| - |r|..]
    ensures forall i :: 0 <= i < |s| - |r| ==> IsTrimmable(s[i])
    ensures r != [] ==> !IsTrimmable(r[0])
    decreases |s|
  {
    if s != [] && IsTrimmable(s[0]) then TrimStart(s[1..]) else s
  }

  /** `s` without its trailing trimmable characters: a prefix of `s`. */
  function TrimEnd(s: string): (r: string)
    ensures |r| <= |s| && r == s[..|r|]
    ensures forall i :: |r| <= i < |s| ==> IsTrimmable(s[i])
    ensures r != [] ==> !IsTrimmable(r[|r| - 1])
    decreases |s|
  {
    if s != [] && IsTrimmable(s[|s| - 1]) then TrimEnd(s[..|s| - 1]) else s
  }

  /** `r` is the slice of `s` starting at `k`, and everything of `s`
      before and after that slice is trimmable. */
  predicate CutAt(s: string, r: string, k: int)
  {
    && 0 <= k <= |s| - |r| && r == s[k..k + |r|]
    && (forall i :: 0 <= i < k ==> IsTrimmable(s[i]))
    && (forall i :: k + |r| <= i < |s| ==> IsTrimmable(s[i]))
  }

  /** `String.prototype.trim`: a slice of `s` from which only trimmable
      characters were cut away, at the front and at the back. */
  function Trim(s: string): (r: string)
    ensures |r| <= |s|
    ensures CutAt(s, r, |s| - |TrimStart(s)|)
    ensures r != [] ==> !IsTrimmable(r[0]) && !IsTrimmable(r[|r| - 1])
  {
    var front := TrimStart(s);
    var k := |s| - |front|;
    var r := TrimEnd(front);
    assert r == s[k..k + |r|];
    assert forall i :: k + |r| <= i < |s| ==> s[i] == front[i - k];
    assert CutAt(s, r, k);
    r
  }

  /** A string made only of whitespace trims to the empty string. */
  lemma TrimAllWhiteSpace(s: string)
    requires forall i :: 0 <= i < |s| ==> IsTrimmable(s[i])
    ensures Trim(s) == ""
  {
  }

  /** A string with no whitespace at either end is left as it is. */
  lemma TrimUntrimmed(s: string)
    requires s != [] ==> !IsTrimmable(s[0]) && !IsTrimmable(s[|s| - 1])
    ensures Trim(s) == s
  {
  }

  /** Trimming twice is trimming once. */
  lemma TrimIdempotent(s: string)
    ensures Trim(Trim(s)) == Trim(s)
  {
    TrimUntrimmed(Trim(s));
  }

  /** The index of the first line terminator at or after `from`, or `|s|`
      when there is none: the end of the line a regular expression `.*`
      starting at `from` can reach. */
  function LineEnd(s: string, from: nat): (r: nat)
    requires from <= |s|
    ensures from <= r <= |s|
    decreases |s| - from
  {
    if from == |s| || IsLineTerminator(s[from]) then from else LineEnd(s, from + 1)
  }

  /** `LineEnd` stops at the first line terminator and at no other place. */
  lemma {:induction false} LineEndIsFirstTerminator(s: string, from: nat)
    requires from <= |s|
    ensures forall i :: from <= i < LineEnd(s, from) ==> !IsLineTerminator(s[i])
    ensures LineEnd(s, from) < |s| ==> IsLineTerminator(s[LineEnd(s, from)])
    decreases |s| - from
  {
    if from < |s| && !IsLineTerminator(s[from]) {
      LineEndIsFirstTerminator(s, from + 1);
    }
  }

  /** Without line terminators the line runs to the end of the string. */
  lemma LineEndWhole(s: string)
    requires forall i :: 0 <= i < |s| ==> !IsLineTerminator(s[i])
    ensures LineEnd(s, 0) == |s|
  {
    LineEndIsFirstTerminator(s, 0);
  }
}
