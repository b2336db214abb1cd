/**
 * String.prototype.trim as the admin form uses it: a name counts as given only
 * when something other than white space is left after trimming.
 */
module JsText {

  /**
   * The characters trim removes: the ECMAScript WhiteSpace set (tab, vertical tab,
   * form feed, the byte order mark and every Unicode space separator) and the
   * LineTerminator set (line feed, carriage return, line and paragraph separator).
   */
  predicate IsJsSpace(c: char) {
    || c == ' ' || c == '\t' || c == '\n' || c == '\r' || c == '\U{B}' || c == '\U{C}'
    || c == '\U{A0}' || c == '\U{1680}' || ('\U{2000}' <= c <= '\U{200A}')
    || c == '\U{2028}' || c == '\U{2029}' || c == '\U{202F}' || c == '\U{205F}'
    || c == '\U{3000}' || c == '\U{FEFF}'
  }

  /** s without its leading white space: a suffix of s, all of whose dropped characters are space. */
  function TrimStart(s: string): (r: string)
    ensures |r| <= |s| && r == s[|s| - |r|..]
    ensures forall i :: 0 <= i < |s| - |r| ==> IsJsSpace(s[i])
    ensures |r| > 0 ==> !IsJsSpace(r[0])
  {
    if |s| > 0 && IsJsSpace(s[0]) then TrimStart(s[1..]) else s
  }

  /** s without its trailing white space: a prefix of s, all of whose dropped characters are space. */
  function TrimEnd(s: string): (r: string)
    ensures |r| <= |s| && r == s[..|r|]
    ensures forall i :: |r| <= i < |s| ==> IsJsSpace(s[i])
    ensures |r| > 0 ==> !IsJsSpace(r[|r| - 1])
  {
    if |s| > 0 && IsJsSpace(s[|s| - 1]) then TrimEnd(s[..|s| - 1]) else s
  }

  /** r is the part of s that starts at offset a, and every character of s outside it is space. */
  predicate SpaceAround(s: string, a: int, r: string) {
    && 0 <= a <= |s| - |r| && r == s[a..a + |r|]
    && (forall i :: 0 <= i < a ==> IsJsSpace(s[i]))
    && (forall i :: a + |r| <= i < |s| ==> IsJsSpace(s[i]))
  }

  /**
   * s without its leading and trailing white space: a contiguous part of s, all of whose
   * dropped characters are space, which neither starts nor ends with space.
   */
  function Trim(s: string): (r: string)
    ensures exists a :: SpaceAround(s, a, r)
    ensures |r| > 0 ==> !IsJsSpace(r[0]) && !IsJsSpace(r[|r| - 1])
  {
    var t := TrimStart(s);
    var r := TrimEnd(t);
    assert r == s[|s| - |t|..][..|r|];
    assert r == s[|s| - |t|..|s| - |t| + |r|];
    assert SpaceAround(s, |s| - |t|, r);
    r
  }

  /**
   * A string is blank when it holds nothing but white space; TrimEmptyIffBlank shows this is
   * exactly when trim leaves the empty string, so it is what `!s.trim()` tests.
   */
  predicate IsBlank(s: string) {
    forall i :: 0 <= i < |s| ==> IsJsSpace(s[i])
  }

  /** Trimming leaves nothing exactly when every character is white space. */
  lemma TrimEmptyIffBlank(s: string)
    ensures Trim(s) == "" <==> IsBlank(s)
  {
    var t := TrimStart(s);
    if !IsBlank(s) {
      var i :| 0 <= i < |s| && !IsJsSpace(s[i]);
      assert |t| > 0;
      assert !IsJsSpace(t[0]);
      assert |TrimEnd(t)| > 0;
    }
  }
}
