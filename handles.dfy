/**
 * Handle normalisation shared by every component: lower-casing (every key
 * helper of lib/db.ts lower-cases the handle), and the two string operations
 * the throw route applies to a raw target (`replace('@', '')` and `trim()`).
 */
module Handles {

  /** `toLowerCase` on one character; only the ASCII letters are mapped. */
  function LowerChar(c: char): char {
    if 'A' <= c <= 'Z' then (c as int + 32) as char else c
  }

  predicate IsUpper(c: char) {
    'A' <= c <= 'Z'
  }

  /** `toLowerCase` on a whole string. */
  function Lower(s: string): (r: string)
    ensures |r| == |s|
  {
    seq(|s|, i requires 0 <= i < |s| => LowerChar(s[i]))
  }

  /** Lower-casing works character by character. */
  lemma LowerAt(s: string)
    ensures forall i :: 0 <= i < |s| ==> Lower(s)[i] == LowerChar(s[i])
  {
  }

  /** No character of `s` is an upper-case letter. */
  predicate IsLower(s: string) {
    forall i :: 0 <= i < |s| ==> !IsUpper(s[i])
  }

  /** `u` and `v` differ at most in the case of their letters. */
  predicate EqualIgnoringCase(u: string, v: string) {
    |u| == |v| && forall i :: 0 <= i < |u| ==> LowerChar(u[i]) == LowerChar(v[i])
  }

  lemma LowerIsLower(s: string)
    ensures IsLower(Lower(s))
  {
    LowerAt(s);
  }

  /** Lower-casing a string that has no upper-case letter leaves it as it is. */
  lemma LowerOfLower(s: string)
    requires IsLower(s)
    ensures Lower(s) == s
  {
    LowerAt(s);
    assert forall i :: 0 <= i < |s| ==> Lower(s)[i] == s[i];
  }

  /** Lower-casing twice is lower-casing once (each key helper lower-cases again). */
  lemma LowerIdempotent(s: string)
    ensures Lower(Lower(s)) == Lower(s)
  {
    LowerIsLower(s);
    LowerOfLower(Lower(s));
  }

  /** Two handles share every lower-cased key exactly when they are case variants. */
  lemma LowerEqualIffCaseVariant(u: string, v: string)
    ensures Lower(u) == Lower(v) <==> EqualIgnoringCase(u, v)
  {
    LowerAt(u);
    LowerAt(v);
    if EqualIgnoringCase(u, v) {
      assert forall i :: 0 <= i < |u| ==> Lower(u)[i] == Lower(v)[i];
    }
    if Lower(u) == Lower(v) {
      assert forall i :: 0 <= i < |u| ==> LowerChar(u[i]) == Lower(u)[i] == Lower(v)[i] == LowerChar(v[i]);
    }
  }

  /**
   * The characters `String.prototype.trim` removes: the ECMAScript WhiteSpace
   * set (tab, vertical tab, form feed, space, no-break space, byte order mark
   * and the Unicode space separators) and the LineTerminator set.
   */
  predicate IsSpace(c: char) {
    || c == '\t' || c == '\n' || c == '\U{B}' || c == '\U{C}' || c == '\r'
    || c == ' ' || c == '\U{A0}' || c == '\U{1680}'
    || ('\U{2000}' <= c <= '\U{200A}')
    || c == '\U{2028}' || c == '\U{2029}' || c == '\U{202F}' || c == '\U{205F}'
    || c == '\U{3000}' || c == '\U{FEFF}'
  }

  predicate AllSpace(s: string) {
    forall i :: 0 <= i < |s| ==> IsSpace(s[i])
  }

  /** Drops the leading white space: the result is the suffix of `s` that starts with a non-space. */
  function TrimStart(s: string): (r: string)
    ensures |r| <= |s| && r == s[|s| - |r|..]
    ensures AllSpace(s[..|s| - |r|])
    ensures r == [] || !IsSpace(r[0])
  {
    if s != [] && IsSpace(s[0]) then TrimStart(s[1..]) else s
  }

  /** Drops the trailing white space: the result is the prefix of `s` that ends with a non-space. */
  function TrimEnd(s: string): (r: string)
    ensures |r| <= |s| && r == s[..|r|]
    ensures AllSpace(s[|r|..])
    ensures r == [] || !IsSpace(r[|r| - 1])
  {
    if s != [] && IsSpace(s[|s| - 1]) then TrimEnd(s[..|s| - 1]) else s
  }

  /** `r` sits at offset `i` of `s` with only white space around it. */
  predicate PaddedAt(s: string, r: string, i: int) {
    0 <= i && i + |r| <= |s| && r == s[i..i + |r|] && AllSpace(s[..i]) && AllSpace(s[i + |r|..])
  }

  /** `String.prototype.trim`. */
  function Trim(s: string): (r: string)
    ensures exists i :: PaddedAt(s, r, i)
    ensures r == [] || (!IsSpace(r[0]) && !IsSpace(r[|r| - 1]))
  {
    var t := TrimStart(s);
    var r := TrimEnd(t);
    var i := |s| - |t|;
    assert s[i..i + |r|] == r;
    assert s[i + |r|..] == t[|r|..];
    assert PaddedAt(s, r, i);
    r
  }

  /** Index of the first occurrence of `c` in `s`. */
  function FirstIndex(s: string, c: char): (k: nat)
    requires c in s
    ensures k < |s| && s[k] == c && c !in s[..k]
  {
    if s[0] == c then 0 else 1 + FirstIndex(s[1..], c)
  }

  /** `s.replace(c, '')` with a one-character string pattern: only the first occurrence goes. */
  function RemoveFirst(s: string, c: char): (r: string)
    ensures c !in s ==> r == s
    ensures c in s ==> r == s[..FirstIndex(s, c)] + s[FirstIndex(s, c) + 1..]
  {
    if s == [] then []
    else if s[0] == c then s[1..]
    else [s[0]] + RemoveFirst(s[1..], c)
  }
}
