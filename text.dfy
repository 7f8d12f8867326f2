/**
 * The two string operations the request handlers apply to form input:
 * Python's `str.strip()` (no argument: strip whitespace at both ends) and
 * `str.lower()`.
 */
module Text {

  /** Python's `str.isspace()` on one character. */
  predicate IsSpace(c: char)
    ensures c == ' ' ==> IsSpace(c)
    ensures IsSpace(c) ==> !('!' <= c <= '~')
  {
    || c == ' '
    || '\t' <= c <= '\r'
    || '\U{1C}' <= c <= '\U{1F}'
    || c == '\U{85}'
    || c == '\U{A0}'
    || c == '\U{1680}'
    || '\U{2000}' <= c <= '\U{200A}'
    || c == '\U{2028}'
    || c == '\U{2029}'
    || c == '\U{202F}'
    || c == '\U{205F}'
    || c == '\U{3000}'
  }

  /** The first index at or after `i` that does not hold a space (`|s|` when there is none). */
  function SkipSpace(s: string, i: nat): (j: nat)
    requires i <= |s|
    ensures i <= j <= |s|
    ensures forall k :: i <= k < j ==> IsSpace(s[k])
    ensures j < |s| ==> !IsSpace(s[j])
    decreases |s| - i
  {
    if i < |s| && IsSpace(s[i]) then SkipSpace(s, i + 1) else i
  }

  /**
   * Scanning back from `j` towards `lo`: the index just after the last
   * character before `j` that is not a space (`lo` when there is none).
   */
  function SkipSpaceBack(s: string, lo: nat, j: nat): (k: nat)
    requires lo <= j <= |s|
    ensures lo <= k <= j
    ensures forall m :: k <= m < j ==> IsSpace(s[m])
    ensures k > lo ==> !IsSpace(s[k - 1])
    decreases j
  {
    if j > lo && IsSpace(s[j - 1]) then SkipSpaceBack(s, lo, j - 1) else j
  }

  /** Where the text of `s` starts once leading whitespace is skipped. */
  function TextStart(s: string): nat {
    SkipSpace(s, 0)
  }

  /** Where the text of `s` ends once trailing whitespace is skipped. */
  function TextEnd(s: string): nat {
    SkipSpaceBack(s, TextStart(s), |s|)
  }

  /**
   * Python's `s.strip()`: the slice of `s` between its leading and its
   * trailing whitespace; it neither starts nor ends with a space.
   */
  function Strip(s: string): (r: string)
    ensures |r| <= |s|
    ensures r != [] ==> !IsSpace(r[0]) && !IsSpace(r[|r| - 1])
  {
    s[TextStart(s)..TextEnd(s)]
  }

  /** What `strip()` keeps is one contiguous slice of `s`, with only whitespace before and after it. */
  lemma StripIsSlice(s: string)
    ensures exists a, b :: (0 <= a <= b <= |s| && Strip(s) == s[a..b]
      && (forall k :: 0 <= k < a ==> IsSpace(s[k]))
      && (forall k :: b <= k < |s| ==> IsSpace(s[k])))
  {
    var a, b := TextStart(s), TextEnd(s);
    assert Strip(s) == s[a..b];
  }

  /** A string that neither starts nor ends with a space is left as it is. */
  lemma StripUntrimmed(s: string)
    requires s != [] ==> !IsSpace(s[0]) && !IsSpace(s[|s| - 1])
    ensures Strip(s) == s
  {
    assert TextStart(s) == 0;
    assert TextEnd(s) == |s|;
  }

  /** Stripping twice is stripping once. */
  lemma StripIdempotent(s: string)
    ensures Strip(Strip(s)) == Strip(s)
  {
    StripUntrimmed(Strip(s));
  }

  /** `s.strip()` is empty, the "blank field" test of the handlers, exactly when every character of `s` is a space. */
  lemma StripEmptyIff(s: string)
    ensures Strip(s) == [] <==> forall i :: 0 <= i < |s| ==> IsSpace(s[i])
  {
    var a, b := TextStart(s), TextEnd(s);
    if Strip(s) == [] {
      assert a == b;
    } else {
      assert !IsSpace(s[a]);
    }
  }

  /** Python's `str.lower()` on one character, for the ASCII letters. */
  function LowerChar(c: char): (r: char)
    ensures !('A' <= r <= 'Z')
    ensures 'A' <= c <= 'Z' ==> 'a' <= r <= 'z' && r as int - c as int == 'a' as int - 'A' as int
    ensures !('A' <= c <= 'Z') ==> r == c
  {
    if 'A' <= c <= 'Z' then (c as int - 'A' as int + 'a' as int) as char else c
  }

  /** Python's `s.lower()`: the same length, each character lowered. */
  function Lower(s: string): (r: string)
    ensures |r| == |s|
    ensures forall i :: 0 <= i < |s| ==> r[i] == LowerChar(s[i])
  {
    seq(|s|, i requires 0 <= i < |s| => LowerChar(s[i]))
  }

  /** A lowered string holds no upper-case ASCII letter, so lowering it again changes nothing. */
  lemma LowerIdempotent(s: string)
    ensures forall i :: 0 <= i < |Lower(s)| ==> !('A' <= Lower(s)[i] <= 'Z')
    ensures Lower(Lower(s)) == Lower(s)
  {
  }

  /** Two strings with spaces at the same positions start their text at the same index. */
  lemma SkipSpaceSamePositions(s: string, t: string, i: nat)
    requires |s| == |t| && i <= |s|
    requires forall k :: 0 <= k < |s| ==> (IsSpace(s[k]) <==> IsSpace(t[k]))
    ensures SkipSpace(s, i) == SkipSpace(t, i)
  {
  }

  /** Two strings with spaces at the same positions end their text at the same index. */
  lemma SkipSpaceBackSamePositions(s: string, t: string, lo: nat, j: nat)
    requires |s| == |t| && lo <= j <= |s|
    requires forall k :: 0 <= k < |s| ==> (IsSpace(s[k]) <==> IsSpace(t[k]))
    ensures SkipSpaceBack(s, lo, j) == SkipSpaceBack(t, lo, j)
  {
  }

  /** Lowering a character never turns a space into a non-space or back. */
  lemma LowerCharKeepsSpace(c: char)
    ensures IsSpace(LowerChar(c)) == IsSpace(c)
  {
  }

  /** Lowering commutes with taking a slice. */
  lemma LowerSlice(s: string, a: nat, b: nat)
    requires a <= b <= |s|
    ensures Lower(s)[a..b] == Lower(s[a..b])
  {
    forall k | 0 <= k < b - a
      ensures Lower(s)[a..b][k] == Lower(s[a..b])[k]
    {
      assert Lower(s[a..b])[k] == LowerChar(s[a + k]);
    }
  }

  /** Lowering does not touch whitespace, so it may be done before or after stripping. */
  lemma LowerStripCommute(s: string)
    ensures Strip(Lower(s)) == Lower(Strip(s))
  {
    var t := Lower(s);
    forall k | 0 <= k < |s|
      ensures IsSpace(s[k]) <==> IsSpace(t[k])
    {
      LowerCharKeepsSpace(s[k]);
    }
    SkipSpaceSamePositions(s, t, 0);
    SkipSpaceBackSamePositions(s, t, TextStart(s), |s|);
    LowerSlice(s, TextStart(s), TextEnd(s));
  }
}
