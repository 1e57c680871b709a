/** Characters and the `str.strip()` of the parser's first step. */
module Text {

  /** The characters CPython treats as whitespace: `str.isspace`, `str.strip()`
      with no argument and the regular-expression class `\s` on `str` patterns
      all use this one table. U+FEFF (the byte-order mark) is not in it. */
  const SpaceCodes: set<int> := {
    0x09, 0x0A, 0x0B, 0x0C, 0x0D, 0x1C, 0x1D, 0x1E, 0x1F, 0x20, 0x85, 0xA0, 0x1680,
    0x2000, 0x2001, 0x2002, 0x2003, 0x2004, 0x2005, 0x2006, 0x2007, 0x2008, 0x2009, 0x200A,
    0x2028, 0x2029, 0x202F, 0x205F, 0x3000
  }

  predicate IsSpace(c: char) {
    c as int in SpaceCodes
  }

  /** ASCII decimal digit. */
  predicate IsDigit(c: char) {
    '0' <= c <= '9'
  }

  predicate AllSpace(s: string) {
    forall i | 0 <= i < |s| :: IsSpace(s[i])
  }

  /** `s.startswith(p)` */
  predicate StartsWith(s: string, p: string) {
    |p| <= |s| && s[..|p|] == p
  }

  /** `re.search(r"\s{2,}", s)` succeeds: two adjacent whitespace characters. */
  predicate HasSpaceRun(s: string) {
    exists i | 0 <= i < |s| - 1 :: IsSpace(s[i]) && IsSpace(s[i + 1])
  }

  /** Neither end of `s` is whitespace: what `strip()` returns. */
  predicate IsStripped(s: string) {
    s == [] || (!IsSpace(s[0]) && !IsSpace(s[|s| - 1]))
  }

  /** Index of the first non-whitespace character at or after `i`, or `|s|`. */
  function SkipSpaces(s: string, i: nat): (a: nat)
    requires i <= |s|
    ensures i <= a <= |s|
    ensures forall k | i <= k < a :: IsSpace(s[k])
    ensures a < |s| ==> !IsSpace(s[a])
    decreases |s| - i
  {
    if i < |s| && IsSpace(s[i]) then SkipSpaces(s, i + 1) else i
  }

  /** Index just past the last non-whitespace character of `s[a..j]`, or `a`. */
  function SkipSpacesBack(s: string, a: nat, j: nat): (b: nat)
    requires a <= j <= |s|
    ensures a <= b <= j
    ensures forall k | b <= k < j :: IsSpace(s[k])
    ensures a < b ==> !IsSpace(s[b - 1])
    decreases j - a
  {
    if a < j && IsSpace(s[j - 1]) then SkipSpacesBack(s, a, j - 1) else j
  }

  /** `s.strip()`: `s` with whitespace removed from both ends. */
  function Strip(s: string): (r: string)
    ensures IsStripped(r)
    ensures |r| <= |s|
  {
    var a := SkipSpaces(s, 0);
    s[a..SkipSpacesBack(s, a, |s|)]
  }

  /** What `strip()` removes is whitespace, at both ends. */
  lemma StripShape(s: string)
    ensures exists a, b | 0 <= a <= b <= |s| ::
      && Strip(s) == s[a..b]
      && (forall k | 0 <= k < a :: IsSpace(s[k]))
      && (forall k | b <= k < |s| :: IsSpace(s[k]))
  {
    var a := SkipSpaces(s, 0);
    var b := SkipSpacesBack(s, a, |s|);
    assert Strip(s) == s[a..b];
  }

  /** `strip()` leaves nothing exactly when the text is all whitespace. */
  lemma StripEmpty(s: string)
    ensures Strip(s) == [] <==> AllSpace(s)
  {
    var a := SkipSpaces(s, 0);
    var b := SkipSpacesBack(s, a, |s|);
    if a < |s| {
      assert !IsSpace(s[a]);
      assert a < b;
    }
  }

  /** The forward scan stops at the first non-whitespace character. */
  lemma {:induction false} SkipSpacesIs(s: string, i: nat, a: nat)
    requires i <= a <= |s|
    requires forall k | i <= k < a :: IsSpace(s[k])
    requires a < |s| ==> !IsSpace(s[a])
    ensures SkipSpaces(s, i) == a
    decreases a - i
  {
    if i < a {
      SkipSpacesIs(s, i + 1, a);
    }
  }

  /** The backward scan stops after the last non-whitespace character. */
  lemma {:induction false} SkipSpacesBackIs(s: string, a: nat, j: nat, b: nat)
    requires a <= b <= j <= |s|
    requires forall k | b <= k < j :: IsSpace(s[k])
    requires a < b ==> !IsSpace(s[b - 1])
    ensures SkipSpacesBack(s, a, j) == b
    decreases j - b
  {
    if b < j {
      SkipSpacesBackIs(s, a, j - 1, b);
    }
  }

  /** `strip()` is determined by its result's shape: any stripped text surrounded
      only by whitespace is what `strip()` returns. */
  lemma StripUnique(w1: string, t: string, w2: string)
    requires AllSpace(w1) && AllSpace(w2) && IsStripped(t)
    ensures Strip(w1 + t + w2) == t
  {
    var s := w1 + t + w2;
    var a := |w1|;
    var b := |w1| + |t|;
    forall k | 0 <= k < |s|
      ensures s[k] == if k < a then w1[k] else if k < b then t[k - a] else w2[k - b]
    {
    }
    if t == [] {
      SkipSpacesIs(s, 0, |s|);
      SkipSpacesBackIs(s, |s|, |s|, |s|);
    } else {
      SkipSpacesIs(s, 0, a);
      SkipSpacesBackIs(s, a, |s|, b);
      assert s[a..b] == t;
    }
  }

  /** Stripping twice is stripping once. */
  lemma StripIdempotent(s: string)
    ensures Strip(Strip(s)) == Strip(s)
  {
    var t := Strip(s);
    assert t == [] + t + [];
    StripUnique([], t, []);
  }

  /** `strip()` never removes a first character that is not whitespace. */
  lemma StripKeepsFirst(s: string)
    requires s != [] && !IsSpace(s[0])
    ensures Strip(s) != [] && Strip(s)[0] == s[0]
  {
    assert SkipSpaces(s, 0) == 0;
    var b := SkipSpacesBack(s, 0, |s|);
    assert 0 < b;
  }
}
