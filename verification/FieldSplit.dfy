/** The field splitter `re.split(r"\s{2,}|\t+", line)` applied to a technical line. */
module FieldSplit {
  import opened Text
  import opened Sequences

  /** What the pattern removes: a run of two or more whitespace characters, or a tab. */
  predicate IsSeparator(d: string) {
    d == "\t" || (|d| >= 2 && AllSpace(d))
  }

  /** The pattern matches at `i`: a tab, or the first of two adjacent whitespace characters. */
  predicate DelimiterStarts(s: string, i: nat)
    requires i < |s|
  {
    s[i] == '\t' || (i + 1 < |s| && IsSpace(s[i]) && IsSpace(s[i + 1]))
  }

  /** The pattern matches nowhere inside `f`. */
  predicate NoDelimiter(f: string) {
    forall k | 0 <= k < |f| :: !DelimiterStarts(f, k)
  }

  /** A well-formed field of a technical line: non-empty, with no whitespace at
      either end and no delimiter inside. */
  predicate IsCleanField(f: string) {
    f != [] && IsStripped(f) && NoDelimiter(f)
  }

  /** End of the longest whitespace run starting at `i`. */
  function SpaceRunEnd(s: string, i: nat): (j: nat)
    requires i <= |s|
    ensures i <= j <= |s|
    ensures i < |s| && IsSpace(s[i]) ==> i < j
    decreases |s| - i
  {
    if i < |s| && IsSpace(s[i]) then SpaceRunEnd(s, i + 1) else i
  }

  /** The run `SpaceRunEnd` finds is all whitespace and cannot be extended. */
  lemma {:induction false} SpaceRunEndMeaning(s: string, i: nat)
    requires i <= |s|
    ensures forall k | i <= k < SpaceRunEnd(s, i) :: IsSpace(s[k])
    ensures SpaceRunEnd(s, i) == |s| || !IsSpace(s[SpaceRunEnd(s, i)])
    decreases |s| - i
  {
    if i < |s| && IsSpace(s[i]) {
      SpaceRunEndMeaning(s, i + 1);
    }
  }

  /** Where the delimiter that starts at `i` ends. The first alternative `\s{2,}`
      is tried first and is greedy; the second, `\t+`, is only reached by a tab
      that is not followed by whitespace, so it matches that single tab. */
  function DelimiterEnd(s: string, i: nat): (e: nat)
    requires i < |s| && DelimiterStarts(s, i)
    ensures i < e <= |s|
  {
    if i + 1 < |s| && IsSpace(s[i]) && IsSpace(s[i + 1]) then SpaceRunEnd(s, i) else i + 1
  }

  /** The delimiter is whitespace throughout, is followed by no whitespace, and
      is one character long only when it is a tab. */
  lemma DelimiterEndMeaning(s: string, i: nat)
    requires i < |s| && DelimiterStarts(s, i)
    ensures forall k | i <= k < DelimiterEnd(s, i) :: IsSpace(s[k])
    ensures DelimiterEnd(s, i) == |s| || !IsSpace(s[DelimiterEnd(s, i)])
    ensures DelimiterEnd(s, i) == i + 1 ==> s[i] == '\t'
  {
    if i + 1 < |s| && IsSpace(s[i]) && IsSpace(s[i + 1]) {
      SpaceRunEndMeaning(s, i);
    }
  }

  /** The leftmost position at or after `i` where the pattern matches, or `|s|`. */
  function FirstDelimiter(s: string, i: nat): (p: nat)
    requires i <= |s|
    ensures i <= p <= |s|
    ensures forall k | i <= k < p :: !DelimiterStarts(s, k)
    ensures p < |s| ==> DelimiterStarts(s, p)
    decreases |s| - i
  {
    if i == |s| || DelimiterStarts(s, i) then i else FirstDelimiter(s, i + 1)
  }

  /** The fields `re.split` returns, and the delimiters it dropped between them. */
  datatype Tokens = Tokens(fields: seq<string>, separators: seq<string>)

  /** Puts the fields back together with the delimiters between them. */
  function Join(fields: seq<string>, separators: seq<string>): string
    requires |fields| == |separators| + 1
    decreases |separators|
  {
    if separators == [] then fields[0]
    else fields[0] + separators[0] + Join(fields[1..], separators[1..])
  }

  /** `re.split(r"\s{2,}|\t+", s)`, keeping the delimiters: scan for the leftmost
      delimiter, cut there, and go on after it. */
  function Tokenize(s: string): (t: Tokens)
    ensures |t.fields| == |t.separators| + 1
    decreases |s|
  {
    var p := FirstDelimiter(s, 0);
    if p == |s| then
      Tokens([s], [])
    else
      var e := DelimiterEnd(s, p);
      var rest := Tokenize(s[e..]);
      Tokens([s[..p]] + rest.fields, [s[p..e]] + rest.separators)
  }

  /** What `Tokenize` returns: separators the pattern matches, fields in which it
      matches nowhere, and, joined back together, the line itself. */
  lemma {:induction false} TokenizeMeaning(s: string)
    ensures forall d | d in Tokenize(s).separators :: IsSeparator(d)
    ensures forall f | f in Tokenize(s).fields :: NoDelimiter(f)
    ensures Join(Tokenize(s).fields, Tokenize(s).separators) == s
    decreases |s|
  {
    var p := FirstDelimiter(s, 0);
    PrefixHasNoDelimiter(s, p);
    if p == |s| {
      TakeAll(s);
    } else {
      var e := DelimiterEnd(s, p);
      DelimiterIsSeparator(s, p);
      TokenizeMeaning(s[e..]);
      var rest := Tokenize(s[e..]);
      ConsTokens(s, p, e, rest.fields, rest.separators);
    }
  }

  lemma DelimiterIsSeparator(s: string, p: nat)
    requires p < |s| && DelimiterStarts(s, p)
    ensures IsSeparator(s[p..DelimiterEnd(s, p)])
  {
    var e := DelimiterEnd(s, p);
    DelimiterEndMeaning(s, p);
    var d := s[p..e];
    if e == p + 1 {
      assert d == [s[p]];
    } else {
      forall k | 0 <= k < |d|
        ensures IsSpace(d[k])
      {
        assert d[k] == s[p + k];
      }
    }
  }

  /** One cut of `Tokenize`: a delimiter-free head, a separator, and the pieces of the rest. */
  lemma ConsTokens(s: string, p: nat, e: nat, fields: seq<string>, separators: seq<string>)
    requires p < e <= |s|
    requires NoDelimiter(s[..p]) && IsSeparator(s[p..e])
    requires |fields| == |separators| + 1
    requires forall d | d in separators :: IsSeparator(d)
    requires forall f | f in fields :: NoDelimiter(f)
    requires Join(fields, separators) == s[e..]
    ensures forall d | d in [s[p..e]] + separators :: IsSeparator(d)
    ensures forall f | f in [s[..p]] + fields :: NoDelimiter(f)
    ensures Join([s[..p]] + fields, [s[p..e]] + separators) == s
  {
    assert ([s[..p]] + fields)[1..] == fields;
    assert ([s[p..e]] + separators)[1..] == separators;
    assert s == s[..p] + s[p..e] + s[e..];
  }

  lemma PrefixHasNoDelimiter(s: string, p: nat)
    requires p <= |s|
    requires forall k | 0 <= k < p :: !DelimiterStarts(s, k)
    ensures NoDelimiter(s[..p])
  {
    var h := s[..p];
    forall k | 0 <= k < p
      ensures !DelimiterStarts(h, k)
    {
      assert !DelimiterStarts(s, k);
      assert h[k] == s[k];
      if k + 1 < p {
        assert h[k + 1] == s[k + 1];
      }
    }
  }

  /** The list `re.split(r"\s{2,}|\t+", s)` returns; it is never empty. */
  function Split(s: string): (r: seq<string>)
    ensures |r| >= 1
  {
    Tokenize(s).fields
  }

  /** Every field of a stripped, non-empty line is clean: `re.split` yields no
      empty field and no field that still holds a tab or a whitespace pair. */
  lemma {:induction false} StrippedLineFieldsAreClean(s: string)
    requires s != [] && IsStripped(s)
    ensures forall f | f in Split(s) :: IsCleanField(f)
    decreases |s|
  {
    var p := FirstDelimiter(s, 0);
    var t := Tokenize(s);
    PrefixHasNoDelimiter(s, p);
    if p == |s| {
      TakeAll(s);
      assert t.fields == [s];
    } else {
      var e := DelimiterEnd(s, p);
      DelimiterEndMeaning(s, p);
      assert p > 0;
      var h := s[..p];
      assert h in t.fields;
      assert IsSpace(s[p]);
      assert !DelimiterStarts(s, p - 1);
      assert !IsSpace(h[|h| - 1]);
      assert e < |s|;
      var r := s[e..];
      assert r[0] == s[e] && r[|r| - 1] == s[|s| - 1];
      StrippedLineFieldsAreClean(r);
      assert t.fields == [h] + Split(r);
    }
  }

  /** A line holding a tab or a whitespace pair splits into at least two fields. */
  lemma DelimitedLineHasSeveralFields(s: string)
    requires '\t' in s || HasSpaceRun(s)
    ensures |Split(s)| >= 2
  {
    var k :| 0 <= k < |s| && (s[k] == '\t' || (k + 1 < |s| && IsSpace(s[k]) && IsSpace(s[k + 1])));
    assert DelimiterStarts(s, k);
    assert FirstDelimiter(s, 0) < |s|;
  }

  /** A clean field is split off whole: the pattern matches nowhere inside it. */
  lemma CleanFieldHasNoDelimiter(f: string, s: string)
    requires IsCleanField(f) && StartsWith(s, f)
    requires |s| > |f| ==> IsSpace(s[|f|])
    ensures forall k | 0 <= k < |f| :: !DelimiterStarts(s, k)
  {
    forall k | 0 <= k < |f|
      ensures !DelimiterStarts(s, k)
    {
      assert !DelimiterStarts(f, k);
      assert s[k] == f[k];
      if k + 1 < |f| {
        assert s[k + 1] == f[k + 1];
      }
    }
  }

  /** In `f + d + r`, the leftmost delimiter is exactly `d`. */
  lemma CutAtSeparator(f: string, d: string, r: string)
    requires IsCleanField(f) && IsSeparator(d)
    requires r != [] && !IsSpace(r[0])
    ensures FirstDelimiter(f + d + r, 0) == |f|
    ensures DelimiterEnd(f + d + r, |f|) == |f| + |d|
  {
    var s := f + d + r;
    var p := |f|;
    assert s[..p] == f;
    CleanFieldHasNoDelimiter(f, s);
    assert s[p + |d|] == r[0];
    forall k | p <= k < p + |d|
      ensures IsSpace(s[k]) && (k == p ==> s[k] == d[0])
    {
      assert s[k] == d[k - p];
    }
    CutAt(s, p, |d|);
  }

  /** The leftmost delimiter of `s` starts at `p` and covers `n` characters. */
  lemma CutAt(s: string, p: nat, n: nat)
    requires 0 < n && p + n < |s|
    requires forall k | 0 <= k < p :: !DelimiterStarts(s, k)
    requires forall k | p <= k < p + n :: IsSpace(s[k])
    requires !IsSpace(s[p + n])
    requires n == 1 ==> s[p] == '\t'
    ensures FirstDelimiter(s, 0) == p
    ensures DelimiterStarts(s, p) && DelimiterEnd(s, p) == p + n
  {
    if n > 1 {
      assert IsSpace(s[p]) && IsSpace(s[p + 1]);
      SpaceRunEndIs(s, p, p + n);
    }
    FirstDelimiterIs(s, 0, p);
  }

  lemma {:induction false} SpaceRunEndIs(s: string, i: nat, j: nat)
    requires i <= j < |s|
    requires forall k | i <= k < j :: IsSpace(s[k])
    requires !IsSpace(s[j])
    ensures SpaceRunEnd(s, i) == j
    decreases j - i
  {
    if i < j {
      SpaceRunEndIs(s, i + 1, j);
    }
  }

  lemma {:induction false} FirstDelimiterIs(s: string, i: nat, p: nat)
    requires i <= p <= |s|
    requires forall k | i <= k < p :: !DelimiterStarts(s, k)
    requires p < |s| ==> DelimiterStarts(s, p)
    ensures FirstDelimiter(s, i) == p
    decreases p - i
  {
    if i < p {
      FirstDelimiterIs(s, i + 1, p);
    }
  }

  /** One unfolding of `Tokenize` at a known cut. */
  lemma TokenizeAt(s: string, p: nat, e: nat)
    requires p < |s| && FirstDelimiter(s, 0) == p && e == DelimiterEnd(s, p)
    ensures Tokenize(s) == Tokens([s[..p]] + Tokenize(s[e..]).fields, [s[p..e]] + Tokenize(s[e..]).separators)
  {
  }

  /** The splitter inverts `Join`: joining clean fields with separators and
      splitting again gives back the same fields and separators. */
  lemma {:induction false} SplitJoinRoundTrip(fields: seq<string>, separators: seq<string>)
    requires |fields| == |separators| + 1
    requires forall i | 0 <= i < |fields| :: IsCleanField(fields[i])
    requires forall i | 0 <= i < |separators| :: IsSeparator(separators[i])
    ensures Tokenize(Join(fields, separators)) == Tokens(fields, separators)
    decreases |separators|
  {
    if separators == [] {
      var s := Join(fields, separators);
      CleanFieldHasNoDelimiter(fields[0], s);
      FirstDelimiterIs(s, 0, |s|);
    } else {
      var rest := Join(fields[1..], separators[1..]);
      JoinStartsWithFirstField(fields[1..], separators[1..]);
      SplitJoinRoundTrip(fields[1..], separators[1..]);
      TokenizeAfterSeparator(fields[0], separators[0], rest);
      HeadTail(fields);
      HeadTail(separators);
    }
  }

  lemma JoinStartsWithFirstField(fields: seq<string>, separators: seq<string>)
    requires |fields| == |separators| + 1 && fields[0] != []
    ensures Join(fields, separators) != [] && Join(fields, separators)[0] == fields[0][0]
  {
  }

  /** Splitting `f + d + r` cuts off `f` and `d`, then splits `r`. */
  lemma TokenizeAfterSeparator(f: string, d: string, r: string)
    requires IsCleanField(f) && IsSeparator(d)
    requires r != [] && !IsSpace(r[0])
    ensures Tokenize(f + d + r) == Tokens([f] + Tokenize(r).fields, [d] + Tokenize(r).separators)
  {
    var s := f + d + r;
    CutAtSeparator(f, d, r);
    var e := |f| + |d|;
    assert s[..|f|] == f;
    assert s[|f|..e] == d;
    assert s[e..] == r;
    TokenizeAt(s, |f|, e);
  }
}
