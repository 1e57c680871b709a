/** `str.splitlines()`: the decoded text cut into lines, terminators dropped. */
module LineBreaks {
  import opened Sequences

  /** The code points `str.splitlines` treats as line boundaries. `"\r\n"`
      together is one boundary. */
  const LineBreakCodes: set<int> := {0x0A, 0x0B, 0x0C, 0x0D, 0x1C, 0x1D, 0x1E, 0x85, 0x2028, 0x2029}

  predicate IsLineBreak(c: char) {
    c as int in LineBreakCodes
  }

  predicate NoLineBreak(s: string) {
    forall k | 0 <= k < |s| :: !IsLineBreak(s[k])
  }

  /** The first boundary at or after `i`, or `|t|`. */
  function FirstBreak(t: string, i: nat): (p: nat)
    requires i <= |t|
    ensures i <= p <= |t|
    ensures forall k | i <= k < p :: !IsLineBreak(t[k])
    ensures p < |t| ==> IsLineBreak(t[p])
    decreases |t| - i
  {
    if i == |t| || IsLineBreak(t[i]) then i else FirstBreak(t, i + 1)
  }

  /** Length of the boundary at `p`: two for `"\r\n"`, one otherwise. */
  function BreakLength(t: string, p: nat): (n: nat)
    requires p < |t| && IsLineBreak(t[p])
    ensures 1 <= n && p + n <= |t|
    ensures forall k | p <= k < p + n :: IsLineBreak(t[k])
  {
    if t[p] == '\r' && p + 1 < |t| && t[p + 1] == '\n' then 2 else 1
  }

  /** `t.splitlines()`: no line holds a boundary character, the empty text has
      no lines, and a text that does not open with a boundary opens its first line. */
  function SplitLines(t: string): (lines: seq<string>)
    ensures forall l | l in lines :: NoLineBreak(l)
    ensures lines == [] <==> t == []
    ensures t != [] && !IsLineBreak(t[0]) ==> lines[0] != [] && lines[0][0] == t[0]
    decreases |t|
  {
    if t == [] then []
    else
      var p := FirstBreak(t, 0);
      if p == |t| then
        assert NoLineBreak(t);
        [t]
      else
        assert NoLineBreak(t[..p]) by {
          forall k | 0 <= k < p
            ensures !IsLineBreak(t[..p][k])
          {
            assert t[..p][k] == t[k];
          }
        }
        [t[..p]] + SplitLines(t[p + BreakLength(t, p)..])
  }

  /** The text with every boundary character removed. */
  function DropBreaks(t: string): (r: string)
    ensures NoLineBreak(r)
    decreases |t|
  {
    if t == [] then []
    else if IsLineBreak(t[0]) then DropBreaks(t[1..])
    else [t[0]] + DropBreaks(t[1..])
  }

  function Concat(lines: seq<string>): string
    decreases |lines|
  {
    if lines == [] then [] else lines[0] + Concat(lines[1..])
  }

  /** Each line ended by a `"\n"`. */
  function JoinLines(lines: seq<string>): string
    decreases |lines|
  {
    if lines == [] then [] else lines[0] + "\n" + JoinLines(lines[1..])
  }

  lemma {:induction false} DropBreaksAppend(a: string, b: string)
    ensures DropBreaks(a + b) == DropBreaks(a) + DropBreaks(b)
    decreases |a|
  {
    if a == [] {
      assert a + b == b;
    } else {
      assert (a + b)[1..] == a[1..] + b;
      DropBreaksAppend(a[1..], b);
    }
  }

  lemma {:induction false} DropBreaksOfLine(s: string)
    requires NoLineBreak(s)
    ensures DropBreaks(s) == s
    decreases |s|
  {
    if s != [] {
      DropBreaksOfLine(s[1..]);
    }
  }

  lemma {:induction false} DropBreaksOfBreaks(s: string)
    requires forall k | 0 <= k < |s| :: IsLineBreak(s[k])
    ensures DropBreaks(s) == []
    decreases |s|
  {
    if s != [] {
      DropBreaksOfBreaks(s[1..]);
    }
  }

  /** Nothing but boundary characters is lost: the lines, read one after the
      other, are the text with its boundaries taken out. */
  lemma {:induction false} SplitLinesKeepsText(t: string)
    ensures Concat(SplitLines(t)) == DropBreaks(t)
    decreases |t|
  {
    if t != [] {
      var p := FirstBreak(t, 0);
      if p == |t| {
        DropBreaksOfLine(t);
        assert Concat([t]) == t + Concat([]);
      } else {
        var e := p + BreakLength(t, p);
        SplitLinesKeepsText(t[e..]);
        LineOfText(t, p);
        BreaksOfText(t, p, e);
        KeepsTextStep(t, p, e, SplitLines(t[e..]));
      }
    }
  }

  lemma KeepsTextStep(t: string, p: nat, e: nat, rest: seq<string>)
    requires p <= e <= |t|
    requires DropBreaks(t[..p]) == t[..p] && DropBreaks(t[p..e]) == []
    requires Concat(rest) == DropBreaks(t[e..])
    ensures Concat([t[..p]] + rest) == DropBreaks(t)
  {
    assert ([t[..p]] + rest)[1..] == rest;
    assert t == t[..p] + t[p..e] + t[e..];
    DropBreaksAround(t[..p], t[p..e], t[e..]);
  }

  /** A line, then a boundary, then the rest: only the rest still has boundaries to drop. */
  lemma DropBreaksAround(a: string, b: string, c: string)
    requires DropBreaks(a) == a && DropBreaks(b) == []
    ensures DropBreaks(a + b + c) == a + DropBreaks(c)
  {
    DropBreaksAppend(a + b, c);
    DropBreaksAppend(a, b);
    assert a + [] == a;
  }

  lemma LineOfText(t: string, p: nat)
    requires p <= |t|
    requires forall k | 0 <= k < p :: !IsLineBreak(t[k])
    ensures DropBreaks(t[..p]) == t[..p]
  {
    var a := t[..p];
    forall k | 0 <= k < |a|
      ensures !IsLineBreak(a[k])
    {
      assert a[k] == t[k];
    }
    DropBreaksOfLine(a);
  }

  lemma BreaksOfText(t: string, p: nat, e: nat)
    requires p <= e <= |t|
    requires forall k | p <= k < e :: IsLineBreak(t[k])
    ensures DropBreaks(t[p..e]) == []
  {
    var b := t[p..e];
    forall k | 0 <= k < |b|
      ensures IsLineBreak(b[k])
    {
      assert b[k] == t[p + k];
    }
    DropBreaksOfBreaks(b);
  }

  /** `splitlines` undoes writing each line followed by `"\n"`. */
  lemma {:induction false} SplitJoinLines(lines: seq<string>)
    requires forall l | l in lines :: NoLineBreak(l)
    ensures SplitLines(JoinLines(lines)) == lines
    decreases |lines|
  {
    if lines != [] {
      assert lines[0] in lines;
      assert forall x | x in lines[1..] :: x in lines;
      SplitLinesCons(lines[0], JoinLines(lines[1..]));
      SplitJoinLines(lines[1..]);
      HeadTail(lines);
    }
  }

  /** A line without boundaries followed by `"\n"` is split off whole. */
  lemma SplitLinesCons(l: string, rest: string)
    requires NoLineBreak(l)
    ensures SplitLines(l + "\n" + rest) == [l] + SplitLines(rest)
  {
    var t := l + "\n" + rest;
    assert t[|l|] == '\n';
    assert forall k | 0 <= k < |l| :: t[k] == l[k];
    FirstBreakIs(t, 0, |l|);
    assert BreakLength(t, |l|) == 1;
    assert t[..|l|] == l;
    assert t[|l| + 1..] == rest;
  }

  lemma {:induction false} FirstBreakIs(t: string, i: nat, p: nat)
    requires i <= p <= |t|
    requires forall k | i <= k < p :: !IsLineBreak(t[k])
    requires p < |t| ==> IsLineBreak(t[p])
    ensures FirstBreak(t, i) == p
    decreases p - i
  {
    if i < p {
      FirstBreakIs(t, i + 1, p);
    }
  }
}
