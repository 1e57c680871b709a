/** Laws of the parser's fold that relate runs over different line lists. */
module ParserLaws {
  import opened Wrappers
  import opened Text
  import opened Classifier
  import opened Parser

  /** The loop carries its whole state from one line to the next, so a run
      over `a + b` is a run over `b` from where `a` left off. */
  lemma {:induction false} RunAppend(st: State, a: seq<string>, b: seq<string>)
    ensures Run(st, a + b) == Run(Run(st, a), b)
    decreases |b|
  {
    if b == [] {
      assert a + b == a;
    } else {
      var init := b[..|b| - 1];
      RunAppend(st, a, init);
      assert (a + b)[..|a + b| - 1] == a + init;
      assert (a + b)[|a + b| - 1] == b[|b| - 1];
    }
  }

  /** A run over a single line is one step. */
  lemma RunSingle(st: State, x: string)
    ensures Run(st, [x]) == Step(st, x)
  {
    assert [x][..0] == [];
  }

  /** Records are only ever appended: the records of any state are a prefix
      of the records after more lines. */
  lemma {:induction false} RunKeepsRecords(st: State, lines: seq<string>)
    ensures st.records <= Run(st, lines).records
    decreases |lines|
  {
    if lines != [] {
      RunKeepsRecords(st, lines[..|lines| - 1]);
    }
  }

  /** Reading more of the report never takes back a record: the records of a
      prefix are a prefix of the records of the whole. */
  lemma ParsePrefix(lines: seq<string>, k: nat)
    requires k <= |lines|
    ensures Parse(lines[..k]) <= Parse(lines)
  {
    assert lines == lines[..k] + lines[k..];
    RunAppend(Initial, lines[..k], lines[k..]);
    RunKeepsRecords(Run(Initial, lines[..k]), lines[k..]);
  }

  /** Blank, header and date lines can be inserted anywhere without changing
      the result. */
  lemma SkippedLineIsInvisible(a: seq<string>, x: string, b: seq<string>)
    requires IsSkipped(KindOf(x))
    ensures Parse(a + [x] + b) == Parse(a + b)
  {
    RunAppend(Initial, a + [x], b);
    RunAppend(Initial, a, [x]);
    RunSingle(Run(Initial, a), x);
    RunAppend(Initial, a, b);
  }

  /** Of two technical lines in a row only the second counts: the buffer is
      overwritten, not merged. */
  lemma LaterTechnicalLineWins(a: seq<string>, x: string, y: string, b: seq<string>)
    requires KindOf(x) == Technical && KindOf(y) == Technical
    ensures Parse(a + [x, y] + b) == Parse(a + [y] + b)
  {
    var st := Run(Initial, a);
    TechnicalStepOverwrites(st, x, y);
    RunAppend(Initial, a + [x, y], b);
    RunAppend(Initial, a, [x, y]);
    RunPair(st, x, y);
    RunAppend(Initial, a + [y], b);
    RunAppend(Initial, a, [y]);
    RunSingle(st, y);
  }

  lemma TechnicalStepOverwrites(st: State, x: string, y: string)
    requires KindOf(x) == Technical && KindOf(y) == Technical
    ensures Step(Step(st, x), y) == Step(st, y)
  {
  }

  lemma RunPair(st: State, x: string, y: string)
    ensures Run(st, [x, y]) == Step(Step(st, x), y)
  {
    assert [x, y][..1] == [x];
    RunSingle(st, x);
  }

  /** A technical line at the end of the report only fills the buffer, and the
      buffer is never turned into a record: the line adds nothing. */
  lemma TrailingTechnicalLineIsDiscarded(lines: seq<string>, x: string)
    requires KindOf(x) == Technical
    ensures Parse(lines + [x]) == Parse(lines)
  {
    RunAppend(Initial, lines, [x]);
    RunSingle(Run(Initial, lines), x);
  }

  /** A description line that finds nothing pending, wherever it stands (the
      second of two description lines in a row, say), is dropped: removing it
      does not change the result. */
  lemma DescriptionWithNothingPendingIsDropped(a: seq<string>, x: string, b: seq<string>)
    requires KindOf(x) == Description && Run(Initial, a).buffer.None?
    ensures Parse(a + [x] + b) == Parse(a + b)
  {
    RunAppend(Initial, a + [x], b);
    RunAppend(Initial, a, [x]);
    RunSingle(Run(Initial, a), x);
    RunAppend(Initial, a, b);
  }

  /** In particular the description lines before the first technical line never
      reach the output. */
  lemma LeadingDescriptionIsDropped(lines: seq<string>)
    requires lines != [] && KindOf(lines[0]) == Description
    ensures Parse(lines) == Parse(lines[1..])
  {
    DescriptionWithNothingPendingIsDropped([], lines[0], lines[1..]);
    assert [] + [lines[0]] + lines[1..] == lines;
    assert [] + lines[1..] == lines[1..];
  }

  /** A byte-order mark left at the start of the first line (as the `"utf-8"`
      codec leaves it) costs at most that line: it is read as a description
      line with nothing pending and dropped. */
  lemma ByteOrderMarkLineIsDropped(lines: seq<string>)
    requires lines != [] && lines[0] != [] && lines[0][0] == '\U{FEFF}'
    ensures Parse(lines) == Parse(lines[1..])
  {
    ByteOrderMarkLineIsDescription(lines[0]);
    LeadingDescriptionIsDropped(lines);
  }
}
