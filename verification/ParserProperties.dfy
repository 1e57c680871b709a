/** What `parse_material_master` computes, stated without its loop state, and
    the properties that follow. The statement is about the kinds of the lines:
    which line is answered by which. */
module ParserProperties {
  import opened Wrappers
  import opened Text
  import opened FieldSplit
  import opened Classifier
  import opened Parser
  import opened Sequences

  /** The kind of every line, in order. */
  function Kinds(lines: seq<string>): (ks: seq<LineKind>)
    ensures |ks| == |lines|
    ensures forall i | 0 <= i < |lines| :: ks[i] == KindOf(lines[i])
  {
    seq(|lines|, i requires 0 <= i < |lines| => KindOf(lines[i]))
  }

  /** Technical line `t` is answered by description line `j`: every line in
      between is blank, a header or a date. */
  predicate Paired(ks: seq<LineKind>, t: int, j: int) {
    && 0 <= t < j < |ks|
    && ks[t] == Technical
    && ks[j] == Description
    && forall m | t < m < j :: IsSkipped(ks[m])
  }

  /** The technical line still waiting for its description after the first `n`
      kinds: the last of them that is not skipped, if it is technical. */
  function PendingLine(ks: seq<LineKind>, n: nat): (r: Option<nat>)
    requires n <= |ks|
    ensures r.Some? ==> r.value < n
  {
    if n == 0 then None
    else
      match ks[n - 1]
      case Technical => Some(n - 1)
      case Description => None
      case Blank => PendingLine(ks, n - 1)
      case Header => PendingLine(ks, n - 1)
      case DateStamp => PendingLine(ks, n - 1)
  }

  /** The pending line is technical and only skipped lines follow it; when
      there is none, every technical line has been answered by a later
      description line. */
  lemma {:induction false} PendingLineMeaning(ks: seq<LineKind>, n: nat)
    requires n <= |ks|
    ensures PendingLine(ks, n).Some? ==> ks[PendingLine(ks, n).value] == Technical
    ensures PendingLine(ks, n).Some? ==>
      forall m | PendingLine(ks, n).value < m < n :: IsSkipped(ks[m])
    ensures PendingLine(ks, n).None? ==> forall t | 0 <= t < n && ks[t] == Technical ::
      exists m | t < m < n :: ks[m] == Description
  {
    if n > 0 {
      if IsSkipped(ks[n - 1]) {
        PendingLineMeaning(ks, n - 1);
      } else if ks[n - 1] == Description {
        forall t | 0 <= t < n && ks[t] == Technical
          ensures exists m | t < m < n :: ks[m] == Description
        {
          assert ks[n - 1] == Description;
        }
      }
    }
  }

  /** A technical line followed only by skipped lines is the pending one. */
  lemma {:induction false} PendingLineOfPair(ks: seq<LineKind>, n: nat, t: nat)
    requires n <= |ks| && t < n && ks[t] == Technical
    requires forall m | t < m < n :: IsSkipped(ks[m])
    ensures PendingLine(ks, n) == Some(t)
  {
    if t < n - 1 {
      assert IsSkipped(ks[n - 1]);
      PendingLineOfPair(ks, n - 1, t);
    }
  }

  /** Every entry of `ps` is a pair of `ks`. */
  predicate PairsHold(ks: seq<LineKind>, ps: seq<(nat, nat)>) {
    forall k | 0 <= k < |ps| :: Paired(ks, ps[k].0, ps[k].1)
  }

  /** The entries of `ps` are in increasing order of their description lines. */
  predicate PairsOrdered(ps: seq<(nat, nat)>) {
    forall k, l | 0 <= k < l < |ps| :: ps[k].1 < ps[l].1
  }

  /** Every pair among the first `n` kinds is an entry of `ps`. */
  predicate PairsComplete(ks: seq<LineKind>, n: nat, ps: seq<(nat, nat)>) {
    forall t, j | 0 <= t < j < n && Paired(ks, t, j) :: (t, j) in ps
  }

  /** `ps` lists exactly the pairs among the first `n` kinds, in increasing
      order of their description lines. */
  predicate ListsPairs(ks: seq<LineKind>, n: nat, ps: seq<(nat, nat)>) {
    && PairsHold(ks, ps)
    && (forall k | 0 <= k < |ps| :: ps[k].1 < n)
    && PairsOrdered(ps)
    && PairsComplete(ks, n, ps)
  }

  /** The (technical, description) line pairs among the first `n` kinds,
      collected line by line. */
  function Pairings(ks: seq<LineKind>, n: nat): seq<(nat, nat)>
    requires n <= |ks|
  {
    if n == 0 then []
    else
      var earlier := Pairings(ks, n - 1);
      match PendingLine(ks, n - 1)
      case Some(t) => if ks[n - 1] == Description then earlier + [(t, n - 1)] else earlier
      case None => earlier
  }

  /** Every pair collected names two of the first `n` lines, the technical one first. */
  lemma {:induction false} PairingsInRange(ks: seq<LineKind>, n: nat)
    requires n <= |ks|
    ensures forall k | 0 <= k < |Pairings(ks, n)| :: Pairings(ks, n)[k].0 < Pairings(ks, n)[k].1 < n
  {
    if n > 0 {
      PairingsInRange(ks, n - 1);
    }
  }

  /** `Pairings` lists every pair and nothing else, in the order of the
      description lines. */
  lemma {:induction false} PairingsMeaning(ks: seq<LineKind>, n: nat)
    requires n <= |ks|
    ensures ListsPairs(ks, n, Pairings(ks, n))
  {
    if n > 0 {
      var earlier := Pairings(ks, n - 1);
      PairingsMeaning(ks, n - 1);
      match PendingLine(ks, n - 1)
      case Some(t) =>
        if ks[n - 1] == Description {
          PendingLineMeaning(ks, n - 1);
          EmitHold(ks, n - 1, earlier, t);
          EmitOrdered(ks, n, earlier, t);
          EmitComplete(ks, n, earlier, t);
        } else {
          KeepComplete(ks, n, earlier);
        }
      case None =>
        KeepComplete(ks, n, earlier);
    }
  }

  lemma EmitHold(ks: seq<LineKind>, j: nat, earlier: seq<(nat, nat)>, t: nat)
    requires j < |ks| && ks[j] == Description
    requires t < j && ks[t] == Technical && forall m | t < m < j :: IsSkipped(ks[m])
    requires PairsHold(ks, earlier) && forall k | 0 <= k < |earlier| :: earlier[k].1 < j
    ensures PairsHold(ks, earlier + [(t, j)])
    ensures forall k | 0 <= k < |earlier + [(t, j)]| :: (earlier + [(t, j)])[k].1 <= j
  {
    var ps := earlier + [(t, j)];
    forall k | 0 <= k < |ps|
      ensures Paired(ks, ps[k].0, ps[k].1) && ps[k].1 <= j
    {
      if k < |earlier| {
        assert ps[k] == earlier[k];
      }
    }
  }

  lemma EmitOrdered(ks: seq<LineKind>, n: nat, earlier: seq<(nat, nat)>, t: nat)
    requires 0 < n
    requires PairsOrdered(earlier) && forall k | 0 <= k < |earlier| :: earlier[k].1 < n - 1
    ensures PairsOrdered(earlier + [(t, n - 1)])
  {
    var ps := earlier + [(t, n - 1)];
    forall k, l | 0 <= k < l < |ps|
      ensures ps[k].1 < ps[l].1
    {
      assert ps[k] == earlier[k];
    }
  }

  lemma EmitComplete(ks: seq<LineKind>, n: nat, earlier: seq<(nat, nat)>, t: nat)
    requires 0 < n <= |ks|
    requires PendingLine(ks, n - 1) == Some(t)
    requires PairsComplete(ks, n - 1, earlier)
    ensures PairsComplete(ks, n, earlier + [(t, n - 1)])
  {
    var ps := earlier + [(t, n - 1)];
    forall t', j | 0 <= t' < j < n && Paired(ks, t', j)
      ensures (t', j) in ps
    {
      if j < n - 1 {
        assert (t', j) in earlier;
      } else {
        PendingLineOfPair(ks, n - 1, t');
      }
    }
  }

  /** A line that closes no pair leaves the list as it was. */
  lemma KeepComplete(ks: seq<LineKind>, n: nat, earlier: seq<(nat, nat)>)
    requires 0 < n <= |ks|
    requires !(ks[n - 1] == Description && PendingLine(ks, n - 1).Some?)
    requires ListsPairs(ks, n - 1, earlier)
    requires earlier == Pairings(ks, n - 1)
    ensures ListsPairs(ks, n, Pairings(ks, n))
  {
    assert Pairings(ks, n) == earlier;
    var j := n - 1;
    forall t | 0 <= t < j && Paired(ks, t, j)
      ensures false
    {
      PendingLineOfPair(ks, n - 1, t);
    }
  }

  /** The record the pair (`t`, `j`) stands for. */
  function RecordOf(lines: seq<string>, p: (nat, nat)): Record
    requires p.0 < |lines| && p.1 < |lines|
  {
    MakeRecord(Split(Strip(lines[p.0])), Strip(lines[p.1]))
  }

  /** The pending buffer a pending line stands for. */
  function BufferOf(lines: seq<string>, pending: Option<nat>): Option<Buffer>
    requires pending.Some? ==> pending.value < |lines|
  {
    match pending
    case None => None
    case Some(t) => Some(Split(Strip(lines[t])))
  }

  /** The parser emits exactly one record per (technical, description) pair, in
      the order of the description lines, and the buffer it ends with holds the
      fields of the pending technical line. */
  lemma ParseMatchesPairings(lines: seq<string>)
    ensures Run(Initial, lines).buffer == BufferOf(lines, PendingLine(Kinds(lines), |lines|))
    ensures |Parse(lines)| == |Pairings(Kinds(lines), |lines|)|
    ensures var ps := Pairings(Kinds(lines), |lines|);
      forall k | 0 <= k < |ps| ::
        ps[k].0 < ps[k].1 < |lines| && Parse(lines)[k] == RecordOf(lines, ps[k])
  {
    var ks := Kinds(lines);
    var ss := Stripped(lines);
    var fs := FieldsOf(ss);
    RunAgrees(lines, ks, fs, ss, |lines|);
    TakeAll(lines);
    AgreedRecords(lines, ks, fs, ss, Run(Initial, lines));
    AgreedBuffer(lines, ks, fs, ss, Run(Initial, lines));
  }

  /** The records of a state that agrees with the pairing of all lines. */
  lemma AgreedRecords(lines: seq<string>, ks: seq<LineKind>, fs: seq<Buffer>, ss: seq<string>, st: State)
    requires |ks| == |lines| && ss == Stripped(lines) && fs == FieldsOf(ss)
    requires AgreesAt(ks, fs, ss, |lines|, st)
    ensures |st.records| == |Pairings(ks, |lines|)|
    ensures var ps := Pairings(ks, |lines|);
      forall k | 0 <= k < |ps| :: ps[k].0 < ps[k].1 < |lines| && st.records[k] == RecordOf(lines, ps[k])
  {
    var ps := Pairings(ks, |lines|);
    PairingsInRange(ks, |lines|);
    forall k | 0 <= k < |ps|
      ensures st.records[k] == RecordOf(lines, ps[k])
    {
      var t, j := ps[k].0, ps[k].1;
      RecordOfLines(lines, t, j, fs[t], ss[t], ss[j]);
    }
  }

  lemma RecordOfLines(lines: seq<string>, t: nat, j: nat, fields: Buffer, tline: string, dline: string)
    requires t < |lines| && j < |lines|
    requires tline == Strip(lines[t]) && fields == Split(tline) && dline == Strip(lines[j])
    ensures RecordOf(lines, (t, j)) == MakeRecord(fields, dline)
  {
  }

  /** The buffer of a state that agrees with the pairing of all lines. */
  lemma AgreedBuffer(lines: seq<string>, ks: seq<LineKind>, fs: seq<Buffer>, ss: seq<string>, st: State)
    requires |ks| == |lines| && ss == Stripped(lines) && fs == FieldsOf(ss)
    requires AgreesAt(ks, fs, ss, |lines|, st)
    ensures st.buffer == BufferOf(lines, PendingLine(ks, |lines|))
  {
    match PendingLine(ks, |lines|)
    case None =>
    case Some(t) =>
      assert st.buffer == Some(fs[t]);
  }

  /** Each line after `strip()`. */
  function Stripped(lines: seq<string>): (ss: seq<string>)
    ensures |ss| == |lines|
    ensures forall i | 0 <= i < |lines| :: ss[i] == Strip(lines[i])
  {
    seq(|lines|, i requires 0 <= i < |lines| => Strip(lines[i]))
  }

  /** The fields of each stripped line. */
  function FieldsOf(ss: seq<string>): (fs: seq<Buffer>)
    ensures |fs| == |ss|
    ensures forall i | 0 <= i < |ss| :: fs[i] == Split(ss[i])
  {
    seq(|ss|, i requires 0 <= i < |ss| => Split(ss[i]))
  }

  /** After the first `n` lines, with kinds `ks`, stripped texts `ss` and fields
      `fs`, the loop state is what the pairing of those lines says: the buffer of
      the pending technical line and one record per pair. */
  predicate AgreesAt(ks: seq<LineKind>, fs: seq<Buffer>, ss: seq<string>, n: nat, st: State)
    requires |fs| == |ks| && |ss| == |ks| && n <= |ks|
  {
    var ps := Pairings(ks, n);
    PairingsInRange(ks, n);
    && st.buffer == (match PendingLine(ks, n) case None => None case Some(t) => Some(fs[t]))
    && |st.records| == |ps|
    && forall k | 0 <= k < |ps| :: st.records[k] == MakeRecord(fs[ps[k].0], ss[ps[k].1])
  }

  lemma {:induction false} RunAgrees(lines: seq<string>, ks: seq<LineKind>, fs: seq<Buffer>, ss: seq<string>, n: nat)
    requires ks == Kinds(lines) && ss == Stripped(lines) && fs == FieldsOf(ss)
    requires n <= |lines|
    ensures AgreesAt(ks, fs, ss, n, Run(Initial, lines[..n]))
  {
    if n > 0 {
      RunAgrees(lines, ks, fs, ss, n - 1);
      var j := n - 1;
      RunAgreesStep(lines, ks, fs, ss, n, ks[j], ss[j], fs[j]);
    }
  }

  /** Line `n - 1`, of known kind, text and fields, keeps the agreement. */
  lemma RunAgreesStep(lines: seq<string>, ks: seq<LineKind>, fs: seq<Buffer>, ss: seq<string>, n: nat,
                      kind: LineKind, line: string, fields: Buffer)
    requires |ks| == |lines| && |fs| == |lines| && |ss| == |lines| && 0 < n <= |lines|
    requires kind == ks[n - 1] && line == ss[n - 1] && fields == fs[n - 1]
    requires kind == KindOf(lines[n - 1]) && line == Strip(lines[n - 1]) && fields == Split(line)
    requires AgreesAt(ks, fs, ss, n - 1, Run(Initial, lines[..n - 1]))
    ensures AgreesAt(ks, fs, ss, n, Run(Initial, lines[..n]))
  {
    RunOneMore(lines, n - 1);
    StepIs(Run(Initial, lines[..n - 1]), lines[n - 1]);
    AgreeStep(ks, fs, ss, n, Run(Initial, lines[..n - 1]), Run(Initial, lines[..n]));
  }

  /** A step on a line whose kind and stripped text are known. */
  lemma StepIs(st: State, raw: string)
    ensures Step(st, raw) == Transition(st, KindOf(raw), Strip(raw))
  {
  }

  /** One more line keeps the loop state in agreement with the pairing. */
  lemma AgreeStep(ks: seq<LineKind>, fs: seq<Buffer>, ss: seq<string>, n: nat, prev: State, next: State)
    requires |fs| == |ks| && |ss| == |ks| && 0 < n <= |ks|
    requires fs[n - 1] == Split(ss[n - 1])
    requires AgreesAt(ks, fs, ss, n - 1, prev)
    requires next == Transition(prev, ks[n - 1], ss[n - 1])
    ensures AgreesAt(ks, fs, ss, n, next)
  {
    if ks[n - 1] == Description && prev.buffer.Some? {
      AgreeEmit(ks, fs, ss, n, prev, next);
    }
  }

  /** The description line that answers the pending technical line adds its record. */
  lemma AgreeEmit(ks: seq<LineKind>, fs: seq<Buffer>, ss: seq<string>, n: nat, prev: State, next: State)
    requires |fs| == |ks| && |ss| == |ks| && 0 < n <= |ks|
    requires AgreesAt(ks, fs, ss, n - 1, prev)
    requires ks[n - 1] == Description && prev.buffer.Some?
    requires next == State(None, prev.records + [MakeRecord(prev.buffer.value, ss[n - 1])])
    ensures AgreesAt(ks, fs, ss, n, next)
  {
    var t := PendingLine(ks, n - 1).value;
    PairingsInRange(ks, n - 1);
    var ps0 := Pairings(ks, n - 1);
    assert Pairings(ks, n) == ps0 + [(t, n - 1)];
    var r := MakeRecord(fs[t], ss[n - 1]);
    var ps := ps0 + [(t, n - 1)];
    forall k | 0 <= k < |ps|
      ensures next.records[k] == MakeRecord(fs[ps[k].0], ss[ps[k].1])
    {
      if k < |ps0| {
        assert next.records[k] == prev.records[k];
        assert ps[k] == ps0[k];
      }
    }
  }

  /** How many of the first `n` kinds are `k`. */
  function CountKind(ks: seq<LineKind>, n: nat, k: LineKind): (c: nat)
    requires n <= |ks|
    ensures c <= n
  {
    if n == 0 then 0 else CountKind(ks, n - 1, k) + (if ks[n - 1] == k then 1 else 0)
  }

  /** Each pair uses up a technical line of its own (the pending one included)
      and a description line of its own. */
  lemma {:induction false} PairingsUseLines(ks: seq<LineKind>, n: nat)
    requires n <= |ks|
    ensures |Pairings(ks, n)| + (if PendingLine(ks, n).Some? then 1 else 0)
      <= CountKind(ks, n, Technical)
    ensures |Pairings(ks, n)| <= CountKind(ks, n, Description)
  {
    if n > 0 {
      PairingsUseLines(ks, n - 1);
    }
  }

  /** Pairs do not overlap: each one closes before the next one opens, so no
      technical line feeds two records. */
  lemma PairsAreDisjoint(ks: seq<LineKind>, ps: seq<(nat, nat)>)
    requires PairsHold(ks, ps) && PairsOrdered(ps)
    ensures forall k, l | 0 <= k < l < |ps| :: ps[k].1 < ps[l].0
  {
    forall k, l | 0 <= k < l < |ps|
      ensures ps[k].1 < ps[l].0
    {
      assert Paired(ks, ps[k].0, ps[k].1);
      assert Paired(ks, ps[l].0, ps[l].1);
    }
  }

  /** A record as every emitted record is: material and plant present, every
      present field non-empty, stripped and free of delimiters, and a non-empty
      stripped description. */
  predicate WellFormedRecord(r: Record) {
    && r.material.Some? && r.plant.Some?
    && (forall i | 0 <= i < 5 && Cells(r)[i].Some? :: IsCleanField(Cells(r)[i].value))
    && r.description != [] && IsStripped(r.description)
  }

  /** A technical line has at least two fields (its shape test asks for a tab or
      a double space), and each is clean. */
  lemma TechnicalLineFields(raw: string)
    requires KindOf(raw) == Technical
    ensures |Split(Strip(raw))| >= 2
    ensures forall f | f in Split(Strip(raw)) :: IsCleanField(f)
  {
    var s := Strip(raw);
    assert s != [] && IsTechnicalShape(s);
    DelimitedLineHasSeveralFields(s);
    StrippedLineFieldsAreClean(s);
  }

  /** A description line is non-empty once stripped. */
  lemma DescriptionLineText(raw: string)
    requires KindOf(raw) == Description
    ensures Strip(raw) != [] && IsStripped(Strip(raw))
  {
  }

  lemma MakeRecordWellFormed(b: Buffer, line: string)
    requires |b| >= 2 && forall f | f in b :: IsCleanField(f)
    requires line != [] && IsStripped(line)
    ensures WellFormedRecord(MakeRecord(b, line))
  {
    var r := MakeRecord(b, line);
    forall i | 0 <= i < 5 && Cells(r)[i].Some?
      ensures IsCleanField(Cells(r)[i].value)
    {
      assert Cells(r)[i] == Some(b[i]);
    }
  }

  lemma RecordOfPairWellFormed(lines: seq<string>, t: nat, j: nat)
    requires t < |lines| && j < |lines|
    requires KindOf(lines[t]) == Technical && KindOf(lines[j]) == Description
    ensures WellFormedRecord(RecordOf(lines, (t, j)))
  {
    TechnicalLineFields(lines[t]);
    DescriptionLineText(lines[j]);
    MakeRecordWellFormed(Split(Strip(lines[t])), Strip(lines[j]));
  }

  /** What the export can rely on: each record comes from a technical line and
      a later description line of its own, in file order, and is well formed;
      there are no more records than technical lines or description lines. */
  lemma ParseOutput(lines: seq<string>)
    ensures |Parse(lines)| <= CountKind(Kinds(lines), |lines|, Technical)
    ensures |Parse(lines)| <= CountKind(Kinds(lines), |lines|, Description)
    ensures forall k | 0 <= k < |Parse(lines)| :: WellFormedRecord(Parse(lines)[k])
  {
    var ks := Kinds(lines);
    var ps := Pairings(ks, |lines|);
    ParseMatchesPairings(lines);
    PairingsUseLines(ks, |lines|);
    PairingsMeaning(ks, |lines|);
    forall k | 0 <= k < |Parse(lines)|
      ensures WellFormedRecord(Parse(lines)[k])
    {
      PairedRecordWellFormed(lines, ks, ps[k].0, ps[k].1);
    }
  }

  lemma PairedRecordWellFormed(lines: seq<string>, ks: seq<LineKind>, t: nat, j: nat)
    requires ks == Kinds(lines) && Paired(ks, t, j)
    ensures WellFormedRecord(RecordOf(lines, (t, j)))
  {
    RecordOfPairWellFormed(lines, t, j);
  }
}
