/** `parse_material_master`: a fold of a two-state machine over the lines of the report. */
module Parser {
  import opened Wrappers
  import opened Text
  import opened FieldSplit
  import opened Classifier

  /** The pending fields of a technical line. `re.split` never returns an empty
      list, so Python's `if buffer:` is true exactly when a buffer is pending. */
  type Buffer = b: seq<string> | |b| > 0 witness [""]

  /** One output row: the dictionary built at MSD_Table_App.py:53-60, keys
      `Material`, `Plnt`, `Matl grp`, `CTyp`, `Ctrl key`, `Material description`.
      `None` is Python's `None` from the padding. */
  datatype Record = Record(
    material: Option<string>,
    plant: Option<string>,
    materialGroup: Option<string>,
    controlType: Option<string>,
    controlKey: Option<string>,
    description: string)

  /** The record's values in key order, which is also the export's column order. */
  function Cells(r: Record): seq<Option<string>> {
    [r.material, r.plant, r.materialGroup, r.controlType, r.controlKey, Some(r.description)]
  }

  /** Pads the field list with `None` until it has five entries: it never
      shrinks and keeps what was there. */
  function PadToFive(b: seq<Option<string>>): (r: seq<Option<string>>)
    ensures |r| == if |b| < 5 then 5 else |b|
    ensures r[..|b|] == b
    ensures forall i | |b| <= i < |r| :: r[i] == None
    decreases 5 - |b|
  {
    if |b| < 5 then PadToFive(b + [None]) else b
  }

  /** The record a description line completes: the first five pending fields,
      `None` for those missing, extra fields ignored. */
  function MakeRecord(buffer: Buffer, line: string): (r: Record)
    ensures forall i | 0 <= i < 5 :: Cells(r)[i] == (if i < |buffer| then Some(buffer[i]) else None)
    ensures r.description == line
  {
    var padded := PadToFive(seq(|buffer|, i requires 0 <= i < |buffer| => Some(buffer[i])));
    assert forall i | 0 <= i < |buffer| :: padded[i] == padded[..|buffer|][i];
    Record(padded[0], padded[1], padded[2], padded[3], padded[4], line)
  }

  /** The loop state: the pending buffer and the records emitted so far. */
  datatype State = State(buffer: Option<Buffer>, records: seq<Record>)

  const Initial: State := State(None, [])

  /** The state machine on a classified line: skipped lines change nothing, a
      technical line overwrites the buffer, a description line with a pending
      buffer emits one record and clears it, and without one is dropped. */
  function Transition(st: State, kind: LineKind, line: string): (st': State)
    ensures st.records <= st'.records && |st'.records| <= |st.records| + 1
    ensures IsSkipped(kind) ==> st' == st
    ensures kind == Technical ==> st'.buffer == Some(Split(line)) && st'.records == st.records
    ensures kind == Description && st.buffer.None? ==> st' == st
    ensures kind == Description && st.buffer.Some? ==>
      st'.buffer.None? && st'.records == st.records + [MakeRecord(st.buffer.value, line)]
  {
    match kind
    case Blank => st
    case Header => st
    case DateStamp => st
    case Technical => st.(buffer := Some(Split(line)))
    case Description =>
      if st.buffer.Some? then State(None, st.records + [MakeRecord(st.buffer.value, line)])
      else st
  }

  /** One iteration of the loop at MSD_Table_App.py:31-62: strip, classify, move. */
  function Step(st: State, raw: string): State {
    Transition(st, KindOf(raw), Strip(raw))
  }

  /** The state after the loop has consumed `lines`, starting from `st`. */
  function Run(st: State, lines: seq<string>): State
    decreases |lines|
  {
    if lines == [] then st else Step(Run(st, lines[..|lines| - 1]), lines[|lines| - 1])
  }

  /** `parse_material_master` on an already decoded and split file: the
      buffer left pending at the end is dropped. */
  function Parse(lines: seq<string>): seq<Record> {
    Run(Initial, lines).records
  }

  lemma RunOneMore(lines: seq<string>, i: nat)
    requires i < |lines|
    ensures Run(Initial, lines[..i + 1]) == Step(Run(Initial, lines[..i]), lines[i])
  {
    assert lines[..i + 1][..i] == lines[..i];
  }

  /** The loop of `parse_material_master` as written, over one line at a time; blank, header
      and date lines fall through to the next iteration. */
  method ParseMaterialMaster(lines: seq<string>) returns (records: seq<Record>)
    ensures records == Parse(lines)
  {
    records := [];
    var buffer: Option<Buffer> := None;
    var i := 0;
    while i < |lines|
      invariant 0 <= i <= |lines|
      invariant State(buffer, records) == Run(Initial, lines[..i])
    {
      var line := Strip(lines[i]);
      ghost var before := State(buffer, records);
      match Classify(line) {
        case Technical =>
          buffer := Some(Split(line));
        case Description =>
          if buffer.Some? {
            records := records + [MakeRecord(buffer.value, line)];
            buffer := None;
          }
        case _ =>
      }
      assert State(buffer, records) == Transition(before, Classify(line), line);
      RunOneMore(lines, i);
      i := i + 1;
    }
    assert lines[..i] == lines;
  }
}
