/** The priority-ordered tests the parser applies to each stripped line. */
module Classifier {
  import opened Text

  /** What a stripped line is taken to be; the first matching test wins. */
  datatype LineKind = Blank | Header | DateStamp | Technical | Description

  /** The column-header line. `parse_material_master` also tests for the longer
      `"Material description"`, which the first test already covers. */
  predicate IsHeader(s: string) {
    StartsWith(s, "Material") || StartsWith(s, "Material description")
  }

  /** `re.match(r"\d{2}/\d{2}/\d{4}", s)`: the line opens with a dd/dd/dddd date;
      anything may follow it. */
  predicate IsDateStamp(s: string) {
    && |s| >= 10
    && IsDigit(s[0]) && IsDigit(s[1]) && s[2] == '/'
    && IsDigit(s[3]) && IsDigit(s[4]) && s[5] == '/'
    && IsDigit(s[6]) && IsDigit(s[7]) && IsDigit(s[8]) && IsDigit(s[9])
  }

  /** The character class `[A-Z0-9\-]`. */
  predicate IsCodeChar(c: char) {
    ('A' <= c <= 'Z') || ('0' <= c <= '9') || c == '-'
  }

  /** `re.match(r"^[A-Z0-9\-]+", s)` and a tab or a run of two whitespace
      characters somewhere in the line. Only the first character is checked
      against the class. */
  predicate IsTechnicalShape(s: string) {
    |s| > 0 && IsCodeChar(s[0]) && ('\t' in s || HasSpaceRun(s))
  }

  /** Classifies an already stripped line, testing in the order `parse_material_master` does. */
  function Classify(s: string): LineKind {
    if s == [] then Blank
    else if IsHeader(s) then Header
    else if IsDateStamp(s) then DateStamp
    else if IsTechnicalShape(s) then Technical
    else Description
  }

  /** First match wins: each kind holds exactly when its own test passes and
      every earlier one fails; the longer header test adds nothing. */
  lemma ClassifyPriority(s: string)
    ensures Classify(s) == Blank <==> s == []
    ensures Classify(s) == Header <==> s != [] && StartsWith(s, "Material")
    ensures Classify(s) == DateStamp <==> s != [] && !StartsWith(s, "Material") && IsDateStamp(s)
    ensures Classify(s) == Technical <==>
      s != [] && !StartsWith(s, "Material") && !IsDateStamp(s) && IsTechnicalShape(s)
  {
    if StartsWith(s, "Material description") {
      assert s[..8] == "Material";
    }
  }

  /** The kind of a raw line, after `strip()`. */
  function KindOf(raw: string): LineKind {
    Classify(Strip(raw))
  }

  /** Blank, header and date lines are passed over. */
  predicate IsSkipped(k: LineKind) {
    k == Blank || k == Header || k == DateStamp
  }

  /** A line that opens with U+FEFF (the mark a UTF-8 file keeps after decoding
      with the `"utf-8"` codec) can only be a description line: `strip()` keeps
      the mark, and no header, date or technical line starts with it. */
  lemma ByteOrderMarkLineIsDescription(raw: string)
    requires raw != [] && raw[0] == '\U{FEFF}'
    ensures KindOf(raw) == Description
  {
    StripKeepsFirst(raw);
  }
}
