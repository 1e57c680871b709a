# Material Master report parser, in Dafny

This project models the parser of the SAP "Material Master" text export in
`MSD_Table_App.py`. The parser has two parts:

- `open_text_file` reads the raw bytes, picks a codec from the byte-order mark
  (UTF-16, UTF-8, otherwise Latin-1), decodes, and calls `splitlines()`.
- `parse_material_master` runs a two-state machine over the lines. Each line is
  stripped and classified: blank, column header, date stamp, technical line or
  description line. A technical line is cut into fields with
  `re.split(r"\s{2,}|\t+", line)`; those fields become the pending buffer and
  overwrite any earlier one. The next description line turns the buffer into
  one record: the first five fields, padded with `None`, plus the description
  text. The buffer is then cleared. A description line that finds no buffer is
  dropped, and so is a buffer still pending at the end of the file.

The modules follow that structure:

| module | what it holds |
|---|---|
| `Text` | CPython's whitespace table and `str.strip()` as two index scans |
| `LineBreaks` | `str.splitlines()` with its boundary characters and `"\r\n"` |
| `FieldSplit` | the leftmost-longest scan `re.split(r"\s{2,}|\t+", s)` performs |
| `Classifier` | the tests of MSD_Table_App.py:34-47, in the source's order |
| `Parser` | records, `Transition`, the fold `Run`/`Parse`, and the loop itself as a method |
| `ParserProperties` | a description of the output without the loop state: which technical line each description line answers |
| `ParserLaws` | laws that relate runs over different line lists |
| `Decoding` | codec choice, Latin-1, and `open_text_file` with the UTF-16/UTF-8 decoders as parameters |

The main result is `ParserProperties.ParseMatchesPairings`. It says the loop
emits exactly one record per pair (t, j) in which t is a technical line, j is
a later description line, and only blank, header or date lines lie between
them. The pairs come in order of j. Each record is built from the fields of
line t and the stripped text of line j. `PairingsMeaning` proves that the
reference `Pairings` lists exactly those pairs.

`open_text_file` decodes a file that opens with EF BB BF with the `"utf-8"`
codec (MSD_Table_App.py:16-17). Unlike `"utf-8-sig"`, that codec keeps the
mark, so the text begins with U+FEFF. U+FEFF is not whitespace to `strip()`,
so the first line can only be classified as a description line. With nothing
pending, it is dropped. `Decoding.Utf8MarkDropsFirstLine` states this.

## Model

| member | source | states |
|---|---|---|
| Text.Strip | MSD_Table_App.py:32 | the stripped line has no whitespace at either end and is no longer than the line |
| Text.StripShape | MSD_Table_App.py:32 | `strip()` returns a contiguous piece of the line and removes only whitespace, from both ends |
| Text.StripUnique | MSD_Table_App.py:32 | any stripped text surrounded by whitespace alone is what `strip()` returns |
| Text.StripIdempotent | MSD_Table_App.py:32 | stripping a stripped line changes nothing |
| Text.StripEmpty | MSD_Table_App.py:32-35 | `if not line` after `strip()` skips exactly the lines made only of whitespace |
| Text.StripKeepsFirst | MSD_Table_App.py:32 | a first character that is not whitespace survives `strip()` |
| LineBreaks.SplitLines | MSD_Table_App.py:21 | no line holds a boundary character; the empty text gives no lines; the first line starts with the text's first character unless that is a boundary |
| LineBreaks.SplitLinesKeepsText | MSD_Table_App.py:21 | the lines read one after another are the text with only its boundary characters removed |
| LineBreaks.SplitJoinLines | MSD_Table_App.py:21 | `splitlines()` inverts writing each boundary-free line followed by `"\n"` |
| FieldSplit.SpaceRunEndMeaning | MSD_Table_App.py:45 | the `\s{2,}` match is greedy: the run it takes is all whitespace and is not followed by whitespace |
| FieldSplit.DelimiterEndMeaning | MSD_Table_App.py:45 | every delimiter is whitespace, is followed by no whitespace, and is one character long only when it is a tab |
| FieldSplit.TokenizeMeaning | MSD_Table_App.py:45 | every dropped delimiter matches the pattern, no field contains a match, and fields joined with their delimiters give back the line |
| FieldSplit.SplitJoinRoundTrip | MSD_Table_App.py:45 | splitting clean fields joined by tabs or whitespace runs returns those same fields and delimiters |
| FieldSplit.StrippedLineFieldsAreClean | MSD_Table_App.py:32-45 | every field of a stripped non-empty line is non-empty, has no whitespace at either end, and holds no tab or whitespace pair |
| FieldSplit.DelimitedLineHasSeveralFields | MSD_Table_App.py:42-45 | a line with a tab or a whitespace pair splits into at least two fields |
| Classifier.ClassifyPriority | MSD_Table_App.py:34-47 | each kind holds exactly when its own test passes and every earlier test fails; the `"Material description"` test adds nothing to the `"Material"` test |
| Classifier.ByteOrderMarkLineIsDescription | MSD_Table_App.py:32-47 | a line that opens with U+FEFF can only be a description line |
| Parser.PadToFive | MSD_Table_App.py:50-51 | padding yields five entries (or keeps a longer list), keeps every entry it had, and adds only `None` |
| Parser.MakeRecord | MSD_Table_App.py:50-60 | record cell i is pending field i when there is one and `None` otherwise; fields past the fifth are ignored; the description is the line |
| Parser.Transition | MSD_Table_App.py:31-62 | records only grow, by at most one per line; a skipped line changes nothing; a technical line replaces the buffer; a description line with a buffer emits one record and clears it; without a buffer it changes nothing |
| Parser.ParseMaterialMaster | MSD_Table_App.py:25-64 | the loop as written, with `continue` and `if buffer:`, returns what the fold `Parse` describes |
| ParserProperties.PendingLineMeaning | MSD_Table_App.py:42-62 | a pending buffer comes from a technical line followed only by skipped lines; with none pending, every technical line has a later description line |
| ParserProperties.PairingsMeaning | MSD_Table_App.py:31-62 | the reference pairing lists every (technical, description) pair with only skipped lines between, nothing else, in order of the description line |
| ParserProperties.ParseMatchesPairings | MSD_Table_App.py:25-64 | the loop emits one record per pair, in that order, built from the pair's two lines; the buffer left at the end is the fields of the pending technical line |
| ParserProperties.PairingsUseLines | MSD_Table_App.py:42-62 | there are no more pairs, counting the pending line, than technical lines, and no more pairs than description lines |
| ParserProperties.PairsAreDisjoint | MSD_Table_App.py:46-62 | each pair closes before the next opens, so no technical line feeds two records |
| ParserProperties.TechnicalLineFields | MSD_Table_App.py:42-45 | a technical line yields at least two fields, all of them clean |
| ParserProperties.ParseOutput | MSD_Table_App.py:25-64 | there are no more records than technical lines and no more than description lines; every record has material and plant, clean fields and a non-empty stripped description |
| ParserLaws.RunAppend | MSD_Table_App.py:31-62 | the loop carries its whole state from line to line: a run over `a + b` is a run over `b` from where `a` left off |
| ParserLaws.RunKeepsRecords | MSD_Table_App.py:53-62 | records are only appended, never changed or removed |
| ParserLaws.ParsePrefix | MSD_Table_App.py:26-64 | the records of a prefix of the lines are a prefix of the records of all lines |
| ParserLaws.SkippedLineIsInvisible | MSD_Table_App.py:34-39 | inserting a blank, header or date line anywhere does not change the result |
| ParserLaws.LaterTechnicalLineWins | MSD_Table_App.py:42-46 | of two technical lines in a row, only the second counts |
| ParserLaws.TrailingTechnicalLineIsDiscarded | MSD_Table_App.py:42-64 | a technical line at the end adds no record: the buffer still pending when the loop ends is dropped |
| ParserLaws.DescriptionWithNothingPendingIsDropped | MSD_Table_App.py:49-62 | a description line that finds no buffer, anywhere in the file, contributes nothing: removing it leaves the result unchanged |
| ParserLaws.LeadingDescriptionIsDropped | MSD_Table_App.py:49-62 | a leading description line, which always finds no buffer, contributes nothing |
| ParserLaws.ByteOrderMarkLineIsDropped | MSD_Table_App.py:32-49 | a first line opening with U+FEFF contributes nothing |
| Decoding.ChooseCodec | MSD_Table_App.py:14-19 | UTF-16 is chosen exactly for a file opening FF FE or FE FF; UTF-8 exactly for EF BB BF; Latin-1 exactly when no mark is present |
| Decoding.ChooseCodecLooksAtThreeBytes | MSD_Table_App.py:14-19 | the choice depends only on the first three bytes |
| Decoding.DecodeLatin1 | MSD_Table_App.py:19 | Latin-1 keeps the length and maps each byte to the character with the same code point |
| Decoding.Latin1RoundTrip | MSD_Table_App.py:19 | Latin-1 decoding never fails and loses nothing: encoding gives the bytes back |
| Decoding.Latin1Covers | MSD_Table_App.py:19 | every text of characters below U+0100 is the decoding of its encoding |
| Decoding.OpenTextFile | MSD_Table_App.py:10-21 | the Latin-1 path always succeeds; lines never hold a boundary; a failure is always the failure of the chosen UTF-16 or UTF-8 decoder |
| Decoding.OpenTextFileKeepsText | MSD_Table_App.py:14-21 | when the chosen decoder succeeds, the lines hold the whole decoded text except the boundaries |
| Decoding.ParseFile | MSD_Table_App.py:25-29 | the parse fails exactly when reading the file fails |
| Decoding.Utf8MarkDropsFirstLine | MSD_Table_App.py:16-17 | with a UTF-8 mark, the first decoded line is lost and the rest is parsed as usual |

## Left out

- Reading the file (MSD_Table_App.py:11-12): the model starts from the bytes.
- The UTF-16 and UTF-8 decoders (MSD_Table_App.py:15, 17): they are library code, so they are parameters that may fail. Only the Latin-1 decoder is modelled exactly.
- A UTF-32 little-endian file also opens with FF FE, so it is decoded as UTF-16. The model inherits this, because it models the test as written.
- `\d` in the date test (MSD_Table_App.py:38) is modelled as the ASCII digits only. Python also accepts other Unicode decimal digits.
- Whitespace is CPython's table as it stands, not an abstract predicate. `str.strip()` and the regular-expression class `\s` use the same table.
- The spreadsheet export (MSD_Table_App.py:174-187) is left out. It writes the records with pandas. `Parser.Cells` gives the record's values in the export's column order.
- The tkinter interface (MSD_Table_App.py:74-107, 111-121, 154-170, 197-228) is left out.
- The worker threads (MSD_Table_App.py:123-150, 172-194) are left out.
- The module-level state (MSD_Table_App.py:68-71) is left out.
- The in-place growth of the buffer list (MSD_Table_App.py:50-51) is modelled as a padded copy. The list is cleared right after, so the records are the same.
