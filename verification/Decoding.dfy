/** `open_text_file`: choose a codec from the byte-order mark, decode, and split
    into lines. The UTF-16 and UTF-8 decoders are library code and enter as
    parameters; Latin-1 is modelled exactly. */
module Decoding {
  import opened Wrappers
  import opened LineBreaks
  import opened Parser
  import opened ParserLaws

  newtype byte = x: int | 0 <= x < 256

  /** The three codecs `open_text_file` can pick. */
  datatype Codec = Utf16 | Utf8 | Latin1

  /** `codecs.BOM_UTF16_LE`, `codecs.BOM_UTF16_BE` and `codecs.BOM_UTF8`. */
  const BomUtf16Le: seq<byte> := [0xFF, 0xFE]
  const BomUtf16Be: seq<byte> := [0xFE, 0xFF]
  const BomUtf8: seq<byte> := [0xEF, 0xBB, 0xBF]

  /** `raw.startswith(p)`. */
  predicate HasPrefix(raw: seq<byte>, p: seq<byte>) {
    |p| <= |raw| && raw[..|p|] == p
  }

  /** The codec test at MSD_Table_App.py:14-19, in the order `open_text_file` tests. The three
      marks cannot overlap, so the order of the tests decides nothing: each codec
      is picked exactly when the file opens with its own mark. */
  function ChooseCodec(raw: seq<byte>): (c: Codec)
    ensures c == Utf16 <==>
      |raw| >= 2 && ((raw[0] == 0xFF && raw[1] == 0xFE) || (raw[0] == 0xFE && raw[1] == 0xFF))
    ensures c == Utf8 <==> |raw| >= 3 && raw[0] == 0xEF && raw[1] == 0xBB && raw[2] == 0xBF
    ensures c == Latin1 <==>
      (!HasPrefix(raw, BomUtf16Le) && !HasPrefix(raw, BomUtf16Be) && !HasPrefix(raw, BomUtf8))
  {
    if HasPrefix(raw, BomUtf16Le) || HasPrefix(raw, BomUtf16Be) then Utf16
    else if HasPrefix(raw, BomUtf8) then Utf8
    else Latin1
  }

  /** The codec depends on the first three bytes only. */
  lemma ChooseCodecLooksAtThreeBytes(raw: seq<byte>, rest: seq<byte>)
    requires |raw| >= 3
    ensures ChooseCodec(raw[..3] + rest) == ChooseCodec(raw)
  {
    var r := raw[..3] + rest;
    assert r[0] == raw[0] && r[1] == raw[1] && r[2] == raw[2];
  }

  /** Latin-1: every byte is the character with the same code point. */
  function DecodeLatin1(raw: seq<byte>): (s: string)
    ensures |s| == |raw|
    ensures forall i | 0 <= i < |raw| :: s[i] as int == raw[i] as int
  {
    seq(|raw|, i requires 0 <= i < |raw| => raw[i] as int as char)
  }

  /** The characters Latin-1 can encode. */
  predicate IsLatin1(s: string) {
    forall i | 0 <= i < |s| :: s[i] as int < 256
  }

  /** The inverse of `DecodeLatin1`, defined on the characters below U+0100. */
  function EncodeLatin1(s: string): (raw: seq<byte>)
    requires IsLatin1(s)
    ensures |raw| == |s|
    ensures forall i | 0 <= i < |s| :: raw[i] as int == s[i] as int
  {
    seq(|s|, i requires 0 <= i < |s| => s[i] as int as byte)
  }

  /** Decoding never fails and loses nothing: encoding gives the bytes back. */
  lemma Latin1RoundTrip(raw: seq<byte>)
    ensures IsLatin1(DecodeLatin1(raw))
    ensures EncodeLatin1(DecodeLatin1(raw)) == raw
  {
  }

  /** Every text of Latin-1 characters is the decoding of its encoding. */
  lemma Latin1Covers(s: string)
    requires IsLatin1(s)
    ensures DecodeLatin1(EncodeLatin1(s)) == s
  {
    var d := DecodeLatin1(EncodeLatin1(s));
    assert forall i | 0 <= i < |s| :: d[i] as int == s[i] as int;
  }

  /** `open_text_file` on the bytes of a file: pick the codec, decode with it
      (a decoder may fail, as Python's raises `UnicodeDecodeError`), then
      `splitlines()`. */
  function OpenTextFile<E>(raw: seq<byte>, utf16: seq<byte> -> Result<string, E>,
                           utf8: seq<byte> -> Result<string, E>): (r: Result<seq<string>, E>)
    ensures ChooseCodec(raw) == Latin1 ==> r.Success?
    ensures r.Success? ==> forall l | l in r.value :: NoLineBreak(l)
    ensures r.Failure? ==>
      ((ChooseCodec(raw) == Utf16 && utf16(raw) == Failure(r.error))
       || (ChooseCodec(raw) == Utf8 && utf8(raw) == Failure(r.error)))
  {
    var decoded := match ChooseCodec(raw)
      case Utf16 => utf16(raw)
      case Utf8 => utf8(raw)
      case Latin1 => Success(DecodeLatin1(raw));
    match decoded
    case Success(text) => Success(SplitLines(text))
    case Failure(e) => Failure(e)
  }

  /** The lines hold all of the decoded text but the line breaks. */
  lemma OpenTextFileKeepsText<E>(raw: seq<byte>, utf16: seq<byte> -> Result<string, E>,
                                 utf8: seq<byte> -> Result<string, E>, text: string)
    requires match ChooseCodec(raw)
      case Utf16 => utf16(raw) == Success(text)
      case Utf8 => utf8(raw) == Success(text)
      case Latin1 => text == DecodeLatin1(raw)
    ensures OpenTextFile(raw, utf16, utf8).Success?
    ensures Concat(OpenTextFile(raw, utf16, utf8).value) == DropBreaks(text)
  {
    SplitLinesKeepsText(text);
  }

  /** `parse_material_master(file_path)` on the bytes of the file. */
  function ParseFile<E>(raw: seq<byte>, utf16: seq<byte> -> Result<string, E>,
                        utf8: seq<byte> -> Result<string, E>): (r: Result<seq<Record>, E>)
    ensures r.Success? <==> OpenTextFile(raw, utf16, utf8).Success?
  {
    match OpenTextFile(raw, utf16, utf8)
    case Success(lines) => Success(Parse(lines))
    case Failure(e) => Failure(e)
  }

  /** With the `"utf-8"` codec the mark survives decoding as U+FEFF at the start
      of the text; the first line is then dropped whole, so a file whose first
      line matters loses it. */
  lemma Utf8MarkDropsFirstLine<E>(raw: seq<byte>, utf16: seq<byte> -> Result<string, E>,
                                  utf8: seq<byte> -> Result<string, E>, text: string)
    requires ChooseCodec(raw) == Utf8
    requires utf8(raw) == Success(text) && text != [] && text[0] == '\U{FEFF}'
    ensures ParseFile(raw, utf16, utf8) == Success(Parse(SplitLines(text)[1..]))
  {
    var lines := SplitLines(text);
    assert !IsLineBreak(text[0]);
    ByteOrderMarkLineIsDropped(lines);
  }
}
