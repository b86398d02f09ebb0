/**
 The double-quoted scalar writer of emitter.c, one character of the value at a time.
 */
module QuotedWriter {
  import opened YamlChars

  datatype LineBreak = CrBreak | LnBreak | CrLnBreak

  /** The settings that do not change while a scalar is written. */
  datatype Style = Style(indent: int, width: int, lineBreak: LineBreak, unicode: bool, allowBreaks: bool)

  /** The emitter's column and flags, and the writer's own `spaces`. */
  datatype Pen = Pen(column: nat, whitespace: bool, indention: bool, spaces: bool)

  function BreakText(b: LineBreak): seq<rune> {
    match b
    case CrBreak => [CR]
    case LnBreak => [LF]
    case CrLnBreak => [CR, LF]
  }

  function Spaces(n: nat): (s: seq<rune>)
    ensures |s| == n && forall i :: 0 <= i < n ==> s[i] == SPACE
  {
    seq(n, _ => SPACE)
  }

  function Margin(indent: int): nat { if indent >= 0 then indent else 0 }

  /** yaml_emitter_write_indent. */
  function Indent(style: Style, pen: Pen): (seq<rune>, Pen) {
    var n := Margin(style.indent);
    var fold := !pen.indention || pen.column > n || (pen.column == n && !pen.whitespace);
    var column := if fold then 0 else pen.column;
    var pad := if column < n then n - column else 0;
    ((if fold then BreakText(style.lineBreak) else []) + Spaces(pad), Pen(column + pad, true, true, pen.spaces))
  }

  predicate MustEscape(c: rune, unicode: bool) {
    !IsPrintable(c) || (!unicode && c > 0x7F) || c == BOM || IsBreak(c) || c == QUOTE || c == BACKSLASH
  }

  /** The letter of a two-character escape, or 0. */
  function ShortEscape(c: rune): rune {
    if c == 0x00 then 0x30       // 0
    else if c == 0x07 then 0x61  // a
    else if c == 0x08 then 0x62  // b
    else if c == 0x09 then 0x74  // t
    else if c == 0x0A then 0x6E  // n
    else if c == 0x0B then 0x76  // v
    else if c == 0x0C then 0x66  // f
    else if c == 0x0D then 0x72  // r
    else if c == 0x1B then 0x65  // e
    else if c == 0x22 then 0x22  // "
    else if c == 0x5C then 0x5C  // backslash
    else if c == 0x85 then 0x4E  // N
    else if c == 0xA0 then 0x5F  // _
    else if c == 0x2028 then 0x4C  // L
    else if c == 0x2029 then 0x50  // P
    else 0
  }

  function Escape(c: rune): (e: seq<rune>)
    ensures |e| >= 2
  {
    if ShortEscape(c) != 0 then [BACKSLASH, ShortEscape(c)]
    else if c <= 0xFF then [BACKSLASH, 0x78] + Hex(c, 2)
    else if c <= 0xFFFF then [BACKSLASH, 0x75] + Hex(c, 4)
    else [BACKSLASH, 0x55] + Hex(c, 8)
  }

  predicate Folds(style: Style, pen: Pen, v: seq<rune>, i: nat)
    requires i < |v|
  {
    v[i] == SPACE && style.allowBreaks && !pen.spaces && pen.column > style.width && 0 < i < |v| - 1
  }

  /** What character `i` of `v` adds to the output. */
  function Chunk(style: Style, pen: Pen, v: seq<rune>, i: nat): (seq<rune>, Pen)
    requires i < |v|
  {
    var c := v[i];
    if MustEscape(c, style.unicode) then (Escape(c), pen.(column := pen.column + |Escape(c)|, spaces := false))
    else if Folds(style, pen, v, i) then
      var (text, pen') := Indent(style, pen);
      if v[i + 1] == SPACE then (text + [BACKSLASH], pen'.(column := pen'.column + 1, spaces := true))
      else (text, pen'.(spaces := true))
    else ([c], pen.(column := pen.column + 1, spaces := c == SPACE))
  }

  /** Output and pen after the first `i` characters. */
  function Written(style: Style, pen: Pen, v: seq<rune>, i: nat): (seq<rune>, Pen)
    requires i <= |v|
  {
    if i == 0 then ([], pen)
    else
      var (out, pen') := Written(style, pen, v, i - 1);
      var (chunk, pen'') := Chunk(style, pen', v, i - 1);
      (out + chunk, pen'')
  }

  lemma WrittenStart(style: Style, pen: Pen, v: seq<rune>)
    ensures Written(style, pen, v, 0) == ([], pen)
  {
  }

  lemma WrittenNext(style: Style, pen: Pen, v: seq<rune>, i: nat)
    requires i < |v|
    ensures var (out, pen') := Written(style, pen, v, i);
      var (chunk, pen'') := Chunk(style, pen', v, i);
      Written(style, pen, v, i + 1) == (out + chunk, pen'')
  {
  }
}
