/**
 The emitter object of emitter.c, as far as double-quoted scalars need it. Flushing never changes what has been
 written, so the buffer is the whole output.
 */
module Emitter {
  import opened YamlChars
  import opened QuotedWriter

  class Emitter {
    const bestIndent: nat
    const bestWidth: int
    const lineBreak: LineBreak
    const unicode: bool
    var buffer: seq<rune>
    var column: nat
    var line: nat
    var whitespace: bool
    var indention: bool
    var indent: int
    var indents: seq<int>

    constructor (bestIndent: nat, bestWidth: int, lineBreak: LineBreak, unicode: bool)
      ensures buffer == [] && column == 0 && indent == -1 && whitespace && indention
      ensures this.bestIndent == bestIndent && this.bestWidth == bestWidth && this.lineBreak == lineBreak
        && this.unicode == unicode
    {
      this.bestIndent, this.bestWidth, this.lineBreak, this.unicode := bestIndent, bestWidth, lineBreak, unicode;
      buffer, column, line, whitespace, indention, indent, indents := [], 0, 0, true, true, -1, [];
    }

    ghost function Now(spaces: bool): Pen
      reads this
    {
      Pen(column, whitespace, indention, spaces)
    }

    /** yaml_emitter_increase_indent: a new level is deeper than the one around it unless it is to share its margin;
        scalars, which use a flow level, always have a margin. */
    method IncreaseIndent(flow: bool, indentless: bool)
      modifies this`indents, this`indent
      ensures indents == old(indents) + [old(indent)]
      ensures old(indent) < 0 ==> indent == if flow then bestIndent else 0
      ensures old(indent) >= 0 ==> indent == old(indent) + if indentless then 0 else bestIndent
      ensures bestIndent >= 1 ==> indent >= 0 && (indent > old(indent) <==> old(indent) < 0 || !indentless)
      ensures bestIndent >= 1 && flow && !indentless ==> indent >= 1
    {
      indents := indents + [indent];
      if indent < 0 {
        indent := if flow then bestIndent else 0;
      } else if !indentless {
        indent := indent + bestIndent;
      }
    }

    method Put(c: rune)
      modifies this`buffer, this`column
      ensures buffer == old(buffer) + [c] && column == old(column) + 1
    {
      buffer, column := buffer + [c], column + 1;
    }

    method PutBreak()
      modifies this`buffer, this`column, this`line
      ensures buffer == old(buffer) + BreakText(lineBreak) && column == 0 && line == old(line) + 1
    {
      match lineBreak {
        case CrBreak => buffer := buffer + [CR];
        case LnBreak => buffer := buffer + [LF];
        case CrLnBreak => buffer := buffer + [CR, LF];
      }
      column, line := 0, line + 1;
    }

    method WriteIndent(ghost style: Style, ghost spaces: bool)
      requires style.indent == indent && style.lineBreak == lineBreak
      modifies this`buffer, this`column, this`line, this`whitespace, this`indention
      ensures buffer == old(buffer) + Indent(style, old(Now(spaces))).0
        && Now(spaces) == Indent(style, old(Now(spaces))).1
    {
      var margin := if indent >= 0 then indent else 0;
      if !indention || column > margin || (column == margin && !whitespace) {
        PutBreak();
      }
      ghost var text, n, from := buffer, 0, column;
      while column < margin
        invariant from <= column == from + n && (column <= margin || n == 0) && buffer == text + Spaces(n)
        invariant whitespace == old(whitespace) && indention == old(indention)
        decreases margin - column
      {
        Put(SPACE);
        assert Spaces(n) + [SPACE] == Spaces(n + 1);
        n := n + 1;
      }
      whitespace, indention := true, true;
      assert buffer == old(buffer) + Indent(style, old(Now(spaces))).0;
    }

    method WriteIndicator(indicator: rune, needWhitespace: bool, isWhitespace: bool, isIndention: bool)
      modifies this`buffer, this`column, this`whitespace, this`indention
      ensures buffer == old(buffer) + (if needWhitespace && !old(whitespace) then [SPACE] else []) + [indicator]
      ensures column == old(column) + (if needWhitespace && !old(whitespace) then 2 else 1)
      ensures whitespace == isWhitespace && indention == (old(indention) && isIndention)
    {
      if needWhitespace && !whitespace {
        Put(SPACE);
      }
      Put(indicator);
      whitespace, indention := isWhitespace, indention && isIndention;
    }

    /** Hexadecimal digits from the most significant one on. */
    method WriteHex(c: rune, width: nat)
      modifies this`buffer, this`column
      ensures buffer == old(buffer) + Hex(c, width) && column == old(column) + width
    {
      hide Hex, ShiftRight;
      ghost var h := Hex(c, width);
      var k := width;
      while k > 0
        invariant 0 <= k <= width && column == old(column) + width - k
        invariant buffer == old(buffer) + h[..width - k]
      {
        k := k - 1;
        HexAt(c, width, width - 1 - k);
        Put(HexDigit(ShiftRight(c, k) % 16));
        assert h[..width - k] == h[..width - 1 - k] + [h[width - 1 - k]];
      }
      assert h[..width] == h;
    }

    method WriteEscape(c: rune)
      modifies this`buffer, this`column
      ensures buffer == old(buffer) + Escape(c) && column == old(column) + |Escape(c)|
    {
      hide Hex, ShortEscape;
      if ShortEscape(c) != 0 {
        Put(BACKSLASH);
        Put(ShortEscape(c));
      } else if c <= 0xFF {
        WriteCode(c, 0x78, 2);
      } else if c <= 0xFFFF {
        WriteCode(c, 0x75, 4);
      } else {
        WriteCode(c, 0x55, 8);
      }
    }

    /** A backslash, a letter and a number. */
    method WriteCode(c: rune, letter: rune, width: nat)
      modifies this`buffer, this`column
      ensures buffer == old(buffer) + ([BACKSLASH, letter] + Hex(c, width)) && column == old(column) + 2 + width
    {
      hide Hex;
      Put(BACKSLASH);
      Put(letter);
      WriteHex(c, width);
    }

    method WriteDoubleQuotedScalar(value: seq<rune>, allowBreaks: bool)
      modifies this`buffer, this`column, this`line, this`whitespace, this`indention
      ensures var style := Style(indent, bestWidth, lineBreak, unicode, allowBreaks);
        var first := if old(whitespace) then [QUOTE] else [SPACE, QUOTE];
        var pen := Pen(old(column) + |first|, false, false, false);
        buffer == old(buffer) + first + Written(style, pen, value, |value|).0 + [QUOTE]
      ensures !whitespace && !indention
    {
      hide Written;
      WriteIndicator(QUOTE, true, false, false);
      ghost var first := if old(whitespace) then [QUOTE] else [SPACE, QUOTE];
      assert buffer == old(buffer) + first;
      WriteContent(Style(indent, bestWidth, lineBreak, unicode, allowBreaks), value, allowBreaks);
      WriteIndicator(QUOTE, false, false, false);
    }

    /** The writer's loop, between the quotes. */
    method WriteContent(ghost style: Style, value: seq<rune>, allowBreaks: bool)
      requires style == Style(indent, bestWidth, lineBreak, unicode, allowBreaks)
      modifies this`buffer, this`column, this`line, this`whitespace, this`indention
      ensures buffer == old(buffer) + Written(style, old(Now(false)), value, |value|).0
    {
      hide Chunk, Written;
      ghost var pen := Now(false);
      WrittenStart(style, pen, value);
      var spaces, i := false, 0;
      while i < |value|
        invariant i <= |value| && Now(spaces) == Written(style, pen, value, i).1
        invariant buffer == old(buffer) + Written(style, pen, value, i).0
      {
        WrittenNext(style, pen, value, i);
        spaces := WriteCharacter(style, allowBreaks, value, i, spaces);
        i := i + 1;
      }
    }

    /** The body of the writer's loop. */
    method WriteCharacter(ghost style: Style, allowBreaks: bool, value: seq<rune>, i: nat, spaces: bool)
      returns (spaces': bool)
      requires i < |value| && style == Style(indent, bestWidth, lineBreak, unicode, allowBreaks)
      modifies this`buffer, this`column, this`line, this`whitespace, this`indention
      ensures buffer == old(buffer) + Chunk(style, old(Now(spaces)), value, i).0
      ensures Now(spaces') == Chunk(style, old(Now(spaces)), value, i).1
    {
      hide Escape, Indent, Written;
      var c := value[i];
      if MustEscape(c, unicode) {
        WriteEscape(c);
        spaces' := false;
      } else if c == SPACE {
        if allowBreaks && !spaces && column > bestWidth && i != 0 && i != |value| - 1 {
          WriteIndent(style, spaces);
          if value[i + 1] == SPACE {
            Put(BACKSLASH);
          }
        } else {
          Put(c);
        }
        spaces' := true;
      } else {
        Put(c);
        spaces' := false;
      }
    }
  }

  /** `value >> 4 * n`. */
  function ShiftRight(value: nat, n: nat): nat { if n == 0 then value else ShiftRight(value / 16, n - 1) }

  /** Digit `j` of a hexadecimal number, counted from the most significant one. */
  lemma {:induction false} HexAt(value: nat, width: nat, j: nat)
    requires j < width
    ensures Hex(value, width)[j] == HexDigit(ShiftRight(value, width - 1 - j) % 16)
    decreases width
  {
    if j < width - 1 {
      HexAt(value / 16, width - 1, j);
    }
  }
}
