/**
 yaml_parser_scan_flow_scalar on the parser's decoded buffer, with its nested loops, and the round trip through the
 emitter.
 */
module FlowScalar {
  import opened YamlChars
  import opened QuotedScanner
  import opened QuotedWriter
  import opened QuotedRoundTrip
  import opened QuotedLaws
  import Emitter

  /** The reader's side of yaml_parser_t: the decoded input and the mark in it. */
  class Parser {
    const input: seq<rune>
    var pointer: nat
    var column: nat
    var line: nat

    constructor (input: seq<rune>, pointer: nat, column: nat)
      ensures this.input == input && this.pointer == pointer && this.column == column
    {
      this.input, this.pointer, this.column, line := input, pointer, column, 0;
    }

    method Skip(n: nat)
      modifies this`pointer, this`column
      ensures pointer == old(pointer) + n && column == old(column) + n
    {
      pointer, column := pointer + n, column + n;
    }

    method SkipLine()
      requires IsBreak(At(input, pointer))
      modifies this
      ensures pointer == old(pointer) + BreakWidth(input, old(pointer)) && column == 0
    {
      pointer, column, line := pointer + BreakWidth(input, pointer), 0, line + 1;
    }

    /** Where the machine stands behind an escaped line break. */
    ghost function AfterEscapedBreak(text: seq<rune>): Outcome
      reads this
    {
      if At(input, pointer) == QUOTE then Scanned(text, pointer + 1, column + 1)
      else Scan(input, false, pointer, column, text, Gap(Blanks([], [], [], true)))
    }

    /** Consume the non-blank characters; an escaped line break ends them too. */
    method ScanWord(single: bool, text0: seq<rune>, ghost whole: Outcome) returns (r: WordResult)
      requires pointer <= |input| && whole == Scan(input, single, pointer, column, text0, Word)
      modifies this
      ensures old(pointer) <= pointer <= |input|
      ensures match r
        case BadWord(e) => whole == Failed(e)
        case GoodWord(text, false) =>
          && whole == Scan(input, single, pointer, column, text, Word)
          && (IsBlankZ(At(input, pointer)) || At(input, pointer) == Closing(single))
          && !(single && At(input, pointer) == At(input, pointer + 1) == APOSTROPHE)
          && (pointer == old(pointer) ==> text == text0)
        case GoodWord(text, true) => !single && pointer > old(pointer) && whole == AfterEscapedBreak(text)
    {
      hide EscapeAt, GapStep, IsDocumentIndicator;
      var text := text0;
      while !IsBlankZ(At(input, pointer))
        invariant old(pointer) <= pointer <= |input|
        invariant pointer == old(pointer) ==> text == text0
        invariant whole == Scan(input, single, pointer, column, text, Word)
        decreases |input| - pointer
      {
        var c := At(input, pointer);
        if single && c == APOSTROPHE && At(input, pointer + 1) == APOSTROPHE {
          text := text + [APOSTROPHE];
          Skip(1);
          Skip(1);
        } else if c == Closing(single) {
          break;
        } else if !single && c == BACKSLASH && IsBreak(At(input, pointer + 1)) {
          Skip(1);
          SkipLine();
          return GoodWord(text, true);
        } else if !single && c == BACKSLASH {
          var e := EscapeAt(input, pointer);
          if e.Bad? {
            return BadWord(e.error);
          }
          text := text + [e.value];
          Skip(e.len);
        } else {
          text := text + [c];
          Skip(1);
        }
      }
      r := GoodWord(text, false);
    }

    /** Consume blanks and line breaks into the gap. */
    method ScanGap(single: bool, g0: Gap, ghost text: seq<rune>, ghost whole: Outcome) returns (g: Gap)
      requires pointer <= |input| && whole == Scan(input, single, pointer, column, text, Gap(g0))
      modifies this
      ensures old(pointer) <= pointer <= |input| && whole == Scan(input, single, pointer, column, text, Gap(g))
      ensures !IsBlank(At(input, pointer)) && !IsBreak(At(input, pointer))
      ensures IsBlank(At(input, old(pointer))) || IsBreak(At(input, old(pointer))) ==> pointer > old(pointer)
    {
      hide EscapeAt, IsDocumentIndicator;
      g := g0;
      while IsBlank(At(input, pointer)) || IsBreak(At(input, pointer))
        invariant old(pointer) <= pointer <= |input| && whole == Scan(input, single, pointer, column, text, Gap(g))
        invariant pointer == old(pointer) || pointer > old(pointer)
        decreases |input| - pointer
      {
        var c := At(input, pointer);
        if IsBlank(c) {
          if !g.leadingBlanks {
            g := g.(whitespaces := g.whitespaces + [c]);
          }
          Skip(1);
        } else {
          if !g.leadingBlanks {
            g := Blanks([], g.leadingBreak + [BreakRead(c)], g.trailingBreaks, true);
          } else {
            g := g.(trailingBreaks := g.trailingBreaks + [BreakRead(c)]);
          }
          SkipLine();
        }
      }
    }

    /** yaml_parser_scan_flow_scalar, at the opening quote. */
    method ScanFlowScalar(single: bool) returns (r: Outcome)
      requires pointer < |input| && At(input, pointer) == Closing(single)
      modifies this
      ensures r == Scan(input, single, old(pointer) + 1, old(column) + 1, [], Gap(NO_GAP))
      ensures r.Scanned? ==> pointer == r.end && column == r.column
    {
      hide Scan, Joined, IsDocumentIndicator;
      Skip(1);
      ghost var whole := Scan(input, single, pointer, column, [], Gap(NO_GAP));
      var text := [];
      while true
        invariant pointer <= |input| && whole == Scan(input, single, pointer, column, text, Gap(NO_GAP))
        decreases |input| - pointer
      {
        if column == 0 && IsDocumentIndicator(input, pointer) {
          IndicatorFails(input, single, pointer, text);
          return Failed(DocumentIndicator);
        }
        if At(input, pointer) == NUL {
          EndFails(input, single, pointer, column, text);
          return Failed(EndOfStream);
        }
        GapIsWord(input, single, pointer, column, text);
        var word := ScanWord(single, text, whole);
        if word.BadWord? {
          return Failed(word.error);
        }
        text := word.text;
        if At(input, pointer) == Closing(single) {
          if !word.leadingBlanks { WordEnds(input, single, pointer, column, text); }
          r := Scanned(text, pointer + 1, column + 1);
          break;
        }
        if !word.leadingBlanks { WordIsGap(input, single, pointer, column, text); }
        var g := ScanGap(single, Blanks([], [], [], word.leadingBlanks), text, whole);
        JoinGap(input, single, pointer, column, text, g);
        text := text + Joined(g);
      }
      Skip(1);
    }
  }

  datatype WordResult = GoodWord(text: seq<rune>, leadingBlanks: bool) | BadWord(error: Error)

  /** Write a value as a double-quoted scalar and scan it, from any emitter state and with any text behind it: the
      value comes back, and the scanner stops where the writer did. */
  method WriteThenScan(emitter: Emitter.Emitter, value: seq<rune>, allowBreaks: bool, rest: seq<rune>, column: nat)
    returns (r: Outcome)
    requires emitter.indent >= 1
    modifies emitter
    ensures r.Scanned? && r.value == value && r.end == |emitter.buffer| && old(emitter.buffer) <= emitter.buffer
  {
    hide Scan, Written;
    var start := |emitter.buffer| + if emitter.whitespace then 0 else 1;
    ghost var style := Style(emitter.indent, emitter.bestWidth, emitter.lineBreak, emitter.unicode, allowBreaks);
    ghost var before := emitter.buffer + if emitter.whitespace then [] else [SPACE];
    ghost var pen := Pen(emitter.column + (if emitter.whitespace then 1 else 2), false, false, false);
    emitter.WriteDoubleQuotedScalar(value, allowBreaks);
    ghost var out := Written(style, pen, value, |value|).0;
    var parser := new Parser(emitter.buffer + rest, start, column);
    assert parser.input == before + [QUOTE] + (out + [QUOTE]) + rest;
    assert Here(parser.input, start + 1, out + [QUOTE]);
    ScanWritten(style, pen, value, parser.input, start + 1, column + 1);
    r := parser.ScanFlowScalar(false);
  }

  /** Scan a value of one line in single quotes, with its apostrophes doubled and any text behind it that does not go on
      with an apostrophe: the value comes back, and the scanner stops behind the closing one. */
  method ScanSingleQuoted(value: seq<rune>, rest: seq<rune>, column: nat) returns (r: Outcome)
    requires OneLine(value) && (rest != [] ==> rest[0] != APOSTROPHE)
    ensures r.Scanned? && r.value == value && r.end == |Doubling(value)| + 2
  {
    hide Scan, Doubling, OneLine;
    var quoted := Doubling(value) + [APOSTROPHE];
    var parser := new Parser([APOSTROPHE] + quoted + rest, 0, column);
    assert Here(parser.input, 1, quoted);
    SingleQuotedBack(parser.input, 1, column + 1, value);
    r := parser.ScanFlowScalar(true);
  }
}
