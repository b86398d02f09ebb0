/**
 What quoted scalars say: a text in either quote style is a sequence of pieces, each with its meaning. The scanner reads
 every such text as the meanings of its pieces.
 */
module QuotedText {
  import opened YamlChars
  import opened QuotedScanner
  import opened QuotedRoundTrip

  datatype Break = CrLf | Lone(c: rune)

  /** A line break and the blanks at the start of the next line. */
  datatype Line = Line(brk: Break, blanks: seq<rune>)

  /** A character of its own, a doubled apostrophe, an escape by letter or by code, blanks inside a line, a folded
      sequence of lines, and lines joined by an escaped break. */
  datatype Piece =
    | Plain(c: rune)
    | Doubled
    | Letter(letter: rune)
    | Code(prefix: rune, digits: seq<rune>)
    | Space(blanks: seq<rune>)
    | Fold(before: seq<rune>, lines: seq<Line>)
    | Join(lines: seq<Line>)

  /** The one-letter escapes of YAML 1.1. */
  const ESCAPES: map<char, nat> := map[
    '0' := 0x00, 'a' := 0x07, 'b' := 0x08, 't' := 0x09, '\t' := 0x09, 'n' := 0x0A, 'v' := 0x0B, 'f' := 0x0C,
    'r' := 0x0D, 'e' := 0x1B, ' ' := 0x20, '"' := 0x22, '/' := 0x2F, '\\' := 0x5C, 'N' := 0x85, '_' := 0xA0,
    'L' := 0x2028, 'P' := 0x2029]

  const WIDTHS: map<char, nat> := map['x' := 2, 'u' := 4, 'U' := 8]

  const LOWER := "0123456789abcdef"
  const UPPER := "0123456789ABCDEF"

  /** The value of digits in base 16, in either case. */
  ghost predicate Reads16(digits: seq<rune>, value: nat) {
    if digits == [] then value == 0
    else IsDigit(digits[|digits| - 1], value % 16) && Reads16(digits[..|digits| - 1], value / 16)
  }

  predicate IsDigit(c: rune, k: nat)
    requires k < 16
  {
    c == LOWER[k] as int || c == UPPER[k] as int
  }

  predicate IsLetter(c: rune) { c < 0x80 && (c as char) in ESCAPES }

  function LetterMeans(c: rune): rune
    requires IsLetter(c)
  {
    ESCAPES[c as char]
  }

  // ----- runes and meanings -----------------------------------------------------------------------------

  function BreakRunes(b: Break): seq<rune> { if b.CrLf? then [CR, LF] else [b.c] }

  /** Every break but LS and PS counts as a line feed. */
  function BreakMeans(b: Break): rune { if b.Lone? && (b.c == LS || b.c == PS) then b.c else LF }

  function LineRunes(lines: seq<Line>): seq<rune> {
    if lines == [] then [] else BreakRunes(lines[0].brk) + lines[0].blanks + LineRunes(lines[1..])
  }

  function LineMeans(lines: seq<Line>): seq<rune> {
    if lines == [] then [] else [BreakMeans(lines[0].brk)] + LineMeans(lines[1..])
  }

  function Runes(piece: Piece): seq<rune> {
    match piece
    case Plain(c) => [c]
    case Doubled => [APOSTROPHE, APOSTROPHE]
    case Letter(letter) => [BACKSLASH, letter]
    case Code(prefix, digits) => [BACKSLASH, prefix] + digits
    case Space(blanks) => blanks
    case Fold(before, lines) => before + LineRunes(lines)
    case Join(lines) => [BACKSLASH] + LineRunes(lines)
  }

  /** Lines fold: a single line feed is a space, and the first of several is dropped. */
  function Folded(lines: seq<Line>): seq<rune>
    requires lines != []
  {
    if BreakMeans(lines[0].brk) != LF then LineMeans(lines)
    else if |lines| == 1 then [SPACE] else LineMeans(lines[1..])
  }

  ghost predicate Means(piece: Piece, value: seq<rune>) {
    match piece
    case Plain(c) => value == [c]
    case Doubled => value == [APOSTROPHE]
    case Letter(letter) => IsLetter(letter) && value == [LetterMeans(letter)]
    case Code(_, digits) => |value| == 1 && Reads16(digits, value[0])
    case Space(blanks) => value == blanks
    case Fold(_, lines) => lines != [] && value == Folded(lines)
    case Join(lines) => lines != [] && value == LineMeans(lines[1..])
  }

  // ----- where pieces may stand -------------------------------------------------------------------------

  ghost predicate AllBlank(s: seq<rune>) { forall k :: 0 <= k < |s| ==> IsBlank(s[k]) }

  /** CR LF is one break. */
  predicate Apart(line: Line, next: Line) {
    !(line.brk == Lone(CR) && line.blanks == [] && next.brk == Lone(LF))
  }

  ghost predicate LinesOk(lines: seq<Line>) {
    && (forall k :: 0 <= k < |lines| ==> AllBlank(lines[k].blanks) && (lines[k].brk.Lone? ==> IsBreak(lines[k].brk.c)))
    && (forall k :: 0 <= k < |lines| - 1 ==> Apart(lines[k], lines[k + 1]))
  }

  ghost predicate PieceOk(single: bool, piece: Piece) {
    match piece
    case Plain(c) => !IsBlankZ(c) && c != Closing(single) && (single || c != BACKSLASH)
    case Doubled => single
    case Letter(letter) => !single && IsLetter(letter)
    case Code(prefix, digits) =>
      !single && prefix < 0x80 && (prefix as char) in WIDTHS && |digits| == WIDTHS[prefix as char]
    case Space(blanks) => blanks != [] && AllBlank(blanks)
    case Fold(before, lines) => lines != [] && AllBlank(before) && LinesOk(lines)
    case Join(lines) => !single && lines != [] && LinesOk(lines)
  }

  predicate IsGap(piece: Piece) { piece.Space? || piece.Fold? || piece.Join? }

  /** Three dashes or three periods, with a blank, a break or the end of the text behind them. */
  predicate DocumentMark(s: seq<rune>, p: nat) {
    && p + 3 <= |s| && (s[p] == s[p + 1] == s[p + 2] == '-' as int || s[p] == s[p + 1] == s[p + 2] == '.' as int)
    && (p + 3 == |s| || s[p + 3] in {0x00, 0x09, 0x0A, 0x0D, 0x20, 0x85, 0x2028, 0x2029})
  }

  lemma MarkIs(s: seq<rune>, p: nat)
    ensures IsDocumentIndicator(s, p) <==> DocumentMark(s, p)
  {
    assert p + 3 < |s| ==> (IsBlankZ(s[p + 3]) <==> s[p + 3] in {0x00, 0x09, 0x0A, 0x0D, 0x20, 0x85, 0x2028, 0x2029});
  }

  /** The column behind a piece that starts in the given one. */
  function ColumnBehind(piece: Piece, column: nat): nat {
    if (piece.Fold? || piece.Join?) && piece.lines != [] then |piece.lines[|piece.lines| - 1].blanks|
    else column + |Runes(piece)|
  }

  // ----- gaps -------------------------------------------------------------------------------------------

  function WithBlanks(g: Gap, blanks: seq<rune>): Gap {
    if g.leadingBlanks then g else g.(whitespaces := g.whitespaces + blanks)
  }

  function WithLine(g: Gap, line: Line): Gap {
    if g.leadingBlanks then g.(trailingBreaks := g.trailingBreaks + [BreakMeans(line.brk)])
    else Blanks([], g.leadingBreak + [BreakMeans(line.brk)], g.trailingBreaks, true)
  }

  lemma OneBlank(s: seq<rune>, single: bool, p: nat, column: nat, text: seq<rune>, g: Gap)
    requires IsBlank(At(s, p))
    ensures Scan(s, single, p, column, text, Gap(g))
      == Scan(s, single, p + 1, column + 1, text, Gap(WithBlanks(g, [At(s, p)])))
  {
  }

  lemma {:induction false} BlanksRead(s: seq<rune>, single: bool, p: nat, column: nat, text: seq<rune>, g: Gap,
                                      blanks: seq<rune>)
    requires Here(s, p, blanks) && AllBlank(blanks)
    ensures Scan(s, single, p, column, text, Gap(g))
      == Scan(s, single, p + |blanks|, column + |blanks|, text, Gap(WithBlanks(g, blanks)))
    decreases |blanks|
  {
    hide Scan;
    if blanks == [] {
      assert g.whitespaces + blanks == g.whitespaces;
    } else {
      HereAt(s, p, blanks, 0);
      OneBlank(s, single, p, column, text, g);
      assert blanks == [blanks[0]] + blanks[1..];
      HereSplit(s, p, [blanks[0]], blanks[1..]);
      BlanksRead(s, single, p + 1, column + 1, text, WithBlanks(g, [blanks[0]]), blanks[1..]);
      assert g.whitespaces + [blanks[0]] + blanks[1..] == g.whitespaces + blanks;
    }
  }

  lemma OneBreak(s: seq<rune>, single: bool, p: nat, column: nat, text: seq<rune>, g: Gap, line: Line)
    requires Here(s, p, BreakRunes(line.brk)) && (line.brk.Lone? ==> IsBreak(line.brk.c))
    requires line.brk == Lone(CR) ==> At(s, p + 1) != LF
    ensures Scan(s, single, p, column, text, Gap(g))
      == Scan(s, single, p + |BreakRunes(line.brk)|, 0, text, Gap(WithLine(g, line)))
  {
    hide IsDocumentIndicator, EscapeAt;
    HereAt(s, p, BreakRunes(line.brk), 0);
    if line.brk.CrLf? { HereAt(s, p, BreakRunes(line.brk), 1); }
  }

  /** The first rune behind the break of a line. */
  lemma BehindBreak(s: seq<rune>, p: nat, lines: seq<Line>)
    requires lines != [] && LinesOk(lines) && Here(s, p, LineRunes(lines))
    requires !IsBreak(At(s, p + |LineRunes(lines)|))
    ensures lines[0].brk == Lone(CR) ==> At(s, p + 1) != LF
  {
    if lines[0].brk == Lone(CR) {
      if lines[0].blanks != [] {
        HereAt(s, p, LineRunes(lines), 1);
        assert LineRunes(lines)[1] == lines[0].blanks[0];
      } else if |lines| > 1 {
        assert Apart(lines[0], lines[1]);
        HereAt(s, p, LineRunes(lines), 1);
        assert LineRunes(lines[1..])[0] == BreakRunes(lines[1].brk)[0];
      } else {
        assert lines[1..] == [];
      }
    }
  }

  function WithLines(g: Gap, lines: seq<Line>): Gap
    decreases |lines|
  {
    if lines == [] then g else WithLines(WithLine(g, lines[0]), lines[1..])
  }

  lemma FirstLine(s: seq<rune>, p: nat, lines: seq<Line>)
    requires lines != [] && Here(s, p, LineRunes(lines))
    ensures var b, w, more := BreakRunes(lines[0].brk), lines[0].blanks, LineRunes(lines[1..]);
      && Here(s, p, b) && Here(s, p + |b|, w) && Here(s, p + |b| + |w|, more)
      && |LineRunes(lines)| == |b| + |w| + |more|
  {
    hide Here;
    var b, w, more := BreakRunes(lines[0].brk), lines[0].blanks, LineRunes(lines[1..]);
    assert LineRunes(lines) == b + (w + more);
    HereSplit(s, p, b, w + more);
    HereSplit(s, p + |b|, w, more);
  }

  lemma {:induction false} LinesRead(s: seq<rune>, single: bool, p: nat, column: nat, text: seq<rune>, g: Gap,
                                     lines: seq<Line>)
    requires lines != [] && LinesOk(lines) && Here(s, p, LineRunes(lines))
    requires !IsBreak(At(s, p + |LineRunes(lines)|))
    ensures Scan(s, single, p, column, text, Gap(g))
      == Scan(s, single, p + |LineRunes(lines)|, |lines[|lines| - 1].blanks|, text, Gap(WithLines(g, lines)))
    decreases |lines|
  {
    hide Scan, Here;
    var line, more := lines[0], lines[1..];
    var b, w := BreakRunes(line.brk), line.blanks;
    BehindBreak(s, p, lines);
    FirstLine(s, p, lines);
    OneBreak(s, single, p, column, text, g, line);
    BlanksRead(s, single, p + |b|, 0, text, WithLine(g, line), w);
    if more != [] {
      MoreOk(lines);
      LinesRead(s, single, p + |b| + |w|, |w|, text, WithLine(g, line), more);
      assert more[|more| - 1] == lines[|lines| - 1];
    }
  }

  lemma MoreOk(lines: seq<Line>)
    requires lines != [] && LinesOk(lines)
    ensures LinesOk(lines[1..])
  {
    var more := lines[1..];
    forall k | 0 <= k < |more| - 1 ensures Apart(more[k], more[k + 1]) {
      assert Apart(lines[k + 1], lines[k + 2]);
    }
  }

  lemma {:induction false} LinesGathered(g: Gap, lines: seq<Line>)
    requires g.leadingBlanks
    ensures WithLines(g, lines) == g.(trailingBreaks := g.trailingBreaks + LineMeans(lines))
    decreases |lines|
  {
    if lines == [] {
      assert g.trailingBreaks + [] == g.trailingBreaks;
    } else {
      LinesGathered(WithLine(g, lines[0]), lines[1..]);
      assert g.trailingBreaks + [BreakMeans(lines[0].brk)] + LineMeans(lines[1..])
        == g.trailingBreaks + LineMeans(lines);
    }
  }

  /** What is joined behind folded lines. */
  lemma FoldJoined(before: seq<rune>, lines: seq<Line>)
    requires lines != []
    ensures Joined(WithLines(WithBlanks(NO_GAP, before), lines)) == Folded(lines)
  {
    var g := WithLine(WithBlanks(NO_GAP, before), lines[0]);
    LinesGathered(g, lines[1..]);
    assert [] + [BreakMeans(lines[0].brk)] == [BreakMeans(lines[0].brk)];
    assert [] + LineMeans(lines[1..]) == LineMeans(lines[1..]);
    assert |lines| == 1 <==> lines[1..] == [];
    assert lines[1..] != [] ==> LineMeans(lines[1..]) != [];
  }

  lemma JoinJoined(lines: seq<Line>)
    ensures Joined(WithLines(Blanks([], [], [], true), lines)) == LineMeans(lines)
  {
    LinesGathered(Blanks([], [], [], true), lines);
    assert [] + LineMeans(lines) == LineMeans(lines);
  }

  // ----- one piece ----------------------------------------------------------------------------------------

  lemma {:induction false} Read16(digits: seq<rune>, value: nat)
    ensures Reads16(digits, value) <==> AllHex(digits) && Unhex(digits) == value
    decreases |digits|
  {
    if digits != [] {
      var front, c := digits[..|digits| - 1], digits[|digits| - 1];
      Read16(front, value / 16);
      DigitValue(c, value % 16);
      assert AllHex(digits) <==> AllHex(front) && IsHex(c);
    }
  }

  lemma DigitValue(c: rune, k: nat)
    requires k < 16
    ensures IsDigit(c, k) <==> IsHex(c) && HexValue(c) == k
  {
  }

  lemma LetterValue(c: rune)
    ensures IsLetter(c) <==> ShortValue(c) >= 0
    ensures IsLetter(c) ==> ShortValue(c) == LetterMeans(c) && !IsBreak(c)
    ensures CodeLength(c) == if c < 0x80 && (c as char) in WIDTHS then WIDTHS[c as char] else 0
    ensures CodeLength(c) > 0 ==> !IsLetter(c) && !IsBreak(c)
  {
  }

  /** A piece is followed by nothing that belongs to it, and a gap not by a document indicator in column 0. */
  ghost predicate Stops(s: seq<rune>, piece: Piece, q: nat, column: nat) {
    IsGap(piece) ==>
      !IsBlankZ(At(s, q)) && !(ColumnBehind(piece, column) == 0 && DocumentMark(s, q))
  }

  lemma EscapeRead(s: seq<rune>, p: nat, piece: Piece, value: seq<rune>)
    requires PieceOk(false, piece) && Means(piece, value) && Here(s, p, Runes(piece)) && (piece.Letter? || piece.Code?)
    ensures At(s, p) == BACKSLASH && !IsBreak(At(s, p + 1)) && EscapeAt(s, p) == Escaped(value[0], |Runes(piece)|)
  {
    var x := Runes(piece);
    HereAt(s, p, x, 0);
    HereAt(s, p, x, 1);
    LetterValue(x[1]);
    if piece.Code? {
      Read16(piece.digits, value[0]);
      assert s[p + 2..p + 2 + |piece.digits|] == s[p..p + |x|][2..];
      assert x[2..] == piece.digits;
    }
  }

  lemma WordRead(s: seq<rune>, single: bool, p: nat, column: nat, text: seq<rune>, piece: Piece, value: seq<rune>)
    requires PieceOk(single, piece) && Means(piece, value) && Here(s, p, Runes(piece)) && !IsGap(piece)
    ensures Scan(s, single, p, column, text, Word)
      == Scan(s, single, p + |Runes(piece)|, column + |Runes(piece)|, text + value, Word)
  {
    hide EscapeAt, IsDocumentIndicator, GapStep;
    HereAt(s, p, Runes(piece), 0);
    if piece.Doubled? {
      HereAt(s, p, Runes(piece), 1);
    } else if !piece.Plain? {
      EscapeRead(s, p, piece, value);
      ReadEscape(s, p, column, text);
      assert value == [value[0]];
    }
  }

  lemma EscapedBreakRead(s: seq<rune>, p: nat, column: nat, text: seq<rune>, line: Line)
    requires At(s, p) == BACKSLASH && Here(s, p + 1, BreakRunes(line.brk)) && (line.brk.Lone? ==> IsBreak(line.brk.c))
    requires line.brk == Lone(CR) ==> At(s, p + 2) != LF
    ensures Scan(s, false, p, column, text, Word)
      == Scan(s, false, p + 1 + |BreakRunes(line.brk)|, 0, text, Gap(Blanks([], [], [], true)))
  {
    hide EscapeAt, GapStep, IsDocumentIndicator, Here, Joined;
    HereAt(s, p + 1, BreakRunes(line.brk), 0);
    if line.brk.CrLf? { HereAt(s, p + 1, BreakRunes(line.brk), 1); }
    QuoteAtOnce(s, p + 1 + |BreakRunes(line.brk)|, text);
  }

  /** A quote right behind an escaped break. */
  lemma QuoteAtOnce(s: seq<rune>, p: nat, text: seq<rune>)
    ensures At(s, p) == QUOTE ==>
      Scan(s, false, p, 0, text, Gap(Blanks([], [], [], true))) == Scanned(text, p + 1, 1)
  {
    hide EscapeAt, GapStep;
    assert text + [] == text;
  }

  lemma SpaceRead(s: seq<rune>, single: bool, p: nat, column: nat, text: seq<rune>, blanks: seq<rune>)
    requires blanks != [] && AllBlank(blanks) && Here(s, p, blanks) && !IsBlankZ(At(s, p + |blanks|))
    ensures Scan(s, single, p, column, text, Word)
      == Scan(s, single, p + |blanks|, column + |blanks|, text + blanks, Word)
  {
    hide Scan, IsDocumentIndicator;
    HereAt(s, p, blanks, 0);
    WordIsGap(s, single, p, column, text);
    BlanksRead(s, single, p, column, text, NO_GAP, blanks);
    assert [] + blanks == blanks;
    GapEnds(s, single, p + |blanks|, column + |blanks|, text, WithBlanks(NO_GAP, blanks));
  }

  /** A gap ends before a word. */
  lemma GapEnds(s: seq<rune>, single: bool, p: nat, column: nat, text: seq<rune>, g: Gap)
    requires !IsBlankZ(At(s, p)) && !(column == 0 && IsDocumentIndicator(s, p))
    ensures Scan(s, single, p, column, text, Gap(g)) == Scan(s, single, p, column, text + Joined(g), Word)
  {
  }

  /** Up to the end of folded lines. */
  lemma FoldGap(s: seq<rune>, single: bool, p: nat, column: nat, text: seq<rune>, before: seq<rune>, lines: seq<Line>)
    requires lines != [] && AllBlank(before) && LinesOk(lines) && Here(s, p, before + LineRunes(lines))
    requires !IsBreak(At(s, p + |before| + |LineRunes(lines)|))
    ensures Scan(s, single, p, column, text, Word)
      == Scan(s, single, p + |before| + |LineRunes(lines)|, |lines[|lines| - 1].blanks|, text,
              Gap(WithLines(WithBlanks(NO_GAP, before), lines)))
  {
    hide Scan, WithLines;
    HereSplit(s, p, before, LineRunes(lines));
    GapBegins(s, p, before, lines);
    WordIsGap(s, single, p, column, text);
    BlanksRead(s, single, p, column, text, NO_GAP, before);
    LinesRead(s, single, p + |before|, column + |before|, text, WithBlanks(NO_GAP, before), lines);
  }

  lemma FoldRead(s: seq<rune>, single: bool, p: nat, column: nat, text: seq<rune>, before: seq<rune>, lines: seq<Line>)
    requires lines != [] && AllBlank(before) && LinesOk(lines) && Here(s, p, before + LineRunes(lines))
    requires Stops(s, Fold(before, lines), p + |before| + |LineRunes(lines)|, column)
    ensures Scan(s, single, p, column, text, Word)
      == Scan(s, single, p + |before| + |LineRunes(lines)|, |lines[|lines| - 1].blanks|, text + Folded(lines), Word)
  {
    hide Scan, IsDocumentIndicator, DocumentMark, WithLines, Joined, Folded;
    MarkIs(s, p + |before| + |LineRunes(lines)|);
    FoldGap(s, single, p, column, text, before, lines);
    FoldJoined(before, lines);
    GapEnds(s, single, p + |before| + |LineRunes(lines)|, |lines[|lines| - 1].blanks|, text,
            WithLines(WithBlanks(NO_GAP, before), lines));
  }

  lemma GapBegins(s: seq<rune>, p: nat, before: seq<rune>, lines: seq<Line>)
    requires lines != [] && AllBlank(before) && LinesOk(lines) && Here(s, p, before + LineRunes(lines))
    ensures IsBlankZ(At(s, p))
  {
    HereAt(s, p, before + LineRunes(lines), 0);
    assert LineRunes(lines)[0] == BreakRunes(lines[0].brk)[0];
  }

  /** Up to the end of joined lines. */
  lemma JoinGapRead(s: seq<rune>, p: nat, column: nat, text: seq<rune>, lines: seq<Line>)
    requires lines != [] && LinesOk(lines) && Here(s, p, [BACKSLASH] + LineRunes(lines))
    requires !IsBreak(At(s, p + 1 + |LineRunes(lines)|))
    ensures Scan(s, false, p, column, text, Word)
      == Scan(s, false, p + 1 + |LineRunes(lines)|, |lines[|lines| - 1].blanks|, text,
              Gap(WithLines(Blanks([], [], [], true), lines[1..])))
  {
    hide Scan, IsDocumentIndicator, WithLines, Here, BreakRunes, BreakMeans;
    var line, more := lines[0], lines[1..];
    var b, w, g := BreakRunes(line.brk), line.blanks, Blanks([], [], [], true);
    HereAt(s, p, [BACKSLASH] + LineRunes(lines), 0);
    HereSplit(s, p, [BACKSLASH], LineRunes(lines));
    BehindBreak(s, p + 1, lines);
    FirstLine(s, p + 1, lines);
    EscapedBreakRead(s, p, column, text, line);
    BlanksRead(s, false, p + 1 + |b|, 0, text, g, w);
    NoLines(g);
    if more != [] {
      MoreOk(lines);
      LinesRead(s, false, p + 1 + |b| + |w|, |w|, text, g, more);
      assert more[|more| - 1] == lines[|lines| - 1];
    }
  }

  lemma JoinRead(s: seq<rune>, p: nat, column: nat, text: seq<rune>, lines: seq<Line>)
    requires lines != [] && LinesOk(lines) && Here(s, p, [BACKSLASH] + LineRunes(lines))
    requires Stops(s, Join(lines), p + 1 + |LineRunes(lines)|, column)
    ensures Scan(s, false, p, column, text, Word)
      == Scan(s, false, p + 1 + |LineRunes(lines)|, |lines[|lines| - 1].blanks|, text + LineMeans(lines[1..]), Word)
  {
    hide Scan, IsDocumentIndicator, DocumentMark, WithLines, Joined, Here;
    MarkIs(s, p + 1 + |LineRunes(lines)|);
    JoinGapRead(s, p, column, text, lines);
    JoinJoined(lines[1..]);
    GapEnds(s, false, p + 1 + |LineRunes(lines)|, |lines[|lines| - 1].blanks|, text,
            WithLines(Blanks([], [], [], true), lines[1..]));
  }

  lemma NoLines(g: Gap)
    ensures WithLines(g, []) == g
  {
  }

  lemma WordColumn(piece: Piece, column: nat)
    requires !IsGap(piece)
    ensures ColumnBehind(piece, column) == column + |Runes(piece)|
  {
  }

  /** What a gap consists of. */
  lemma GapParts(single: bool, piece: Piece, column: nat)
    requires PieceOk(single, piece) && IsGap(piece)
    ensures piece.Space? ==> piece.blanks != [] && AllBlank(piece.blanks) && Runes(piece) == piece.blanks
    ensures piece.Space? ==> ColumnBehind(piece, column) == column + |piece.blanks|
    ensures !piece.Space? ==>
      && piece.lines != [] && LinesOk(piece.lines)
      && ColumnBehind(piece, column) == |piece.lines[|piece.lines| - 1].blanks|
    ensures piece.Fold? ==>
      && AllBlank(piece.before) && Runes(piece) == piece.before + LineRunes(piece.lines)
      && |Runes(piece)| == |piece.before| + |LineRunes(piece.lines)|
    ensures piece.Join? ==>
      && !single && Runes(piece) == [BACKSLASH] + LineRunes(piece.lines)
      && |Runes(piece)| == 1 + |LineRunes(piece.lines)|
  {
    hide LineRunes, LinesOk, AllBlank;
  }

  /** The scanner reads a piece as its meaning. */
  lemma PieceRead(s: seq<rune>, single: bool, p: nat, column: nat, text: seq<rune>, piece: Piece, value: seq<rune>)
    requires PieceOk(single, piece) && Means(piece, value) && Here(s, p, Runes(piece))
    requires Stops(s, piece, p + |Runes(piece)|, column)
    ensures Scan(s, single, p, column, text, Word)
      == Scan(s, single, p + |Runes(piece)|, ColumnBehind(piece, column), text + value, Word)
  {
    hide Scan, DocumentMark, Folded, LineMeans, LineRunes, Here, LinesOk, AllBlank, IsBlankZ, PieceOk, Runes,
         ColumnBehind;
    if !IsGap(piece) {
      WordRead(s, single, p, column, text, piece, value);
      WordColumn(piece, column);
      return;
    }
    GapParts(single, piece, column);
    if piece.Space? {
      SpaceRead(s, single, p, column, text, piece.blanks);
    } else if piece.Fold? {
      FoldRead(s, single, p, column, text, piece.before, piece.lines);
    } else {
      JoinRead(s, p, column, text, piece.lines);
    }
  }

  // ----- whole texts --------------------------------------------------------------------------------------

  function AllRunes(pieces: seq<Piece>): seq<rune> {
    if pieces == [] then [] else Runes(pieces[0]) + AllRunes(pieces[1..])
  }

  ghost predicate AllMean(pieces: seq<Piece>, value: seq<rune>)
    decreases |pieces|
  {
    if pieces == [] then value == []
    else exists n :: 0 <= n <= |value| && Means(pieces[0], value[..n]) && AllMean(pieces[1..], value[n..])
  }

  function EndColumn(pieces: seq<Piece>, column: nat): nat
    decreases |pieces|
  {
    if pieces == [] then column else EndColumn(pieces[1..], ColumnBehind(pieces[0], column))
  }

  /** The pieces stand in the text from `p` on, each where it may. */
  ghost predicate Stands(s: seq<rune>, single: bool, p: nat, column: nat, pieces: seq<Piece>)
    decreases |pieces|
  {
    pieces != [] ==>
      var piece, q := pieces[0], p + |Runes(pieces[0])|;
      && PieceOk(single, piece) && Here(s, p, Runes(piece)) && Stops(s, piece, q, column)
      && Stands(s, single, q, ColumnBehind(piece, column), pieces[1..])
  }

  lemma {:induction false} PiecesRead(s: seq<rune>, single: bool, p: nat, column: nat, text: seq<rune>,
                                      pieces: seq<Piece>, value: seq<rune>)
    requires Stands(s, single, p, column, pieces) && AllMean(pieces, value)
    ensures Scan(s, single, p, column, text, Word)
      == Scan(s, single, p + |AllRunes(pieces)|, EndColumn(pieces, column), text + value, Word)
    decreases |pieces|
  {
    hide Scan, PieceOk, Means, Runes, Stops, Here, ColumnBehind;
    if pieces == [] {
      assert text + value == text;
    } else {
      var n :| 0 <= n <= |value| && Means(pieces[0], value[..n]) && AllMean(pieces[1..], value[n..]);
      PieceRead(s, single, p, column, text, pieces[0], value[..n]);
      PiecesRead(s, single, p + |Runes(pieces[0])|, ColumnBehind(pieces[0], column), text + value[..n], pieces[1..],
                 value[n..]);
      assert text + value[..n] + value[n..] == text + value;
    }
  }

  /** A quoted scalar: the scanner, behind the opening quote, gives the meaning of the pieces and stops behind the
      closing quote. */
  lemma QuotedRead(s: seq<rune>, single: bool, p: nat, column: nat, pieces: seq<Piece>, value: seq<rune>)
    requires column >= 1 && Stands(s, single, p, column, pieces) && AllMean(pieces, value)
    requires At(s, p + |AllRunes(pieces)|) == Closing(single)
    requires single ==> At(s, p + |AllRunes(pieces)| + 1) != APOSTROPHE
    ensures Scan(s, single, p, column, [], Gap(NO_GAP))
      == Scanned(value, p + |AllRunes(pieces)| + 1, EndColumn(pieces, column) + 1)
  {
    hide Scan, AllMean, EndColumn, IsDocumentIndicator, Stands, AllRunes;
    FirstRune(s, single, p, column, pieces);
    GapIsWord(s, single, p, column, []);
    PiecesRead(s, single, p, column, [], pieces, value);
    assert [] + value == value;
    WordEnds(s, single, p + |AllRunes(pieces)|, EndColumn(pieces, column), value);
  }

  lemma PieceBegins(single: bool, piece: Piece)
    requires PieceOk(single, piece)
    ensures Runes(piece) != [] && Runes(piece)[0] != NUL
  {
    if piece.Fold? {
      assert LineRunes(piece.lines)[0] == BreakRunes(piece.lines[0].brk)[0];
    }
  }

  lemma FirstRune(s: seq<rune>, single: bool, p: nat, column: nat, pieces: seq<Piece>)
    requires Stands(s, single, p, column, pieces) && At(s, p + |AllRunes(pieces)|) == Closing(single)
    ensures At(s, p) != NUL
  {
    hide PieceOk, Runes, Here;
    if pieces != [] {
      PieceBegins(single, pieces[0]);
      HereAt(s, p, Runes(pieces[0]), 0);
    }
  }
}
