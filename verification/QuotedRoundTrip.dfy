/**
 Scanning what the double-quoted writer wrote gives the value back: the scanner follows the writer character by
 character.
 */
module QuotedRoundTrip {
  import opened YamlChars
  import opened QuotedWriter
  import opened QuotedScanner

  /** `x` stands in `s` at `p`. */
  ghost predicate Here(s: seq<rune>, p: nat, x: seq<rune>) { p + |x| <= |s| && s[p..p + |x|] == x }

  lemma HereSplit(s: seq<rune>, p: nat, a: seq<rune>, b: seq<rune>)
    requires Here(s, p, a + b)
    ensures Here(s, p, a) && Here(s, p + |a|, b)
  {
    var x := a + b;
    assert forall i :: 0 <= i < |x| ==> s[p + i] == x[i];
    assert a == x[..|a|] && b == x[|a|..];
  }

  lemma HereAt(s: seq<rune>, p: nat, x: seq<rune>, i: nat)
    requires Here(s, p, x) && i < |x|
    ensures At(s, p + i) == x[i]
  {
    assert s[p..p + |x|][i] == s[p + i];
  }

  // ----- single scanner moves --------------------------------------------------------------------

  /** Leave a gap behind when a word character comes. */
  lemma EnterWord(s: seq<rune>, p: nat, column: nat, text: seq<rune>, g: Gap)
    requires !IsBlankZ(At(s, p)) && column >= 1
    ensures Scan(s, false, p, column, text, Gap(g)) == Scan(s, false, p, column, text + Joined(g), Word)
  {
  }

  lemma ReadPlain(s: seq<rune>, p: nat, column: nat, text: seq<rune>)
    requires !IsBlankZ(At(s, p)) && At(s, p) != QUOTE && At(s, p) != BACKSLASH
    ensures Scan(s, false, p, column, text, Word) == Scan(s, false, p + 1, column + 1, text + [At(s, p)], Word)
  {
  }

  lemma ReadEscape(s: seq<rune>, p: nat, column: nat, text: seq<rune>)
    requires At(s, p) == BACKSLASH && !IsBreak(At(s, p + 1)) && EscapeAt(s, p).Escaped?
    ensures var e := EscapeAt(s, p);
      Scan(s, false, p, column, text, Word) == Scan(s, false, p + e.len, column + e.len, text + [e.value], Word)
  {
  }

  lemma ReadSpace(s: seq<rune>, p: nat, column: nat, text: seq<rune>, phase: Phase)
    requires At(s, p) == SPACE && (phase.Gap? ==> !phase.gap.leadingBlanks)
    ensures var g := if phase.Word? then NO_GAP else phase.gap;
      Scan(s, false, p, column, text, phase)
      == Scan(s, false, p + 1, column + 1, text, Gap(g.(whitespaces := g.whitespaces + [SPACE])))
  {
  }

  const FOLDED := Blanks([], [LF], [], true)

  lemma ReadBreak(s: seq<rune>, p: nat, column: nat, text: seq<rune>, b: LineBreak)
    requires Here(s, p, BreakText(b) + [SPACE])
    ensures Scan(s, false, p, column, text, Word) == Scan(s, false, p + |BreakText(b)|, 0, text, Gap(FOLDED))
  {
    var x := BreakText(b) + [SPACE];
    HereAt(s, p, x, 0);
    HereAt(s, p, x, 1);
    assert NO_GAP.leadingBreak + [LF] == [LF];
    assert GapStep(s, p, column, NO_GAP) == (p + |BreakText(b)|, 0, FOLDED);
  }

  lemma FoldedSpace(s: seq<rune>, p: nat, column: nat, text: seq<rune>)
    requires At(s, p) == SPACE
    ensures Scan(s, false, p, column, text, Gap(FOLDED)) == Scan(s, false, p + 1, column + 1, text, Gap(FOLDED))
  {
  }

  lemma {:induction false} SkipSpaces(s: seq<rune>, p: nat, column: nat, text: seq<rune>, n: nat)
    requires Here(s, p, Spaces(n))
    ensures Scan(s, false, p, column, text, Gap(FOLDED)) == Scan(s, false, p + n, column + n, text, Gap(FOLDED))
    decreases n
  {
    hide Scan, Here;
    if n > 0 {
      assert Spaces(n) == [SPACE] + Spaces(n - 1);
      HereSplit(s, p, [SPACE], Spaces(n - 1));
      HereAt(s, p, [SPACE], 0);
      FoldedSpace(s, p, column, text);
      SkipSpaces(s, p + 1, column + 1, text, n - 1);
    }
  }

  // ----- escapes -------------------------------------------------------------------------------------

  lemma ShortBack(c: rune)
    requires ShortEscape(c) != 0
    ensures ShortValue(ShortEscape(c)) == c && !IsBreak(ShortEscape(c))
  {
  }

  lemma EscapeBack(s: seq<rune>, p: nat, c: rune)
    requires Here(s, p, Escape(c))
    ensures At(s, p) == BACKSLASH && !IsBreak(At(s, p + 1)) && EscapeAt(s, p) == Escaped(c, |Escape(c)|)
  {
    HereAt(s, p, Escape(c), 0);
    HereAt(s, p, Escape(c), 1);
    if ShortEscape(c) != 0 {
      ShortBack(c);
    } else {
      LongBack(s, p, c, if c <= 0xFF then 0x78 else if c <= 0xFFFF then 0x75 else 0x55);
    }
  }

  lemma LongBack(s: seq<rune>, p: nat, c: rune, letter: rune)
    requires letter == (if c <= 0xFF then 0x78 else if c <= 0xFFFF then 0x75 else 0x55)
    requires Here(s, p, [BACKSLASH, letter] + Hex(c, CodeLength(letter)))
    ensures At(s, p) == BACKSLASH && At(s, p + 1) == letter && EscapeAt(s, p) == Escaped(c, 2 + CodeLength(letter))
  {
    var n := CodeLength(letter);
    var h := Hex(c, n);
    HereAt(s, p, [BACKSLASH, letter] + h, 0);
    HereAt(s, p, [BACKSLASH, letter] + h, 1);
    HereSplit(s, p, [BACKSLASH, letter], h);
    assert Pow16(2) == 0x100 && Pow16(4) == 0x1_0000;
    assert Pow16(8) == 0x1_0000_0000;
    HexBack(c, n);
    assert s[p + 2..p + 2 + n] == h;
  }

  // ----- the simulation ------------------------------------------------------------------------------

  /** Once a line has been folded the column never falls back to the margin, so every fold breaks the line. */
  ghost predicate PenOk(style: Style, pen: Pen) {
    pen.indention ==> pen.column >= Margin(style.indent) && (!pen.spaces ==> pen.column > Margin(style.indent))
  }

  lemma PenStays(style: Style, pen: Pen, v: seq<rune>, i: nat)
    requires PenOk(style, pen) && i < |v|
    ensures PenOk(style, Chunk(style, pen, v, i).1)
  {
    hide Escape, MustEscape;
  }

  lemma FoldBreaks(style: Style, pen: Pen, v: seq<rune>, i: nat)
    requires PenOk(style, pen) && style.indent >= 0 && i < |v| && Folds(style, pen, v, i)
    ensures Indent(style, pen) == (BreakText(style.lineBreak) + Spaces(style.indent),
                                   Pen(style.indent, true, true, false))
  {
  }

  /** Where the scanner is when the writer has written `n` characters of output for the first `i` of `v`. */
  datatype Place = Place(p: nat, column: nat, text: seq<rune>, phase: Phase)

  function ScanFrom(s: seq<rune>, at: Place): Outcome { Scan(s, false, at.p, at.column, at.text, at.phase) }

  ghost predicate Related(v: seq<rune>, i: nat, spaces: bool, end: nat, s: seq<rune>, at: Place)
    requires i <= |v|
  {
    && at.column >= 1
    && match at.phase
       case Word => at.p == end && at.text == v[..i]
       case Gap(g) =>
         if g.leadingBlanks then
           && g == FOLDED && spaces && i < |v| && at.text + [SPACE] == v[..i]
           && (if v[i] == SPACE then at.p + 1 == end && At(s, at.p) == BACKSLASH else at.p == end)
         else
           && at.p == end && (spaces || i == 0) && g == Blanks(g.whitespaces, [], [], false)
           && at.text + g.whitespaces == v[..i]
  }

  /** The scanner comes to the next word with everything before it read. */
  lemma ToWord(v: seq<rune>, i: nat, spaces: bool, end: nat, s: seq<rune>, at: Place)
    requires i <= |v| && Related(v, i, spaces, end, s, at) && !IsBlankZ(At(s, at.p))
    ensures ScanFrom(s, at) == Scan(s, false, at.p, at.column, v[..i], Word)
  {
    if at.phase.Gap? {
      EnterWord(s, at.p, at.column, at.text, at.phase.gap);
    }
  }

  /** Before a character that is not a space there is nothing left to read. */
  lemma NoSpaceHere(v: seq<rune>, i: nat, spaces: bool, end: nat, s: seq<rune>, at: Place)
    requires i < |v| && v[i] != SPACE && Related(v, i, spaces, end, s, at)
    ensures at.p == end && at.column >= 1
  {
  }

  lemma WordRelated(v: seq<rune>, i: nat, end: nat, s: seq<rune>, column: nat)
    requires i <= |v| && column >= 1
    ensures Related(v, i, false, end, s, Place(end, column, v[..i], Word))
  {
  }

  lemma TakeNext(v: seq<rune>, i: nat)
    requires i < |v|
    ensures v[..i] + [v[i]] == v[..i + 1]
  {
  }

  lemma TakeAll(v: seq<rune>)
    ensures v[..|v|] == v
  {
  }

  lemma PassEscape(s: seq<rune>, p: nat, column: nat, text: seq<rune>, c: rune, text': seq<rune>)
    requires Here(s, p, Escape(c)) && text' == text + [c]
    ensures At(s, p) == BACKSLASH
    ensures var n := |Escape(c)|;
      Scan(s, false, p, column, text, Word) == Scan(s, false, p + n, column + n, text', Word)
  {
    hide Scan, Escape, EscapeAt, Here, IsBreak;
    EscapeBack(s, p, c);
    ReadEscape(s, p, column, text);
  }

  lemma EscapeToWord(v: seq<rune>, i: nat, spaces: bool, end: nat, s: seq<rune>, at: Place)
    requires i < |v| && v[i] != SPACE && Related(v, i, spaces, end, s, at) && At(s, end) == BACKSLASH
    ensures ScanFrom(s, at) == Scan(s, false, end, at.column, v[..i], Word)
  {
    hide Scan, Related;
    NoSpaceHere(v, i, spaces, end, s, at);
    ToWord(v, i, spaces, end, s, at);
  }

  lemma FollowEscape(v: seq<rune>, i: nat, spaces: bool, end: nat, s: seq<rune>, at: Place) returns (next: Place)
    requires i < |v| && v[i] != SPACE && Related(v, i, spaces, end, s, at) && Here(s, end, Escape(v[i]))
    ensures ScanFrom(s, next) == ScanFrom(s, at) && Related(v, i + 1, false, end + |Escape(v[i])|, s, next)
  {
    hide Scan, Escape, Related, Here;
    NoSpaceHere(v, i, spaces, end, s, at);
    var n, text := |Escape(v[i])|, v[..i + 1];
    TakeNext(v, i);
    PassEscape(s, end, at.column, v[..i], v[i], text);
    EscapeToWord(v, i, spaces, end, s, at);
    next := Place(end + n, at.column + n, text, Word);
    WordRelated(v, i + 1, end + n, s, at.column + n);
  }

  lemma FollowPlain(v: seq<rune>, i: nat, spaces: bool, unicode: bool, end: nat, s: seq<rune>, at: Place)
    returns (next: Place)
    requires i < |v| && v[i] != SPACE && !MustEscape(v[i], unicode) && Related(v, i, spaces, end, s, at)
      && Here(s, end, [v[i]])
    ensures ScanFrom(s, next) == ScanFrom(s, at) && Related(v, i + 1, false, end + 1, s, next)
  {
    HereAt(s, end, [v[i]], 0);
    NoSpaceHere(v, i, spaces, end, s, at);
    hide Scan, Related, Here;
    ToWord(v, i, spaces, end, s, at);
    ReadPlain(s, end, at.column, v[..i]);
    TakeNext(v, i);
    next := Place(end + 1, at.column + 1, v[..i + 1], Word);
    WordRelated(v, i + 1, end + 1, s, next.column);
  }

  lemma FollowSpace(v: seq<rune>, i: nat, spaces: bool, end: nat, s: seq<rune>, at: Place) returns (next: Place)
    requires i < |v| && v[i] == SPACE && Related(v, i, spaces, end, s, at) && Here(s, end, [SPACE])
    ensures ScanFrom(s, next) == ScanFrom(s, at) && Related(v, i + 1, true, end + 1, s, next)
  {
    HereAt(s, end, [SPACE], 0);
    assert v[..i] + [SPACE] == v[..i + 1];
    if at.phase.Gap? && at.phase.gap.leadingBlanks {
      hide Scan;
      ToWord(v, i, spaces, end, s, at);
      ReadEscape(s, at.p, at.column, v[..i]);
      next := Place(end + 1, at.column + 2, v[..i + 1], Word);
    } else {
      hide Scan;
      ReadSpace(s, end, at.column, at.text, at.phase);
      var g := if at.phase.Word? then NO_GAP else at.phase.gap;
      assert at.text + (g.whitespaces + [SPACE]) == v[..i] + [SPACE];
      next := Place(end + 1, at.column + 1, at.text, Gap(g.(whitespaces := g.whitespaces + [SPACE])));
    }
  }

  lemma FollowFold(style: Style, v: seq<rune>, i: nat, end: nat, s: seq<rune>, at: Place) returns (next: Place)
    requires style.indent >= 1 && 0 < i < |v| - 1 && v[i] == SPACE && Related(v, i, false, end, s, at)
    requires Here(s, end, BreakText(style.lineBreak) + Spaces(style.indent) + if v[i + 1] == SPACE then [BACKSLASH]
                  else [])
    ensures ScanFrom(s, next) == ScanFrom(s, at)
    ensures Related(v, i + 1, true, end + |BreakText(style.lineBreak)| + style.indent + (if v[i + 1] == SPACE then 1
        else 0), s, next)
  {
    var b := BreakText(style.lineBreak);
    var tail := if v[i + 1] == SPACE then [BACKSLASH] else [];
    hide Scan, BreakText, Spaces, Here;
    FoldRead(style, s, end, at.column, at.text, tail);
    if v[i + 1] == SPACE {
      HereAt(s, end + |b| + style.indent, tail, 0);
    }
    assert at.text + [SPACE] == v[..i + 1];
    next := Place(end + |b| + style.indent, style.indent, at.text, Gap(FOLDED));
  }

  /** Reading a line break and the margin after it. */
  lemma FoldRead(style: Style, s: seq<rune>, p: nat, column: nat, text: seq<rune>, tail: seq<rune>)
    requires style.indent >= 1 && Here(s, p, BreakText(style.lineBreak) + Spaces(style.indent) + tail)
    ensures var q := p + |BreakText(style.lineBreak)| + style.indent;
      Here(s, q, tail) && Scan(s, false, p, column, text, Word) == Scan(s, false, q, style.indent, text, Gap(FOLDED))
  {
    var b := BreakText(style.lineBreak);
    hide Scan, BreakText, Spaces, Here;
    FoldText(s, p, b, style.indent, tail);
    ReadBreak(s, p, column, text, style.lineBreak);
    SkipSpaces(s, p + |b|, 0, text, style.indent);
  }

  lemma FoldText(s: seq<rune>, p: nat, b: seq<rune>, n: nat, tail: seq<rune>)
    requires n >= 1 && Here(s, p, b + Spaces(n) + tail)
    ensures Here(s, p, b + [SPACE]) && Here(s, p + |b|, Spaces(n)) && Here(s, p + |b| + n, tail)
  {
    hide Here;
    var pad, rest := Spaces(n), Spaces(n - 1);
    HereSplit(s, p, b + pad, tail);
    HereSplit(s, p, b, pad);
    assert pad == [SPACE] + rest;
    assert b + pad == b + [SPACE] + rest;
    HereSplit(s, p, b + [SPACE], rest);
  }

  /** One character of the value: the scanner follows the writer. */
  lemma FollowStep(style: Style, pen: Pen, v: seq<rune>, i: nat, end: nat, s: seq<rune>, at: Place)
    returns (next: Place)
    requires style.indent >= 1 && PenOk(style, pen) && i < |v| && Related(v, i, pen.spaces, end, s, at)
    requires Here(s, end, Chunk(style, pen, v, i).0)
    ensures var (chunk, pen') := Chunk(style, pen, v, i);
      ScanFrom(s, next) == ScanFrom(s, at) && Related(v, i + 1, pen'.spaces, end + |chunk|, s, next)
  {
    hide Scan, ScanFrom, Related, PenOk, Escape, Indent;
    if MustEscape(v[i], style.unicode) {
      next := FollowEscape(v, i, pen.spaces, end, s, at);
    } else if Folds(style, pen, v, i) {
      FoldBreaks(style, pen, v, i);
      assert BreakText(style.lineBreak) + Spaces(style.indent) + []
        == BreakText(style.lineBreak) + Spaces(style.indent);
      next := FollowFold(style, v, i, end, s, at);
    } else if v[i] == SPACE {
      next := FollowSpace(v, i, pen.spaces, end, s, at);
    } else {
      next := FollowPlain(v, i, pen.spaces, style.unicode, end, s, at);
    }
  }

  lemma {:induction false} Follow(style: Style, pen: Pen, v: seq<rune>, i: nat, s: seq<rune>, base: nat, column: nat)
    returns (at: Place)
    requires style.indent >= 1 && !pen.indention && !pen.spaces && column >= 1 && i <= |v|
    requires Here(s, base, Written(style, pen, v, i).0)
    ensures var (out, pen') := Written(style, pen, v, i);
      && PenOk(style, pen') && Related(v, i, pen'.spaces, base + |out|, s, at)
      && ScanFrom(s, at) == Scan(s, false, base, column, [], Gap(NO_GAP))
    decreases i
  {
    hide Scan, Chunk;
    if i == 0 {
      at := Place(base, column, [], Gap(NO_GAP));
    } else {
      var (out, pen') := Written(style, pen, v, i - 1);
      HereSplit(s, base, out, Chunk(style, pen', v, i - 1).0);
      at := Follow(style, pen, v, i - 1, s, base, column);
      PenStays(style, pen', v, i - 1);
      at := FollowStep(style, pen', v, i - 1, base + |out|, s, at);
    }
  }

  /** The scanner has found `value` and stopped at `end`. */
  ghost predicate Gives(r: Outcome, value: seq<rune>, end: nat) { r.Scanned? && r.value == value && r.end == end }

  lemma ClosingQuote(s: seq<rune>, p: nat, column: nat, text: seq<rune>)
    requires At(s, p) == QUOTE
    ensures Gives(Scan(s, false, p, column, text, Word), text, p + 1)
  {
  }

  /** At the closing quote the scanner has the whole value. */
  lemma Finish(v: seq<rune>, spaces: bool, end: nat, s: seq<rune>, at: Place)
    requires Related(v, |v|, spaces, end, s, at) && At(s, end) == QUOTE
    ensures Gives(ScanFrom(s, at), v, end + 1)
  {
    assert at.p == end && !IsBlankZ(QUOTE);
    TakeAll(v);
    hide Related, Scan, IsBlankZ;
    ToWord(v, |v|, spaces, end, s, at);
    ClosingQuote(s, end, at.column, v);
  }

  /** The round trip. Behind the opening quote, at any column, scanning the writer's output and the closing quote
      gives back the value and stops right behind that quote, whatever follows it. */
  lemma ScanWritten(style: Style, pen: Pen, v: seq<rune>, s: seq<rune>, base: nat, column: nat)
    requires style.indent >= 1 && !pen.indention && !pen.spaces && column >= 1
    requires Here(s, base, Written(style, pen, v, |v|).0 + [QUOTE])
    ensures Gives(Scan(s, false, base, column, [], Gap(NO_GAP)), v, base + |Written(style, pen, v, |v|).0| + 1)
  {
    var (out, pen') := Written(style, pen, v, |v|);
    hide Written, Scan, Here, Related;
    HereSplit(s, base, out, [QUOTE]);
    HereAt(s, base + |out|, [QUOTE], 0);
    var at := Follow(style, pen, v, |v|, s, base, column);
    Finish(v, pen'.spaces, base + |out|, s, at);
  }

  lemma WrittenBy(style: Style, pen0: Pen, v: seq<rune>, i: nat, out: seq<rune>, pen: Pen, chunk: seq<rune>, pen': Pen,
                  out': seq<rune>)
    requires i < |v| && Written(style, pen0, v, i) == (out, pen) && out' == out + chunk
    requires Chunk(style, pen, v, i) == (chunk, pen')
    ensures Written(style, pen0, v, i + 1) == (out', pen')
  {
    WrittenNext(style, pen0, v, i);
  }

  /** "a --- b" folded at width 0 without a margin. */
  lemma NoMarginWritten()
    ensures var v, style := [0x61, SPACE, DASH, DASH, DASH, SPACE, 0x62], Style(0, 0, LnBreak, true, true);
      Written(style, Pen(1, false, false, false), v, |v|).0 == [0x61, LF, DASH, DASH, DASH, LF, 0x62]
  {
    var v: seq<rune>, style := [0x61, SPACE, DASH, DASH, DASH, SPACE, 0x62], Style(0, 0, LnBreak, true, true);
    var pen := Pen(1, false, false, false);
    hide Written;
    WrittenStart(style, pen, v);
    WrittenBy(style, pen, v, 0, [], pen, [0x61], Pen(2, false, false, false), [0x61]);
    assert BreakText(LnBreak) + Spaces(0) == [LF];
    WrittenBy(style, pen, v, 1, [0x61], Pen(2, false, false, false), [LF], Pen(0, true, true, true), [0x61, LF]);
    WrittenBy(style, pen, v, 2, [0x61, LF], Pen(0, true, true, true), [DASH], Pen(1, true, true, false),
              [0x61, LF, DASH]);
    WrittenBy(style, pen, v, 3, [0x61, LF, DASH], Pen(1, true, true, false), [DASH], Pen(2, true, true, false),
              [0x61, LF, DASH, DASH]);
    WrittenBy(style, pen, v, 4, [0x61, LF, DASH, DASH], Pen(2, true, true, false), [DASH], Pen(3, true, true, false),
              [0x61, LF, DASH, DASH, DASH]);
    WrittenBy(style, pen, v, 5, [0x61, LF, DASH, DASH, DASH], Pen(3, true, true, false), [LF], Pen(0, true, true, true),
              [0x61, LF, DASH, DASH, DASH, LF]);
    WrittenBy(style, pen, v, 6, [0x61, LF, DASH, DASH, DASH, LF], Pen(0, true, true, true), [0x62],
              Pen(1, true, true, false), [0x61, LF, DASH, DASH, DASH, LF, 0x62]);
  }

  /** Without a margin the round trip fails: folding "a --- b" at width 0 starts a line with a document indicator.
      Scalars are written one level deeper than their parent, so the emitter always has a margin. */
  lemma NoMarginFails()
    ensures var v, style := [0x61, SPACE, DASH, DASH, DASH, SPACE, 0x62], Style(0, 0, LnBreak, true, true);
      Scan(Written(style, Pen(1, false, false, false), v, |v|).0 + [QUOTE], false, 0, 1, [], Gap(NO_GAP))
        == Failed(DocumentIndicator)
  {
    NoMarginWritten();
    hide Written;
    var s: seq<rune> := [0x61, LF, DASH, DASH, DASH, LF, 0x62, QUOTE];
    assert [0x61, LF, DASH, DASH, DASH, LF, 0x62] + [QUOTE] == s;
    NoMarginScan(s);
  }

  lemma NoMarginScan(s: seq<rune>)
    requires s == [0x61, LF, DASH, DASH, DASH, LF, 0x62, QUOTE]
    ensures Scan(s, false, 0, 1, [], Gap(NO_GAP)) == Failed(DocumentIndicator)
  {
    EnterWord(s, 0, 1, [], NO_GAP);
    ReadPlain(s, 0, 1, [] + Joined(NO_GAP));
    assert IsDocumentIndicator(s, 2);
    var text := [] + Joined(NO_GAP) + [0x61];
    assert Scan(s, false, 1, 2, text, Word) == Scan(s, false, 2, 0, text, Gap(GapStep(s, 1, 2, NO_GAP).2));
  }
}
