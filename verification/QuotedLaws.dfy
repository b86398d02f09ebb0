/**
 Quoted scalars are exactly the texts made of pieces; single-quoted values and folded lines in particular.
 */
module QuotedLaws {
  import opened YamlChars
  import opened QuotedScanner
  import opened QuotedRoundTrip
  import opened QuotedText

  // ----- every scalar is made of pieces -------------------------------------------------------------------

  lemma HereNext(s: seq<rune>, p: nat, x: seq<rune>, y: seq<rune>)
    requires Here(s, p, x) && Here(s, p + |x|, y)
    ensures Here(s, p, x + y)
  {
    assert s[p..p + |x| + |y|] == s[p..p + |x|] + s[p + |x|..p + |x| + |y|];
  }

  lemma HereLength(s: seq<rune>, p: nat, x: seq<rune>)
    requires Here(s, p, x)
    ensures p + |x| <= |s|
  {
  }

  lemma HereOne(s: seq<rune>, p: nat)
    requires At(s, p) != NUL
    ensures Here(s, p, [At(s, p)])
  {
  }

  lemma {:induction false} TakeBlanks(s: seq<rune>, p: nat) returns (blanks: seq<rune>)
    requires p <= |s|
    ensures Here(s, p, blanks) && AllBlank(blanks) && !IsBlank(At(s, p + |blanks|))
    decreases |s| - p
  {
    if IsBlank(At(s, p)) {
      var more := TakeBlanks(s, p + 1);
      HereOne(s, p);
      HereNext(s, p, [s[p]], more);
      blanks := [s[p]] + more;
    } else {
      blanks := [];
    }
  }

  lemma TakeBreak(s: seq<rune>, p: nat) returns (b: Break)
    requires IsBreak(At(s, p))
    ensures Here(s, p, BreakRunes(b)) && (b.Lone? ==> IsBreak(b.c)) && (b == Lone(CR) ==> At(s, p + 1) != LF)
    ensures b == Lone(LF) ==> At(s, p) == LF
  {
    b := if At(s, p) == CR && At(s, p + 1) == LF then CrLf else Lone(At(s, p));
  }

  lemma {:induction false} TakeLines(s: seq<rune>, p: nat) returns (lines: seq<Line>)
    requires p <= |s| && !IsBlank(At(s, p))
    ensures LinesOk(lines) && Here(s, p, LineRunes(lines)) && (lines == [] <==> !IsBreak(At(s, p)))
    ensures var c := At(s, p + |LineRunes(lines)|); !IsBlank(c) && !IsBreak(c)
    ensures lines != [] && lines[0].brk == Lone(LF) ==> At(s, p) == LF
    decreases |s| - p
  {
    hide LinesOk, Apart, Here, AllBlank, BreakRunes;
    if IsBreak(At(s, p)) {
      var b := TakeBreak(s, p);
      var q := p + |BreakRunes(b)|;
      HereLength(s, p, BreakRunes(b));
      BreakLength(b);
      var w := TakeBlanks(s, q);
      HereLength(s, q, w);
      var more := TakeLines(s, q + |w|);
      lines := [Line(b, w)] + more;
      assert lines[1..] == more;
      HereNext(s, q, w, LineRunes(more));
      HereNext(s, p, BreakRunes(b), w + LineRunes(more));
      assert BreakRunes(b) + (w + LineRunes(more)) == LineRunes(lines);
      BreaksApart(s, p, b, w, more);
      LinesCons(Line(b, w), more);
    } else {
      lines := [];
      NoLinesOk(s, p);
    }
  }

  lemma NoLinesOk(s: seq<rune>, p: nat)
    requires p <= |s|
    ensures LinesOk([]) && Here(s, p, [])
  {
  }

  lemma BreakLength(b: Break)
    ensures |BreakRunes(b)| > 0
  {
  }

  lemma BreaksApart(s: seq<rune>, p: nat, b: Break, w: seq<rune>, more: seq<Line>)
    requires b == Lone(CR) ==> At(s, p + 1) != LF
    requires more != [] && more[0].brk == Lone(LF) ==> At(s, p + |BreakRunes(b)| + |w|) == LF
    ensures more != [] ==> Apart(Line(b, w), more[0])
  {
  }

  lemma LinesCons(line: Line, more: seq<Line>)
    requires AllBlank(line.blanks) && (line.brk.Lone? ==> IsBreak(line.brk.c)) && LinesOk(more)
    requires more != [] ==> Apart(line, more[0])
    ensures LinesOk([line] + more)
  {
    var lines := [line] + more;
    forall k | 0 <= k < |lines| - 1 ensures Apart(lines[k], lines[k + 1]) {
      if k > 0 { assert Apart(more[k - 1], more[k]); }
    }
  }

  /** The gap at a blank or a line break. */
  lemma TakeGap(s: seq<rune>, p: nat) returns (piece: Piece)
    requires IsBlank(At(s, p)) || IsBreak(At(s, p))
    ensures (piece.Space? || piece.Fold?) && PieceOk(true, piece) && PieceOk(false, piece) && Here(s, p, Runes(piece))
    ensures var c := At(s, p + |Runes(piece)|); !IsBlank(c) && !IsBreak(c)
    ensures Runes(piece) != []
  {
    hide Here, LinesOk, LineRunes, AllBlank, PieceOk, Runes;
    var before := TakeBlanks(s, p);
    HereLength(s, p, before);
    var lines := TakeLines(s, p + |before|);
    NoRunes();
    if lines == [] {
      piece := Space(before);
      SpaceOk(before);
    } else {
      HereNext(s, p, before, LineRunes(lines));
      piece := Fold(before, lines);
      FoldOk(before, lines);
    }
  }

  lemma NoRunes()
    ensures LineRunes([]) == []
  {
  }

  lemma SpaceOk(blanks: seq<rune>)
    requires AllBlank(blanks) && blanks != []
    ensures PieceOk(true, Space(blanks)) && PieceOk(false, Space(blanks)) && Runes(Space(blanks)) == blanks
  {
  }

  lemma FoldOk(before: seq<rune>, lines: seq<Line>)
    requires AllBlank(before) && LinesOk(lines) && lines != []
    ensures PieceOk(true, Fold(before, lines)) && PieceOk(false, Fold(before, lines))
    ensures Runes(Fold(before, lines)) == before + LineRunes(lines) && LineRunes(lines) != []
  {
  }

  function MeaningOf(piece: Piece): seq<rune>
    requires IsGap(piece) && (piece.Space? || piece.lines != [])
  {
    if piece.Space? then piece.blanks else if piece.Fold? then Folded(piece.lines) else LineMeans(piece.lines[1..])
  }

  /** In a text that is scanned, a gap stops before a word. */
  lemma GapStops(s: seq<rune>, single: bool, p: nat, column: nat, text: seq<rune>, piece: Piece)
    requires PieceOk(single, piece) && IsGap(piece) && Here(s, p, Runes(piece))
    requires var c := At(s, p + |Runes(piece)|); !IsBlank(c) && !IsBreak(c)
    requires Scan(s, single, p, column, text, Word).Scanned?
    ensures Stops(s, piece, p + |Runes(piece)|, column) && Means(piece, MeaningOf(piece))
  {
    hide Scan, Here, IsDocumentIndicator, DocumentMark, LineRunes, Folded, LineMeans, LinesOk, AllBlank, IsBlank,
         IsBreak;
    var q := p + |Runes(piece)|;
    var g, column' := GapAt(s, single, p, column, text, piece);
    MarkIs(s, q);
    GapFails(s, single, q, column', text, g);
    NotBlankZ(At(s, q));
  }

  lemma NotBlankZ(c: rune)
    ensures !IsBlankZ(c) <==> !IsBlank(c) && !IsBreak(c) && c != NUL
  {
  }

  /** Where the machine stands behind a gap. */
  lemma GapAt(s: seq<rune>, single: bool, p: nat, column: nat, text: seq<rune>, piece: Piece)
    returns (g: Gap, column': nat)
    requires PieceOk(single, piece) && IsGap(piece) && Here(s, p, Runes(piece))
    requires var c := At(s, p + |Runes(piece)|); !IsBlank(c) && !IsBreak(c)
    ensures column' == ColumnBehind(piece, column)
    ensures Scan(s, single, p, column, text, Word)
      == Scan(s, single, p + |Runes(piece)|, column', text, Gap(g))
  {
    hide Scan, Here, WithLines, LineRunes, LinesOk, IsBreak, PieceOk, Runes, ColumnBehind;
    column' := ColumnBehind(piece, column);
    GapParts(single, piece, column);
    if piece.Space? {
      HereAt(s, p, piece.blanks, 0);
      WordIsGap(s, single, p, column, text);
      BlanksRead(s, single, p, column, text, NO_GAP, piece.blanks);
      g := WithBlanks(NO_GAP, piece.blanks);
    } else if piece.Fold? {
      FoldGap(s, single, p, column, text, piece.before, piece.lines);
      g := WithLines(WithBlanks(NO_GAP, piece.before), piece.lines);
    } else {
      JoinGapRead(s, p, column, text, piece.lines);
      g := WithLines(Blanks([], [], [], true), piece.lines[1..]);
    }
  }

  lemma GapFails(s: seq<rune>, single: bool, q: nat, column: nat, text: seq<rune>, g: Gap)
    requires !IsBlank(At(s, q)) && !IsBreak(At(s, q))
    ensures At(s, q) == NUL || (column == 0 && IsDocumentIndicator(s, q)) ==>
      Scan(s, single, q, column, text, Gap(g)).Failed?
  {
  }

  /** The piece at a backslash in a double-quoted text that is scanned. */
  lemma TakeEscape(s: seq<rune>, p: nat, column: nat, text: seq<rune>) returns (piece: Piece, value: seq<rune>)
    requires At(s, p) == BACKSLASH && Scan(s, false, p, column, text, Word).Scanned?
    ensures PieceOk(false, piece) && Means(piece, value) && Here(s, p, Runes(piece)) && !piece.Space? && !piece.Fold?
    ensures Stops(s, piece, p + |Runes(piece)|, column)
  {
    hide GapStep, LineRunes, IsDocumentIndicator;
    HereOne(s, p);
    if IsBreak(At(s, p + 1)) {
      var lines := TakeLines(s, p + 1);
      piece := Join(lines);
      HereNext(s, p, [BACKSLASH], LineRunes(lines));
      GapStops(s, false, p, column, text, piece);
      value := MeaningOf(piece);
    } else {
      EscapeNeeded(s, p, column, text);
      piece, value := TakeCode(s, p);
    }
  }

  lemma EscapeNeeded(s: seq<rune>, p: nat, column: nat, text: seq<rune>)
    requires At(s, p) == BACKSLASH && !IsBreak(At(s, p + 1)) && Scan(s, false, p, column, text, Word).Scanned?
    ensures EscapeAt(s, p).Escaped?
  {
    hide EscapeAt;
  }

  lemma TakeCode(s: seq<rune>, p: nat) returns (piece: Piece, value: seq<rune>)
    requires At(s, p) == BACKSLASH && EscapeAt(s, p).Escaped?
    ensures PieceOk(false, piece) && Means(piece, value) && Here(s, p, Runes(piece)) && !IsGap(piece)
  {
    hide ShortValue, CodeLength, IsLetter, Reads16, Unhex, AllHex;
    var c := At(s, p + 1);
    LetterValue(c);
    value := [EscapeAt(s, p).value];
    if IsLetter(c) {
      piece := Letter(c);
      assert s[p..p + 2] == [BACKSLASH, c];
    } else {
      var digits := s[p + 2..p + 2 + CodeLength(c)];
      Read16(digits, value[0]);
      piece := Code(c, digits);
      assert s[p..p + 2 + |digits|] == [BACKSLASH, c] + digits;
    }
  }

  /** The piece that a scanned text goes on with, unless the scalar ends. */
  lemma TakePiece(s: seq<rune>, single: bool, p: nat, column: nat, text: seq<rune>)
    returns (piece: Piece, value: seq<rune>)
    requires Scan(s, single, p, column, text, Word).Scanned?
    requires !(At(s, p) == Closing(single) && !(single && At(s, p + 1) == APOSTROPHE))
    ensures PieceOk(single, piece) && Means(piece, value) && Here(s, p, Runes(piece)) && Runes(piece) != []
    ensures Stops(s, piece, p + |Runes(piece)|, column)
  {
    hide Scan, Here, DocumentMark, LineRunes, LineMeans, MeaningOf, PieceOk, Means, Stops, Runes;
    var c := At(s, p);
    NotAtEnd(s, single, p, column, text);
    if IsBlank(c) || IsBreak(c) {
      piece := TakeGap(s, p);
      GapShape(single, piece);
      GapStops(s, single, p, column, text, piece);
      value := MeaningOf(piece);
    } else if !single && c == BACKSLASH {
      piece, value := TakeEscape(s, p, column, text);
      PieceBegins(single, piece);
    } else {
      piece, value := TakeRune(s, single, p, column);
    }
  }

  lemma GapShape(single: bool, piece: Piece)
    requires PieceOk(single, piece) && (piece.Space? || piece.Fold?)
    ensures IsGap(piece) && (piece.Fold? ==> piece.lines != [])
  {
  }

  /** A character of its own, or a doubled apostrophe. */
  lemma TakeRune(s: seq<rune>, single: bool, p: nat, column: nat) returns (piece: Piece, value: seq<rune>)
    requires !IsBlankZ(At(s, p)) && (single || At(s, p) != BACKSLASH)
    requires !(At(s, p) == Closing(single) && !(single && At(s, p + 1) == APOSTROPHE))
    ensures PieceOk(single, piece) && Means(piece, value) && Here(s, p, Runes(piece)) && Runes(piece) != []
    ensures Stops(s, piece, p + |Runes(piece)|, column)
  {
    var c := At(s, p);
    if single && c == APOSTROPHE {
      piece, value := Doubled, [APOSTROPHE];
      assert s[p..p + 2] == [APOSTROPHE, APOSTROPHE];
    } else {
      piece, value := Plain(c), [c];
    }
  }

  lemma NotAtEnd(s: seq<rune>, single: bool, p: nat, column: nat, text: seq<rune>)
    requires Scan(s, single, p, column, text, Word).Scanned?
    ensures At(s, p) != NUL
  {
  }

  /** One more piece in front. */
  lemma StandsCons(s: seq<rune>, single: bool, p: nat, column: nat, piece: Piece, v: seq<rune>, more: seq<Piece>,
                   w: seq<rune>)
    requires PieceOk(single, piece) && Here(s, p, Runes(piece)) && Stops(s, piece, p + |Runes(piece)|, column)
    requires Stands(s, single, p + |Runes(piece)|, ColumnBehind(piece, column), more)
    requires Means(piece, v) && AllMean(more, w)
    ensures Stands(s, single, p, column, [piece] + more) && AllMean([piece] + more, v + w)
    ensures AllRunes([piece] + more) == Runes(piece) + AllRunes(more)
  {
    hide PieceOk, Means, Runes, Stops, Here, ColumnBehind;
    var pieces, value := [piece] + more, v + w;
    assert pieces[0] == piece && pieces[1..] == more;
    assert value[..|v|] == v && value[|v|..] == w;
  }

  lemma {:induction false} WordUnderstood(s: seq<rune>, single: bool, p: nat, column: nat, text: seq<rune>)
    returns (pieces: seq<Piece>, value: seq<rune>)
    requires Scan(s, single, p, column, text, Word).Scanned?
    ensures Stands(s, single, p, column, pieces) && AllMean(pieces, value)
    ensures At(s, p + |AllRunes(pieces)|) == Closing(single)
    ensures single ==> At(s, p + |AllRunes(pieces)| + 1) != APOSTROPHE
    decreases |s| - p
  {
    hide Scan, PieceOk, Means, Runes, Stops, Here, ColumnBehind, Stands, AllMean;
    NotAtEnd(s, single, p, column, text);
    if At(s, p) == Closing(single) && !(single && At(s, p + 1) == APOSTROPHE) {
      pieces, value := [], [];
      NothingStands(s, single, p, column);
    } else {
      var piece, v := TakePiece(s, single, p, column, text);
      PieceRead(s, single, p, column, text, piece, v);
      var q := p + |Runes(piece)|;
      var more, w := WordUnderstood(s, single, q, ColumnBehind(piece, column), text + v);
      pieces, value := [piece] + more, v + w;
      StandsCons(s, single, p, column, piece, v, more, w);
    }
  }

  /** Whatever the scanner accepts is a text of pieces, and it has given their meaning. */
  lemma QuotedUnderstood(s: seq<rune>, single: bool, p: nat, column: nat)
    returns (pieces: seq<Piece>, value: seq<rune>)
    requires column >= 1 && Scan(s, single, p, column, [], Gap(NO_GAP)).Scanned?
    ensures Stands(s, single, p, column, pieces) && AllMean(pieces, value)
    ensures At(s, p + |AllRunes(pieces)|) == Closing(single)
    ensures single ==> At(s, p + |AllRunes(pieces)| + 1) != APOSTROPHE
    ensures Scan(s, single, p, column, [], Gap(NO_GAP))
      == Scanned(value, p + |AllRunes(pieces)| + 1, EndColumn(pieces, column) + 1)
  {
    hide Scan, IsDocumentIndicator, Stands, AllMean, AllRunes, EndColumn;
    if At(s, p) == NUL {
      EndFails(s, single, p, column, []);
      assert false;
    }
    GapIsWord(s, single, p, column, []);
    pieces, value := WordUnderstood(s, single, p, column, []);
    QuotedRead(s, single, p, column, pieces, value);
  }

  // ----- single-quoted values -------------------------------------------------------------------------------

  /** Every apostrophe twice. */
  function Doubling(v: seq<rune>): seq<rune> {
    if v == [] then [] else Doubled1(v[0]) + Doubling(v[1..])
  }

  function Doubled1(c: rune): seq<rune> { if c == APOSTROPHE then [c, c] else [c] }

  predicate OneLine(v: seq<rune>) { forall k :: 0 <= k < |v| ==> !IsBreak(v[k]) && v[k] != NUL }

  lemma {:induction false} DoublingConcat(a: seq<rune>, b: seq<rune>)
    ensures Doubling(a + b) == Doubling(a) + Doubling(b)
    decreases |a|
  {
    if a == [] {
      assert a + b == b;
    } else {
      DoublingConcat(a[1..], b);
      assert (a + b)[0] == a[0] && (a + b)[1..] == a[1..] + b;
      var head, x, y := Doubled1(a[0]), Doubling(a[1..]), Doubling(b);
      assert Doubling(a + b) == head + (x + y) && Doubling(a) == head + x;
      hide Doubling;
      assert head + (x + y) == head + x + y;
    }
  }

  lemma {:induction false} DoublingBlanks(a: seq<rune>)
    requires AllBlank(a)
    ensures Doubling(a) == a
    decreases |a|
  {
    if a != [] {
      DoublingBlanks(a[1..]);
      assert a == [a[0]] + a[1..];
    }
  }

  /** The pieces of a value in single quotes. */
  lemma {:induction false} SinglePieces(s: seq<rune>, p: nat, column: nat, v: seq<rune>) returns (pieces: seq<Piece>)
    requires OneLine(v) && Here(s, p, Doubling(v)) && column >= 1 && At(s, p + |Doubling(v)|) == APOSTROPHE
    ensures AllRunes(pieces) == Doubling(v) && AllMean(pieces, v)
    ensures Stands(s, true, p, column, pieces)
    decreases |v|
  {
    hide Here, Stands, AllMean, AllRunes, PieceOk, Means, Stops, Doubling, OneLine;
    if v == [] {
      pieces := [];
      NothingStands(s, true, p, column);
      NothingDoubled();
    } else {
      var piece, n := SinglePiece(s, p, column, v);
      var more := SinglePieces(s, p + |Runes(piece)|, column + |Runes(piece)|, v[n..]);
      pieces := [piece] + more;
      StandsCons(s, true, p, column, piece, v[..n], more, v[n..]);
      assert v == v[..n] + v[n..];
    }
  }

  lemma NothingDoubled()
    ensures Doubling([]) == []
  {
  }

  /** The first piece of a value in single quotes. */
  lemma SinglePiece(s: seq<rune>, p: nat, column: nat, v: seq<rune>) returns (piece: Piece, n: nat)
    requires v != [] && OneLine(v) && Here(s, p, Doubling(v)) && column >= 1 && At(s, p + |Doubling(v)|) == APOSTROPHE
    ensures 0 < n <= |v| && PieceOk(true, piece) && Means(piece, v[..n]) && Here(s, p, Runes(piece))
    ensures Stops(s, piece, p + |Runes(piece)|, column) && ColumnBehind(piece, column) == column + |Runes(piece)|
    ensures Doubling(v) == Runes(piece) + Doubling(v[n..]) && OneLine(v[n..])
    ensures Here(s, p + |Runes(piece)|, Doubling(v[n..]))
  {
    hide Here, DocumentMark, Doubling, IsBlank, OneLine, AllBlank, PieceOk;
    piece, n := FirstPiece(v);
    assert v == v[..n] + v[n..];
    DoublingConcat(v[..n], v[n..]);
    HereSplit(s, p, Runes(piece), Doubling(v[n..]));
    RestOneLine(v, n);
    SingleNext(s, p + |Runes(piece)|, v[n..]);
  }

  lemma RestOneLine(v: seq<rune>, n: nat)
    requires OneLine(v) && n <= |v|
    ensures OneLine(v[n..])
  {
  }

  lemma FirstPiece(v: seq<rune>) returns (piece: Piece, n: nat)
    requires v != [] && OneLine(v)
    ensures 0 < n <= |v| && PieceOk(true, piece) && Means(piece, v[..n]) && !piece.Fold? && !piece.Join?
    ensures Runes(piece) == Doubling(v[..n]) && (piece.Space? && n < |v| ==> !IsBlank(v[n]))
  {
    hide Doubling;
    if IsBlank(v[0]) {
      n := BlankRun(v);
      piece := Space(v[..n]);
      DoublingBlanks(v[..n]);
    } else {
      n := 1;
      piece := if v[0] == APOSTROPHE then Doubled else Plain(v[0]);
      assert v[..1] == [v[0]];
      DoublingOne(v[0]);
    }
  }

  lemma DoublingOne(c: rune)
    ensures Doubling([c]) == if c == APOSTROPHE then [c, c] else [c]
  {
    assert [c][1..] == [];
  }

  lemma {:induction false} BlankRun(v: seq<rune>) returns (n: nat)
    requires v != [] && IsBlank(v[0])
    ensures 0 < n <= |v| && AllBlank(v[..n]) && (n < |v| ==> !IsBlank(v[n]))
    decreases |v|
  {
    if |v| > 1 && IsBlank(v[1]) {
      n := BlankRun(v[1..]);
      n := n + 1;
      assert forall k :: 0 < k < n ==> v[..n][k] == v[1..][..n - 1][k - 1];
    } else {
      n := 1;
    }
  }

  lemma SingleNext(s: seq<rune>, q: nat, v: seq<rune>)
    requires OneLine(v) && Here(s, q, Doubling(v)) && At(s, q + |Doubling(v)|) == APOSTROPHE
    ensures (v == [] || !IsBlank(v[0])) ==> !IsBlankZ(At(s, q))
  {
    if v != [] {
      HereAt(s, q, Doubling(v), 0);
    }
  }

  /** A value without line breaks, in single quotes with its apostrophes doubled, is read back. */
  lemma SingleQuotedBack(s: seq<rune>, p: nat, column: nat, v: seq<rune>)
    requires OneLine(v) && column >= 1 && Here(s, p, Doubling(v) + [APOSTROPHE])
    requires At(s, p + |Doubling(v)| + 1) != APOSTROPHE
    ensures Gives(Scan(s, true, p, column, [], Gap(NO_GAP)), v, p + |Doubling(v)| + 1)
  {
    hide Scan, Stands, AllMean, Doubling;
    HereSplit(s, p, Doubling(v), [APOSTROPHE]);
    HereAt(s, p + |Doubling(v)|, [APOSTROPHE], 0);
    var pieces := SinglePieces(s, p, column, v);
    QuotedRead(s, true, p, column, pieces, v);
  }

  // ----- folding ----------------------------------------------------------------------------------------------

  /** n + 1 line feeds, with any blanks around them, mean n line feeds, or one space. */
  lemma {:induction false} FoldsTo(before: seq<rune>, lines: seq<Line>)
    requires lines != [] && AllBlank(before) && LinesOk(lines)
    requires forall k :: 0 <= k < |lines| ==> lines[k].brk in {CrLf, Lone(CR), Lone(LF), Lone(NEL)}
    ensures PieceOk(true, Fold(before, lines)) && PieceOk(false, Fold(before, lines))
    ensures Means(Fold(before, lines), if |lines| == 1 then [SPACE] else seq(|lines| - 1, _ => LF))
  {
    FeedsMean(lines[1..]);
  }

  lemma {:induction false} FeedsMean(lines: seq<Line>)
    requires forall k :: 0 <= k < |lines| ==> lines[k].brk in {CrLf, Lone(CR), Lone(LF), Lone(NEL)}
    ensures LineMeans(lines) == seq(|lines|, _ => LF)
    decreases |lines|
  {
    if lines != [] { FeedsMean(lines[1..]); }
  }

  predicate AllPlain(single: bool, w: seq<rune>) {
    forall k :: 0 <= k < |w| ==> !IsBlankZ(w[k]) && w[k] != Closing(single) && (single || w[k] != BACKSLASH)
  }

  function PlainPieces(w: seq<rune>): (r: seq<Piece>)
    ensures |r| == |w|
  {
    if w == [] then [] else [Plain(w[0])] + PlainPieces(w[1..])
  }

  /** A word in front of other pieces. */
  lemma {:induction false} WordStands(s: seq<rune>, single: bool, p: nat, column: nat, w: seq<rune>, more: seq<Piece>,
                                      value: seq<rune>)
    requires AllPlain(single, w) && Here(s, p, w) && Stands(s, single, p + |w|, column + |w|, more)
    requires AllMean(more, value)
    ensures Stands(s, single, p, column, PlainPieces(w) + more) && AllMean(PlainPieces(w) + more, w + value)
    ensures AllRunes(PlainPieces(w) + more) == w + AllRunes(more)
    decreases |w|
  {
    hide Here, Stands, AllMean, AllRunes;
    var pieces := PlainPieces(w) + more;
    if w == [] {
      assert pieces == more && w + value == value && w + AllRunes(more) == AllRunes(more);
    } else {
      var rest := PlainPieces(w[1..]) + more;
      assert w == [w[0]] + w[1..] && pieces == [Plain(w[0])] + rest;
      HereSplit(s, p, [w[0]], w[1..]);
      WordStands(s, single, p + 1, column + 1, w[1..], more, value);
      StandsCons(s, single, p, column, Plain(w[0]), [w[0]], rest, w[1..] + value);
      assert [w[0]] + (w[1..] + value) == w + value;
      assert [w[0]] + (w[1..] + AllRunes(more)) == w + AllRunes(more);
    }
  }

  /** No document indicator starts at a word that a quote ends. */
  lemma NoIndicator(s: seq<rune>, single: bool, q: nat, w: seq<rune>)
    requires AllPlain(single, w) && Here(s, q, w) && At(s, q + |w|) == Closing(single)
    ensures !IsBlankZ(At(s, q)) && !DocumentMark(s, q)
  {
    if w != [] { HereAt(s, q, w, 0); }
    if |w| > 1 { HereAt(s, q, w, 1); }
    if |w| > 2 { HereAt(s, q, w, 2); }
    if |w| > 3 { HereAt(s, q, w, 3); }
  }

  /** Two words in either style with n + 1 line breaks between them, and any blanks around these, read as the words with
      n line feeds between them, or with one space. */
  lemma FoldBetween(s: seq<rune>, single: bool, p: nat, column: nat, a: seq<rune>, before: seq<rune>, lines: seq<Line>,
                    b: seq<rune>)
    requires column >= 1 && AllPlain(single, a) && AllPlain(single, b) && lines != [] && AllBlank(before)
    requires LinesOk(lines) && Here(s, p, a + (before + LineRunes(lines)) + b + [Closing(single)])
    requires forall k :: 0 <= k < |lines| ==> lines[k].brk in {CrLf, Lone(CR), Lone(LF), Lone(NEL)}
    requires single ==> At(s, p + |a| + |before + LineRunes(lines)| + |b| + 1) != APOSTROPHE
    ensures Gives(Scan(s, single, p, column, [], Gap(NO_GAP)),
                  a + (if |lines| == 1 then [SPACE] else seq(|lines| - 1, _ => LF)) + b,
                  p + |a| + |before + LineRunes(lines)| + |b| + 1)
  {
    hide Scan, Here, LineRunes, LinesOk, AllBlank, AllPlain, Stands, AllMean, AllRunes, EndColumn;
    var gap, close := before + LineRunes(lines), [Closing(single)];
    var value := if |lines| == 1 then [SPACE] else seq(|lines| - 1, _ => LF);
    HereSplit(s, p, a + gap + b, close);
    HereSplit(s, p, a + gap, b);
    HereSplit(s, p, a, gap);
    var q := p + |a| + |gap|;
    HereAt(s, q + |b|, close, 0);
    var right := GapThenWord(s, single, p + |a|, column + |a|, before, lines, b);
    WordStands(s, single, p, column, a, right, value + b);
    QuotedRead(s, single, p, column, PlainPieces(a) + right, a + (value + b));
    assert a + (value + b) == a + value + b;
  }

  lemma GapThenWord(s: seq<rune>, single: bool, p: nat, column: nat, before: seq<rune>, lines: seq<Line>, b: seq<rune>)
    returns (pieces: seq<Piece>)
    requires AllPlain(single, b) && lines != [] && AllBlank(before) && LinesOk(lines)
    requires Here(s, p, before + LineRunes(lines)) && Here(s, p + |before + LineRunes(lines)|, b)
    requires At(s, p + |before + LineRunes(lines)| + |b|) == Closing(single)
    requires forall k :: 0 <= k < |lines| ==> lines[k].brk in {CrLf, Lone(CR), Lone(LF), Lone(NEL)}
    ensures Stands(s, single, p, column, pieces) && AllRunes(pieces) == before + LineRunes(lines) + b
    ensures AllMean(pieces, (if |lines| == 1 then [SPACE] else seq(|lines| - 1, _ => LF)) + b)
  {
    hide Here, LineRunes, LinesOk, AllBlank, AllPlain, Means, PieceOk, DocumentMark;
    var fold, value := Fold(before, lines), if |lines| == 1 then [SPACE] else seq(|lines| - 1, _ => LF);
    FoldsTo(before, lines);
    var q, column' := p + |Runes(fold)|, ColumnBehind(fold, column);
    NoIndicator(s, single, q, b);
    NothingStands(s, single, q + |b|, column' + |b|);
    WordStands(s, single, q, column', b, [], []);
    var word := PlainPieces(b) + [];
    assert b + [] == b;
    pieces := [fold] + word;
    StandsCons(s, single, p, column, fold, value, word, b);
  }

  lemma NothingStands(s: seq<rune>, single: bool, p: nat, column: nat)
    ensures Stands(s, single, p, column, []) && AllMean([], []) && AllRunes([]) == []
  {
  }
}
