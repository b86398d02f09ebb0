/**
 The quoted-scalar scanner of scanner.c as a machine over the decoded input.
 */
module QuotedScanner {
  import opened YamlChars

  datatype Error = DocumentIndicator | EndOfStream | UnknownEscape | NotHexadecimal | InvalidCode

  datatype Outcome = Scanned(value: seq<rune>, end: nat, column: nat) | Failed(error: Error)

  /** Inside a word, or between words with the blanks and line breaks gathered so far. */
  datatype Phase = Word | Gap(gap: Gap)

  datatype Gap = Blanks(whitespaces: seq<rune>, leadingBreak: seq<rune>, trailingBreaks: seq<rune>, leadingBlanks: bool)

  const NO_GAP := Blanks([], [], [], false)

  predicate IsDocumentIndicator(s: seq<rune>, p: nat) {
    && ((At(s, p) == DASH && At(s, p + 1) == DASH && At(s, p + 2) == DASH)
        || (At(s, p) == PERIOD && At(s, p + 1) == PERIOD && At(s, p + 2) == PERIOD))
    && IsBlankZ(At(s, p + 3))
  }

  function Closing(single: bool): rune { if single then APOSTROPHE else QUOTE }

  // ----- escapes ------------------------------------------------------------------------------------

  datatype EscapeResult = Escaped(value: rune, len: nat) | Bad(error: Error)

  /** The character behind a one-letter escape. */
  function ShortValue(c: rune): (r: int) {
    if c == 0x30 then 0x00                       // 0
    else if c == 0x61 then 0x07                  // a
    else if c == 0x62 then 0x08                  // b
    else if c == 0x74 || c == TAB then 0x09      // t
    else if c == 0x6E then 0x0A                  // n
    else if c == 0x76 then 0x0B                  // v
    else if c == 0x66 then 0x0C                  // f
    else if c == 0x72 then 0x0D                  // r
    else if c == 0x65 then 0x1B                  // e
    else if c == SPACE then 0x20
    else if c == QUOTE then 0x22
    else if c == 0x2F then 0x2F                  // slash
    else if c == BACKSLASH then 0x5C
    else if c == 0x4E then 0x85                  // N
    else if c == 0x5F then 0xA0                  // _
    else if c == 0x4C then 0x2028                // L
    else if c == 0x50 then 0x2029                // P
    else -1
  }

  /** The number of hexadecimal digits after x, u and U. */
  function CodeLength(c: rune): nat {
    if c == 0x78 then 2 else if c == 0x75 then 4 else if c == 0x55 then 8 else 0
  }

  /** The escape sequence whose backslash is at `p`. */
  function EscapeAt(s: seq<rune>, p: nat): (r: EscapeResult)
    requires At(s, p) == BACKSLASH
    ensures r.Escaped? ==> r.len >= 2 && p + r.len <= |s|
  {
    var c := At(s, p + 1);
    if ShortValue(c) >= 0 then Escaped(ShortValue(c), 2)
    else if CodeLength(c) == 0 then Bad(UnknownEscape)
    else
      var n := CodeLength(c);
      if p + 2 + n > |s| || !AllHex(s[p + 2..p + 2 + n]) then Bad(NotHexadecimal)
      else
        var value := Unhex(s[p + 2..p + 2 + n]);
        if 0xD800 <= value <= 0xDFFF || value > 0x10FFFF then Bad(InvalidCode) else Escaped(value, 2 + n)
  }

  // ----- gaps -----------------------------------------------------------------------------------------

  function BreakWidth(s: seq<rune>, p: nat): nat { if At(s, p) == CR && At(s, p + 1) == LF then 2 else 1 }

  /** READ_LINE: every line break but LS and PS becomes LF. */
  function BreakRead(c: rune): rune { if c == LS || c == PS then c else LF }

  /** Take one blank or line break at `p` into the gap. */
  function GapStep(s: seq<rune>, p: nat, column: nat, g: Gap): (r: (nat, nat, Gap))
    requires IsBlank(At(s, p)) || IsBreak(At(s, p))
    ensures p < r.0 <= |s|
  {
    var c := At(s, p);
    if IsBlank(c) then (p + 1, column + 1, if g.leadingBlanks then g else g.(whitespaces := g.whitespaces + [c]))
    else if !g.leadingBlanks then
      (p + BreakWidth(s, p), 0, Blanks([], g.leadingBreak + [BreakRead(c)], g.trailingBreaks, true))
    else (p + BreakWidth(s, p), 0, g.(trailingBreaks := g.trailingBreaks + [BreakRead(c)]))
  }

  /** Join the whitespaces or fold the line breaks. */
  function Joined(g: Gap): seq<rune> {
    if !g.leadingBlanks then g.whitespaces
    else if g.leadingBreak != [] && g.leadingBreak[0] == LF then (if g.trailingBreaks == [] then [SPACE]
                                                                  else g.trailingBreaks)
    else g.leadingBreak + g.trailingBreaks
  }

  // ----- the machine ----------------------------------------------------------------------------------

  /** From `p` on, with `text` read so far. */
  function Scan(s: seq<rune>, single: bool, p: nat, column: nat, text: seq<rune>, phase: Phase): Outcome
    decreases |s| - p, if phase.Word? then 0 else 1
  {
    var c := At(s, p);
    match phase
    case Word =>
      if c == NUL then Failed(EndOfStream)
      else if IsBlankZ(c) then
        var (p', column', g) := GapStep(s, p, column, NO_GAP);
        Scan(s, single, p', column', text, Gap(g))
      else if single && c == APOSTROPHE && At(s, p + 1) == APOSTROPHE then
        Scan(s, single, p + 2, column + 2, text + [APOSTROPHE], Word)
      else if c == Closing(single) then Scanned(text, p + 1, column + 1)
      else if !single && c == BACKSLASH && IsBreak(At(s, p + 1)) then
        var p' := p + 1 + BreakWidth(s, p + 1);
        if At(s, p') == QUOTE then Scanned(text, p' + 1, 1)
        else Scan(s, single, p', 0, text, Gap(Blanks([], [], [], true)))
      else if !single && c == BACKSLASH then
        match EscapeAt(s, p)
        case Bad(e) => Failed(e)
        case Escaped(value, len) => Scan(s, single, p + len, column + len, text + [value], Word)
      else Scan(s, single, p + 1, column + 1, text + [c], Word)
    case Gap(g) =>
      if IsBlank(c) || IsBreak(c) then
        var (p', column', g') := GapStep(s, p, column, g);
        Scan(s, single, p', column', text, Gap(g'))
      else if column == 0 && IsDocumentIndicator(s, p) then Failed(DocumentIndicator)
      else if c == NUL then Failed(EndOfStream)
      else Scan(s, single, p, column, text + Joined(g), Word)
  }

  // ----- from phase to phase ---------------------------------------------------------------------------

  lemma IndicatorFails(s: seq<rune>, single: bool, p: nat, text: seq<rune>)
    requires IsDocumentIndicator(s, p)
    ensures Scan(s, single, p, 0, text, Gap(NO_GAP)) == Failed(DocumentIndicator)
  {
  }

  lemma EndFails(s: seq<rune>, single: bool, p: nat, column: nat, text: seq<rune>)
    requires At(s, p) == NUL && !(column == 0 && IsDocumentIndicator(s, p))
    ensures Scan(s, single, p, column, text, Gap(NO_GAP)) == Failed(EndOfStream)
  {
  }

  lemma GapIsWord(s: seq<rune>, single: bool, p: nat, column: nat, text: seq<rune>)
    requires At(s, p) != NUL && !(column == 0 && IsDocumentIndicator(s, p))
    ensures Scan(s, single, p, column, text, Gap(NO_GAP)) == Scan(s, single, p, column, text, Word)
  {
    assert text + Joined(NO_GAP) == text;
  }

  lemma WordIsGap(s: seq<rune>, single: bool, p: nat, column: nat, text: seq<rune>)
    requires IsBlankZ(At(s, p))
    ensures Scan(s, single, p, column, text, Word) == Scan(s, single, p, column, text, Gap(NO_GAP))
  {
  }

  /** A closing apostrophe that is not followed by a second one, or a closing quote. */
  lemma WordEnds(s: seq<rune>, single: bool, p: nat, column: nat, text: seq<rune>)
    requires At(s, p) == Closing(single) && !(single && At(s, p + 1) == APOSTROPHE)
    ensures Scan(s, single, p, column, text, Word) == Scanned(text, p + 1, column + 1)
  {
  }

  lemma JoinGap(s: seq<rune>, single: bool, p: nat, column: nat, text: seq<rune>, g: Gap)
    requires !IsBlank(At(s, p)) && !IsBreak(At(s, p))
    ensures Scan(s, single, p, column, text, Gap(g)) == Scan(s, single, p, column, text + Joined(g), Gap(NO_GAP))
  {
    assert text + Joined(g) + Joined(NO_GAP) == text + Joined(g);
  }
}
