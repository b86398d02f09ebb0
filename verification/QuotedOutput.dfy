/**
 What a double-quoted scalar may contain: only characters that the reader lets through, ASCII ones if the emitter is not
 to write Unicode, and line breaks only if they are allowed.
 */
module QuotedOutput {
  import opened YamlChars
  import opened QuotedWriter
  import Encoding

  predicate Fine(style: Style, c: rune) {
    !Encoding.IsRefused(c) && (style.unicode || c <= 0x7F) && (IsBreak(c) ==> style.allowBreaks && c in {CR, LF})
  }

  ghost predicate AllFine(style: Style, s: seq<rune>) { forall k :: 0 <= k < |s| ==> Fine(style, s[k]) }

  lemma FineConcat(style: Style, a: seq<rune>, b: seq<rune>)
    requires AllFine(style, a) && AllFine(style, b)
    ensures AllFine(style, a + b)
  {
  }

  lemma {:induction false} FineHex(style: Style, value: nat, width: nat)
    ensures AllFine(style, Hex(value, width))
    decreases width
  {
    if width > 0 {
      FineHex(style, value / 16, width - 1);
    }
  }

  lemma FineEscape(style: Style, c: rune)
    ensures AllFine(style, Escape(c))
  {
    hide Hex;
    FineHex(style, c, 2);
    FineHex(style, c, 4);
    FineHex(style, c, 8);
  }

  lemma FineChunk(style: Style, pen: Pen, v: seq<rune>, i: nat)
    requires i < |v|
    ensures AllFine(style, Chunk(style, pen, v, i).0)
  {
    hide Escape;
    if MustEscape(v[i], style.unicode) { FineEscape(style, v[i]); }
  }

  lemma {:induction false} WrittenFine(style: Style, pen: Pen, v: seq<rune>, i: nat)
    requires i <= |v|
    ensures AllFine(style, Written(style, pen, v, i).0)
    decreases i
  {
    hide Chunk, AllFine;
    if i > 0 {
      WrittenFine(style, pen, v, i - 1);
      var (out, pen') := Written(style, pen, v, i - 1);
      FineChunk(style, pen', v, i - 1);
      FineConcat(style, out, Chunk(style, pen', v, i - 1).0);
    } else {
      NothingFine(style);
    }
  }

  lemma NothingFine(style: Style)
    ensures AllFine(style, [])
  {
  }
}
