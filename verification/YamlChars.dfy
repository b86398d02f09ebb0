/**
 Characters of libyaml as Unicode scalar values. The tests are those of yaml_private.h, read on characters instead of
 their UTF-8 octets.
 */
module YamlChars {
  type rune = c: nat | c < 0x11_0000 && !(0xD800 <= c < 0xE000)

  const NUL: rune := 0
  const TAB: rune := 0x09
  const LF: rune := 0x0A
  const CR: rune := 0x0D
  const SPACE: rune := 0x20
  const QUOTE: rune := 0x22
  const APOSTROPHE: rune := 0x27
  const DASH: rune := 0x2D
  const PERIOD: rune := 0x2E
  const BACKSLASH: rune := 0x5C
  const NEL: rune := 0x85
  const LS: rune := 0x2028
  const PS: rune := 0x2029
  const BOM: rune := 0xFEFF

  predicate IsPrintable(c: rune) {
    || c == LF || 0x20 <= c <= 0x7E || 0xA0 <= c <= 0xD7FF
    || (0xE000 <= c <= 0xFFFD && c != BOM)
  }

  predicate IsBreak(c: rune) { c == CR || c == LF || c == NEL || c == LS || c == PS }

  predicate IsBlank(c: rune) { c == SPACE || c == TAB }

  predicate IsBlankZ(c: rune) { IsBlank(c) || IsBreak(c) || c == NUL }

  /** The character at `p`; the reader puts a NUL behind the last one. */
  function At(s: seq<rune>, p: nat): rune { if p < |s| then s[p] else NUL }

  // ----- hexadecimal escapes -----------------------------------------------------------------

  function HexDigit(d: nat): rune
    requires d < 16
  {
    if d < 10 then 0x30 + d else 0x41 + d - 10
  }

  predicate IsHex(c: rune) { 0x30 <= c <= 0x39 || 0x41 <= c <= 0x46 || 0x61 <= c <= 0x66 }

  function HexValue(c: rune): nat
    requires IsHex(c)
  {
    if 0x41 <= c <= 0x46 then c - 0x41 + 10 else if 0x61 <= c <= 0x66 then c - 0x61 + 10 else c - 0x30
  }

  /** `width` digits, most significant first. */
  function Hex(value: nat, width: nat): (h: seq<rune>)
    ensures |h| == width
  {
    if width == 0 then [] else Hex(value / 16, width - 1) + [HexDigit(value % 16)]
  }

  predicate AllHex(s: seq<rune>) { forall i :: 0 <= i < |s| ==> IsHex(s[i]) }

  function Unhex(s: seq<rune>): nat
    requires AllHex(s)
  {
    if s == [] then 0 else 16 * Unhex(s[..|s| - 1]) + HexValue(s[|s| - 1])
  }

  function Pow16(k: nat): nat { if k == 0 then 1 else 16 * Pow16(k - 1) }

  lemma {:induction false} HexBack(value: nat, width: nat)
    requires value < Pow16(width)
    ensures AllHex(Hex(value, width)) && Unhex(Hex(value, width)) == value
    decreases width
  {
    if width > 0 {
      HexBack(value / 16, width - 1);
      var h := Hex(value, width);
      assert h[..width - 1] == Hex(value / 16, width - 1);
    }
  }
}
