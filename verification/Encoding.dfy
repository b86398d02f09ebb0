/**
 Characters in UTF-8 (section 3 of RFC 3629) and UTF-16 (section 2.2 of RFC 2781), as reader.c decodes them. Bit fields
 are written as arithmetic on octets.
 */
module Encoding {
  import opened Bytes
  import opened YamlChars

  datatype Encoding = Utf8 | Utf16LE | Utf16BE

  /** One character, too few octets to tell, or an error. */
  datatype Decoded = Char(value: rune, width: nat) | Incomplete | Invalid

  predicate IsAllowed(c: rune) {
    || c == 0x09 || c == 0x0A || c == 0x0D || 0x20 <= c <= 0x7E || c == 0x85 || 0xA0 <= c <= 0xD7FF
    || 0xE000 <= c <= 0xFFFD || 0x1_0000 <= c <= 0x10_FFFF
  }

  // ----- UTF-8 ---------------------------------------------------------------------------------------

  function Width8(octet: byte): nat {
    if octet < 0x80 then 1
    else if 0xC0 <= octet < 0xE0 then 2
    else if 0xE0 <= octet < 0xF0 then 3
    else if 0xF0 <= octet < 0xF8 then 4
    else 0
  }

  predicate IsTrail(octet: byte) { 0x80 <= octet < 0xC0 }

  /** The payload of a leading octet, and of a trailing one added below it. */
  function Lead8(octet: byte): int {
    if octet < 0x80 then octet else if octet < 0xE0 then octet - 0xC0 else if octet < 0xF0 then octet - 0xE0
      else octet - 0xF0
  }

  function Below(value: int, octet: byte): int { 0x40 * value + (octet - 0x80) }

  /** The value of a sequence of at most four octets. */
  function Value8(s: Octets): int
    requires 1 <= |s| <= 4
  {
    var v := Lead8(s[0]);
    if |s| == 1 then v
    else if |s| == 2 then Below(v, s[1])
    else if |s| == 3 then Below(Below(v, s[1]), s[2])
    else Below(Below(Below(v, s[1]), s[2]), s[3])
  }

  /** The least value that needs so many octets. */
  function Least8(width: nat): nat {
    if width == 2 then 0x80 else if width == 3 then 0x800 else if width == 4 then 0x1_0000 else 0
  }

  function Decode8(s: Octets): Decoded
    requires s != []
  {
    var w := Width8(s[0]);
    if w == 0 then Invalid
    else if w > |s| then Incomplete
    else if exists k :: 1 <= k < w && !IsTrail(s[k]) then Invalid
    else
      var v := Value8(s[..w]);
      if v < Least8(w) || 0xD800 <= v < 0xE000 || v > 0x10_FFFF then Invalid else Char(v, w)
  }

  function Encode8(c: rune): (e: Octets)
    ensures 1 <= |e| <= 4
  {
    if c <= 0x7F then [c]
    else if c <= 0x7FF then [0xC0 + c / 0x40, 0x80 + c % 0x40]
    else if c <= 0xFFFF then [0xE0 + c / 0x1000, 0x80 + c / 0x40 % 0x40, 0x80 + c % 0x40]
    else [0xF0 + c / 0x4_0000, 0x80 + c / 0x1000 % 0x40, 0x80 + c / 0x40 % 0x40, 0x80 + c % 0x40]
  }

  lemma Split(c: nat)
    ensures 0x40 * (c / 0x40) + c % 0x40 == c
    ensures c / 0x1000 == c / 0x40 / 0x40 && c / 0x4_0000 == c / 0x40 / 0x40 / 0x40
  {
  }

  lemma ValueEncode(c: rune)
    ensures var e := Encode8(c); Width8(e[0]) == |e| && Value8(e) == c && forall k :: 1 <= k < |e| ==> IsTrail(e[k])
  {
    Split(c);
    Split(c / 0x40);
    Split(c / 0x40 / 0x40);
  }

  /** Every character is read back from its encoding. */
  lemma Decode8Encode(c: rune, t: Octets)
    ensures Decode8(Encode8(c) + t) == Char(c, |Encode8(c)|)
  {
    ValueEncode(c);
    var e := Encode8(c);
    var s := e + t;
    assert s[..|e|] == e && s[0] == e[0];
    assert |e| == (if c <= 0x7F then 1 else if c <= 0x7FF then 2 else if c <= 0xFFFF then 3 else 4);
    hide Encode8, Value8;
    assert forall k :: 1 <= k < |e| ==> s[k] == e[k];
  }

  lemma Join(v: int, octet: byte)
    requires IsTrail(octet) && v >= 0
    ensures Below(v, octet) / 0x40 == v && 0x80 + Below(v, octet) % 0x40 == octet && Below(v, octet) >= 0
  {
  }

  /** Only encodings of characters are accepted. */
  lemma Encode8Decode(s: Octets)
    requires s != [] && Decode8(s).Char?
    ensures var d := Decode8(s); d.width <= |s| && s[..d.width] == Encode8(d.value)
  {
    var d := Decode8(s);
    var w, x := d.width, s[..d.width];
    assert forall k :: 1 <= k < w ==> IsTrail(s[k]);
    assert Value8(x) == d.value && w == Width8(x[0]) && d.value >= Least8(w);
    EncodeValue(x);
  }

  lemma EncodeValue(x: Octets)
    requires 1 <= |x| <= 4 && |x| == Width8(x[0]) && forall k :: 1 <= k < |x| ==> IsTrail(x[k])
    requires Least8(|x|) <= Value8(x) <= 0x10_FFFF && !(0xD800 <= Value8(x) < 0xE000)
    ensures x == Encode8(Value8(x))
  {
    var v0 := Lead8(x[0]);
    if |x| == 2 {
      Join(v0, x[1]);
    } else if |x| == 3 {
      var v1 := Below(v0, x[1]);
      Join(v0, x[1]);
      Join(v1, x[2]);
      Split(Below(v1, x[2]));
    } else if |x| == 4 {
      var v1 := Below(v0, x[1]);
      var v2 := Below(v1, x[2]);
      Join(v0, x[1]);
      Join(v1, x[2]);
      Join(v2, x[3]);
      Split(Below(v2, x[3]));
    }
  }

  // ----- the tests of yaml_private.h on octets ------------------------------------------------------------

  predicate IsPrintableAt(s: Octets)
    requires |s| >= 1 && |s| >= Width8(s[0])
  {
    || s[0] == 0x0A || 0x20 <= s[0] <= 0x7E
    || (s[0] == 0xC2 && s[1] >= 0xA0) || 0xC2 < s[0] < 0xED || (s[0] == 0xED && s[1] < 0xA0) || s[0] == 0xEE
    || (s[0] == 0xEF && !(s[1] == 0xBB && s[2] == 0xBF) && !(s[1] == 0xBF && (s[2] == 0xBE || s[2] == 0xBF)))
  }

  predicate IsBreakAt(s: Octets)
    requires |s| >= 1 && |s| >= Width8(s[0])
  {
    || s[0] == 0x0D || s[0] == 0x0A || (s[0] == 0xC2 && s[1] == 0x85)
    || (s[0] == 0xE2 && s[1] == 0x80 && (s[2] == 0xA8 || s[2] == 0xA9))
  }

  predicate IsBomAt(s: Octets)
    requires |s| >= 1 && |s| >= Width8(s[0])
  {
    s[0] == 0xEF && s[1] == 0xBB && s[2] == 0xBF
  }

  ghost predicate Agree(e: Octets, c: rune) {
    && |e| >= 1 && |e| == Width8(e[0])
    && (IsPrintableAt(e) <==> IsPrintable(c)) && (IsBreakAt(e) <==> IsBreak(c)) && (IsBomAt(e) <==> c == BOM)
    && (e[0] <= 0x7F <==> c <= 0x7F)
  }

  lemma AgreeOne(c: rune)
    requires c <= 0x7F
    ensures Agree([c], c)
  {
  }

  lemma AgreeFour(c: rune)
    requires c > 0xFFFF
    ensures Agree(Encode8(c), c)
  {
    ValueEncode(c);
  }

  lemma AgreeTwo(c: rune, a: nat, b: nat)
    requires c == 0x40 * a + b && b < 0x40 && 0x80 <= c <= 0x7FF
    ensures a < 0x20 && Agree([0xC0 + a, 0x80 + b], c)
  {
  }

  lemma AgreeThree(c: rune, a: nat, b: nat, d: nat)
    requires c == 0x1000 * a + 0x40 * b + d && b < 0x40 && d < 0x40 && 0x800 <= c <= 0xFFFF
    ensures a < 0x10 && Agree([0xE0 + a, 0x80 + b, 0x80 + d], c)
  {
  }

  /** On the encoding of a character the tests say what they say of the character itself. */
  lemma TestsAgree(c: rune)
    ensures Agree(Encode8(c), c)
  {
    hide Agree;
    Split(c);
    Split(c / 0x40);
    if c <= 0x7F {
      AgreeOne(c);
    } else if c <= 0x7FF {
      AgreeTwo(c, c / 0x40, c % 0x40);
    } else if c <= 0xFFFF {
      AgreeThree(c, c / 0x1000, c / 0x40 % 0x40, c % 0x40);
    } else {
      AgreeFour(c);
    }
  }

  // ----- UTF-16 -----------------------------------------------------------------------------------------

  function Unit(s: Octets, i: nat, little: bool): nat
    requires i + 1 < |s|
  {
    if little then s[i] + 0x100 * (s[i + 1] as int) else 0x100 * (s[i] as int) + s[i + 1]
  }

  function Decode16(s: Octets, little: bool): Decoded {
    if |s| < 2 then Incomplete
    else
      var v := Unit(s, 0, little);
      if 0xDC00 <= v < 0xE000 then Invalid
      else if 0xD800 <= v < 0xDC00 then
        if |s| < 4 then Incomplete
        else
          var v2 := Unit(s, 2, little);
          if 0xDC00 <= v2 < 0xE000 then Char(0x1_0000 + 0x400 * (v - 0xD800) + (v2 - 0xDC00), 4) else Invalid
      else Char(v, 2)
  }

  /** Section 2.1 of RFC 2781. */
  function Encode16(c: rune, little: bool): (e: Octets)
    ensures |e| == if c < 0x1_0000 then 2 else 4
  {
    if c < 0x1_0000 then UnitOctets(c, little)
    else UnitOctets(0xD800 + (c - 0x1_0000) / 0x400, little) + UnitOctets(0xDC00 + (c - 0x1_0000) % 0x400, little)
  }

  function UnitOctets(u: nat, little: bool): (e: Octets)
    requires u < 0x1_0000
    ensures |e| == 2
  {
    if little then [u % 0x100, u / 0x100] else [u / 0x100, u % 0x100]
  }

  lemma UnitBack(u: nat, little: bool)
    requires u < 0x1_0000
    ensures Unit(UnitOctets(u, little), 0, little) == u
  {
  }

  lemma UnitForth(s: Octets, i: nat, little: bool)
    requires i + 1 < |s|
    ensures Unit(s, i, little) < 0x1_0000 && UnitOctets(Unit(s, i, little), little) == s[i..i + 2]
  {
  }

  /** Every character is read back from its encoding. */
  lemma Decode16Encode(c: rune, t: Octets, little: bool)
    ensures Decode16(Encode16(c, little) + t, little) == Char(c, |Encode16(c, little)|)
  {
    hide UnitOctets;
    var e := Encode16(c, little);
    var s := e + t;
    if c < 0x1_0000 {
      UnitBack(c, little);
      assert Unit(s, 0, little) == Unit(e, 0, little);
    } else {
      var d := c - 0x1_0000;
      var h, l := 0xD800 + d / 0x400, 0xDC00 + d % 0x400;
      UnitBack(h, little);
      UnitBack(l, little);
      assert Unit(s, 0, little) == Unit(UnitOctets(h, little), 0, little);
      assert Unit(s, 2, little) == Unit(UnitOctets(l, little), 0, little);
    }
  }

  /** Only encodings of characters are accepted. */
  lemma Encode16Decode(s: Octets, little: bool)
    requires Decode16(s, little).Char?
    ensures var d := Decode16(s, little); d.width <= |s| && s[..d.width] == Encode16(d.value, little)
  {
    hide UnitOctets;
    UnitForth(s, 0, little);
    if |s| >= 4 {
      UnitForth(s, 2, little);
      assert s[..4] == s[0..2] + s[2..4];
    }
  }

  // ----- streams ----------------------------------------------------------------------------------------

  /** The next character of the stream, which must be an allowed one. */
  function DecodeOne(enc: Encoding, s: Octets): Decoded
    requires s != []
  {
    var d := if enc.Utf8? then Decode8(s) else Decode16(s, enc.Utf16LE?);
    if d.Char? && !IsAllowed(d.value) then Invalid else d
  }

  lemma Decode8Stable(s: Octets, t: Octets)
    requires s != [] && !Decode8(s).Incomplete?
    ensures Decode8(s + t) == Decode8(s)
  {
    var w := Width8(s[0]);
    assert (s + t)[..w] == s[..w];
    assert forall k :: 0 <= k < |s| ==> (s + t)[k] == s[k];
  }

  /** A decision does not depend on what comes later; a character is at most three octets in UTF-8 for every two
      octets read; and three octets at most are left undecided. */
  lemma DecodeStable(enc: Encoding, s: Octets, t: Octets)
    requires s != []
    ensures !DecodeOne(enc, s).Incomplete? ==> DecodeOne(enc, s + t) == DecodeOne(enc, s)
    ensures DecodeOne(enc, s).Incomplete? ==> |s| <= 3
    ensures var d := DecodeOne(enc, s); d.Char? ==>
      1 <= d.width <= |s| && 2 * |Encode8(d.value)| <= 3 * d.width
      && d.value != NUL
  {
    hide Value8, Encode8;
    if enc.Utf8? {
      if !Decode8(s).Incomplete? { Decode8Stable(s, t); }
      if Decode8(s).Char? { Encode8Decode(s); }
    } else if Decode16(s, enc.Utf16LE?).Char? {
      EncodeLength(Decode16(s, enc.Utf16LE?).value);
    }
  }

  lemma EncodeLength(c: rune)
    ensures |Encode8(c)| <= 4 && (c <= 0xFFFF ==> |Encode8(c)| <= 3)
  {
  }

  /** All characters of a stream up to its end or its first error. */
  function DecodeAll(enc: Encoding, s: Octets): (seq<rune>, bool)
    decreases |s|
  {
    if s == [] then ([], true)
    else
      DecodeStable(enc, s, []);
      match DecodeOne(enc, s)
      case Char(v, w) => var (cs, ok) := DecodeAll(enc, s[w..]); ([v] + cs, ok)
      case Incomplete => ([], false)
      case Invalid => ([], false)
  }

  function Encode8All(cs: seq<rune>): Octets { if cs == [] then [] else Encode8(cs[0]) + Encode8All(cs[1..]) }

  lemma {:induction false} Encode8Concat(a: seq<rune>, b: seq<rune>)
    ensures Encode8All(a + b) == Encode8All(a) + Encode8All(b)
  {
    hide Encode8;
    if a == [] {
      assert a + b == b;
    } else {
      Encode8Concat(a[1..], b);
      var c := a + b;
      assert c[0] == a[0] && c[1..] == a[1..] + b;
      var e, x, y := Encode8(a[0]), Encode8All(a[1..]), Encode8All(b);
      assert Encode8All(c) == e + (x + y);
      assert Encode8All(a) == e + x;
      hide Encode8All;
      Associative(e, x, y);
    }
  }

  lemma {:induction false} Encode8Size(a: seq<rune>)
    ensures |Encode8All(a)| <= 4 * |a|
  {
    if a != [] { Encode8Size(a[1..]); }
  }

  function EncodeOne(enc: Encoding, c: rune): (e: Octets)
    ensures e != []
  {
    if enc.Utf8? then Encode8(c) else Encode16(c, enc.Utf16LE?)
  }

  function EncodeAll(enc: Encoding, cs: seq<rune>): Octets {
    if cs == [] then [] else EncodeOne(enc, cs[0]) + EncodeAll(enc, cs[1..])
  }

  /** Not allowed are control characters other than TAB, LF, CR and NEL, and the last two of the basic plane. */
  predicate IsRefused(c: rune) {
    || (c < 0x20 && c !in {0x09, 0x0A, 0x0D}) || (0x7F <= c < 0xA0 && c != 0x85) || c == 0xFFFE || c == 0xFFFF
  }

  lemma OneBack(enc: Encoding, c: rune, t: Octets)
    ensures DecodeOne(enc, EncodeOne(enc, c) + t) == if IsRefused(c) then Invalid else Char(c, |EncodeOne(enc, c)|)
  {
    hide Encode8, Encode16, Decode8, Decode16;
    if enc.Utf8? { Decode8Encode(c, t); } else { Decode16Encode(c, t, enc.Utf16LE?); }
  }

  /** The characters before the first refused one. */
  function Allowed(cs: seq<rune>): seq<rune> {
    if cs == [] || IsRefused(cs[0]) then [] else [cs[0]] + Allowed(cs[1..])
  }

  /** A stream in any of the encodings is read back up to its first refused character. */
  lemma {:induction false} StreamBack(enc: Encoding, cs: seq<rune>)
    ensures DecodeAll(enc, EncodeAll(enc, cs)) == (Allowed(cs), Allowed(cs) == cs)
    decreases |cs|
  {
    hide DecodeOne, EncodeOne, IsRefused;
    if cs != [] {
      var e, t := EncodeOne(enc, cs[0]), EncodeAll(enc, cs[1..]);
      OneBack(enc, cs[0], t);
      StreamBack(enc, cs[1..]);
      assert (e + t)[|e|..] == t;
      assert cs == [cs[0]] + cs[1..];
    }
  }

  /** A byte order mark is the character U+FEFF in the encoding of the stream; without one it is UTF-8. */
  lemma MarkBack(enc: Encoding, s: Octets)
    ensures Mark(EncodeOne(enc, BOM) + s) == (enc, |EncodeOne(enc, BOM)|)
    ensures (forall e: Encoding :: !(EncodeOne(e, BOM) <= s)) ==> Mark(s) == (Utf8, 0)
  {
    assert EncodeOne(Utf8, BOM) == [0xEF, 0xBB, 0xBF];
    assert EncodeOne(Utf16LE, BOM) == [0xFF, 0xFE] && EncodeOne(Utf16BE, BOM) == [0xFE, 0xFF];
    if |s| >= 2 { assert s[..2] == [s[0], s[1]]; }
    if |s| >= 3 { assert s[..3] == [s[0], s[1], s[2]]; }
  }

  /** The encoding and the length of the byte order mark that tells it. */
  function Mark(s: Octets): (Encoding, nat) {
    if |s| >= 2 && s[0] == 0xFF && s[1] == 0xFE then (Utf16LE, 2)
    else if |s| >= 2 && s[0] == 0xFE && s[1] == 0xFF then (Utf16BE, 2)
    else if |s| >= 3 && s[0] == 0xEF && s[1] == 0xBB && s[2] == 0xBF then (Utf8, 3)
    else (Utf8, 0)
  }
}
