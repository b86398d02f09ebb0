/**
 The input buffers of reader.c: octets come from the read handler in chunks of any size, are decoded and kept as UTF-8.
 */
module Reader {
  import opened Options
  import opened Bytes
  import opened YamlChars
  import opened Encoding

  const RAW_SIZE := 16384
  const BUFFER_SIZE := 3 * RAW_SIZE

  const MAX_FILE_SIZE := 0x7fff_ffff_ffff_ffff

  /** The outcome of yaml_parser_update_buffer. */
  datatype Status = Fine | BadInput | InputError | TooLong

  /** The encoding of the input and where its text starts: a mark is looked for unless the caller has set the
      encoding. */
  function Start(input: Octets, given: Option<Encoding>): (Encoding, nat) {
    if given.Some? then (given.value, 0) else Mark(input)
  }

  /** What the whole input means, whatever its chunks. */
  ghost function Meaning(input: Octets, given: Option<Encoding>): (seq<rune>, bool) {
    var (enc, n) := Start(input, given);
    DecodeAll(enc, input[n..])
  }

  /** The first `offset` octets of the input have given `decoded`. */
  ghost predicate Reached(input: Octets, given: Option<Encoding>, enc: Encoding, offset: nat, decoded: seq<rune>) {
    && offset <= |input| && enc == Start(input, given).0
    && Meaning(input, given) == (decoded + DecodeAll(enc, input[offset..]).0, DecodeAll(enc, input[offset..]).1)
  }

  lemma ReachedStart(input: Octets, given: Option<Encoding>)
    ensures var (enc, n) := Start(input, given); Reached(input, given, enc, n, [])
  {
    var (enc, n) := Start(input, given);
    var cs := DecodeAll(enc, input[n..]).0;
    assert [] + cs == cs;
  }

  /** One more character. */
  lemma ReachedNext(input: Octets, given: Option<Encoding>, enc: Encoding, offset: nat, decoded: seq<rune>, s: Octets)
    requires Reached(input, given, enc, offset, decoded) && s != [] && s <= input[offset..] && DecodeOne(enc, s).Char?
    ensures var d := DecodeOne(enc, s); Reached(input, given, enc, offset + d.width, decoded + [d.value])
  {
    hide DecodeOne, DecodeAll, Meaning, Start;
    var all, d := input[offset..], DecodeOne(enc, s);
    assert all == s + all[|s|..];
    DecodeStable(enc, s, all[|s|..]);
    DecodeStable(enc, s, []);
    DecodeFirst(enc, all);
    assert all[d.width..] == input[offset + d.width..];
    var cs := DecodeAll(enc, all[d.width..]).0;
    assert decoded + ([d.value] + cs) == decoded + [d.value] + cs;
  }

  lemma DecodeFirst(enc: Encoding, s: Octets)
    requires s != [] && DecodeOne(enc, s).Char? && DecodeOne(enc, s).width <= |s|
    ensures var d := DecodeOne(enc, s);
      var rest := DecodeAll(enc, s[d.width..]); DecodeAll(enc, s) == ([d.value] + rest.0, rest.1)
  {
    hide DecodeOne;
    DecodeStable(enc, s, []);
  }

  /** An error that the reader meets is one of the input. */
  lemma ReachedError(input: Octets, given: Option<Encoding>, enc: Encoding, offset: nat, decoded: seq<rune>, s: Octets)
    requires Reached(input, given, enc, offset, decoded) && s != [] && s <= input[offset..]
    requires DecodeOne(enc, s).Invalid? || (DecodeOne(enc, s).Incomplete? && s == input[offset..])
    ensures Meaning(input, given) == (decoded, false)
  {
    var all := input[offset..];
    assert all == s + all[|s|..];
    DecodeStable(enc, s, all[|s|..]);
    assert decoded + [] == decoded;
  }

  lemma ReachedEnd(input: Octets, given: Option<Encoding>, enc: Encoding, decoded: seq<rune>)
    requires Reached(input, given, enc, |input|, decoded)
    ensures Meaning(input, given) == (decoded, true)
  {
    assert input[|input|..] == [] && decoded + [] == decoded;
  }

  class Reader {
    const input: Octets
    const given: Option<Encoding>
    const plan: nat -> nat
    const fails: nat -> bool
    var calls: nat
    var taken: nat
    var raw: Octets
    var rawPointer: nat
    var eof: bool
    var encoding: Option<Encoding>
    var offset: nat
    var buffer: Octets
    var pointer: nat
    var unread: nat
    ghost var chars: seq<rune>
    ghost var passed: seq<rune>
    ghost var decoded: seq<rune>

    /** The raw buffer and the rest of the input are what has not been decoded. */
    ghost predicate RawOk()
      reads this
    {
      && rawPointer <= |raw| <= RAW_SIZE && taken <= |input| && offset <= |input|
      && raw[rawPointer..] + input[taken..] == input[offset..] && (eof ==> taken == |input|)
    }

    /** The buffer is the UTF-8 encoding of `unread` characters. */
    ghost predicate TextOk()
      reads this
    {
      pointer <= |buffer| <= BUFFER_SIZE && |chars| == unread && buffer[pointer..] == Encode8All(chars)
    }

    ghost predicate Valid()
      reads this
    {
      && RawOk() && TextOk()
      && (if encoding.None? then given.None? && offset == 0 && decoded == [] && passed + chars == [] && !eof
          else Reached(input, given, encoding.value, offset, decoded))
      && (eof ==> rawPointer == |raw|)
      && passed + chars == decoded + if eof then [NUL] else []
    }

    /** The read handler may give any positive number of octets while there are any, and fail at any call. */
    constructor (input: Octets, given: Option<Encoding>, plan: nat -> nat, fails: nat -> bool)
      ensures Valid() && this.input == input && this.given == given && this.fails == fails
      ensures passed == [] && chars == []
    {
      this.input, this.given, this.plan, this.fails := input, given, plan, fails;
      calls, taken, raw, rawPointer, eof, encoding, offset := 0, 0, [], 0, false, given, 0;
      buffer, pointer, unread, chars, passed, decoded := [], 0, 0, [], [], [];
      ReachedStart(input, given);
    }

    method ReadHandler(room: nat) returns (ok: bool, bytes: Octets)
      requires taken <= |input| && room > 0
      modifies this`calls, this`taken
      ensures |bytes| <= room && taken == old(taken) + |bytes| <= |input| && bytes == input[old(taken)..taken]
      ensures calls == old(calls) + 1 && ok == !fails(old(calls))
      ensures if ok then bytes == [] <==> old(taken) == |input| else bytes == []
    {
      if fails(calls) {
        calls := calls + 1;
        return false, [];
      }
      var left := |input| - taken;
      var most := if left < room then left else room;
      var n := if most == 0 then 0 else if plan(calls) < 1 then 1 else if plan(calls) > most then most else plan(calls);
      bytes := input[taken..taken + n];
      calls, taken := calls + 1, taken + n;
      ok := true;
    }

    method UpdateRawBuffer() returns (ok: bool)
      requires RawOk()
      modifies this`calls, this`taken, this`raw, this`rawPointer, this`eof
      ensures RawOk() && old(raw)[old(rawPointer)..] <= raw[rawPointer..]
      ensures ok ==> (old(rawPointer) == 0 && |old(raw)| == RAW_SIZE) || eof || taken > old(taken)
      ensures !ok ==> Failed() && !eof
      ensures old(eof) ==> raw[rawPointer..] == old(raw)[old(rawPointer)..]
      ensures old(eof) ==> eof
    {
      if rawPointer == 0 && |raw| == RAW_SIZE {
        return true;
      }
      if eof {
        return true;
      }
      raw, rawPointer := raw[rawPointer..], 0;
      var bytes;
      ok, bytes := ReadHandler(RAW_SIZE - |raw|);
      if !ok {
        return;
      }
      assert old(input[taken..]) == bytes + input[taken..];
      raw := raw + bytes;
      if bytes == [] {
        eof := true;
      }
    }

    /** The last call of the read handler has failed. */
    ghost predicate Failed()
      reads this
    {
      calls > 0 && fails(calls - 1)
    }

    /** The raw buffer is the beginning of what is left of the input, and all of it after the end of file. */
    lemma View()
      requires RawOk()
      ensures raw[rawPointer..] <= input[offset..] && (eof ==> raw[rawPointer..] == input[offset..])
    {
    }

    /** The encoding is that of the first octets of the input, however they arrive. */
    method DetermineEncoding() returns (ok: bool)
      requires RawOk() && encoding.None? && offset == 0 && given.None?
      modifies this`calls, this`taken, this`raw, this`rawPointer, this`eof, this`encoding, this`offset
      ensures RawOk()
      ensures ok ==> encoding.Some? && Reached(input, given, encoding.value, offset, [])
      ensures !ok ==> Failed() && encoding.None? && offset == 0 && !eof
    {
      hide Reached;
      while !eof && |raw| - rawPointer < 3
        invariant RawOk() && offset == 0 && encoding.None?
        decreases |input| - taken, if eof then 0 else 1
      {
        ok := UpdateRawBuffer();
        if !ok {
          return;
        }
      }
      ok := true;
      ghost var view := raw[rawPointer..];
      assert input[0..] == input;
      assert view + input[taken..] == input;
      MarkStable(view, input[taken..]);
      ReachedStart(input, given);
      var (enc, n) := Mark(raw[rawPointer..]);
      encoding := Some(enc);
      rawPointer, offset := rawPointer + n, offset + n;
      assert raw[rawPointer..] == view[n..];
      assert view[n..] + input[taken..] == input[n..];
    }

    /** Move the raw pointer over a character. */
    method Consume(width: nat)
      requires RawOk() && width <= |raw| - rawPointer
      modifies this`rawPointer, this`offset
      ensures RawOk() && rawPointer == old(rawPointer) + width && offset == old(offset) + width
    {
      ghost var s, t := raw[rawPointer..], input[taken..];
      assert (s + t)[width..] == s[width..] + t;
      assert raw[rawPointer + width..] == s[width..] && input[offset + width..] == input[offset..][width..];
      rawPointer, offset := rawPointer + width, offset + width;
    }

    /** Put a character into the buffer. */
    method PutChar(c: rune)
      requires pointer == 0 && |chars| == unread && buffer == Encode8All(chars)
      modifies this`buffer, this`unread, this`chars
      ensures buffer == old(buffer) + Encode8(c) && unread == old(unread) + 1 && chars == old(chars) + [c]
        && buffer == Encode8All(chars)
    {
      Encode8Concat(chars, [c]);
      assert [c][1..] == [] && Encode8All([c]) == Encode8(c) + [];
      hide Encode8, Encode8All;
      assert Encode8(c) + [] == Encode8(c);
      buffer, unread := buffer + Encode8(c), unread + 1;
      chars := chars + [c];
    }

    /** Decode the raw buffer, as far as it holds complete characters. The buffer has room for what comes out. */
    method DecodeRaw() returns (ok: bool)
      requires RawOk() && encoding.Some? && Reached(input, given, encoding.value, offset, decoded)
      requires pointer == 0 && |chars| == unread && buffer == Encode8All(chars) && passed + chars == decoded
      requires 2 * |buffer| + 3 * (|raw| - rawPointer) + 2 <= 2 * BUFFER_SIZE
      modifies this`rawPointer, this`offset, this`buffer, this`unread, this`chars, this`decoded
      ensures RawOk() && pointer == 0 && |chars| == unread && buffer == Encode8All(chars) && passed + chars == decoded
      ensures 2 * |buffer| + 2 <= 2 * BUFFER_SIZE
      ensures ok ==>
        Reached(input, given, encoding.value, offset, decoded) && |raw| - rawPointer <= 3
        && (eof ==> rawPointer == |raw|)
      ensures !ok ==> Meaning(input, given) == (decoded, false)
    {
      hide Reached, DecodeOne, Encode8, Encode8All, Meaning;
      while rawPointer < |raw|
        invariant RawOk() && Reached(input, given, encoding.value, offset, decoded)
        invariant pointer == 0 && |chars| == unread && buffer == Encode8All(chars) && passed + chars == decoded
        invariant 2 * |buffer| + 3 * (|raw| - rawPointer) + 2 <= 2 * BUFFER_SIZE
        decreases |raw| - rawPointer
      {
        var s := raw[rawPointer..];
        View();
        DecodeStable(encoding.value, s, []);
        match DecodeOne(encoding.value, s) {
          case Invalid =>
            ReachedError(input, given, encoding.value, offset, decoded, s);
            return false;
          case Incomplete =>
            if eof {
              ReachedError(input, given, encoding.value, offset, decoded, s);
              return false;
            }
            return true;
          case Char(value, width) =>
            ReachedNext(input, given, encoding.value, offset, decoded, s);
            Consume(width);
            assert passed + (chars + [value]) == passed + chars + [value];
            PutChar(value);
            decoded := decoded + [value];
        }
      }
      ok := true;
    }

    /** Move the unread characters to the beginning of the buffer. */
    method Compact()
      requires TextOk()
      modifies this`buffer, this`pointer
      ensures TextOk() && pointer == 0 && buffer == Encode8All(chars)
    {
      hide Encode8All;
      if 0 < pointer < |buffer| {
        buffer, pointer := buffer[pointer..], 0;
      } else if pointer == |buffer| {
        buffer, pointer := [], 0;
      }
      assert buffer[0..] == buffer;
    }

    /** yaml_parser_update_buffer: afterwards there are `length` characters, or all that the input has and one NUL. It
        fails only on an input that has an error, when everything before it has been decoded, when the read handler has
        failed, or when the input is too long; in the last two cases nothing is lost. For every lookahead up to 6144 the
        buffer has room. */
    method UpdateBuffer(length: nat) returns (r: Status)
      requires Valid() && 8 * length <= 3 * RAW_SIZE
      modifies this
      ensures r != BadInput ==> Valid()
      ensures r.Fine? ==> (unread >= length || eof) && (offset < MAX_FILE_SIZE || eof || old(unread) >= length)
      ensures r.BadInput? ==> Meaning(input, given) == (decoded, false)
      ensures r.InputError? ==> Failed()
      ensures r.TooLong? ==> offset >= MAX_FILE_SIZE && unread >= length > old(unread)
    {
      hide Reached, Meaning, Encode8All;
      if eof && rawPointer == |raw| {
        return Fine;
      }
      if unread >= length {
        return Fine;
      }
      assert !eof;
      if encoding.None? {
        var ok := DetermineEncoding();
        if !ok {
          return InputError;
        }
      }
      Compact();
      r := FillBuffer(length);
    }

    /** While the buffer is being filled. */
    ghost predicate Filling()
      reads this
    {
      && RawOk() && encoding.Some? && Reached(input, given, encoding.value, offset, decoded)
      && pointer == 0 && |chars| == unread && buffer == Encode8All(chars) && passed + chars == decoded
      && |buffer| <= BUFFER_SIZE
    }

    lemma FilledValid()
      requires Filling() && !eof
      ensures Valid()
    {
      assert buffer[0..] == buffer && decoded + [] == decoded;
    }

    /** On EOF, put NUL into the buffer. */
    method EndText()
      requires Filling() && eof && rawPointer == |raw| && |buffer| < BUFFER_SIZE
      modifies this`buffer, this`unread, this`chars
      ensures Valid()
    {
      hide Reached, Encode8All;
      PutChar(NUL);
      assert passed + chars == decoded + [NUL];
      OneNul();
      assert buffer[0..] == buffer;
    }

    /** The loop of yaml_parser_update_buffer. */
    method FillBuffer(length: nat) returns (r: Status)
      requires Filling() && unread < length && 8 * length <= 3 * RAW_SIZE
      modifies this
      ensures r != BadInput ==> Valid()
      ensures r.Fine? ==> (unread >= length && offset < MAX_FILE_SIZE) || eof
      ensures r.BadInput? ==> Meaning(input, given) == (decoded, false)
      ensures r.InputError? ==> Failed()
      ensures r.TooLong? ==> offset >= MAX_FILE_SIZE && unread >= length
    {
      hide Reached, Meaning, Encode8All, Reader.Valid;
      var first := true;
      while unread < length
        invariant Filling() && (first || (|raw| - rawPointer <= 3 && !eof)) && (unread >= length ==> !eof)
        decreases |input| - taken, if first then 1 else 0
      {
        if !first || rawPointer == |raw| {
          var ok := UpdateRawBuffer();
          if !ok {
            FilledValid();
            return InputError;
          }
        }
        first := false;
        Encode8Size(chars);
        var ok := DecodeRaw();
        if !ok {
          return BadInput;
        }
        if eof {
          EndText();
          return Fine;
        }
      }
      FilledValid();
      r := if offset >= MAX_FILE_SIZE then TooLong else Fine;
    }

    /** SKIP: move over one character, by the width that its first octet tells. */
    method Skip()
      requires Valid() && unread > 0
      modifies this`pointer, this`unread, this`chars, this`passed
      ensures Valid() && passed == old(passed) + [old(chars)[0]] && chars == old(chars)[1..]
    {
      hide Reached;
      ghost var c, rest := chars[0], chars[1..];
      ValueEncode(c);
      ghost var e := Encode8(c);
      assert buffer[pointer..] == e + Encode8All(rest);
      assert buffer[pointer] == buffer[pointer..][0] == e[0];
      hide Encode8, Encode8All;
      var w := Width8(buffer[pointer]);
      assert buffer[pointer..][w..] == Encode8All(rest);
      assert buffer[pointer..][w..] == buffer[pointer + w..];
      assert chars == [c] + rest && passed + chars == passed + [c] + rest;
      pointer, unread := pointer + w, unread - 1;
      passed, chars := passed + [c], rest;
    }
  }

  /** In every state the characters passed and buffered are the first ones of what the input means - and at the end all
      of them, followed by one NUL. What the input means does not depend on the chunks, so neither do they. */
  lemma ChunksDoNotMatter(r: Reader)
    requires r.Valid()
    ensures var (all, ok) := Meaning(r.input, r.given);
      && r.passed + r.chars <= all + [NUL]
      && (r.eof ==> ok && r.passed + r.chars == all + [NUL])
      && r.buffer[r.pointer..] == Encode8All(r.chars) && |r.chars| == r.unread
  {
    if r.encoding.Some? {
      var rest := DecodeAll(r.encoding.value, r.input[r.offset..]).0;
      if r.eof {
        assert r.raw[r.rawPointer..] == [] && r.offset == |r.input|;
        ReachedEnd(r.input, r.given, r.encoding.value, r.decoded);
      } else {
        assert r.decoded + rest + [NUL] == r.decoded + (rest + [NUL]);
      }
    }
  }

  lemma OneNul()
    ensures Encode8(NUL) == [0]
  {
  }

  lemma MarkStable(s: Octets, t: Octets)
    requires |s| >= 3 || t == []
    ensures Mark(s + t) == Mark(s) && Mark(s).1 <= |s|
  {
    assert t == [] ==> s + t == s;
  }
}
