/**
 DNS messages as hev_mapped_dns_handle reads and writes them (sections 4.1.1 to 4.1.4 of RFC 1035): the questions of
 a request, the names they ask for, and the response built from the request.
 */
module DnsMessage {
  import opened Options
  import opened Bytes
  import opened Words
  import opened Sets
  import LruSpec

  const HEADER := 12
  const DOT: byte := 46
  const ANSWER := 16

  function U16(b: Octets, i: nat): nat
    requires i + 1 < |b|
  {
    256 * (b[i] as int) + b[i + 1]
  }

  // ----- names -------------------------------------------------------------------------------

  /** The offset of the zero octet that ends the name at `off`; every label must end before `qlen`. The buffer `b`
      is longer than the message, because a length octet at `qlen` is read before it is refused. */
  function NameEnd(b: Octets, off: nat, qlen: nat): (r: Option<nat>)
    requires off < |b| && qlen < |b|
    ensures r.Some? ==> off <= r.value < |b| && b[r.value] == 0 && (r.value == off || r.value < qlen)
    decreases |b| - off
  {
    if b[off] == 0 then Some(off)
    else if off + 1 + b[off] >= qlen then None
    else NameEnd(b, off + 1 + b[off], qlen)
  }

  /** The labels of the name at `off`. */
  function Labels(b: Octets, off: nat, qlen: nat): seq<Octets>
    requires off < |b| && qlen < |b| && NameEnd(b, off, qlen).Some?
    decreases |b| - off
  {
    if b[off] == 0 then [] else [b[off + 1..off + 1 + b[off]]] + Labels(b, off + 1 + b[off], qlen)
  }

  /** Labels joined by dots. */
  function Dotted(ls: seq<Octets>): Octets {
    if ls == [] then [] else if |ls| == 1 then ls[0] else ls[0] + [DOT] + Dotted(ls[1..])
  }

  /** The octets before the first NUL. */
  function CString(s: Octets): Octets {
    if s == [] || s[0] == 0 then [] else [s[0]] + CString(s[1..])
  }

  lemma {:induction false} CStringNulFree(s: Octets)
    ensures CString(s) == s <==> 0 !in s
  {
    if s != [] && s[0] != 0 {
      CStringNulFree(s[1..]);
      assert s == [s[0]] + s[1..];
    }
  }

  lemma {:induction false} CStringStops(s: Octets, rest: Octets)
    ensures CString(s + [0] + rest) == CString(s)
  {
    if s != [] {
      CStringStops(s[1..], rest);
      assert (s + [0] + rest)[1..] == s[1..] + [0] + rest;
    }
  }

  /** A string and what follows it in memory. */
  lemma {:induction false} CStringRuns(a: Octets, b: Octets)
    requires 0 !in a
    ensures CString(a + b) == a + CString(b)
  {
    if a == [] {
      assert a + b == b;
    } else {
      assert (a + b)[1..] == a[1..] + b;
      CStringRuns(a[1..], b);
    }
  }

  lemma {:induction false} CStringPrefix(s: Octets)
    ensures CString(s) <= s && 0 !in CString(s) && (0 in s ==> |CString(s)| < |s|)
  {
    if s != [] && s[0] != 0 {
      CStringPrefix(s[1..]);
      assert s == [s[0]] + s[1..];
    }
  }

  /** Every label with a dot before it: what the name looks like after its length octets are overwritten. */
  function Dots(ls: seq<Octets>): Octets {
    if ls == [] then [] else [DOT] + ls[0] + Dots(ls[1..])
  }

  lemma {:induction false} DotsAppend(a: seq<Octets>, l: Octets)
    ensures Dots(a + [l]) == Dots(a) + [DOT] + l
  {
    if a == [] {
      assert a + [l] == [l];
      assert [l][1..] == [];
    } else {
      DotsAppend(a[1..], l);
      assert (a + [l])[1..] == a[1..] + [l];
    }
  }

  lemma {:induction false} DotsDotted(ls: seq<Octets>)
    requires ls != []
    ensures Dots(ls) == [DOT] + Dotted(ls)
  {
    if |ls| == 1 {
      assert ls[1..] == [];
    } else {
      DotsDotted(ls[1..]);
    }
  }

  // ----- questions ------------------------------------------------------------------------------

  /** A question: its name starts at `start` and is ended by the zero octet at `stop`; type and class follow. */
  datatype Question = Question(start: nat, stop: nat)

  /** The first `n` questions from `off` on; `false` if the request ends too early. */
  function Questions(b: Octets, off: nat, n: nat, qlen: nat): (r: (seq<Question>, bool))
    requires off < |b| && qlen < |b|
    ensures forall q <- r.0 :: InMessage(b, q, qlen) && off <= q.start
    ensures r.1 ==> |r.0| == n
    decreases n
  {
    if n == 0 then ([], true)
    else
      match NameEnd(b, off, qlen)
      case None => ([], false)
      case Some(stop) =>
        if stop + 4 >= qlen then ([], false)
        else var (qs, ok) := Questions(b, stop + 5, n - 1, qlen); ([Question(off, stop)] + qs, ok)
  }

  ghost predicate InMessage(b: Octets, q: Question, qlen: nat)
    requires qlen < |b|
  {
    q.start <= q.stop && q.stop + 4 < qlen && NameEnd(b, q.start, qlen) == Some(q.stop)
  }

  /** Type A and class IN. */
  predicate WantsAddress(b: Octets, q: Question)
    requires q.stop + 4 < |b|
  {
    U16(b, q.stop + 1) == 1 && U16(b, q.stop + 3) == 1
  }

  /** The name a question asks for, in dotted form, cut at a NUL. */
  function Asked(b: Octets, q: Question, qlen: nat): Octets
    requires qlen < |b| && InMessage(b, q, qlen)
  {
    CString(Dotted(Labels(b, q.start, qlen)))
  }

  /** Where the questions end. */
  function QuestionsEnd(qs: seq<Question>): nat { if qs == [] then HEADER else qs[|qs| - 1].stop + 5 }

  // ----- answers -----------------------------------------------------------------------------------

  datatype Answer = Answer(start: nat, name: Octets, ip: word)

  /** Ask the table for each wanted name, in order; the address is the network prefix with the index below it. */
  function Resolve(net: word, c: LruSpec.Cache, b: Octets, qs: seq<Question>,
                   qlen: nat): (r: (LruSpec.Cache, seq<Answer>))
    requires LruSpec.Ok(c) && c.max < WORD && qlen < |b| && forall q <- qs :: InMessage(b, q, qlen)
    ensures LruSpec.Ok(r.0) && r.0.max == c.max && |r.1| <= |qs|
  {
    if qs == [] then (c, [])
    else
      var q := qs[|qs| - 1];
      assert InMessage(b, q, qlen);
      var (c', as') := Resolve(net, c, b, qs[..|qs| - 1], qlen);
      if WantsAddress(b, q) then
        LruSpec.FindOk(c', Asked(b, q, qlen));
        var (c'', idx) := LruSpec.Find(c', Asked(b, q, qlen));
        (c'', as' + [Answer(q.start, Asked(b, q, qlen), OrWord(net, idx))])
      else (c', as')
  }

  /** `fl | bit` for a single bit. */
  function SetBit(fl: nat, bit: nat): nat
    requires bit > 0
  {
    if fl / bit % 2 == 1 then fl else fl + bit
  }

  /** QR is set, and RA if RD was. */
  function ResponseFlags(fl: nat): nat {
    var qr := SetBit(fl, 0x8000);
    if fl / 0x100 % 2 == 1 then SetBit(qr, 0x80) else qr
  }

  function BytesOf16(v: nat): Octets { [v / 0x100 % 0x100, v % 0x100] }

  function BytesOf32(v: nat): Octets { [v / 0x100_0000 % 0x100, v / 0x1_0000 % 0x100, v / 0x100 % 0x100, v % 0x100] }

  function ResponseHeader(b: Octets, an: nat): (h: Octets)
    requires |b| >= HEADER
    ensures |h| == HEADER
  {
    b[..2] + BytesOf16(ResponseFlags(U16(b, 2))) + b[4..6] + BytesOf16(an) + [0, 0, 0, 0]
  }

  /** A pointer to the question's name, type A, class IN, a lifetime of one second and the address. */
  function RecordBytes(start: nat, ip: word): (r: Octets)
    ensures |r| == ANSWER
  {
    [0xc0, start % 0x100] + BytesOf16(1) + BytesOf16(1) + BytesOf32(1) + BytesOf16(4) + BytesOf32(ip)
  }

  function AnswerBytes(answers: seq<Answer>): (r: Octets)
    ensures |r| == ANSWER * |answers|
  {
    if answers == [] then []
    else
      var last := answers[|answers| - 1];
      AnswerBytes(answers[..|answers| - 1]) + RecordBytes(last.start, last.ip)
  }

  function Response(b: Octets, end: nat, answers: seq<Answer>): (r: Octets)
    requires HEADER <= end <= |b|
    ensures |r| == end + ANSWER * |answers|
  {
    ResponseHeader(b, |answers|) + b[HEADER..end] + AnswerBytes(answers)
  }

  // ----- what a client finds in the response ---------------------------------------------------

  function U32(b: Octets, i: nat): nat
    requires i + 3 < |b|
  {
    0x1_0000 * U16(b, i) + U16(b, i + 2)
  }

  ghost predicate Bit(v: nat, bit: nat)
    requires bit > 0
  {
    v / bit % 2 == 1
  }

  lemma SetBitHigh(fl: nat)
    requires fl < 0x1_0000
    ensures var r := SetBit(fl, 0x8000); r < 0x1_0000 && Bit(r, 0x8000) && r % 0x8000 == fl % 0x8000
  {
  }

  lemma SetBitLow(fl: nat)
    ensures var r := SetBit(fl, 0x80); Bit(r, 0x80) && r % 0x80 == fl % 0x80 && r / 0x100 == fl / 0x100
  {
  }

  lemma LowBits(v: nat, w: nat)
    requires v % 0x8000 == w % 0x8000
    ensures v % 0x80 == w % 0x80 && (Bit(v, 0x80) <==> Bit(w, 0x80)) && v / 0x100 % 0x80 == w / 0x100 % 0x80
  {
    LowPart(v / 0x8000, v % 0x8000);
    LowPart(w / 0x8000, w % 0x8000);
  }

  lemma LowPart(x: nat, l: nat)
    requires l < 0x8000
    ensures var v := 0x8000 * x + l;
      v % 0x80 == l % 0x80 && v / 0x80 % 2 == l / 0x80 % 2
      && v / 0x100 % 0x80 == l / 0x100 % 0x80
  {
    var v := 0x8000 * x + l;
    Low80(x, l);
    Low100(x, l);
    Even(0x80 * x, l / 0x80);
    Multiple(x, l / 0x100);
  }

  lemma Low80(x: nat, l: nat)
    ensures var v := 0x8000 * x + l; v / 0x80 == 0x100 * x + l / 0x80 && v % 0x80 == l % 0x80
  {
    var a, r := l / 0x80, l % 0x80;
    assert 0x8000 * x + l == 0x80 * (0x100 * x + a) + r;
  }

  lemma Low100(x: nat, l: nat)
    ensures (0x8000 * x + l) / 0x100 == 0x80 * x + l / 0x100
  {
    var a, r := l / 0x100, l % 0x100;
    assert 0x8000 * x + l == 0x100 * (0x80 * x + a) + r;
  }

  lemma Even(x: nat, a: nat)
    ensures (2 * x + a) % 2 == a % 2
  {
  }

  lemma Multiple(x: nat, a: nat)
    ensures (0x80 * x + a) % 0x80 == a % 0x80
  {
    var b, r := a / 0x80, a % 0x80;
    assert 0x80 * x + a == 0x80 * (x + b) + r;
  }

  /** QR is set, RA is set if it or RD was, and no other bit changes. */
  lemma FlagBits(fl: nat)
    requires fl < 0x1_0000
    ensures var r := ResponseFlags(fl);
      && r < 0x1_0000 && Bit(r, 0x8000) && (Bit(r, 0x80) <==> Bit(fl, 0x80) || Bit(fl, 0x100))
      && r % 0x80 == fl % 0x80 && r / 0x100 % 0x80 == fl / 0x100 % 0x80
  {
    var qr := SetBit(fl, 0x8000);
    SetBitHigh(fl);
    SetBitLow(qr);
    LowBits(qr, fl);
    hide SetBit;
  }

  /** Identification, flags and counts of the response; the question section is that of the request. */
  lemma ResponseFields(b: Octets, end: nat, answers: seq<Answer>)
    requires HEADER <= end <= |b| && |answers| < 0x1_0000
    ensures var r := Response(b, end, answers);
      && U16(r, 0) == U16(b, 0) && U16(r, 2) == ResponseFlags(U16(b, 2)) && U16(r, 4) == U16(b, 4)
      && U16(r, 6) == |answers| && U16(r, 8) == 0 && U16(r, 10) == 0
      && r[HEADER..end] == b[HEADER..end]
  {
    var r, h := Response(b, end, answers), ResponseHeader(b, |answers|);
    FlagBits(U16(b, 2));
    assert forall i :: 0 <= i < HEADER ==> r[i] == h[i];
    HeaderFields(b, |answers|);
  }

  lemma HeaderFields(b: Octets, an: nat)
    requires |b| >= HEADER && an < 0x1_0000
    ensures var h := ResponseHeader(b, an);
      && U16(h, 0) == U16(b, 0) && U16(h, 2) == ResponseFlags(U16(b, 2)) && U16(h, 4) == U16(b, 4)
      && U16(h, 6) == an && U16(h, 8) == 0 && U16(h, 10) == 0
  {
    var f := ResponseFlags(U16(b, 2));
    assert f < 0x1_0000 by { FlagBits(U16(b, 2)); }
    hide ResponseFlags;
    var h := ResponseHeader(b, an);
    assert h[0] == b[0] && h[1] == b[1] && h[4] == b[4] && h[5] == b[5];
    assert [h[2], h[3]] == BytesOf16(f) && [h[6], h[7]] == BytesOf16(an) && h[8] == h[9] == h[10] == h[11] == 0;
  }

  /** Answer number `k` sits in its own 16 octets and carries its address. */
  lemma {:induction false} AnswerAt(answers: seq<Answer>, k: nat)
    requires k < |answers|
    ensures AnswerBytes(answers)[ANSWER * k..ANSWER * (k + 1)] == RecordBytes(answers[k].start, answers[k].ip)
  {
    var n := |answers| - 1;
    var front := AnswerBytes(answers[..n]);
    var last := RecordBytes(answers[n].start, answers[n].ip);
    assert AnswerBytes(answers) == front + last;
    hide RecordBytes, AnswerBytes;
    if k < n {
      AnswerAt(answers[..n], k);
      SliceFront(front, last, ANSWER * k, ANSWER * (k + 1));
    } else {
      SliceBack(front, last);
    }
  }

  lemma SliceFront(a: Octets, b: Octets, i: nat, j: nat)
    requires i <= j <= |a|
    ensures (a + b)[i..j] == a[i..j]
  {
  }

  lemma SliceBack(a: Octets, b: Octets)
    ensures (a + b)[|a|..|a| + |b|] == b
  {
  }

  lemma RecordFields(start: nat, ip: word)
    ensures var r := RecordBytes(start, ip);
      U16(r, 2) == 1 && U16(r, 4) == 1 && U32(r, 6) == 1 && U16(r, 10) == 4 && U32(r, 12) == ip
  {
    var r := RecordBytes(start, ip);
    assert r[2..4] == BytesOf16(1) && r[4..6] == BytesOf16(1) && r[6..10] == BytesOf32(1) && r[10..12] == BytesOf16(4);
    assert r[12..16] == BytesOf32(ip);
    hide RecordBytes;
    Words32(ip);
    var w := BytesOf32(ip);
    assert r[12] == w[0] && r[13] == w[1] && r[14] == w[2] && r[15] == w[3];
  }

  lemma Words32(v: word)
    ensures U32(BytesOf32(v), 0) == v
  {
    var a, b, c := v / 0x100, v / 0x1_0000, v / 0x100_0000;
    assert b == a / 0x100 && c == b / 0x100;
    assert v == 0x100 * a + v % 0x100 && a == 0x100 * b + a % 0x100 && b == 0x100 * c + b % 0x100;
  }

  /** The compression pointer (section 4.1.4 of RFC 1035) names the question if and only if the name's offset is
      below 256: only its low octet is stored. */
  lemma PointerExact(start: nat, ip: word)
    ensures U16(RecordBytes(start, ip), 0) % 0x4000 == start <==> start < 256
    ensures U16(RecordBytes(start, ip), 0) == 0xc000 + start % 0x100
  {
  }

  /** The questions that are answered. */
  function Wanted(b: Octets, qs: seq<Question>, qlen: nat): (w: seq<Question>)
    requires qlen < |b| && forall q <- qs :: InMessage(b, q, qlen)
    ensures forall q <- w :: q in qs && InMessage(b, q, qlen)
  {
    if qs == [] then []
    else
      var q := qs[|qs| - 1];
      assert InMessage(b, q, qlen);
      Wanted(b, qs[..|qs| - 1], qlen) + if WantsAddress(b, q) then [q] else []
  }

  ghost function WantedNames(b: Octets, qs: seq<Question>, qlen: nat): set<Octets>
    requires qlen < |b| && forall q <- qs :: InMessage(b, q, qlen)
  {
    set q | q in Wanted(b, qs, qlen) :: Asked(b, q, qlen)
  }

  /** There is one answer for each wanted question, in order, with that question's offset and name; the address
      carries an index at which the table holds that name. */
  lemma {:induction false} Answered(net: word, c: LruSpec.Cache, b: Octets, qs: seq<Question>, qlen: nat,
                                    names: set<Octets>, k: nat)
    returns (idx: word)
    requires LruSpec.Ok(c) && c.max < WORD && qlen < |b| && forall q <- qs :: InMessage(b, q, qlen)
    requires WantedNames(b, qs, qlen) <= names && |names| <= c.max && k < |Wanted(b, qs, qlen)|
    ensures var (c', answers), q := Resolve(net, c, b, qs, qlen), Wanted(b, qs, qlen)[k];
      && |answers| == |Wanted(b, qs, qlen)| && answers[k] == Answer(q.start, Asked(b, q, qlen), OrWord(net, idx))
      && idx < c.max && answers[k].name in names && LruSpec.Held(c', answers[k].name, idx, names)
  {
    hide LruSpec.Held, LruSpec.Ok, LruSpec.Find, Asked;
    var n := |qs| - 1;
    var q, front := qs[n], qs[..n];
    assert InMessage(b, q, qlen);
    hide InMessage;
    var (c1, as1) := Resolve(net, c, b, front, qlen);
    var w := Wanted(b, front, qlen);
    assert forall x <- w :: x in Wanted(b, qs, qlen);
    if k < |w| {
      idx := Answered(net, c, b, front, qlen, names, k);
      if WantsAddress(b, q) {
        assert q in Wanted(b, qs, qlen);
        LruSpec.HeldStep(c1, LruSpec.FindOp(Asked(b, q, qlen)), as1[k].name, idx, names);
      }
    } else {
      assert q in Wanted(b, qs, qlen);
      AnswerCount(net, c, b, front, qlen);
      LruSpec.FindOk(c1, Asked(b, q, qlen));
      var (c2, i) := LruSpec.Find(c1, Asked(b, q, qlen));
      idx := i;
      LruSpec.HeldLast(c2, Asked(b, q, qlen), idx, names);
    }
  }

  lemma {:induction false} AnswerCount(net: word, c: LruSpec.Cache, b: Octets, qs: seq<Question>, qlen: nat)
    requires LruSpec.Ok(c) && c.max < WORD && qlen < |b| && forall q <- qs :: InMessage(b, q, qlen)
    ensures var answers, w := Resolve(net, c, b, qs, qlen).1, Wanted(b, qs, qlen);
      |answers| == |w| && forall k :: 0 <= k < |w| ==> answers[k].start == w[k].start
  {
    hide LruSpec.Ok, LruSpec.Find, InMessage, Asked;
    if qs != [] {
      AnswerCount(net, c, b, qs[..|qs| - 1], qlen);
    }
  }

  /** The centre of the mapped DNS: if a request asks for at most `max` names, then every address answered looks up
      to the name of its own question, now and as long as only these names are used. */
  lemma AnsweredLookup(net: word, host: word, c: LruSpec.Cache, b: Octets, qs: seq<Question>, qlen: nat, k: nat,
                       ops: seq<LruSpec.Op>)
    requires LruSpec.Ok(c) && c.max < WORD && Recovers(net, host, c.max)
    requires qlen < |b| && forall q <- qs :: InMessage(b, q, qlen)
    requires |WantedNames(b, qs, qlen)| <= c.max && k < |Wanted(b, qs, qlen)|
    requires LruSpec.Touched(Resolve(net, c, b, qs, qlen).0, ops) <= WantedNames(b, qs, qlen)
    ensures var (c', answers), q := Resolve(net, c, b, qs, qlen), Wanted(b, qs, qlen)[k];
      && |answers| == |Wanted(b, qs, qlen)| && answers[k].start == q.start
      && LruSpec.Lookup(LruSpec.Run(c', ops), And(answers[k].ip, host)).1 == Some(Asked(b, q, qlen))
  {
    hide LruSpec.Held, LruSpec.Ok, LruSpec.Find, LruSpec.Lookup, InMessage, Asked, Wanted, And, Or, Recovers;
    var names := WantedNames(b, qs, qlen);
    var idx := Answered(net, c, b, qs, qlen, names, k);
    var (c', answers) := Resolve(net, c, b, qs, qlen);
    HostBack(net, idx, host, c.max);
    LruSpec.HeldRun(c', ops, answers[k].name, idx, names);
  }

  /** The names the table holds. */
  ghost function Known(c: LruSpec.Cache): set<Octets> { set i | 0 <= i < |c.lru| :: c.lru[i].name }

  lemma KnownSize(c: LruSpec.Cache)
    requires LruSpec.Ok(c)
    ensures |Known(c)| <= c.max
  {
    if c.lru != [] {
      LruSpec.AfterSize(c.lru, 0);
      assert Known(c) == LruSpec.After(c.lru, 0) + {c.lru[0].name};
    }
  }

  /** Conversely, if every answer looks up to the name of its own question, there are at most `max` such names. */
  lemma NamesFit(net: word, host: word, c: LruSpec.Cache, b: Octets, qs: seq<Question>, qlen: nat)
    requires LruSpec.Ok(c) && c.max < WORD && qlen < |b| && forall q <- qs :: InMessage(b, q, qlen)
    requires var (c', answers), w := Resolve(net, c, b, qs, qlen), Wanted(b, qs, qlen);
      && |answers| == |w|
      && forall k :: 0 <= k < |w| ==>
        LruSpec.Lookup(c', And(answers[k].ip, host)).1 == Some(Asked(b, w[k], qlen))
    ensures |WantedNames(b, qs, qlen)| <= c.max
  {
    var (c', answers) := Resolve(net, c, b, qs, qlen);
    var w := Wanted(b, qs, qlen);
    forall n | n in WantedNames(b, qs, qlen) ensures n in Known(c') {
      var q :| q in w && Asked(b, q, qlen) == n;
      var k :| 0 <= k < |w| && w[k] == q;
      var p := LruSpec.ByIdx(c'.lru, And(answers[k].ip, host));
      assert c'.lru[p].name == n;
    }
    KnownSize(c');
    SubsetSize(WantedNames(b, qs, qlen), Known(c'));
  }
}
