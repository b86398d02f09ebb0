/**
 From a destination address back to the name it stands for: hev_socks5_addr_from_lwip over the mapped DNS, and the
 path of a name from a DNS request through the response to the SOCKS5 request.
 */
module MappedAddress {
  import opened Options
  import opened Bytes
  import opened Words
  import opened DnsMessage
  import opened DnsHandle
  import opened MappedDns
  import opened Socks5Proto
  import opened RBShape
  import opened Sorted
  import opened List
  import LruSpec

  datatype IpAddr = V4(ip: word) | V6(octets: Octets) | Other

  /** The memory of a domain after strncpy of 256 octets: a shorter name is padded with NULs. `behind` is what the
      memory holds from there on. */
  function Copied(name: Octets, behind: Octets): Octets {
    (if |name| < 256 then name + seq(256 - |name|, _ => 0) else name[..256]) + behind
  }

  /** hev_socks5_addr_from_name: the length is that of the C string in memory, cut to one octet; the port follows. */
  function FromName(name: Octets, behind: Octets, port: Octets): (r: Addr)
    requires |port| == 2
    ensures r.Valid()
  {
    var mem := Copied(name, behind);
    var k := |CString(mem)| % 256;
    Domain(mem[..k], port)
  }

  /** A name becomes the domain it names if and only if it has at most 255 octets. Of a longer one as many octets are
      left as the memory behind it happens to hold before the next NUL, modulo 256. */
  lemma NameKept(name: Octets, behind: Octets, port: Octets)
    requires 0 !in name && 0 in behind && |port| == 2
    ensures FromName(name, behind, port) == Domain(name, port) <==> |name| <= 255
    ensures |name| >= 256 ==> FromName(name, behind, port) == Domain(name[..|CString(behind)| % 256], port)
  {
    hide CString, Copied;
    if |name| < 256 {
      ShortName(name, behind);
    } else {
      LongName(name, behind);
    }
  }

  lemma ShortName(name: Octets, behind: Octets)
    requires 0 !in name && |name| < 256
    ensures CString(Copied(name, behind)) == name && name <= Copied(name, behind)
  {
    hide CString;
    var rest := seq(256 - |name|, _ => 0) + behind;
    assert Copied(name, behind) == name + rest && rest[0] == 0;
    CStringRuns(name, rest);
    NulFirst(rest);
    assert name + [] == name;
  }

  lemma LongName(name: Octets, behind: Octets)
    requires 0 !in name && |name| >= 256
    ensures var mem, k := Copied(name, behind), |CString(behind)|;
      |CString(mem)| == 256 + k && |mem| >= 256 && mem[..k % 256] == name[..k % 256]
  {
    hide CString;
    CStringRuns(name[..256], behind);
  }

  lemma NulFirst(s: Octets)
    requires s != [] && s[0] == 0
    ensures CString(s) == []
  {
  }

  /** hev_socks5_addr_from_lwip; `behind` is what the memory of the address holds behind a name of 256 octets. */
  method FromLwip(dns: MappedDns?, ip: IpAddr, port: Octets, behind: Octets) returns (r: Option<Addr>)
    requires dns != null ==> dns.Valid()
    requires |port| == 2 && (ip.V6? ==> |ip.octets| == 16)
    modifies if dns == null then {} else {dns, dns.list} + SetOf(dns.list.nodes)
    ensures dns != null ==> dns.Valid()
    ensures dns != null && ip.V4? ==> dns.Abs() == LruSpec.Lookup(old(dns.Abs()), And(ip.ip, Not(dns.mask))).0
    ensures dns != null && !ip.V4? ==> dns.Abs() == old(dns.Abs())
    ensures r == match ip
      case V6(octets) => Some(IPv6(octets, port))
      case Other => None
      case V4(v) =>
        var name := if dns == null then None else LruSpec.Lookup(old(dns.Abs()), And(v, Not(dns.mask))).1;
        Some(if name.Some? then FromName(name.value, behind, port) else IPv4(BytesOf32(v), port))
  {
    hide S, Rep, Distinct, RedBlack, Spells, InOrder, SortedBy, Agree, Shows, LruSpec.Lookup, FromName;
    match ip
    case V4(v) =>
      var name := None;
      if dns != null {
        name := dns.Lookup(v);
      }
      r := Some(if name.Some? then FromName(name.value, behind, port) else IPv4(BytesOf32(v), port));
    case V6(octets) => r := Some(IPv6(octets, port));
    case Other => r := None;
  }

  /** A response read by a client: the questions are those of the request, and answer `k` has its own 16 octets. Its
      pointer names its question if and only if the offset is below 256. */
  lemma Layout(b: Octets, end: nat, answers: seq<Answer>, out: Octets, k: nat)
    requires HEADER <= end <= |b| && k < |answers| <= 32
    requires var len := end + ANSWER * |answers|; len <= |out| && out[..len] == Response(b, end, answers)
    ensures var at := end + ANSWER * k;
      && at + ANSWER <= |out| && out[HEADER..end] == b[HEADER..end] && U16(out, 6) == |answers|
      && (U16(out, at) % 0x4000 == answers[k].start <==> answers[k].start < 256)
      && U16(out, at) == 0xc000 + answers[k].start % 0x100
      && U16(out, at + 2) == 1 && U16(out, at + 4) == 1 && U32(out, at + 6) == 1 && U16(out, at + 10) == 4
      && U32(out, at + 12) == answers[k].ip
  {
    var at, r := end + ANSWER * k, Response(b, end, answers);
    hide Response, RecordBytes, ResponseFlags;
    ResponseFields(b, end, answers);
    RecordAt(b, end, answers, k);
    RecordFields(answers[k].start, answers[k].ip);
    PointerExact(answers[k].start, answers[k].ip);
    SliceReads(out, r, RecordBytes(answers[k].start, answers[k].ip), at);
    assert out[HEADER..end] == r[HEADER..end];
  }

  /** The centre of the mapped DNS. In an answered request with at most `max` names there is one answer for each
      question for an IPv4 address, in order, and its address maps back to the dotted name of that question: now, and
      after any use of the names of this request. */
  lemma AnswersMapBack(net: word, mask: word, c: LruSpec.Cache, b: Octets, qlen: nat, slen: nat, c': LruSpec.Cache,
                       len: int, out: Octets,
                       qs: seq<Question>, k: nat, ops: seq<LruSpec.Op>, port: Octets)
    requires Handled(net, c, b, qlen, slen, c', len, out) && qlen >= HEADER && len >= 0 && |port| == 2
    requires Recovers(net, Not(mask), c.max)
    requires qs == Questions(b, HEADER, U16(b, 4), qlen).0
    requires k < |Wanted(b, qs, qlen)| && |WantedNames(b, qs, qlen)| <= c.max
    requires LruSpec.Ok(c') && LruSpec.Touched(c', ops) <= WantedNames(b, qs, qlen)
    ensures var w, at := Wanted(b, qs, qlen), QuestionsEnd(qs) + ANSWER * k;
      && len == QuestionsEnd(qs) + ANSWER * |w| && at + ANSWER <= len <= |out|
      && MapsBack(mask, LruSpec.Run(c', ops), U32(out, at + 12), Asked(b, w[k], qlen), port)
  {
    hide Questions, Wanted, WantedNames, Asked, LruSpec.Lookup, LruSpec.Run, LruSpec.Touched, LruSpec.Ok, And, Or,
         Response, QuestionsEnd, Recovers, Resolve, MapsBack, InMessage;
    var (after, answers) := Resolve(net, c, b, qs, qlen);
    var end := QuestionsEnd(qs);
    AnsweredLookup(net, Not(mask), c, b, qs, qlen, k, ops);
    Layout(b, end, answers, out, k);
    var q := Wanted(b, qs, qlen)[k];
    assert q in Wanted(b, qs, qlen);
    AskedBack(mask, LruSpec.Run(c', ops), U32(out, end + ANSWER * k + 12), b, q, qlen, port);
  }

  lemma AskedBack(mask: word, c: LruSpec.Cache, ip: nat, b: Octets, q: Question, qlen: nat, port: Octets)
    requires qlen < |b| && InMessage(b, q, qlen) && |port| == 2
    requires LruSpec.Lookup(c, And(ip, Not(mask))).1 == Some(Asked(b, q, qlen))
    ensures MapsBack(mask, c, ip, Asked(b, q, qlen), port)
  {
    hide CString, Labels, NameEnd, FromName, LruSpec.Lookup, And;
    var name := Asked(b, q, qlen);
    CStringPrefix(Dotted(Labels(b, q.start, qlen)));
    forall behind | 0 in behind ensures FromName(name, behind, port) == Domain(name, port) <==> |name| <= 255 {
      NameKept(name, behind, port);
    }
  }

  /** Every answer maps back to the name of its own question. */
  ghost predicate AllBack(mask: word, c: LruSpec.Cache, out: Octets, end: nat, names: seq<Octets>, port: Octets)
    requires end + ANSWER * |names| <= |out| && |port| == 2
  {
    forall k :: 0 <= k < |names| ==> MapsBack(mask, c, U32(out, end + ANSWER * k + 12), names[k], port)
  }

  /** The names asked for, in the order of the answers. */
  ghost function AskedNames(b: Octets, w: seq<Question>, qlen: nat): seq<Octets>
    requires qlen < |b| && forall q <- w :: InMessage(b, q, qlen)
  {
    seq(|w|, k requires 0 <= k < |w| => assert w[k] in w; Asked(b, w[k], qlen))
  }

  /** Every answer maps back right after the request if and only if it asks for at most `max` names: beyond that, a
      later question of the request takes the index of an earlier one. */
  lemma AllMapBack(net: word, mask: word, c: LruSpec.Cache, b: Octets, qlen: nat, slen: nat, c': LruSpec.Cache,
                   len: int, out: Octets, qs: seq<Question>, port: Octets)
    requires Handled(net, c, b, qlen, slen, c', len, out) && qlen >= HEADER && len >= 0 && |port| == 2
    requires Recovers(net, Not(mask), c.max)
    requires qs == Questions(b, HEADER, U16(b, 4), qlen).0
    ensures QuestionsEnd(qs) + ANSWER * |Wanted(b, qs, qlen)| == len <= |out|
    ensures AllBack(mask, c', out, QuestionsEnd(qs), AskedNames(b, Wanted(b, qs, qlen), qlen), port)
      <==> |WantedNames(b, qs, qlen)| <= c.max
  {
    AnsweredParts(net, c, b, qlen, slen, c', len, out, qs);
    var end, names := QuestionsEnd(qs), AskedNames(b, Wanted(b, qs, qlen), qlen);
    hide Questions, Wanted, WantedNames, AskedNames, AllBack, And, Response, QuestionsEnd, Recovers, Resolve, Handled;
    if |WantedNames(b, qs, qlen)| <= c.max {
      FewMapBack(net, mask, c, b, qlen, slen, c', len, out, qs, port);
    }
    if AllBack(mask, c', out, end, names, port) {
      MapBackFew(net, mask, c, b, qlen, slen, c', len, out, qs, port);
    }
  }

  /** What an answered request has been answered with. */
  lemma AnsweredParts(net: word, c: LruSpec.Cache, b: Octets, qlen: nat, slen: nat, c': LruSpec.Cache,
                      len: int, out: Octets, qs: seq<Question>)
    requires Handled(net, c, b, qlen, slen, c', len, out) && qlen >= HEADER && len >= 0
    requires qs == Questions(b, HEADER, U16(b, 4), qlen).0
    ensures var (after, answers), end := Resolve(net, c, b, qs, qlen), QuestionsEnd(qs);
      && c' == after && |answers| == |Wanted(b, qs, qlen)| <= 32
      && (forall k :: 0 <= k < |answers| ==> answers[k].start == Wanted(b, qs, qlen)[k].start)
      && end + ANSWER * |answers| == len <= |out|
      && HEADER <= end <= |b| && out[..len] == Response(b, end, answers)
  {
    AnswerCount(net, c, b, qs, qlen);
    hide LruSpec.Ok, Response, QuestionsEnd, Resolve, InMessage, Wanted;
  }

  lemma FewMapBack(net: word, mask: word, c: LruSpec.Cache, b: Octets, qlen: nat, slen: nat, c': LruSpec.Cache,
                   len: int, out: Octets, qs: seq<Question>, port: Octets)
    requires Handled(net, c, b, qlen, slen, c', len, out) && qlen >= HEADER && len >= 0 && |port| == 2
    requires Recovers(net, Not(mask), c.max)
    requires qs == Questions(b, HEADER, U16(b, 4), qlen).0
    requires |WantedNames(b, qs, qlen)| <= c.max && QuestionsEnd(qs) + ANSWER * |Wanted(b, qs, qlen)| <= |out|
    ensures AllBack(mask, c', out, QuestionsEnd(qs), AskedNames(b, Wanted(b, qs, qlen), qlen), port)
  {
    var w, end := Wanted(b, qs, qlen), QuestionsEnd(qs);
    var names := AskedNames(b, w, qlen);
    hide Questions, Wanted, WantedNames, Asked, LruSpec.Lookup, LruSpec.Ok, And, Or, Response, QuestionsEnd, Recovers,
         Resolve, U32, MapsBack, InMessage;
    forall k | 0 <= k < |w| ensures MapsBack(mask, c', U32(out, end + ANSWER * k + 12), names[k], port) {
      MapsBackNow(net, mask, c, b, qlen, slen, c', len, out, qs, k, port);
    }
  }

  lemma MapBackFew(net: word, mask: word, c: LruSpec.Cache, b: Octets, qlen: nat, slen: nat, c': LruSpec.Cache,
                   len: int, out: Octets, qs: seq<Question>, port: Octets)
    requires Handled(net, c, b, qlen, slen, c', len, out) && qlen >= HEADER && len >= 0 && |port| == 2
    requires Recovers(net, Not(mask), c.max)
    requires qs == Questions(b, HEADER, U16(b, 4), qlen).0
    requires QuestionsEnd(qs) + ANSWER * |Wanted(b, qs, qlen)| <= |out|
    requires AllBack(mask, c', out, QuestionsEnd(qs), AskedNames(b, Wanted(b, qs, qlen), qlen), port)
    ensures |WantedNames(b, qs, qlen)| <= c.max
  {
    hide Questions, Wanted, WantedNames, Asked, LruSpec.Lookup, LruSpec.Ok, And, Or, Response, QuestionsEnd, Recovers,
         Resolve, U32, MapsBack, InMessage;
    var w, end := Wanted(b, qs, qlen), QuestionsEnd(qs);
    var names := AskedNames(b, w, qlen);
    AnsweredParts(net, c, b, qlen, slen, c', len, out, qs);
    var (after, answers) := Resolve(net, c, b, qs, qlen);
    forall k | 0 <= k < |w|
      ensures LruSpec.Lookup(after, And(answers[k].ip, Not(mask))).1 == Some(Asked(b, w[k], qlen))
    {
      Layout(b, end, answers, out, k);
      FoundName(mask, c', U32(out, end + ANSWER * k + 12), names[k], port);
    }
    NamesFit(net, Not(mask), c, b, qs, qlen);
  }

  lemma FoundName(mask: word, c: LruSpec.Cache, ip: nat, name: Octets, port: Octets)
    requires |port| == 2 && MapsBack(mask, c, ip, name, port)
    ensures LruSpec.Lookup(c, And(ip, Not(mask))).1 == Some(name)
  {
  }

  /** `AnswersMapBack` without further operations. */
  lemma MapsBackNow(net: word, mask: word, c: LruSpec.Cache, b: Octets, qlen: nat, slen: nat, c': LruSpec.Cache,
                    len: int, out: Octets, qs: seq<Question>, k: nat, port: Octets)
    requires Handled(net, c, b, qlen, slen, c', len, out) && qlen >= HEADER && len >= 0 && |port| == 2
    requires Recovers(net, Not(mask), c.max)
    requires qs == Questions(b, HEADER, U16(b, 4), qlen).0
    requires k < |Wanted(b, qs, qlen)| && |WantedNames(b, qs, qlen)| <= c.max
    ensures var at := QuestionsEnd(qs) + ANSWER * k;
      at + ANSWER <= |out| && MapsBack(mask, c', U32(out, at + 12), Asked(b, Wanted(b, qs, qlen)[k], qlen), port)
  {
    hide Questions, Wanted, WantedNames, Asked, LruSpec.Lookup, And, Or, Response, QuestionsEnd, Recovers, MapsBack,
         U32;
    assert LruSpec.Ok(c') && LruSpec.Touched(c', []) == {} && LruSpec.Run(c', []) == c';
    AnswersMapBack(net, mask, c, b, qlen, slen, c', len, out, qs, k, [], port);
  }

  /** The address stands for `name`; a connection to it is requested by that name exactly if it is short enough. */
  ghost predicate MapsBack(mask: word, c: LruSpec.Cache, ip: nat, name: Octets, port: Octets)
    requires |port| == 2
  {
    && LruSpec.Lookup(c, And(ip, Not(mask))).1 == Some(name)
    && forall behind :: 0 in behind ==> (FromName(name, behind, port) == Domain(name, port) <==> |name| <= 255)
  }

  lemma RecordAt(b: Octets, end: nat, answers: seq<Answer>, k: nat)
    requires HEADER <= end <= |b| && k < |answers|
    ensures end + ANSWER * k + ANSWER <= |Response(b, end, answers)|
    ensures Response(b, end, answers)[end + ANSWER * k..end + ANSWER * k + ANSWER]
      == RecordBytes(answers[k].start, answers[k].ip)
  {
    AnswerAt(answers, k);
    var h, a := ResponseHeader(b, |answers|) + b[HEADER..end], AnswerBytes(answers);
    hide AnswerBytes, RecordBytes, ResponseHeader;
    assert ANSWER * (k + 1) <= |a|;
    assert (h + a)[end + ANSWER * k..end + ANSWER * (k + 1)] == a[ANSWER * k..ANSWER * (k + 1)];
  }

  lemma SliceReads(out: Octets, r: Octets, rec: Octets, at: nat)
    requires |r| <= |out| && out[..|r|] == r && at + ANSWER <= |r| && r[at..at + ANSWER] == rec && |r| >= HEADER
    ensures U16(out, 6) == U16(r, 6) && forall i :: 0 <= i < |r| ==> out[i] == r[i]
    ensures U16(out, at) == U16(rec, 0) && U16(out, at + 2) == U16(rec, 2) && U16(out, at + 4) == U16(rec, 4)
    ensures U32(out, at + 6) == U32(rec, 6) && U16(out, at + 10) == U16(rec, 10) && U32(out, at + 12) == U32(rec, 12)
  {
    assert forall i :: 0 <= i < ANSWER ==> rec[i] == out[at + i];
  }

  // ----- requests with two questions, the second at offset 256 --------------------------------------------

  /** Both questions ask for an IPv4 address: of a name of 238 octets that starts with "a", and of the name "b". */
  ghost predicate TwoFar(b: Octets) {
    && |b| == 264 && U16(b, 4) == 2
    && b[12] == 238 && b[13] == 97 && b[251] == 0 && U16(b, 252) == 1 && U16(b, 254) == 1
    && b[256] == 1 && b[257] == 98 && b[258] == 0 && U16(b, 259) == 1 && U16(b, 261) == 1
  }

  const LONG_QUESTIONS := [Question(12, 251), Question(256, 258)]

  /** One such request, followed by an octet that does not belong to it. */
  lemma LongRequest() returns (b: Octets)
    ensures TwoFar(b) && forall i :: 13 <= i < 251 ==> b[i] == 97
  {
    var name := seq(238, _ => 97);
    b := [0, 7, 1, 0, 0, 2, 0, 0, 0, 0, 0, 0, 238] + name + [0, 0, 1, 0, 1, 1, 98, 0, 0, 1, 0, 1, 0];
    assert b[251..] == [0, 0, 1, 0, 1, 1, 98, 0, 0, 1, 0, 1, 0] && b[13..251] == name;
  }

  lemma LongQuestions(b: Octets)
    requires TwoFar(b)
    ensures Questions(b, HEADER, 2, 263) == (LONG_QUESTIONS, true)
    ensures NameEnd(b, 12, 263) == Some(251) && NameEnd(b, 256, 263) == Some(258)
  {
    var q1, q2 := LONG_QUESTIONS[0], LONG_QUESTIONS[1];
    assert NameEnd(b, 251, 263) == Some(251) && NameEnd(b, 12, 263) == Some(251);
    assert NameEnd(b, 258, 263) == Some(258) && NameEnd(b, 256, 263) == Some(258);
    hide NameEnd;
    assert [q2] + [] == [q2] && [q1] + [q2] == LONG_QUESTIONS;
    assert Questions(b, 256, 1, 263) == ([q2], true);
  }

  lemma LongWanted(b: Octets)
    requires TwoFar(b)
    ensures (forall q <- LONG_QUESTIONS :: InMessage(b, q, 263)) && Wanted(b, LONG_QUESTIONS, 263) == LONG_QUESTIONS
  {
    LongQuestions(b);
    hide NameEnd;
    var q1 := LONG_QUESTIONS[0];
    assert LONG_QUESTIONS[..1] == [q1] && [q1][..0] == [];
    assert Wanted(b, [q1], 263) == [q1];
  }

  lemma LongNames(b: Octets)
    requires TwoFar(b)
    ensures (forall q <- LONG_QUESTIONS :: InMessage(b, q, 263)) && |WantedNames(b, LONG_QUESTIONS, 263)| == 2
  {
    LongQuestions(b);
    LongWanted(b);
    hide Questions, Wanted;
    var n1, n2 := Asked(b, LONG_QUESTIONS[0], 263), Asked(b, LONG_QUESTIONS[1], 263);
    assert Labels(b, 12, 263) == [b[13..251]] && Labels(b, 256, 263) == [b[257..258]];
    assert n1[0] == 97 && n2[0] == 98;
    hide Asked, InMessage;
    assert WantedNames(b, LONG_QUESTIONS, 263) == {n1, n2};
  }

  /** A table with one slot answers both questions with the same address. */
  lemma OneSlotFails(net: word, mask: word, c: LruSpec.Cache, b: Octets, slen: nat, c': LruSpec.Cache, len: int,
                     out: Octets, port: Octets)
    requires TwoFar(b) && slen >= 512 && Handled(net, c, b, 263, slen, c', len, out) && |port| == 2
    requires c.max == 1 && Recovers(net, Not(mask), 1)
    ensures (forall q <- LONG_QUESTIONS :: InMessage(b, q, 263)) && len == 295 <= |out|
    ensures !AllBack(mask, c', out, 263, AskedNames(b, LONG_QUESTIONS, 263), port)
  {
    LongQuestions(b);
    LongWanted(b);
    LongNames(b);
    hide Questions, Wanted, LruSpec.Ok, Response, Resolve, InMessage, AllBack, AskedNames, Recovers, And, NameEnd,
         WantedNames, Asked;
    AnswerCount(net, c, b, LONG_QUESTIONS, 263);
    AllMapBack(net, mask, c, b, 263, slen, c', len, out, LONG_QUESTIONS, port);
  }

  /** The second answer does not point at its question but at offset 0, the message header. */
  lemma PointerFails(net: word, c: LruSpec.Cache, b: Octets, slen: nat, c': LruSpec.Cache, len: int, out: Octets)
    requires TwoFar(b) && slen >= 512 && Handled(net, c, b, 263, slen, c', len, out)
    ensures len == 295 && U16(out, 263 + ANSWER) == 0xc000
  {
    LongQuestions(b);
    LongWanted(b);
    hide Questions, Wanted, LruSpec.Ok, Response, Resolve, InMessage;
    AnswerCount(net, c, b, LONG_QUESTIONS, 263);
    hide Handled;
    AnsweredParts(net, c, b, 263, slen, c', len, out, LONG_QUESTIONS);
    Layout(b, 263, Resolve(net, c, b, LONG_QUESTIONS, 263).1, out, 1);
  }
}
