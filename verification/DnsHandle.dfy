/**
 hev_mapped_dns_handle: answer a request from the index. The request buffer is used as scratch space - label lengths
 are overwritten with dots so that a name can be read as a C string - and the response is built from a copy.
 */
module DnsHandle {
  import opened Options
  import opened Bytes
  import opened Words
  import opened DnsMessage
  import opened MappedDns
  import opened RBShape
  import opened Sorted
  import opened List
  import LruSpec

  /** Walk over the name at `off`, putting a dot in place of every label length. */
  method WalkName(req: array<byte>, off: nat, qlen: nat, ghost b: Octets) returns (ok: bool, off': nat)
    requires off < |b| && qlen < |b| == req.Length
    requires forall i :: off <= i < |b| ==> req[i] == b[i]
    modifies req
    ensures forall i :: 0 <= i < off ==> req[i] == old(req[i])
    ensures ok <==> NameEnd(b, off, qlen).Some?
    ensures ok ==> NameEnd(b, off, qlen) == Some(off') && req[off..off'] == Dots(Labels(b, off, qlen))
    ensures ok ==> forall i :: off' <= i < |b| ==> req[i] == b[i]
  {
    hide NameEnd, Labels, Dots;
    off' := off;
    ghost var seen: seq<Octets> := [];
    NoDots();
    while req[off'] != 0
      invariant off <= off' < |b|
      invariant NameEnd(b, off', qlen) == NameEnd(b, off, qlen)
      invariant NameEnd(b, off, qlen).Some? ==> Labels(b, off, qlen) == seen + Labels(b, off', qlen)
      invariant req[off..off'] == Dots(seen)
      invariant forall i :: off' <= i < |b| ==> req[i] == b[i]
      invariant forall i :: 0 <= i < off ==> req[i] == old(req[i])
      decreases |b| - off'
    {
      var poff := off';
      NameStep(b, poff, qlen);
      ghost var walked := req[off..poff];
      off' := off' + 1 + req[off'];
      if off' >= qlen {
        return false, off';
      }
      ghost var l := b[poff + 1..off'];
      req[poff] := DOT;
      assert req[off..off'] == walked + [DOT] + l;
      DotsAppend(seen, l);
      seen := seen + [l];
    }
    NameStop(b, off', qlen);
    assert NameEnd(b, off, qlen).Some? ==> Labels(b, off, qlen) == seen;
    ok := true;
  }

  lemma NoDots()
    ensures Dots([]) == []
  {
  }

  lemma NameStep(b: Octets, off: nat, qlen: nat)
    requires off < |b| && qlen < |b| && b[off] != 0
    ensures var next := off + 1 + b[off];
      if next >= qlen then NameEnd(b, off, qlen).None?
      else
        && NameEnd(b, off, qlen) == NameEnd(b, next, qlen)
        && (NameEnd(b, off, qlen).Some? ==> Labels(b, off, qlen) == [b[off + 1..next]] + Labels(b, next, qlen))
  {
  }

  lemma NameStop(b: Octets, off: nat, qlen: nat)
    requires off < |b| && qlen < |b| && b[off] == 0
    ensures NameEnd(b, off, qlen) == Some(off) && Labels(b, off, qlen) == []
  {
  }

  /** The C string behind the first dot is the asked name. */
  lemma ReadName(now: Octets, b: Octets, q: Question, qlen: nat)
    requires qlen < |b| == |now| && InMessage(b, q, qlen) && WantsAddress(b, q)
    requires now[q.start..q.stop] == Dots(Labels(b, q.start, qlen))
    requires forall i :: q.stop <= i < |b| ==> now[i] == b[i]
    ensures CString(now[q.start + 1..]) == Asked(b, q, qlen)
  {
    var ls := Labels(b, q.start, qlen);
    if b[q.start] == 0 {
      assert now[q.start + 1] == 0;
    } else {
      DotsDotted(ls);
      var tail := now[q.stop + 1..];
      assert now[q.start..] == now[q.start..q.stop] + [now[q.stop]] + tail;
      assert now[q.start + 1..] == Dotted(ls) + [0] + tail;
      CStringStops(Dotted(ls), tail);
    }
  }

  /** One more question: what is left to read, and what has been answered. */
  lemma NextQuestion(b: Octets, off: nat, n: nat, qlen: nat, stop: nat)
    requires off < |b| && qlen < |b| && n > 0 && NameEnd(b, off, qlen) == Some(stop)
    ensures stop + 4 >= qlen ==> Questions(b, off, n, qlen) == ([], false)
    ensures stop + 4 < qlen ==> InMessage(b, Question(off, stop), qlen)
    ensures stop + 4 < qlen ==>
      var (rest, ok) := Questions(b, stop + 5, n - 1, qlen);
        Questions(b, off, n, qlen) == ([Question(off, stop)] + rest, ok)
  {
  }

  lemma ResolveNext(net: word, c: LruSpec.Cache, b: Octets, qs: seq<Question>, q: Question, qlen: nat)
    requires LruSpec.Ok(c) && c.max < WORD && qlen < |b| && (forall x <- qs :: InMessage(b, x, qlen))
      && InMessage(b, q, qlen)
    ensures forall x <- qs + [q] :: InMessage(b, x, qlen)
    ensures var (c', answers) := Resolve(net, c, b, qs, qlen);
      if WantsAddress(b, q) then
        var (c'', idx) := LruSpec.Find(c', Asked(b, q, qlen));
        idx < c.max && Resolve(net, c, b, qs + [q], qlen)
          == (c'', answers + [Answer(q.start, Asked(b, q, qlen), OrWord(net, idx))])
      else Resolve(net, c, b, qs + [q], qlen) == (c', answers)
  {
    hide LruSpec.Ok, LruSpec.Find, Asked, InMessage;
    var qs' := qs + [q];
    assert qs'[..|qs'| - 1] == qs;
    LruSpec.FindOk(Resolve(net, c, b, qs, qlen).0, Asked(b, q, qlen));
  }

  /** The two scratch arrays hold the answers. */
  ghost predicate Listed(answers: seq<Answer>, ips: seq<word>, ipo: seq<nat>, ipn: nat) {
    && ipn == |answers| && |ips| == |ipo| == 32 && ipn <= 32
    && forall k :: 0 <= k < ipn ==> ips[k] == answers[k].ip && ipo[k] == answers[k].start
  }

  /** One question: its name as a C string, if it asks for an IPv4 address. */
  method ReadQuestion(req: array<byte>, off: nat, qlen: nat, ghost b: Octets)
    returns (ok: bool, stop: nat, want: bool, name: Octets)
    requires off < |b| && qlen < |b| == req.Length
    requires forall i :: off <= i < |b| ==> req[i] == b[i]
    modifies req
    ensures ok <==> NameEnd(b, off, qlen).Some? && NameEnd(b, off, qlen).value + 4 < qlen
    ensures ok ==> NameEnd(b, off, qlen) == Some(stop) && forall i :: stop <= i < |b| ==> req[i] == b[i]
    ensures ok ==> (want <==> WantsAddress(b, Question(off, stop)))
    ensures ok && want ==> name == Asked(b, Question(off, stop), qlen)
  {
    hide NameEnd, Labels, Asked, Dots, CString;
    ok, stop := WalkName(req, off, qlen, b);
    want, name := false, [];
    if !ok || stop + 4 >= qlen {
      ok := false;
      return;
    }
    want := U16(req[..], stop + 1) == 1 && U16(req[..], stop + 3) == 1;
    if want {
      ReadName(req[..], b, Question(off, stop), qlen);
      name := CString(req[off + 1..]);
      assert req[..][off + 1..] == req[off + 1..];
    }
  }

  method Ask(dns: MappedDns, req: array<byte>, off: nat, qlen: nat, ghost b: Octets)
    returns (ok: bool, stop: nat, want: bool, ip: word)
    requires dns.Valid() && LruSpec.Ok(dns.Abs()) && off < |b| && qlen < |b| == req.Length
    requires forall i :: off <= i < |b| ==> req[i] == b[i]
    modifies dns.Repr(), req
    ensures dns.Valid() && forall o <- dns.Repr() :: o in old(dns.Repr()) || fresh(o)
    ensures ok <==> NameEnd(b, off, qlen).Some? && NameEnd(b, off, qlen).value + 4 < qlen
    ensures !ok || !want ==> dns.Abs() == old(dns.Abs())
    ensures ok ==> NameEnd(b, off, qlen) == Some(stop) && forall i :: stop <= i < |b| ==> req[i] == b[i]
    ensures ok ==> (want <==> WantsAddress(b, Question(off, stop)))
    ensures ok && want ==>
      var (c', idx) := LruSpec.Find(old(dns.Abs()), Asked(b, Question(off, stop), qlen));
      idx < dns.max && dns.Abs() == c' && ip == OrWord(dns.net, idx)
  {
    hide NameEnd, Labels, Asked, LruSpec.Ok, LruSpec.Find, S, Rep, Distinct, RedBlack, Spells, InOrder, SortedBy, Agree,
         Shows;
    ghost var ts :| ts == S(dns.tree.shape);
    var name;
    ok, stop, want, name := ReadQuestion(req, off, qlen, b);
    ip := 0;
    if ok && want {
      LruSpec.FindOk(dns.Abs(), name);
      var idx := dns.Find(name);
      ip := OrWord(dns.net, idx);
    }
  }

  /** The first loop: read the questions and resolve the names. */
  method ReadQuestions(dns: MappedDns, req: array<byte>, qlen: nat, qd: nat, ghost b: Octets)
    returns (ok: bool, off: nat, ips: seq<word>, ipo: seq<nat>, ipn: nat, ghost answers: seq<Answer>)
    requires dns.Valid() && LruSpec.Ok(dns.Abs()) && dns.max < WORD && qd <= 32 && HEADER < req.Length == |b|
      && qlen < |b|
    requires forall i :: HEADER <= i < |b| ==> req[i] == b[i]
    modifies dns.Repr(), req
    ensures dns.Valid() && forall o <- dns.Repr() :: o in old(dns.Repr()) || fresh(o)
    ensures var (qs, good) := Questions(b, HEADER, qd, qlen);
      ok == good && (dns.Abs(), answers) == Resolve(dns.net, old(dns.Abs()), b, qs, qlen)
        && (ok ==> off == QuestionsEnd(qs))
    ensures ok ==> Listed(answers, ips, ipo, ipn)
  {
    hide NameEnd, Labels, Questions, Resolve, Asked, WantsAddress, LruSpec.Ok, LruSpec.Find, InMessage, Dots, OrWord,
         MappedDns.Valid, MappedDns.Repr;
    ips, ipo, ipn, off := seq(32, _ => 0), seq(32, _ => 0), 0, HEADER;
    ghost var done: seq<Question> := [];
    answers := [];
    NoQuestions(dns.net, dns.Abs(), b, qlen);
    assert done + Questions(b, off, qd, qlen).0 == Questions(b, off, qd, qlen).0;
    var i := 0;
    while i < qd
      invariant i <= qd && i == |done| && ipn <= i && off < |b|
      invariant forall x <- done :: InMessage(b, x, qlen)
      invariant Questions(b, HEADER, qd, qlen) == (done + Questions(b, off, qd - i, qlen).0,
                                                   Questions(b, off, qd - i, qlen).1)
      invariant off == QuestionsEnd(done)
      invariant dns.Valid() && forall o <- dns.Repr() :: o in old(dns.Repr()) || fresh(o)
      invariant (dns.Abs(), answers) == Resolve(dns.net, old(dns.Abs()), b, done, qlen)
      invariant Listed(answers, ips, ipo, ipn)
      invariant forall k :: off <= k < |b| ==> req[k] == b[k]
    {
      ipo := ipo[ipn := off];
      var stop, want, ip;
      ok, stop, want, ip := Ask(dns, req, off, qlen, b);
      if !ok {
        LastQuestion(b, off, qd - i, qlen);
        assert done + [] == done;
        return;
      }
      ghost var q := Question(off, stop);
      NextQuestion(b, off, qd - i, qlen, stop);
      ResolveNext(dns.net, old(dns.Abs()), b, done, q, qlen);
      if want {
        ips := ips[ipn := ip];
        ipn := ipn + 1;
        answers := answers + [Answer(off, Asked(b, q, qlen), ip)];
      }
      ghost var rest := Questions(b, stop + 5, qd - i - 1, qlen).0;
      assert done + ([q] + rest) == done + [q] + rest;
      done := done + [q];
      off := stop + 5;
      i := i + 1;
    }
    NoneLeft(b, off, qlen);
    assert done + [] == done;
    ok := true;
  }

  lemma NoQuestions(net: word, c: LruSpec.Cache, b: Octets, qlen: nat)
    requires LruSpec.Ok(c) && c.max < WORD && qlen < |b|
    ensures Resolve(net, c, b, [], qlen) == (c, [])
  {
  }

  lemma NoneLeft(b: Octets, off: nat, qlen: nat)
    requires off < |b| && qlen < |b|
    ensures Questions(b, off, 0, qlen) == ([], true)
  {
  }

  lemma LastQuestion(b: Octets, off: nat, n: nat, qlen: nat)
    requires off < |b| && qlen < |b| && n > 0 && (NameEnd(b, off, qlen).None?
                                                  || NameEnd(b, off, qlen).value + 4 >= qlen)
    ensures Questions(b, off, n, qlen) == ([], false)
  {
  }

  method WriteU16(p: array<byte>, i: nat, v: nat)
    requires i + 2 <= p.Length
    modifies p
    ensures [p[i], p[i + 1]] == BytesOf16(v)
    ensures forall k :: 0 <= k < p.Length && !(i <= k < i + 2) ==> p[k] == old(p[k])
  {
    p[i] := v / 0x100 % 0x100;
    p[i + 1] := v % 0x100;
  }

  method WriteU32(p: array<byte>, i: nat, v: nat)
    requires i + 4 <= p.Length
    modifies p
    ensures [p[i], p[i + 1], p[i + 2], p[i + 3]] == BytesOf32(v)
    ensures forall k :: 0 <= k < p.Length && !(i <= k < i + 4) ==> p[k] == old(p[k])
  {
    p[i] := v / 0x100_0000 % 0x100;
    p[i + 1] := v / 0x1_0000 % 0x100;
    p[i + 2] := v / 0x100 % 0x100;
    p[i + 3] := v % 0x100;
  }

  /** One answer of 16 octets. */
  method WriteRecord(sb: array<byte>, off: nat, start: nat, ip: word)
    requires off + ANSWER <= sb.Length
    modifies sb
    ensures forall k :: 0 <= k < off ==> sb[k] == old(sb[k])
    ensures sb[off..off + ANSWER] == RecordBytes(start, ip)
  {
    sb[off] := 0xc0;
    sb[off + 1] := start % 0x100;
    WriteU16(sb, off + 2, 1);
    WriteU16(sb, off + 4, 1);
    WriteU32(sb, off + 6, 1);
    WriteU16(sb, off + 10, 4);
    WriteU32(sb, off + 12, ip);
  }

  /** The second loop: append the answers, unless they do not fit. */
  method WriteAnswers(sb: array<byte>, off: nat, ips: seq<word>, ipo: seq<nat>, ipn: nat, ghost answers: seq<Answer>)
    returns (ok: bool, off': nat)
    requires off <= sb.Length && Listed(answers, ips, ipo, ipn)
    modifies sb
    ensures forall k :: 0 <= k < off ==> sb[k] == old(sb[k])
    ensures ok <==> off + ANSWER * ipn <= sb.Length
    ensures ok ==> off' == off + ANSWER * ipn && sb[off..off'] == AnswerBytes(answers)
  {
    hide RecordBytes;
    off' := off;
    assert answers[..0] == [];
    for i := 0 to ipn
      invariant off' == off + ANSWER * i <= sb.Length
      invariant sb[off..off'] == AnswerBytes(answers[..i])
      invariant forall k :: 0 <= k < off ==> sb[k] == old(sb[k])
    {
      if off' + 15 >= sb.Length {
        return false, off';
      }
      ghost var was := sb[off..off'];
      WriteRecord(sb, off', ipo[i], ips[i]);
      assert sb[off..off' + ANSWER] == was + sb[off'..off' + ANSWER];
      assert answers[..i + 1][..i] == answers[..i];
      off' := off' + ANSWER;
    }
    assert answers[..ipn] == answers;
    ok := true;
  }

  /** Copy the request; flags and question count change to host order, the other counts to zero. */
  method Begin(req: array<byte>, qlen: nat, res: array<byte>) returns (qd: nat)
    requires req != res && HEADER < req.Length && HEADER <= res.Length && qlen <= req.Length && qlen <= res.Length
    modifies req, res
    ensures qd == U16(old(req[..]), 4)
    ensures forall i :: HEADER <= i < req.Length ==> req[i] == old(req[i])
    ensures qlen >= HEADER ==> Begun(old(req[..]), qlen, res[..])
  {
    forall i | 0 <= i < qlen {
      res[i] := req[i];
    }
    req[4], req[5] := req[5], req[4];
    res[2], res[3] := res[3], res[2];
    res[8], res[9] := 0, 0;
    res[6], res[7] := 0, 0;
    res[10], res[11] := 0, 0;
    qd := 256 * (req[5] as int) + req[4];
  }

  /** Set the flags and the answer count, back in network order. */
  method End(res: array<byte>, ipn: nat)
    requires HEADER <= res.Length
    modifies res
    ensures forall i :: 0 <= i < res.Length && !(2 <= i < 4) && !(6 <= i < 8) ==> res[i] == old(res[i])
    ensures [res[2], res[3]] == BytesOf16(ResponseFlags(256 * (old(res[3]) as int) + old(res[2])))
    ensures [res[6], res[7]] == BytesOf16(ipn)
  {
    WriteU16(res, 2, ResponseFlags(256 * (res[3] as int) + res[2]));
    WriteU16(res, 6, ipn);
  }

  /** The outcome of a request `b` of `qlen` octets on the table `c`: a response is given exactly when the request is
      complete, has at most 32 questions and leaves room for the answers; it is then the request's header and
      questions followed by the answers. */
  ghost predicate Handled(net: word, c: LruSpec.Cache, b: Octets, qlen: nat, slen: nat, c': LruSpec.Cache, len: int,
                          out: Octets) {
    && LruSpec.Ok(c) && c.max < WORD && HEADER < |b| && qlen < |b| && |out| == slen
    && if slen < qlen || U16(b, 4) > 32 then len == -1 && c' == c
       else
         var (qs, complete) := Questions(b, HEADER, U16(b, 4), qlen);
         var (after, answers) := Resolve(net, c, b, qs, qlen);
         var end := QuestionsEnd(qs);
         && c' == after
         && len == (if complete && end + ANSWER * |answers| <= slen then end + ANSWER * |answers| else -1)
         && (qlen >= HEADER && len >= 0 ==> HEADER <= end <= qlen && out[..len] == Response(b, end, answers))
  }

  /** What `Begin` leaves in the response buffer. */
  ghost predicate Begun(b: Octets, qlen: nat, out: Octets)
    requires HEADER < |b|
  {
    && HEADER <= qlen <= |b| && qlen <= |out|
    && out[..HEADER] == [b[0], b[1], b[3], b[2], b[4], b[5], 0, 0, 0, 0, 0, 0]
    && forall i :: HEADER <= i < qlen ==> out[i] == b[i]
  }

  /** The part of hev_mapped_dns_handle after the questions have been read. */
  method Respond(res: array<byte>, off: nat, ips: seq<word>, ipo: seq<nat>, ipn: nat,
                 ghost answers: seq<Answer>, ghost b: Octets, ghost qlen: nat) returns (len: int)
    requires HEADER <= off <= res.Length && HEADER < |b| && Listed(answers, ips, ipo, ipn)
    modifies res
    ensures len == if off + ANSWER * |answers| <= res.Length then off + ANSWER * |answers| else -1
    ensures old(Begun(b, qlen, res[..])) && off <= qlen && len >= 0 ==> res[..len] == Response(b, off, answers)
  {
    hide ResponseFlags, AnswerBytes, BytesOf16;
    var ok, off' := WriteAnswers(res, off, ips, ipo, ipn, answers);
    if !ok {
      return -1;
    }
    ghost var body := res[off..off'];
    End(res, ipn);
    len := off';
    if old(Begun(b, qlen, res[..])) && off <= qlen {
      ghost var h := ResponseHeader(b, ipn);
      assert res[..HEADER] == h;
      assert res[HEADER..off] == b[HEADER..off];
      assert res[off..off'] == body;
      assert res[..len] == res[..HEADER] + res[HEADER..off] + res[off..off'];
    }
  }

  lemma EndBounds(b: Octets, n: nat, qlen: nat)
    requires HEADER < |b| && qlen < |b|
    ensures var end := QuestionsEnd(Questions(b, HEADER, n, qlen).0); end >= HEADER && (end <= qlen || end == HEADER)
  {
    var qs := Questions(b, HEADER, n, qlen).0;
    if qs != [] {
      assert qs[|qs| - 1] in qs;
    }
  }

  // Work on the buffers leaves the index alone.

  method BeginKeeps(ghost dns: MappedDns, req: array<byte>, qlen: nat, res: array<byte>) returns (qd: nat)
    requires dns.Valid()
    requires req != res && HEADER < req.Length && HEADER <= res.Length && qlen <= req.Length && qlen <= res.Length
    modifies req, res
    ensures dns.Valid() && dns.Repr() == old(dns.Repr()) && dns.Abs() == old(dns.Abs()) && res !in dns.Repr()
    ensures qd == U16(old(req[..]), 4)
    ensures forall i :: HEADER <= i < req.Length ==> req[i] == old(req[i])
    ensures qlen >= HEADER ==> Begun(old(req[..]), qlen, res[..])
  {
    hide Begun, S, Rep, Distinct, RedBlack, Spells, InOrder, SortedBy, Agree, Shows, SetOf;
    ghost var ts :| ts == S(dns.tree.shape);
    qd := Begin(req, qlen, res);
  }

  method RespondKeeps(ghost dns: MappedDns, res: array<byte>, off: nat, ips: seq<word>, ipo: seq<nat>, ipn: nat,
                      ghost answers: seq<Answer>, ghost b: Octets, ghost qlen: nat) returns (len: int)
    requires dns.Valid()
    requires HEADER <= off <= res.Length && HEADER < |b| && Listed(answers, ips, ipo, ipn)
    modifies res
    ensures dns.Valid() && dns.Repr() == old(dns.Repr()) && dns.Abs() == old(dns.Abs())
    ensures len == if off + ANSWER * |answers| <= res.Length then off + ANSWER * |answers| else -1
    ensures old(Begun(b, qlen, res[..])) && off <= qlen && len >= 0 ==> res[..len] == Response(b, off, answers)
  {
    hide Begun, Listed, Response, S, Rep, Distinct, RedBlack, Spells, InOrder, SortedBy, Agree, Shows, SetOf;
    ghost var ts :| ts == S(dns.tree.shape);
    len := Respond(res, off, ips, ipo, ipn, answers, b, qlen);
  }

  /** hev_mapped_dns_handle; `req` is readable one octet beyond the request. */
  method Handle(dns: MappedDns, req: array<byte>, qlen: nat, res: array<byte>) returns (len: int)
    requires dns.Valid() && req != res && HEADER < req.Length && qlen < req.Length && HEADER <= res.Length
    modifies dns.Repr(), req, res
    ensures dns.Valid() && forall o <- dns.Repr() :: o in old(dns.Repr()) || fresh(o)
    ensures Handled(dns.net, old(dns.Abs()), old(req[..]), qlen, res.Length, dns.Abs(), len, res[..])
  {
    hide NameEnd, Questions, QuestionsEnd, Resolve, Response, LruSpec.Ok, LruSpec.Find, InMessage, Listed, Begun,
         MappedDns.Valid, MappedDns.Repr;
    dns.AbsOk();
    ghost var b := req[..];
    if res.Length < qlen {
      return -1;
    }
    var qd := BeginKeeps(dns, req, qlen, res);
    if qd > 32 {
      return -1;
    }
    ghost var out := res[..];
    var ok, off, ips, ipo, ipn;
    ghost var answers;
    ok, off, ips, ipo, ipn, answers := ReadQuestions(dns, req, qlen, qd, b);
    assert res[..] == out;
    if !ok {
      return -1;
    }
    EndBounds(b, qd, qlen);
    len := RespondKeeps(dns, res, off, ips, ipo, ipn, answers, b, qlen);
  }
}
