/**
 Requests and responses of the mapped DNS octet by octet: which questions are answered, with what, and how the table
 changes.
 */
module DnsWire {
  import opened Options
  import opened Bytes
  import opened Words
  import opened DnsMessage
  import opened DnsHandle
  import opened MappedAddress
  import LruSpec

  // ----- names on the wire --------------------------------------------------------------------------------

  /** Section 3.1 of RFC 1035: each label behind its length, and a zero octet at the end. */
  ghost predicate SpellsName(octets: Octets, labels: seq<Octets>)
    decreases |labels|
  {
    if labels == [] then octets == [0]
    else
      var n := |labels[0]|;
      && 0 < n < 256 && |octets| > n + 1 && octets[0] == n && octets[1..n + 1] == labels[0]
      && SpellsName(octets[n + 1..], labels[1..])
  }

  lemma RootSpelled()
    ensures SpellsName([0], [])
  {
  }

  lemma SpellsMore(n: byte, part: Octets, more: Octets, labels: seq<Octets>)
    requires n as int == |part| > 0 && SpellsName(more, labels)
    ensures SpellsName([n] + part + more, [part] + labels)
  {
    var octets := [n] + part + more;
    assert more != [];
    assert octets[1..|part| + 1] == part && octets[|part| + 1..] == more;
    assert ([part] + labels)[1..] == labels;
  }

  lemma {:induction false} NameSpelled(b: Octets, off: nat, qlen: nat)
    requires off < |b| && qlen < |b| && NameEnd(b, off, qlen).Some?
    ensures SpellsName(b[off..NameEnd(b, off, qlen).value + 1], Labels(b, off, qlen))
    decreases |b| - off
  {
    hide SpellsName;
    var stop := NameEnd(b, off, qlen).value;
    var octets := b[off..stop + 1];
    if b[off] == 0 {
      assert octets == [0];
      RootSpelled();
    } else {
      var n: nat := b[off];
      var next := off + 1 + n;
      NameSpelled(b, next, qlen);
      assert next <= stop;
      var part, more := b[off + 1..next], b[next..stop + 1];
      assert octets == [b[off]] + part + more;
      assert Labels(b, off, qlen) == [part] + Labels(b, next, qlen);
      SpellsMore(b[off], part, more, Labels(b, next, qlen));
    }
  }

  lemma SubSlice(b: Octets, off: nat, end: nat, i: nat, j: nat)
    requires off <= end <= |b| && i <= j <= end - off
    ensures b[off..end][i..j] == b[off + i..off + j]
  {
    var slice := b[off..end];
    assert forall k :: i <= k < j ==> slice[k] == b[off + k];
  }

  /** A name that is spelled inside the request is read. */
  lemma {:induction false} SpelledRead(b: Octets, off: nat, stop: nat, qlen: nat, labels: seq<Octets>)
    requires off <= stop < qlen < |b| && SpellsName(b[off..stop + 1], labels)
    ensures NameEnd(b, off, qlen) == Some(stop) && Labels(b, off, qlen) == labels
    decreases |labels|
  {
    var octets := b[off..stop + 1];
    if labels == [] {
      assert octets[0] == b[off];
    } else {
      var n := |labels[0]|;
      var next := off + 1 + n;
      assert octets[0] == b[off];
      SubSlice(b, off, stop + 1, 1, n + 1);
      SubSlice(b, off, stop + 1, n + 1, |octets|);
      SpelledRead(b, next, stop, qlen, labels[1..]);
      assert labels == [labels[0]] + labels[1..];
    }
  }

  /** Text as octets. */
  function Ascii(s: string): Octets { seq(|s|, k requires 0 <= k < |s| => (s[k] as int % 256) as byte) }

  function JoinDots(parts: seq<string>): string {
    if parts == [] then "" else if |parts| == 1 then parts[0] else parts[0] + "." + JoinDots(parts[1..])
  }

  function Ascii2(parts: seq<string>): (r: seq<Octets>)
    ensures |r| == |parts|
  {
    if parts == [] then [] else [Ascii(parts[0])] + Ascii2(parts[1..])
  }

  /** A name is its labels with dots between them. */
  lemma {:induction false} DottedText(parts: seq<string>)
    ensures Dotted(Ascii2(parts)) == Ascii(JoinDots(parts))
    decreases |parts|
  {
    if |parts| > 1 {
      DottedText(parts[1..]);
      assert Ascii2(parts)[1..] == Ascii2(parts[1..]);
      var a, b := parts[0], JoinDots(parts[1..]);
      assert Ascii(a + "." + b) == Ascii(a) + [DOT] + Ascii(b);
    }
  }

  // ----- questions on the wire ----------------------------------------------------------------------------

  /** The questions stand one behind the other, from `off` on, and end inside the request: each is a name, its type and
      its class. */
  ghost predicate StandIn(b: Octets, off: nat, qs: seq<Question>, names: seq<seq<Octets>>, qlen: nat) {
    |qs| == |names| && forall k :: 0 <= k < |qs| ==> StandsAt(b, off, qs, names, qlen, k)
  }

  ghost predicate StandsAt(b: Octets, off: nat, qs: seq<Question>, names: seq<seq<Octets>>, qlen: nat, k: nat)
    requires k < |qs| == |names|
  {
    && qs[k].start == (if k == 0 then off else qs[k - 1].stop + 5)
    && qs[k].start <= qs[k].stop && qs[k].stop + 5 <= qlen <= |b|
    && SpellsName(b[qs[k].start..qs[k].stop + 1], names[k])
  }

  function LabelsOf(b: Octets, q: Question, qlen: nat): seq<Octets>
    requires qlen < |b| && InMessage(b, q, qlen)
  {
    Labels(b, q.start, qlen)
  }

  /** The labels of each question's name. */
  ghost function NamesOf(b: Octets, qs: seq<Question>, qlen: nat): (names: seq<seq<Octets>>)
    requires qlen < |b| && forall q <- qs :: InMessage(b, q, qlen)
    ensures |names| == |qs|
    ensures forall k :: 0 <= k < |qs| ==> qs[k] in qs && names[k] == LabelsOf(b, qs[k], qlen)
  {
    seq(|qs|, k requires 0 <= k < |qs| => assert qs[k] in qs; LabelsOf(b, qs[k], qlen))
  }

  lemma QuestionSpelled(b: Octets, q: Question, qlen: nat)
    requires qlen < |b| && InMessage(b, q, qlen)
    ensures q.start <= q.stop && q.stop + 5 <= qlen && SpellsName(b[q.start..q.stop + 1], LabelsOf(b, q, qlen))
  {
    hide SpellsName;
    NameSpelled(b, q.start, qlen);
  }

  lemma QuestionsSplit(b: Octets, off: nat, n: nat, qlen: nat)
    requires off < |b| && qlen < |b|
    ensures var qs := Questions(b, off, n, qlen).0;
      qs != [] ==>
        && n > 0 && qs[0].start == off && qs[0].stop + 5 < |b|
        && qs[1..] == Questions(b, qs[0].stop + 5, n - 1, qlen).0
  {
  }

  lemma {:induction false} QuestionsStand(b: Octets, off: nat, n: nat, qlen: nat)
    requires off < |b| && qlen < |b|
    ensures var qs := Questions(b, off, n, qlen).0; StandIn(b, off, qs, NamesOf(b, qs, qlen), qlen)
    decreases n
  {
    hide SpellsName, InMessage, Questions, LabelsOf;
    var qs := Questions(b, off, n, qlen).0;
    var names := NamesOf(b, qs, qlen);
    QuestionsSplit(b, off, n, qlen);
    if qs != [] {
      var q, rest := qs[0], qs[1..];
      assert q in qs;
      QuestionSpelled(b, q, qlen);
      QuestionsStand(b, q.stop + 5, n - 1, qlen);
      forall k | 0 <= k < |qs| ensures StandsAt(b, off, qs, names, qlen, k) {
        if k > 0 {
          assert StandsAt(b, q.stop + 5, rest, NamesOf(b, rest, qlen), qlen, k - 1);
          assert qs[k] == rest[k - 1] && names[k] == NamesOf(b, rest, qlen)[k - 1];
        }
      }
    }
  }

  /** Questions that stand in a request are read: with `QuestionsStand`, a request is complete exactly if they do. */
  lemma {:induction false} StandRead(b: Octets, off: nat, qs: seq<Question>, names: seq<seq<Octets>>, qlen: nat)
    requires off <= qlen < |b| && StandIn(b, off, qs, names, qlen)
    ensures Questions(b, off, |qs|, qlen) == (qs, true)
    decreases |qs|
  {
    hide SpellsName, NameEnd, Labels;
    if qs != [] {
      var q, rest, more := qs[0], qs[1..], names[1..];
      assert StandsAt(b, off, qs, names, qlen, 0);
      SpelledRead(b, off, q.stop, qlen, names[0]);
      var next := q.stop + 5;
      forall k | 0 <= k < |rest| ensures StandsAt(b, next, rest, more, qlen, k) {
        assert StandsAt(b, off, qs, names, qlen, k + 1);
      }
      StandRead(b, next, rest, more, qlen);
      assert qs == [q] + rest;
    }
  }

  /** The four octets behind a name. */
  function TypeAndClass(b: Octets, q: Question): Octets
    requires q.stop + 5 <= |b|
  {
    b[q.stop + 1..q.stop + 5]
  }

  /** `sel` are the numbers of the questions of type A and class IN, in order. */
  ghost predicate Selects(b: Octets, qs: seq<Question>, sel: seq<nat>)
    requires forall q <- qs :: q.stop + 5 <= |b|
  {
    && (forall i, j :: 0 <= i < j < |sel| ==> sel[i] < sel[j])
    && (forall k <- sel :: k < |qs|)
    && (forall k :: 0 <= k < |qs| ==> (k in sel <==> TypeAndClass(b, qs[k]) == [0, 1, 0, 1]))
  }

  lemma WantsIs(b: Octets, q: Question)
    requires q.stop + 5 <= |b|
    ensures WantsAddress(b, q) <==> TypeAndClass(b, q) == [0, 1, 0, 1]
  {
    var t := TypeAndClass(b, q);
    assert t == [b[q.stop + 1], b[q.stop + 2], b[q.stop + 3], b[q.stop + 4]];
  }

  // ----- what the table is asked --------------------------------------------------------------------------

  /** The name that labels make, up to a NUL. */
  function NameOf(labels: seq<Octets>): Octets { CString(Dotted(labels)) }

  /** The table is asked for the names in order, from state to state, and every address is the network prefix with the
      index found. */
  ghost predicate Finds(net: word, names: seq<Octets>, ips: seq<nat>, tables: seq<LruSpec.Cache>) {
    && |ips| == |names| && |tables| == |names| + 1
    && forall j :: 0 <= j < |names| ==> FindsOne(net, names[j], ips[j], tables[j], tables[j + 1])
  }

  ghost predicate FindsOne(net: word, name: Octets, ip: nat, c: LruSpec.Cache, c': LruSpec.Cache) {
    c.max >= 1 && var (after, idx) := LruSpec.Find(c, name); after == c' && idx < WORD && ip == OrWord(net, idx)
  }

  lemma FindsNext(net: word, names: seq<Octets>, ips: seq<nat>, tables: seq<LruSpec.Cache>, name: Octets, ip: nat,
                  c': LruSpec.Cache)
    requires Finds(net, names, ips, tables) && FindsOne(net, name, ip, tables[|names|], c')
    ensures Finds(net, names + [name], ips + [ip], tables + [c'])
  {
    hide FindsOne;
    var names', ips', tables' := names + [name], ips + [ip], tables + [c'];
    forall j | 0 <= j < |names'| ensures FindsOne(net, names'[j], ips'[j], tables'[j], tables'[j + 1]) {
      assert j < |names| ==> FindsOne(net, names[j], ips[j], tables[j], tables[j + 1]);
    }
  }

  /** The names that the selected questions ask for. */
  ghost function AskedBy(b: Octets, qs: seq<Question>, sel: seq<nat>, qlen: nat): (r: seq<Octets>)
    requires qlen < |b| && (forall q <- qs :: InMessage(b, q, qlen)) && forall k <- sel :: k < |qs|
    ensures |r| == |sel|
    ensures forall j :: 0 <= j < |sel| ==> sel[j] in sel && qs[sel[j]] in qs && r[j] == Asked(b, qs[sel[j]], qlen)
  {
    seq(|sel|, j requires 0 <= j < |sel| => assert sel[j] in sel && qs[sel[j]] in qs; Asked(b, qs[sel[j]], qlen))
  }

  ghost predicate Answers(answers: seq<Answer>, qs: seq<Question>, sel: seq<nat>, ips: seq<nat>)
    requires forall k <- sel :: k < |qs|
  {
    |answers| == |sel| == |ips|
    && forall j :: 0 <= j < |sel| ==> sel[j] in sel && answers[j].start == qs[sel[j]].start && answers[j].ip == ips[j]
  }

  /** Resolving asks for exactly the selected questions. */
  lemma {:induction false} ResolveSelects(net: word, c: LruSpec.Cache, b: Octets, qs: seq<Question>, qlen: nat)
    returns (sel: seq<nat>, ips: seq<nat>, tables: seq<LruSpec.Cache>)
    requires LruSpec.Ok(c) && c.max < WORD && qlen < |b| && forall q <- qs :: InMessage(b, q, qlen)
    ensures (forall q <- qs :: q.stop + 5 <= |b|) && Selects(b, qs, sel)
    ensures var (c', answers) := Resolve(net, c, b, qs, qlen);
      && Finds(net, AskedBy(b, qs, sel, qlen), ips, tables) && tables[0] == c && tables[|sel|] == c'
      && Answers(answers, qs, sel, ips)
    decreases |qs|
  {
    hide LruSpec.Ok, LruSpec.Find, Asked, InMessage, Resolve, Selects, Finds, Answers, FindsOne, AskedBy, WantsAddress;
    if qs == [] {
      sel, ips, tables := [], [], [c];
      NothingSelected(net, c, b, qlen);
    } else {
      var n := |qs| - 1;
      var q, front := qs[n], qs[..n];
      assert q in qs && InMessage(b, q, qlen);
      WithinMessage(b, q, qlen);
      sel, ips, tables := ResolveSelects(net, c, b, front, qlen);
      assert qs == front + [q];
      WantsIs(b, q);
      ResolveNext(net, c, b, front, q, qlen);
      SelectsNext(b, front, q, sel);
      SelectsBelow(b, front, sel);
      AskedNext(b, front, q, sel, qlen);
      var (c1, answers) := Resolve(net, c, b, front, qlen);
      AnswersLonger(answers, front, q, sel, ips);
      FindsLengths(net, AskedBy(b, front, sel, qlen), ips, tables);
      if WantsAddress(b, q) {
        var name := Asked(b, q, qlen);
        FoundOne(net, name, c1);
        var (c2, idx) := LruSpec.Find(c1, name);
        FindsNext(net, AskedBy(b, front, sel, qlen), ips, tables, name, OrWord(net, idx), c2);
        AnswersNext(answers, front, q, sel, ips, Answer(q.start, name, OrWord(net, idx)));
        sel, ips, tables := sel + [n], ips + [OrWord(net, idx)], tables + [c2];
      }
    }
  }

  lemma NothingSelected(net: word, c: LruSpec.Cache, b: Octets, qlen: nat)
    requires LruSpec.Ok(c) && c.max < WORD && qlen < |b|
    ensures Selects(b, [], []) && Resolve(net, c, b, [], qlen) == (c, [])
    ensures Finds(net, AskedBy(b, [], [], qlen), [], [c]) && Answers([], [], [], [])
  {
  }

  lemma SelectsBelow(b: Octets, qs: seq<Question>, sel: seq<nat>)
    requires (forall x <- qs :: x.stop + 5 <= |b|) && Selects(b, qs, sel)
    ensures forall k <- sel :: k < |qs|
  {
  }

  lemma FindsLengths(net: word, names: seq<Octets>, ips: seq<nat>, tables: seq<LruSpec.Cache>)
    requires Finds(net, names, ips, tables)
    ensures |ips| == |names| && |tables| == |names| + 1
  {
  }

  lemma FoundOne(net: word, name: Octets, c: LruSpec.Cache)
    requires LruSpec.Ok(c) && c.max < WORD
    ensures c.max >= 1 && var (c', idx) := LruSpec.Find(c, name);
      idx < WORD && FindsOne(net, name, OrWord(net, idx), c, c')
  {
    LruSpec.FindOk(c, name);
  }

  lemma AskedNext(b: Octets, qs: seq<Question>, q: Question, sel: seq<nat>, qlen: nat)
    requires qlen < |b| && (forall x <- qs :: InMessage(b, x, qlen)) && InMessage(b, q, qlen)
    requires forall k <- sel :: k < |qs|
    ensures (forall x <- qs + [q] :: InMessage(b, x, qlen)) && (forall k <- sel + [|qs|] :: k < |qs + [q]|)
    ensures AskedBy(b, qs + [q], sel, qlen) == AskedBy(b, qs, sel, qlen)
    ensures AskedBy(b, qs + [q], sel + [|qs|], qlen) == AskedBy(b, qs, sel, qlen) + [Asked(b, q, qlen)]
  {
    hide InMessage, Asked;
  }

  lemma AnswersLonger(answers: seq<Answer>, qs: seq<Question>, q: Question, sel: seq<nat>, ips: seq<nat>)
    requires (forall k <- sel :: k < |qs|) && Answers(answers, qs, sel, ips)
    ensures (forall k <- sel :: k < |qs + [q]|) && Answers(answers, qs + [q], sel, ips)
  {
  }

  lemma AnswersNext(answers: seq<Answer>, qs: seq<Question>, q: Question, sel: seq<nat>, ips: seq<nat>, a: Answer)
    requires (forall k <- sel :: k < |qs|) && Answers(answers, qs, sel, ips) && a.start == q.start
    ensures forall k <- sel + [|qs|] :: k < |qs + [q]|
    ensures Answers(answers + [a], qs + [q], sel + [|qs|], ips + [a.ip])
  {
  }

  lemma WithinMessage(b: Octets, q: Question, qlen: nat)
    requires qlen < |b| && InMessage(b, q, qlen)
    ensures q.stop + 5 <= |b|
  {
  }

  lemma SelectsNext(b: Octets, qs: seq<Question>, q: Question, sel: seq<nat>)
    requires (forall x <- qs :: x.stop + 5 <= |b|) && q.stop + 5 <= |b| && Selects(b, qs, sel)
    ensures forall x <- qs + [q] :: x.stop + 5 <= |b|
    ensures Selects(b, qs + [q], if TypeAndClass(b, q) == [0, 1, 0, 1] then sel + [|qs|] else sel)
  {
    hide TypeAndClass;
    var all, sel' := qs + [q], if TypeAndClass(b, q) == [0, 1, 0, 1] then sel + [|qs|] else sel;
    assert forall k :: 0 <= k < |qs| ==> all[k] == qs[k];
    assert forall k <- sel :: k in sel';
    assert |qs| !in sel;
    forall i, j | 0 <= i < j < |sel'| ensures sel'[i] < sel'[j] {
      assert sel'[i] in sel;
    }
    forall k | k in sel' ensures k < |all| {
      assert k in sel || k == |qs|;
    }
    forall k | 0 <= k < |all| ensures k in sel' <==> TypeAndClass(b, all[k]) == [0, 1, 0, 1] {
      if k == |qs| { assert sel' != sel ==> sel'[|sel|] == k; }
    }
  }

  // ----- the response ---------------------------------------------------------------------------------------

  /** The records: for each selected question, in order, a pointer with the low octet of the offset of its name, its own
      type and class, a lifetime of one second, the length 4 and the address. */
  ghost predicate Records(out: Octets, end: nat, b: Octets, qs: seq<Question>, sel: seq<nat>, ips: seq<nat>)
    requires (forall q <- qs :: q.stop + 5 <= |b|) && (forall k <- sel :: k < |qs|) && |ips| == |sel|
    requires end + 16 * |sel| <= |out|
  {
    forall j :: 0 <= j < |sel| ==> sel[j] in sel && RecordFor(out, end + 16 * j, b, qs[sel[j]], ips[j])
  }

  ghost predicate RecordFor(out: Octets, at: nat, b: Octets, q: Question, ip: nat)
    requires at + 16 <= |out|
  {
    && q.stop + 5 <= |b| && out[at..at + 2] == [0xc0, q.start % 256]
    && out[at + 2..at + 6] == TypeAndClass(b, q) && out[at + 6..at + 12] == [0, 0, 0, 1, 0, 4]
    && U32(out, at + 12) == ip
  }

  /** The response has the questions of the request, the number of records and the records. */
  ghost predicate Responds(b: Octets, qs: seq<Question>, sel: seq<nat>, ips: seq<nat>, len: int, out: Octets) {
    && (forall q <- qs :: q.stop + 5 <= |b|) && Selects(b, qs, sel) && |ips| == |sel| <= 32
    && var end := if qs == [] then 12 else qs[|qs| - 1].stop + 5;
       && 12 <= end <= |b| && len == end + 16 * |sel| <= |out|
       && out[12..end] == b[12..end] && out[6..8] == [0, |sel|] && Records(out, end, b, qs, sel, ips)
  }

  /** From `c` to `c'` the table has been asked for the names of the selected questions, in order, and for no other. */
  ghost predicate Consults(net: word, c: LruSpec.Cache, c': LruSpec.Cache, names: seq<seq<Octets>>, sel: seq<nat>,
                           ips: seq<nat>, tables: seq<LruSpec.Cache>) {
    && |ips| == |sel| && |tables| == |sel| + 1 && tables[0] == c && tables[|sel|] == c'
    && forall j :: 0 <= j < |sel| ==>
      sel[j] < |names| && FindsOne(net, NameOf(names[sel[j]]), ips[j], tables[j], tables[j + 1])
  }

  /** An answered request, octet by octet: it has as many questions as its header says, and the records stand for
      exactly those of type A and class IN, in order. */
  lemma AnswersOnWire(net: word, c: LruSpec.Cache, b: Octets, qlen: nat, slen: nat, c': LruSpec.Cache, len: int,
                      out: Octets)
    returns (qs: seq<Question>, names: seq<seq<Octets>>, sel: seq<nat>, ips: seq<nat>, tables: seq<LruSpec.Cache>)
    requires Handled(net, c, b, qlen, slen, c', len, out) && qlen >= HEADER && len >= 0
    ensures |qs| == 256 * b[4] as int + b[5] as int && StandIn(b, 12, qs, names, qlen)
    ensures Responds(b, qs, sel, ips, len, out) && Consults(net, c, c', names, sel, ips, tables)
    ensures qs == Questions(b, HEADER, U16(b, 4), qlen).0
  {
    hide SpellsName, LruSpec.Ok, LruSpec.Find, Resolve, Response, InMessage, StandIn, QuestionsEnd, Responds, Consults,
         Finds, Answers, Selects;
    var n := U16(b, 4);
    qs := Questions(b, HEADER, n, qlen).0;
    assert |qs| == n;
    names := NamesOf(b, qs, qlen);
    hide Questions;
    QuestionsStand(b, HEADER, n, qlen);
    sel, ips, tables := ResolveSelects(net, c, b, qs, qlen);
    SelectsBelow(b, qs, sel);
    var answers := Resolve(net, c, b, qs, qlen).1;
    AnswersRespond(b, qs, sel, ips, answers, out);
    FindsConsult(net, b, qs, qlen, sel, ips, tables);
  }

  lemma FindsConsult(net: word, b: Octets, qs: seq<Question>, qlen: nat, sel: seq<nat>, ips: seq<nat>,
                     tables: seq<LruSpec.Cache>)
    requires qlen < |b| && (forall q <- qs :: InMessage(b, q, qlen)) && (forall k <- sel :: k < |qs|)
    requires Finds(net, AskedBy(b, qs, sel, qlen), ips, tables)
    ensures |tables| == |sel| + 1 && Consults(net, tables[0], tables[|sel|], NamesOf(b, qs, qlen), sel, ips, tables)
  {
    hide InMessage, FindsOne, Asked, LabelsOf, NameOf;
    var names, asked := NamesOf(b, qs, qlen), AskedBy(b, qs, sel, qlen);
    forall j | 0 <= j < |sel|
      ensures sel[j] < |names| && FindsOne(net, NameOf(names[sel[j]]), ips[j], tables[j], tables[j + 1])
    {
      assert sel[j] in sel && qs[sel[j]] in qs;
      assert FindsOne(net, asked[j], ips[j], tables[j], tables[j + 1]);
      AskedIs(b, qs[sel[j]], qlen);
    }
  }

  lemma AnswersRespond(b: Octets, qs: seq<Question>, sel: seq<nat>, ips: seq<nat>, answers: seq<Answer>, out: Octets)
    requires (forall q <- qs :: q.stop + 5 <= |b|) && (forall k <- sel :: k < |qs|)
    requires Selects(b, qs, sel) && Answers(answers, qs, sel, ips) && |answers| <= 32
    requires var end := QuestionsEnd(qs); var len := end + ANSWER * |answers|;
      HEADER <= end <= |b| && len <= |out| && out[..len] == Response(b, end, answers)
    ensures Responds(b, qs, sel, ips, QuestionsEnd(qs) + ANSWER * |answers|, out)
  {
    hide Response, ResponseFlags, RecordFor, TypeAndClass;
    var end := QuestionsEnd(qs);
    var r := Response(b, end, answers);
    ResponseFields(b, end, answers);
    CountOctets(out, r, |sel|);
    SubSlice(out, 0, |r|, 12, end);
    forall j | 0 <= j < |sel| ensures sel[j] in sel && RecordFor(out, end + 16 * j, b, qs[sel[j]], ips[j]) {
      assert sel[j] in sel && qs[sel[j]] in qs;
      RecordStands(b, end, answers, out, j, qs[sel[j]]);
    }
  }

  lemma AskedIs(b: Octets, q: Question, qlen: nat)
    requires qlen < |b| && InMessage(b, q, qlen)
    ensures NameOf(LabelsOf(b, q, qlen)) == Asked(b, q, qlen)
  {
  }

  lemma CountOctets(out: Octets, r: Octets, n: nat)
    requires HEADER <= |r| <= |out| && out[..|r|] == r && U16(r, 6) == n <= 32
    ensures out[6..8] == [0, n]
  {
    assert out[6] == r[6] && out[7] == r[7];
  }

  lemma RecordStands(b: Octets, end: nat, answers: seq<Answer>, out: Octets, j: nat, q: Question)
    requires HEADER <= end <= |b| && j < |answers| && end + ANSWER * |answers| <= |out|
    requires out[..end + ANSWER * |answers|] == Response(b, end, answers)
    requires q.stop + 5 <= |b| && TypeAndClass(b, q) == [0, 1, 0, 1] && answers[j].start == q.start
    ensures end + 16 * j + 16 <= |out| && RecordFor(out, end + 16 * j, b, q, answers[j].ip)
  {
    hide Response, TypeAndClass, RecordBytes;
    var at, r := end + 16 * j, Response(b, end, answers);
    RecordAt(b, end, answers, j);
    var rec := RecordBytes(q.start, answers[j].ip);
    assert out[at..at + 16] == r[at..at + 16];
    RecordFields(q.start, answers[j].ip);
    RecordOctets(q.start, answers[j].ip);
    assert forall i :: 0 <= i < 16 ==> out[at + i] == rec[i];
    assert out[at..at + 2] == rec[..2] && out[at + 2..at + 6] == rec[2..6] && out[at + 6..at + 12] == rec[6..12];
  }

  lemma RecordOctets(start: nat, ip: word)
    ensures RecordBytes(start, ip)[..12] == [0xc0, start % 256, 0, 1, 0, 1, 0, 0, 0, 1, 0, 4]
    ensures RecordBytes(start, ip)[..2] == [0xc0, start % 256] && RecordBytes(start, ip)[2..6] == [0, 1, 0, 1]
    ensures RecordBytes(start, ip)[6..12] == [0, 0, 0, 1, 0, 4]
  {
  }

  lemma FirstSelected(b: Octets, qs: seq<Question>, sel: seq<nat>)
    requires (forall q <- qs :: q.stop + 5 <= |b|) && Selects(b, qs, sel)
    ensures sel != [] ==> exists q <- qs :: b[q.stop + 1..q.stop + 5] == [0, 1, 0, 1]
  {
    if sel != [] {
      assert sel[0] in sel && qs[sel[0]] in qs;
    }
  }

  /** A request without a question of type A and class IN gets no record and leaves the table as it was. */
  lemma NothingAsked(net: word, c: LruSpec.Cache, b: Octets, qlen: nat, slen: nat, c': LruSpec.Cache, len: int,
                     out: Octets)
    requires Handled(net, c, b, qlen, slen, c', len, out) && qlen >= HEADER && len >= 0
    requires forall q <- Questions(b, HEADER, U16(b, 4), qlen).0 ::
      q.stop + 5 <= |b| && b[q.stop + 1..q.stop + 5] != [0, 1, 0, 1]
    ensures c' == c && HEADER <= len <= |out| && len <= |b| && out[6..8] == [0, 0] && out[12..len] == b[12..len]
  {
    hide Handled, StandIn, Questions, Records;
    var qs, names, sel, ips, tables := AnswersOnWire(net, c, b, qlen, slen, c', len, out);
    FirstSelected(b, qs, sel);
    if sel != [] {
      assert false;
    }
  }
}
