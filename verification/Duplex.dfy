/**
 Two deterministic processes joined by two reliable byte channels. A process emits octets, takes a given number of
 octets (waiting for them, or getting fewer when its peer has stopped), or stops. If the courses of the two processes
 fit together, then every interleaving follows them to the end.
 */
module Duplex {
  import opened Bytes

  datatype Act = Emit(bytes: Octets) | Take(n: nat) | Stop

  /** A process: what it does in a state, and where it goes with what it took. */
  datatype Process<!S> = Process(act: S -> Act, next: (S, Octets) -> S)

  // ----- courses -------------------------------------------------------------------------------------

  /** `p` is a course of the process that takes exactly `input` and emits exactly `output`. */
  ghost predicate Course<S(!new)>(m: Process<S>, p: seq<S>, input: Octets, output: Octets)
    decreases |p|
  {
    if |p| <= 1 then |p| == 1 && input == [] && output == []
    else
      match m.act(p[0])
      case Emit(b) => b <= output && m.next(p[0], []) == p[1] && Course(m, p[1..], input, output[|b|..])
      case Take(n) => n <= |input| && m.next(p[0], input[..n]) == p[1] && Course(m, p[1..], input[n..], output)
      case Stop => false
  }

  ghost function Last<S>(p: seq<S>): S
    requires p != []
  {
    p[|p| - 1]
  }

  /** Octets emitted, or taken, before position `i` of a course. */
  ghost function Sent<S(!new)>(m: Process<S>, p: seq<S>, i: nat): nat
    requires i <= |p|
  {
    if i == 0 then 0 else Sent(m, p, i - 1) + if m.act(p[i - 1]).Emit? then |m.act(p[i - 1]).bytes| else 0
  }

  ghost function Taken<S(!new)>(m: Process<S>, p: seq<S>, i: nat): nat
    requires i <= |p|
  {
    if i == 0 then 0 else Taken(m, p, i - 1) + if m.act(p[i - 1]).Take? then m.act(p[i - 1]).n else 0
  }

  lemma {:induction false} Counts<S(!new)>(m: Process<S>, p: seq<S>, q: seq<S>, i: nat)
    requires i <= |p| && p <= q
    ensures Sent(m, q, i) == Sent(m, p, i) && Taken(m, q, i) == Taken(m, p, i)
  {
    if i > 0 { Counts(m, p, q, i - 1); }
  }

  lemma {:induction false} CountsTail<S(!new)>(m: Process<S>, p: seq<S>, i: nat)
    requires p != [] && i < |p|
    ensures Sent(m, p, i + 1) == Sent(m, p, 1) + Sent(m, p[1..], i)
      && Taken(m, p, i + 1) == Taken(m, p, 1) + Taken(m, p[1..], i)
  {
    if i > 0 { CountsTail(m, p, i - 1); }
  }

  lemma {:induction false} CountsMono<S(!new)>(m: Process<S>, p: seq<S>, i: nat, j: nat)
    requires i <= j <= |p|
    ensures Sent(m, p, i) <= Sent(m, p, j) && Taken(m, p, i) <= Taken(m, p, j)
  {
    if i < j { CountsMono(m, p, i, j - 1); }
  }

  /** Step `i` emits the next part of the output, or takes the next part of the input. */
  ghost predicate StepAt<S(!new)>(m: Process<S>, p: seq<S>, input: Octets, output: Octets, i: nat)
    requires i + 1 < |p|
  {
    var e, e', t, t' := Sent(m, p, i), Sent(m, p, i + 1), Taken(m, p, i), Taken(m, p, i + 1);
    && e <= e' <= |output| && t <= t' <= |input|
    && match m.act(p[i])
       case Emit(b) => b == output[e..e'] && m.next(p[i], []) == p[i + 1]
       case Take(_) => m.next(p[i], input[t..t']) == p[i + 1]
       case Stop => false
  }

  lemma {:induction false} CourseSteps<S(!new)>(m: Process<S>, p: seq<S>, input: Octets, output: Octets, i: nat)
    requires Course(m, p, input, output) && i + 1 < |p|
    ensures StepAt(m, p, input, output, i)
    decreases i
  {
    CourseHead(m, p, input, output);
    if i > 0 {
      hide Course;
      var sent, taken := Sent(m, p, 1), Taken(m, p, 1);
      CourseSteps(m, p[1..], input[taken..], output[sent..], i - 1);
      ShiftStep(m, p, input, output, i);
    }
  }

  lemma ShiftStep<S(!new)>(m: Process<S>, p: seq<S>, input: Octets, output: Octets, i: nat)
    requires 0 < i && i + 1 < |p| && Sent(m, p, 1) <= |output| && Taken(m, p, 1) <= |input|
    requires StepAt(m, p[1..], input[Taken(m, p, 1)..], output[Sent(m, p, 1)..], i - 1)
    ensures StepAt(m, p, input, output, i)
  {
    var q, sent, taken := p[1..], Sent(m, p, 1), Taken(m, p, 1);
    CountsTail(m, p, i - 1);
    CountsTail(m, p, i);
    hide Sent, Taken;
    Slice(output, sent, Sent(m, q, i - 1), Sent(m, q, i));
    Slice(input, taken, Taken(m, q, i - 1), Taken(m, q, i));
  }

  /** Along a course: each step emits the next part of the output, or takes the next part of the input. */
  lemma CourseStep<S(!new)>(m: Process<S>, p: seq<S>, input: Octets, output: Octets, i: nat)
    requires Course(m, p, input, output) && i + 1 < |p|
    ensures !m.act(p[i]).Stop?
    ensures Sent(m, p, i) <= Sent(m, p, i + 1) <= |output| && Taken(m, p, i) <= Taken(m, p, i + 1) <= |input|
    ensures m.act(p[i]).Emit? ==>
      m.act(p[i]).bytes == output[Sent(m, p, i)..Sent(m, p, i + 1)]
      && m.next(p[i], []) == p[i + 1]
    ensures m.act(p[i]).Take? ==> m.next(p[i], input[Taken(m, p, i)..Taken(m, p, i + 1)]) == p[i + 1]
  {
    hide Course;
    CourseSteps(m, p, input, output, i);
  }

  /** The first step of a course, and the rest of it. */
  lemma CourseHead<S(!new)>(m: Process<S>, p: seq<S>, input: Octets, output: Octets)
    requires Course(m, p, input, output) && |p| > 1
    ensures !m.act(p[0]).Stop? && Sent(m, p, 0) == 0 == Taken(m, p, 0) && Sent(m, p, 1) <= |output|
      && Taken(m, p, 1) <= |input|
    ensures m.act(p[0]).Emit? ==> m.act(p[0]).bytes == output[..Sent(m, p, 1)] && m.next(p[0], []) == p[1]
    ensures m.act(p[0]).Take? ==> m.next(p[0], input[..Taken(m, p, 1)]) == p[1]
    ensures Course(m, p[1..], input[Taken(m, p, 1)..], output[Sent(m, p, 1)..])
  {
    var a := m.act(p[0]);
    assert Sent(m, p, 1) == (if a.Emit? then |a.bytes| else 0) && Taken(m, p, 1) == if a.Take? then a.n else 0;
    assert input[0..] == input && output[0..] == output;
  }

  lemma Slice(o: Octets, d: nat, x: nat, y: nat)
    requires x <= y && d + y <= |o|
    ensures o[d..][x..y] == o[d + x..d + y]
  {
  }

  lemma {:induction false} CourseEnd<S(!new)>(m: Process<S>, p: seq<S>, input: Octets, output: Octets)
    requires Course(m, p, input, output)
    ensures Sent(m, p, |p| - 1) == |output| && Taken(m, p, |p| - 1) == |input|
    decreases |p|
  {
    if |p| > 1 {
      var a, q := m.act(p[0]), p[1..];
      var input' := if a.Take? then input[a.n..] else input;
      var output' := if a.Emit? then output[|a.bytes|..] else output;
      CourseEnd(m, q, input', output');
      CountsTail(m, p, |p| - 2);
    }
  }

  /** One course after another. */
  lemma {:induction false} CourseThen<S(!new)>(m: Process<S>, p: seq<S>, in1: Octets, out1: Octets, q: seq<S>,
                                               in2: Octets, out2: Octets)
    requires Course(m, p, in1, out1) && Course(m, q, in2, out2) && Last(p) == q[0]
    ensures Course(m, p + q[1..], in1 + in2, out1 + out2) && Last(p + q[1..]) == Last(q) && (p + q[1..])[0] == p[0]
    decreases |p|
  {
    var r := p + q[1..];
    if |p| == 1 {
      assert r == q && in1 + in2 == in2 && out1 + out2 == out2;
    } else {
      var a := m.act(p[0]);
      var in1' := if a.Take? then in1[a.n..] else in1;
      var out1' := if a.Emit? then out1[|a.bytes|..] else out1;
      CourseThen(m, p[1..], in1', out1', q, in2, out2);
      assert r[1..] == p[1..] + q[1..];
      if a.Take? {
        assert (in1 + in2)[..a.n] == in1[..a.n] && (in1 + in2)[a.n..] == in1' + in2;
      } else {
        assert (out1 + out2)[|a.bytes|..] == out1' + out2;
      }
    }
  }

  lemma CourseEmit<S(!new)>(m: Process<S>, s: S)
    requires m.act(s).Emit?
    ensures Course(m, [s, m.next(s, [])], [], m.act(s).bytes)
  {
    var p, b := [s, m.next(s, [])], m.act(s).bytes;
    assert p[1..] == [m.next(s, [])] && b[|b|..] == [];
  }

  lemma CourseTake<S(!new)>(m: Process<S>, s: S, b: Octets)
    requires m.act(s) == Take(|b|)
    ensures Course(m, [s, m.next(s, b)], b, [])
  {
    var p := [s, m.next(s, b)];
    assert p[1..] == [m.next(s, b)] && b[..|b|] == b && b[|b|..] == [];
  }

  /** A course grows by one step. */
  lemma ThenTake<S(!new)>(m: Process<S>, p: seq<S>, input: Octets, output: Octets, b: Octets, s: S)
    requires Course(m, p, input, output) && m.act(Last(p)) == Take(|b|) && s == m.next(Last(p), b)
    ensures Course(m, p + [s], input + b, output)
  {
    CourseTake(m, Last(p), b);
    CourseThen(m, p, input, output, [Last(p), s], b, []);
    assert p + [Last(p), s][1..] == p + [s] && output + [] == output;
  }

  lemma ThenEmit<S(!new)>(m: Process<S>, p: seq<S>, input: Octets, output: Octets, b: Octets, s: S)
    requires Course(m, p, input, output) && m.act(Last(p)) == Emit(b) && s == m.next(Last(p), [])
    ensures Course(m, p + [s], input, output + b)
  {
    CourseEmit(m, Last(p));
    CourseThen(m, p, input, output, [Last(p), s], [], b);
    assert p + [Last(p), s][1..] == p + [s] && input + [] == input;
  }

  // ----- the pair --------------------------------------------------------------------------------------

  /** Both processes, and the octets on their way from `a` to `b` and back. */
  datatype Pair<A, B> = Pair(a: A, b: B, ab: Octets, ba: Octets)

  /** One step of a process, given what is there for it and whether its peer has stopped: its new state, what it
      took and what it emitted. A process that waits does not move. */
  function Move<S>(m: Process<S>, s: S, waiting: Octets, peerStopped: bool): (S, nat, Octets) {
    match m.act(s)
    case Emit(b) => (m.next(s, []), 0, b)
    case Take(n) =>
      if n <= |waiting| then (m.next(s, waiting[..n]), n, [])
      else if peerStopped then (m.next(s, waiting), |waiting|, [])
      else (s, 0, [])
    case Stop => (s, 0, [])
  }

  /** The scheduler picks a process. */
  function StepPair<A, B>(m: Process<A>, n: Process<B>, x: Pair<A, B>, left: bool): Pair<A, B> {
    if left then
      var (s, used, out) := Move(m, x.a, x.ba, n.act(x.b).Stop?);
      if used <= |x.ba| then Pair(s, x.b, x.ab + out, x.ba[used..]) else x
    else
      var (s, used, out) := Move(n, x.b, x.ab, m.act(x.a).Stop?);
      if used <= |x.ab| then Pair(x.a, s, x.ab[used..], x.ba + out) else x
  }

  /** Can this process move? */
  predicate Enabled<S>(m: Process<S>, s: S, waiting: Octets, peerStopped: bool) {
    match m.act(s)
    case Emit(_) => true
    case Take(n) => n <= |waiting| || peerStopped
    case Stop => false
  }

  function RunPair<A, B>(m: Process<A>, n: Process<B>, x: Pair<A, B>, schedule: seq<bool>): Pair<A, B>
    decreases |schedule|
  {
    if schedule == [] then x else RunPair(m, n, StepPair(m, n, x, schedule[0]), schedule[1..])
  }

  /** The two courses fit: each process takes no more than the other emits, both end by stopping, and whenever `a` waits
      for octets, `b` can emit them after taking no more than `a` has emitted. */
  ghost predicate Fit<A(!new), B(!new)>(m: Process<A>, n: Process<B>, p: seq<A>, q: seq<B>, pin: Octets, pout: Octets,
                                        qin: Octets, qout: Octets) {
    Meet(m, n, p, q, pin, pout, qin, qout) && Causal(m, n, p, q)
  }

  ghost predicate Causal<A(!new), B(!new)>(m: Process<A>, n: Process<B>, p: seq<A>, q: seq<B>) {
    forall i :: 0 <= i < |p| - 1 && m.act(p[i]).Take? ==> Served(m, n, p, q, i)
  }

  ghost predicate Meet<A(!new), B(!new)>(m: Process<A>, n: Process<B>, p: seq<A>, q: seq<B>, pin: Octets, pout: Octets,
                                         qin: Octets, qout: Octets) {
    && Course(m, p, pin, pout) && Course(n, q, qin, qout) && m.act(Last(p)).Stop? && n.act(Last(q)).Stop?
    && pin <= qout && qin <= pout
  }

  ghost predicate Served<A(!new), B(!new)>(m: Process<A>, n: Process<B>, p: seq<A>, q: seq<B>, i: nat)
    requires i + 1 < |p|
  {
    exists j :: 0 <= j < |q| && Sent(n, q, j) >= Taken(m, p, i + 1) && Taken(n, q, j) <= Sent(m, p, i)
  }

  /** The pair is at position `i` of the one course and `j` of the other, and the channels hold what has been emitted
      and not taken. */
  ghost predicate On<A(!new), B(!new)>(m: Process<A>, n: Process<B>, p: seq<A>, q: seq<B>, pout: Octets, qout: Octets,
                                       x: Pair<A, B>, i: nat, j: nat) {
    && i < |p| && j < |q| && x.a == p[i] && x.b == q[j]
    && Taken(n, q, j) <= Sent(m, p, i) <= |pout| && x.ab == pout[Taken(n, q, j)..Sent(m, p, i)]
    && Taken(m, p, i) <= Sent(n, q, j) <= |qout| && x.ba == qout[Taken(m, p, i)..Sent(n, q, j)]
  }

  /** One step of `a` along its course. */
  lemma StepLeft<A(!new), B(!new)>(m: Process<A>, n: Process<B>, p: seq<A>, q: seq<B>, pin: Octets, pout: Octets,
                                   qin: Octets, qout: Octets,
                                   x: Pair<A, B>, i: nat, j: nat)
    requires Meet(m, n, p, q, pin, pout, qin, qout) && On(m, n, p, q, pout, qout, x, i, j)
    ensures var x' := StepPair(m, n, x, true);
      if Enabled(m, x.a, x.ba, n.act(x.b).Stop?) then i + 1 < |p| && On(m, n, p, q, pout, qout, x', i + 1, j)
        else x' == x
  {
    if i + 1 < |p| {
      CourseStep(m, p, pin, pout, i);
      CourseEnd(n, q, qin, qout);
      StoppedAtEnd(n, q, qin, qout, j);
      hide Course;
      if m.act(p[i]).Take? {
        var t, t', e := Taken(m, p, i), Taken(m, p, i + 1), Sent(n, q, j);
        if t' <= e {
          assert x.ba[..t' - t] == qout[t..t'] == pin[t..t'];
          assert x.ba[t' - t..] == qout[t'..e];
          assert x.ab + [] == x.ab;
        }
      } else {
        var t, e, e' := Taken(n, q, j), Sent(m, p, i), Sent(m, p, i + 1);
        assert pout[t..e] + pout[e..e'] == pout[t..e'];
        assert x.ba[0..] == x.ba;
      }
    }
  }

  /** A process that has stopped is at the end of its course. */
  lemma StoppedAtEnd<S(!new)>(m: Process<S>, p: seq<S>, input: Octets, output: Octets, i: nat)
    requires Course(m, p, input, output) && i < |p|
    ensures m.act(p[i]).Stop? ==> i == |p| - 1
  {
    if i + 1 < |p| { CourseStep(m, p, input, output, i); }
  }

  function Swap<A, B>(x: Pair<A, B>): Pair<B, A> { Pair(x.b, x.a, x.ba, x.ab) }

  lemma StepRight<A(!new), B(!new)>(m: Process<A>, n: Process<B>, p: seq<A>, q: seq<B>, pin: Octets, pout: Octets,
                                    qin: Octets, qout: Octets,
                                    x: Pair<A, B>, i: nat, j: nat)
    requires Meet(m, n, p, q, pin, pout, qin, qout) && On(m, n, p, q, pout, qout, x, i, j)
    ensures var x' := StepPair(m, n, x, false);
      if Enabled(n, x.b, x.ab, m.act(x.a).Stop?) then j + 1 < |q| && On(m, n, p, q, pout, qout, x', i, j + 1)
        else x' == x
  {
    StepLeft(n, m, q, p, qin, qout, pin, pout, Swap(x), j, i);
    assert StepPair(m, n, x, false) == Swap(StepPair(n, m, Swap(x), true));
  }

  /** How many of the steps of a schedule move a process. */
  function Moves<A, B>(m: Process<A>, n: Process<B>, x: Pair<A, B>, schedule: seq<bool>): nat
    decreases |schedule|
  {
    if schedule == [] then 0
    else
      var enabled := if schedule[0] then Enabled(m, x.a, x.ba, n.act(x.b).Stop?)
        else Enabled(n, x.b, x.ab, m.act(x.a).Stop?);
      (if enabled then 1 else 0) + Moves(m, n, StepPair(m, n, x, schedule[0]), schedule[1..])
  }

  /** Every schedule follows the two courses. */
  lemma {:induction false} AnySchedule<A(!new), B(!new)>(m: Process<A>, n: Process<B>, p: seq<A>, q: seq<B>,
      pin: Octets, pout: Octets, qin: Octets, qout: Octets, x: Pair<A, B>, i: nat, j: nat, schedule: seq<bool>)
        returns (i': nat, j': nat)
    requires Meet(m, n, p, q, pin, pout, qin, qout) && On(m, n, p, q, pout, qout, x, i, j)
    ensures On(m, n, p, q, pout, qout, RunPair(m, n, x, schedule), i', j')
      && i' + j' == i + j + Moves(m, n, x, schedule)
    decreases |schedule|
  {
    hide Meet, On, StepPair, Enabled;
    if schedule == [] {
      i', j' := i, j;
    } else {
      var x1 := StepPair(m, n, x, schedule[0]);
      var i1, j1 := i, j;
      if schedule[0] {
        StepLeft(m, n, p, q, pin, pout, qin, qout, x, i, j);
        if Enabled(m, x.a, x.ba, n.act(x.b).Stop?) { i1 := i + 1; }
      } else {
        StepRight(m, n, p, q, pin, pout, qin, qout, x, i, j);
        if Enabled(n, x.b, x.ab, m.act(x.a).Stop?) { j1 := j + 1; }
      }
      i', j' := AnySchedule(m, n, p, q, pin, pout, qin, qout, x1, i1, j1, schedule[1..]);
    }
  }

  /** No deadlock: unless both have stopped, one of them can move. */
  lemma Progress<A(!new), B(!new)>(m: Process<A>, n: Process<B>, p: seq<A>, q: seq<B>, pin: Octets, pout: Octets,
                                   qin: Octets, qout: Octets,
                                   x: Pair<A, B>, i: nat, j: nat)
    requires Fit(m, n, p, q, pin, pout, qin, qout) && On(m, n, p, q, pout, qout, x, i, j)
    ensures (i == |p| - 1 && j == |q| - 1) || Enabled(m, x.a, x.ba, n.act(x.b).Stop?)
      || Enabled(n, x.b, x.ab, m.act(x.a).Stop?)
  {
    if i < |p| - 1 {
      CourseStep(m, p, pin, pout, i);
    }
    if j < |q| - 1 {
      CourseStep(n, q, qin, qout, j);
    }
    if i < |p| - 1 && j < |q| - 1 && m.act(p[i]).Take? && n.act(q[j]).Take? && |x.ba| < m.act(p[i]).n {
      assert Served(m, n, p, q, i);
      var k :| 0 <= k < |q| && Sent(n, q, k) >= Taken(m, p, i + 1) && Taken(n, q, k) <= Sent(m, p, i);
      hide Course;
      if k <= j {
        CountsMono(n, q, k, j);
      } else {
        CountsMono(n, q, j + 1, k);
      }
    }
  }

  /** When both have stopped, they are at the ends of their courses and what is left in the channels is what the
      courses do not take. */
  lemma Finished<A(!new), B(!new)>(m: Process<A>, n: Process<B>, p: seq<A>, q: seq<B>, pin: Octets, pout: Octets,
                                   qin: Octets, qout: Octets,
                                   x: Pair<A, B>, i: nat, j: nat)
    requires Meet(m, n, p, q, pin, pout, qin, qout) && On(m, n, p, q, pout, qout, x, i, j)
    requires m.act(x.a).Stop? && n.act(x.b).Stop?
    ensures x == Pair(Last(p), Last(q), pout[|qin|..], qout[|pin|..])
  {
    StoppedAtEnd(m, p, pin, pout, i);
    StoppedAtEnd(n, q, qin, qout, j);
    CourseEnd(m, p, pin, pout);
    CourseEnd(n, q, qin, qout);
  }

  /** If `a` has taken all that `b` emits, and the last act of `b` is to emit something, then `b` is at its end too. */
  lemma AllTaken<A(!new), B(!new)>(m: Process<A>, n: Process<B>, p: seq<A>, q: seq<B>, pin: Octets, pout: Octets,
                                   qin: Octets, qout: Octets,
                                   x: Pair<A, B>, i: nat, j: nat)
    requires Meet(m, n, p, q, pin, pout, qin, qout) && On(m, n, p, q, pout, qout, x, i, j) && i == |p| - 1
      && |pin| == |qout|
    requires |q| >= 2 && n.act(q[|q| - 2]).Emit? && n.act(q[|q| - 2]).bytes != []
    ensures j == |q| - 1
  {
    CourseEnd(m, p, pin, pout);
    CourseEnd(n, q, qin, qout);
    var last := |q| - 1;
    assert Sent(n, q, last - 1) < Sent(n, q, last);
    hide Course, Sent, Taken;
    if j < last {
      CountsMono(n, q, j, last - 1);
    }
  }

  /** Processes at their starts, with empty channels. */
  lemma Start<A(!new), B(!new)>(m: Process<A>, n: Process<B>, p: seq<A>, q: seq<B>, pin: Octets, pout: Octets,
                                qin: Octets, qout: Octets)
    requires Meet(m, n, p, q, pin, pout, qin, qout)
    ensures On(m, n, p, q, pout, qout, Pair(p[0], q[0], [], []), 0, 0)
  {
  }

  // ----- composing dialogues --------------------------------------------------------------------------

  lemma {:induction false} CountsThen<S(!new)>(m: Process<S>, p: seq<S>, q: seq<S>, i: nat)
    requires p != [] && q != [] && Last(p) == q[0] && i <= |q|
    ensures var r := p + q[1..];
      Sent(m, r, |p| - 1 + i) == Sent(m, p, |p| - 1) + Sent(m, q, i)
        && Taken(m, r, |p| - 1 + i) == Taken(m, p, |p| - 1) + Taken(m, q, i)
    decreases i
  {
    var r := p + q[1..];
    if i == 0 {
      Counts(m, p, r, |p| - 1);
    } else {
      CountsThen(m, p, q, i - 1);
      assert r[|p| - 1 + i - 1] == q[i - 1];
    }
  }

  /** If a round is over on both sides, the next round may follow. */
  lemma CausalThen<A(!new), B(!new)>(m: Process<A>, n: Process<B>, p1: seq<A>, q1: seq<B>, p2: seq<A>, q2: seq<B>)
    requires p1 != [] && p2 != [] && q1 != [] && q2 != [] && Last(p1) == p2[0] && Last(q1) == q2[0]
    requires Causal(m, n, p1, q1) && Causal(m, n, p2, q2)
    requires Taken(m, p1, |p1| - 1) <= Sent(n, q1, |q1| - 1) && Taken(n, q1, |q1| - 1) <= Sent(m, p1, |p1| - 1)
    ensures Causal(m, n, p1 + p2[1..], q1 + q2[1..])
  {
    var p, q := p1 + p2[1..], q1 + q2[1..];
    forall i | 0 <= i < |p| - 1 && m.act(p[i]).Take? ensures Served(m, n, p, q, i) {
      if i < |p1| - 1 {
        assert p[i] == p1[i] && Served(m, n, p1, q1, i);
        ServedFirst(m, n, p1, q1, p, q, i);
      } else {
        var k := i - (|p1| - 1);
        assert p[i] == p2[k] && Served(m, n, p2, q2, k);
        ServedNext(m, n, p1, q1, p2, q2, k);
      }
    }
  }

  lemma ServedFirst<A(!new), B(!new)>(m: Process<A>, n: Process<B>, p1: seq<A>, q1: seq<B>, p: seq<A>, q: seq<B>,
                                      i: nat)
    requires p1 <= p && q1 <= q && i + 1 < |p1| && Served(m, n, p1, q1, i)
    ensures Served(m, n, p, q, i)
  {
    var j :| 0 <= j < |q1| && Sent(n, q1, j) >= Taken(m, p1, i + 1) && Taken(n, q1, j) <= Sent(m, p1, i);
    Counts(m, p1, p, i);
    Counts(m, p1, p, i + 1);
    Counts(n, q1, q, j);
    hide Sent, Taken;
  }

  lemma ServedNext<A(!new), B(!new)>(m: Process<A>, n: Process<B>, p1: seq<A>, q1: seq<B>, p2: seq<A>, q2: seq<B>,
                                     i: nat)
    requires p1 != [] && p2 != [] && q1 != [] && q2 != [] && Last(p1) == p2[0] && Last(q1) == q2[0]
    requires Taken(m, p1, |p1| - 1) <= Sent(n, q1, |q1| - 1) && Taken(n, q1, |q1| - 1) <= Sent(m, p1, |p1| - 1)
    requires i + 1 < |p2| && Served(m, n, p2, q2, i)
    ensures Served(m, n, p1 + p2[1..], q1 + q2[1..], |p1| - 1 + i)
  {
    hide Sent, Taken;
    var j :| 0 <= j < |q2| && Sent(n, q2, j) >= Taken(m, p2, i + 1) && Taken(n, q2, j) <= Sent(m, p2, i);
    CountsThen(m, p1, p2, i);
    CountsThen(m, p1, p2, i + 1);
    CountsThen(n, q1, q2, j);
    var p, q, k := p1 + p2[1..], q1 + q2[1..], |q1| - 1 + j;
    assert Sent(n, q, k) >= Taken(m, p, |p1| - 1 + i + 1) && Taken(n, q, k) <= Sent(m, p, |p1| - 1 + i);
  }

  /** A process that has emitted all that its peer takes before it takes anything itself. */
  lemma CausalAtOnce<A(!new), B(!new)>(m: Process<A>, n: Process<B>, p: seq<A>, q: seq<B>, pin: Octets, pout: Octets,
                                       qin: Octets, qout: Octets)
    requires Course(m, p, pin, pout) && Course(n, q, qin, qout) && |pin| <= |qout|
    requires forall i :: 0 <= i < |p| - 1 && m.act(p[i]).Take? ==> Sent(m, p, i) >= |qin|
    ensures Causal(m, n, p, q)
  {
    CourseEnd(n, q, qin, qout);
    forall i | 0 <= i < |p| - 1 && m.act(p[i]).Take? ensures Served(m, n, p, q, i) {
      CourseStep(m, p, pin, pout, i);
      assert Sent(n, q, |q| - 1) >= Taken(m, p, i + 1) && Taken(n, q, |q| - 1) <= Sent(m, p, i);
    }
  }

  /** First a course that only emits, then one that only takes. */
  lemma EmitFirst<S(!new)>(m: Process<S>, p: seq<S>, q: seq<S>, out: Octets)
    requires Course(m, p, [], out) && q != [] && Last(p) == q[0] && forall k :: 0 <= k < |p| - 1 ==> m.act(p[k]).Emit?
    ensures var r := p + q[1..]; forall i :: 0 <= i < |r| - 1 && m.act(r[i]).Take? ==> Sent(m, r, i) >= |out|
  {
    CourseEnd(m, p, [], out);
    var r := p + q[1..];
    forall i | 0 <= i < |r| - 1 && m.act(r[i]).Take? ensures Sent(m, r, i) >= |out| {
      if i >= |p| - 1 {
        CountsThen(m, p, q, i - (|p| - 1));
      }
    }
  }

  /** Two courses that fit as far as they go. */
  ghost predicate Dialogue<A(!new), B(!new)>(m: Process<A>, n: Process<B>, p: seq<A>, q: seq<B>, pin: Octets,
                                             pout: Octets, qin: Octets, qout: Octets) {
    Course(m, p, pin, pout) && Course(n, q, qin, qout) && pin <= qout && qin <= pout && Causal(m, n, p, q)
  }

  /** A dialogue in which nothing is left over can be continued. */
  lemma DialogueThen<A(!new), B(!new)>(m: Process<A>, n: Process<B>,
      p1: seq<A>, q1: seq<B>, up1: Octets, down1: Octets, p2: seq<A>, q2: seq<B>, pin2: Octets, pout2: Octets,
        qin2: Octets, qout2: Octets)
    requires Dialogue(m, n, p1, q1, down1, up1, up1, down1) && Dialogue(m, n, p2, q2, pin2, pout2, qin2, qout2)
    requires p1 != [] && q1 != [] && p2 != [] && q2 != [] && Last(p1) == p2[0] && Last(q1) == q2[0]
    ensures Dialogue(m, n, p1 + p2[1..], q1 + q2[1..], down1 + pin2, up1 + pout2, up1 + qin2, down1 + qout2)
    ensures Last(p1 + p2[1..]) == Last(p2) && Last(q1 + q2[1..]) == Last(q2) && (p1 + p2[1..])[0] == p1[0]
      && (q1 + q2[1..])[0] == q1[0]
  {
    CourseThen(m, p1, down1, up1, p2, pin2, pout2);
    CourseThen(n, q1, up1, down1, q2, qin2, qout2);
    CourseEnd(m, p1, down1, up1);
    CourseEnd(n, q1, up1, down1);
    hide Course, Causal;
    CausalThen(m, n, p1, q1, p2, q2);
    PrefixThen(down1, pin2, qout2);
    PrefixThen(up1, qin2, pout2);
  }

  lemma PrefixThen(a: Octets, b: Octets, c: Octets)
    requires b <= c
    ensures a + b <= a + c
  {
  }

  /** One round: `a` emits, then takes what `b` answers. */
  lemma RoundDialogue<A(!new), B(!new)>(m: Process<A>, n: Process<B>, s: A, p: seq<A>, q: seq<B>, pin: Octets,
                                        pout: Octets, qin: Octets, qout: Octets)
    requires m.act(s) == Emit(pout) && p != [] && p[0] == m.next(s, []) && Course(m, p, pin, [])
      && Course(n, q, qin, qout)
    requires pin <= qout && qin <= pout
    ensures Dialogue(m, n, [s] + p, q, pin, pout, qin, qout) && Last([s] + p) == Last(p)
  {
    CourseEmit(m, s);
    var e := [s, p[0]];
    CourseThen(m, e, [], pout, p, pin, []);
    assert e + p[1..] == [s] + p && [] + pin == pin && pout + [] == pout;
    EmitFirst(m, e, p, pout);
    hide Course;
    CausalAtOnce(m, n, [s] + p, q, pin, pout, qin, qout);
  }
}
