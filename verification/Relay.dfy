/**
 The TCP relay of hev-socks5-session-tcp.c: lwIP's stream to the socket (forward) through a chain of pbufs, and the
 socket's stream to lwIP (backward) through the ring buffer, without copying.
 */
module Relay {
  import opened Options
  import opened Bytes
  import opened RingBuffer

  /** The clamp of the configured buffer size to lwIP's send buffer. */
  function BufferSize(configured: nat, sndBuf: nat): (n: nat)
    ensures n <= sndBuf && (configured <= sndBuf ==> n == configured)
  {
    if configured > sndBuf then sndBuf else configured
  }

  // ----- pbuf chains ---------------------------------------------------------------------------------

  function Flat(q: seq<Octets>): Octets { if q == [] then [] else q[0] + Flat(q[1..]) }

  /** pbuf_free_header: drop `n` octets from the front. */
  function Drop(q: seq<Octets>, n: nat): seq<Octets> {
    if n == 0 || q == [] then q else if n >= |q[0]| then Drop(q[1..], n - |q[0]|) else [q[0][n..]] + q[1..]
  }

  lemma {:induction false} DropFlat(q: seq<Octets>, n: nat)
    requires n <= |Flat(q)|
    ensures Flat(Drop(q, n)) == Flat(q)[n..]
    decreases |q|
  {
    if n > 0 && q != [] {
      var rest := Flat(q[1..]);
      if n >= |q[0]| {
        DropFlat(q[1..], n - |q[0]|);
        assert Flat(q)[n..] == rest[n - |q[0]|..];
      } else {
        assert ([q[0][n..]] + q[1..])[1..] == q[1..];
        assert (q[0] + rest)[n..] == q[0][n..] + rest;
      }
    }
  }

  lemma {:induction false} FlatConcat(a: seq<Octets>, b: seq<Octets>)
    ensures Flat(a + b) == Flat(a) + Flat(b)
  {
    if a == [] {
      assert a + b == b;
    } else {
      FlatConcat(a[1..], b);
      var c := a + b;
      assert c[0] == a[0] && c[1..] == a[1..] + b;
      var x, y := Flat(a[1..]), Flat(b);
      assert Flat(c) == a[0] + (x + y);
      assert Flat(a) == a[0] + x;
      hide Flat;
      Associative(a[0], x, y);
    }
  }

  lemma FlatFront(q: seq<Octets>, k: nat)
    requires k <= |q|
    ensures Flat(q[..k]) <= Flat(q)
  {
    FlatConcat(q[..k], q[k..]);
    assert q == q[..k] + q[k..];
  }

  // ----- what the environment does ---------------------------------------------------------------------

  datatype WriteResult = Wrote(n: nat) | WriteAgain | WriteError

  datatype ReadResult = Got(bytes: Octets) | ReadAgain | EndOrError

  /** What came is what went and what is queued, but for the `pending` octets that went and are still in the queue;
      credit is given for what went and has left the queue; a half-close is passed on when everything before it went. */
  ghost predicate ForwardOk(queue: seq<Octets>, pcb: bool, eof: bool, res: int, came: Octets, went: Octets, credit: nat,
                            closed: bool, pending: nat) {
    && pending <= |Flat(queue)| && came == went + Flat(queue)[pending..]
    && credit + pending <= |went| && (pcb ==> credit + pending == |went|)
    && (closed ==> eof && queue == [] && res < 0)
  }

  lemma ForwardWrote(queue: seq<Octets>, pcb: bool, eof: bool, res: int, came: Octets, went: Octets, credit: nat,
                     n: nat)
    requires ForwardOk(queue, pcb, eof, res, came, went, credit, false, 0) && n <= |Flat(queue)|
    ensures ForwardOk(queue, pcb, eof, 1, came, went + Flat(queue)[..n], credit, false, n)
  {
    hide Flat;
    var flat := Flat(queue);
    assert flat[0..] == flat && went + flat[..n] + flat[n..] == went + flat;
  }

  lemma ForwardReleased(queue: seq<Octets>, pcb: bool, eof: bool, res: int, came: Octets, went: Octets, credit: nat,
                        n: nat)
    requires ForwardOk(queue, pcb, eof, res, came, went, credit, false, n)
    ensures ForwardOk(Drop(queue, n), pcb, eof, res, came, went, if pcb then credit + n else credit, false, 0)
  {
    hide Drop, Flat;
    DropFlat(queue, n);
    var flat := Flat(Drop(queue, n));
    assert flat[0..] == flat;
  }

  lemma ForwardReceived(queue: seq<Octets>, pcb: bool, eof: bool, res: int, came: Octets, went: Octets, credit: nat,
                        pending: nat, p: Octets)
    requires ForwardOk(queue, pcb, eof, res, came, went, credit, false, pending)
    ensures ForwardOk(queue + [p], pcb, eof, res, came + p, went, credit, false, pending)
  {
    FlatConcat(queue, [p]);
    FlatOne(p);
    hide Flat;
    var rest := Flat(queue)[pending..];
    assert (Flat(queue) + p)[pending..] == rest + p;
    Associative(went, rest, p);
  }

  lemma FlatOne(p: Octets)
    ensures Flat([p]) == p
  {
    assert [p][1..] == [];
  }

  lemma ForwardEmpty(queue: seq<Octets>, pcb: bool, eof: bool, res: int, came: Octets, went: Octets, credit: nat)
    requires ForwardOk(queue, pcb, eof, res, came, went, credit, false, 0) && queue == []
    ensures went == came
  {
  }

  /** What lwIP has taken is a prefix of what came, unless it has taken a stretch after refusing one (`gap`). Unless a
      call to lwIP has failed, what came is what lwIP has taken and what can be read from the ring, and the ring still
      holds, unchanged, what lwIP refers to. After a failure nothing more is read or given. A half-close is passed on
      when everything before it was given to lwIP. */
  ghost predicate BackwardOk(came: Octets, went: Octets, acked: nat, handed: Octets, readable: Octets, closed: bool,
                             res: int, failed: bool, gap: bool) {
    && (!failed ==> came == went + readable && |went| == acked + |handed| && went[acked..] == handed)
    && (!gap ==> went <= came) && (gap ==> failed) && (failed ==> res < 0)
    && (closed ==> res < 0 && readable == [])
  }

  /** The octets of those stretches that lwIP takes. */
  ghost function Accepted(d: Octets, iov: seq<Stretch>, oks: seq<bool>): Octets
    requires InRange(iov, |d|) && |iov| <= 2 <= |oks|
  {
    if iov == [] then []
    else
      var first := if oks[0] then d[iov[0].base..iov[0].base + iov[0].len] else [];
      if |iov| == 1 then first
      else first + if oks[1] then d[iov[1].base..iov[1].base + iov[1].len] else []
  }

  /** The second stretch is taken though the first is not. */
  predicate Skips(iov: seq<Stretch>, oks: seq<bool>)
    requires |oks| >= 2
  {
    |iov| == 2 && !oks[0] && oks[1]
  }

  predicate AllTaken(iov: seq<Stretch>, oks: seq<bool>)
    requires |iov| <= 2 <= |oks|
  {
    forall i :: 0 <= i < |iov| ==> oks[i]
  }

  lemma AcceptedPrefix(d: Octets, iov: seq<Stretch>, oks: seq<bool>)
    requires InRange(iov, |d|) && |iov| <= 2 <= |oks|
    ensures AllTaken(iov, oks) ==> Accepted(d, iov, oks) == Gather(d, iov)
    ensures !Skips(iov, oks) ==> Accepted(d, iov, oks) <= Gather(d, iov)
  {
    if |iov| == 2 && !oks[1] {
      var a, b := d[iov[0].base..iov[0].base + iov[0].len], d[iov[1].base..iov[1].base + iov[1].len];
      assert a + [] == a && a <= a + b;
    }
  }

  /** What lwIP takes of two stretches is a prefix of them, whatever octets they hold, if and only if it does not take
      the second without the first. */
  lemma GapExact(n: nat, iov: seq<Stretch>, oks: seq<bool>)
    requires InRange(iov, n) && |iov| <= 2 == |oks|
    requires |iov| == 2 ==> Apart(iov[0], iov[1])
    ensures (forall d: Octets :: |d| == n ==> Accepted(d, iov, oks) <= Gather(d, iov)) <==> !Skips(iov, oks)
  {
    if !Skips(iov, oks) {
      forall d: Octets | |d| == n ensures Accepted(d, iov, oks) <= Gather(d, iov) { AcceptedPrefix(d, iov, oks); }
    } else {
      var d: Octets := seq(n, k => if k == iov[1].base then 1 else 0);
      assert Accepted(d, iov, oks)[0] == 1 && Gather(d, iov)[0] == 0;
    }
  }

  /** Stretches with something in each and nothing in both. */
  ghost predicate Apart(a: Stretch, b: Stretch) {
    a.len > 0 && b.len > 0 && (a.base + a.len <= b.base || b.base + b.len <= a.base)
  }

  /** With a gap lwIP's stream is not a prefix of the socket's: of the octets 1 and 2, in two stretches, it gets 2. */
  lemma GapFails()
    ensures var d, iov, oks := [1, 2], [Stretch(0, 1), Stretch(1, 1)], [false, true];
      Gather(d, iov) == [1, 2] && Accepted(d, iov, oks) == [2] && !(Accepted(d, iov, oks) <= Gather(d, iov))
  {
    var d: Octets := [1, 2];
    assert d[0..1] == [1] && d[1..2] == [2] && [1] + [2] == [1, 2] && [] + [2] == [2];
    assert [2][0] != [1, 2][0];
  }

  class Session {
    const ring: RingBuffer
    const sndBuf: nat
    var queue: seq<Octets>
    var pcb: bool
    var pcbEof: bool
    var resF: int
    var resB: int
    // Between the two halves of a splice, which are separated by taking a lock: the octets that writev has taken, and
    // the result of reading.
    var pendingF: nat
    var midB: Option<int>
    // Forward: octets that came from lwIP, that went to the socket, and that were credited back to the window.
    ghost var cameF: Octets
    ghost var wentF: Octets
    ghost var credit: nat
    ghost var closedF: bool
    // Backward: octets that came from the socket, that lwIP has taken, and how many of them are acknowledged.
    ghost var cameB: Octets
    ghost var wentB: Octets
    ghost var acked: nat
    ghost var closedB: bool
    ghost var failed: bool
    ghost var gap: bool

    ghost predicate Forward()
      reads this
    {
      ForwardOk(queue, pcb, pcbEof, resF, cameF, wentF, credit, closedF, pendingF)
    }

    ghost predicate Backward()
      reads this, ring, ring.data
      requires ring.Valid()
    {
      BackwardOk(cameB, wentB, acked, ring.Handed(), ring.Readable(), closedB, resB, failed, gap)
    }

    ghost predicate Valid()
      reads this, ring, ring.data
    {
      && ring.Valid() && ring.maxSize <= sndBuf && Forward() && Backward()
      && (pendingF > 0 ==> resF >= 0 && !closedF) && (midB.Some? ==> resB >= 0)
    }

    /** A session with an empty ring no larger than lwIP's send buffer. */
    constructor (ring: RingBuffer, sndBuf: nat)
      requires ring.Valid() && ring.maxSize <= sndBuf && ring.Handed() == [] && ring.Readable() == []
      ensures Valid() && this.ring == ring && this.sndBuf == sndBuf && pcb && !failed && !gap
      ensures cameF == [] && cameB == []
    {
      hide RingBuffer.Cells, ForwardOk, BackwardOk;
      NothingYet();
      this.ring, this.sndBuf := ring, sndBuf;
      queue, pcb, pcbEof, resF, resB, pendingF, midB := [], true, false, 1, 1, 0, None;
      cameF, wentF, credit, closedF := [], [], 0, false;
      cameB, wentB, acked, closedB, failed, gap := [], [], 0, false, false, false;
    }

    /** tcp_splice_f up to its lock: write as much of the queue as the socket takes; `w` is the outcome of writev, if it
        is called. */
    method SpliceForward(w: WriteResult)
      requires Valid() && resF >= 0 && pendingF == 0
      requires w.Wrote? ==> 0 < w.n <= |Flat(queue[..if |queue| < 64 then |queue| else 64])|
      modifies this`wentF, this`closedF, this`resF, this`pendingF
      ensures Valid()
      ensures closedF && !old(closedF) ==> pcbEof && wentF == cameF
      ensures queue == [] ==> wentF == old(wentF) && pendingF == 0 && resF == (if pcbEof then -1 else 0)
      ensures queue == [] ==> closedF == pcbEof
      ensures queue != [] && w.Wrote? ==>
        w.n <= |Flat(queue)| && wentF == old(wentF) + Flat(queue)[..w.n] && pendingF == w.n && resF == 1
      ensures queue != [] && !w.Wrote? ==>
        wentF == old(wentF) && pendingF == 0 && resF == (if w.WriteError? then -1 else 0)
      ensures queue != [] ==> closedF == old(closedF)
    {
      hide Flat, Drop, RingBuffer.Cells, BackwardOk;
      assert !closedF;
      if queue == [] {
        ForwardEmpty(queue, pcb, pcbEof, resF, cameF, wentF, credit);
        resF := if pcbEof then -1 else 0;
        closedF := resF < 0;
        return;
      }
      match w {
        case WriteAgain => resF := 0;
        case WriteError => resF := -1;
        case Wrote(n) =>
          FlatFront(queue, if |queue| < 64 then |queue| else 64);
          ForwardWrote(queue, pcb, pcbEof, resF, cameF, wentF, credit, n);
          wentF, pendingF, resF := wentF + Flat(queue)[..n], n, 1;
      }
    }

    /** tcp_splice_f under its lock: what was written leaves the queue and is credited. */
    method ReleaseQueue()
      requires Valid() && pendingF > 0
      modifies this`queue, this`credit, this`pendingF
      ensures Valid() && pendingF == 0 && queue == Drop(old(queue), old(pendingF))
      ensures credit == old(credit) + if pcb then old(pendingF) else 0
    {
      hide Flat, Drop, RingBuffer.Cells, ForwardOk, BackwardOk;
      ForwardReleased(queue, pcb, pcbEof, resF, cameF, wentF, credit, pendingF);
      queue, credit, pendingF := Drop(queue, pendingF), if pcb then credit + pendingF else credit, 0;
    }

    /** tcp_recv_handler: data from lwIP, refused while the queue is longer than the window. */
    method Received(p: Octets, window: nat) returns (ok: bool)
      requires Valid() && !pcbEof
      modifies this`queue, this`cameF
      ensures Valid() && cameF == old(cameF) + (if ok then p else [])
      ensures ok <==> old(queue) == [] || |Flat(old(queue))| <= window
      ensures queue == if ok then old(queue) + [p] else old(queue)
    {
      hide Flat, RingBuffer.Cells, BackwardOk;
      if queue != [] && |Flat(queue)| > window {
        return false;
      }
      assert !closedF;
      ForwardReceived(queue, pcb, pcbEof, resF, cameF, wentF, credit, pendingF, p);
      queue := queue + [p];
      cameF := cameF + p;
      ok := true;
    }

    /** tcp_recv_handler without data: the peer has closed its side. */
    method ReceivedEof()
      requires Valid()
      modifies this`pcbEof
      ensures Valid() && pcbEof
    {
      hide RingBuffer.Cells, BackwardOk, Flat;
      pcbEof := true;
    }

    /** tcp_write without copying; lwIP has room for it, and takes all of it or nothing. */
    method TcpWrite(base: nat, len: nat, ok: bool, ghost outstanding: nat) returns (ghost out: Octets)
      requires base + len <= ring.data.Length && outstanding + len <= sndBuf
      ensures out == if ok then ring.data[..][base..base + len] else []
    {
      out := if ok then ring.data[..][base..base + len] else [];
    }

    /** Give lwIP the stretches one after the other. */
    method GiveAll(iov: seq<Stretch>, oks: seq<bool>, ghost outstanding: nat)
      returns (s: nat, ok: bool, ghost out: Octets)
      requires outstanding + Total(iov) <= sndBuf && |iov| <= 2 == |oks| && InRange(iov, ring.data.Length)
      ensures s == Total(iov) && ok == AllTaken(iov, oks) && out == Accepted(ring.data[..], iov, oks)
    {
      s, ok, out := 0, true, [];
      ghost var d := ring.data[..];
      for i := 0 to |iov|
        invariant s == Total(iov[..i]) && ok == AllTaken(iov[..i], oks) && out == Accepted(d, iov[..i], oks)
      {
        StretchNext(d, iov, oks, i);
        ghost var more := TcpWrite(iov[i].base, iov[i].len, oks[i], outstanding + s);
        out := out + more;
        ok := ok && oks[i];
        s := s + iov[i].len;
      }
      assert iov[..|iov|] == iov;
    }

    /** The part of tcp_splice_b under its lock that gives lwIP all that can be read. */
    method Give(oks: seq<bool>, outputOk: bool) returns (some: bool, ok: bool)
      requires ring.Valid() && ring.maxSize <= sndBuf && Backward() && resB >= 0 && |oks| == 2
      modifies this`wentB, this`failed, this`gap, ring`rp, ring`rdaSize
      ensures ring.Valid() && ring.Readable() == [] && failed == !ok && (gap ==> oks == [false, true])
      ensures (oks == [true, true] && outputOk ==> ok) && (some <==> old(ring.Readable()) != [])
      ensures BackwardOk(cameB, wentB, acked, ring.Handed(), ring.Readable(), false, if ok then 1 else -1, failed, gap)
    {
      hide RingBuffer.Cells, BackwardOk, Gather, Accepted;
      NotClosed(cameB, wentB, acked, ring.Handed(), ring.Readable(), closedB, resB, failed, gap);
      var iov := ring.Reading();
      some, ok := iov != [], true;
      ghost var readable, handed, d := ring.Readable(), ring.Handed(), ring.data[..];
      if !some {
        Turn(cameB, wentB, acked, handed, readable, resB, false, false, false, 1);
        return;
      }
      var s;
      ghost var out;
      s, ok, out := GiveAll(iov, oks, |handed|);
      AcceptedPrefix(d, iov, oks);
      ok := ok && outputOk;
      Given(cameB, wentB, acked, handed, readable, resB, out, ok, Skips(iov, oks));
      Whole(readable);
      ring.ReadFinish(s);
      wentB, failed, gap := wentB + out, !ok, Skips(iov, oks);
    }

    /** tcp_splice_b up to its lock: read from the socket into the ring; `r` is the outcome of readv, if called. */
    method SpliceBackward(r: ReadResult)
      requires Valid() && resB >= 0 && midB.None?
      requires r.Got? ==> 0 < |r.bytes| <= ring.maxSize - ring.useSize || ring.useSize == ring.maxSize
      modifies this`cameB, this`midB, ring`wp, ring`useSize, ring`rdaSize, ring.data
      ensures Valid() && midB.Some?
      ensures r.Got? && old(ring.useSize) < ring.maxSize ==> cameB == old(cameB) + r.bytes && midB == Some(1)
      ensures !(r.Got? && old(ring.useSize) < ring.maxSize) ==>
        cameB == old(cameB) && midB == Some(if r.EndOrError? && old(ring.useSize) < ring.maxSize then -1 else 0)
    {
      hide RingBuffer.Cells, ForwardOk, BackwardOk;
      NotClosed(cameB, wentB, acked, ring.Handed(), ring.Readable(), closedB, resB, failed, gap);
      var iov := ring.Writing();
      if iov == [] {
        midB := Some(0);
        return;
      }
      match r {
        case ReadAgain => midB := Some(0);
        case EndOrError => midB := Some(-1);
        case Got(bytes) =>
          Came(cameB, wentB, acked, ring.Handed(), ring.Readable(), resB, bytes);
          ring.Receive(iov, bytes);
          cameB := cameB + bytes;
          midB := Some(1);
      }
    }

    /** tcp_splice_b under its lock: give lwIP what can be read. `oks` says of which stretches tcp_write takes, and
        `outputOk` is the outcome of tcp_output. */
    method HandOut(oks: seq<bool>, outputOk: bool)
      requires Valid() && midB.Some? && |oks| == 2
      modifies this`wentB, this`failed, this`gap, this`closedB, this`resB, this`midB, ring`rp, ring`rdaSize
      ensures Valid() && midB.None? && (failed ==> resB < 0)
      ensures closedB && !failed ==> wentB == cameB
      ensures gap ==> oks == [false, true]
      ensures old(pcb) && oks == [true, true] && outputOk ==> !failed && wentB == cameB
      ensures old(pcb) && oks == [true, true] && outputOk ==>
        resB == if old(ring.Readable()) != [] then 1 else old(midB.value)
    {
      hide RingBuffer.Cells, RingBuffer.Valid, RingBuffer.Handed, RingBuffer.Readable, ForwardOk, BackwardOk;
      NotClosed(cameB, wentB, acked, ring.Handed(), ring.Readable(), closedB, resB, failed, gap);
      if !pcb {
        Turn(cameB, wentB, acked, ring.Handed(), ring.Readable(), resB, failed, gap, false, -1);
        resB, midB := -1, None;
        return;
      }
      var some, ok := Give(oks, outputOk);
      var res := if some then 1 else midB.value;
      if !some && res < 0 {
        closedB := true;
      }
      if !ok {
        res := -1;
      }
      Turn(cameB, wentB, acked, ring.Handed(), ring.Readable(), if ok then 1 else -1, failed, gap, closedB, res);
      resB, midB := res, None;
    }

    /** tcp_sent_handler: lwIP's peer has acknowledged `len` octets, which may now be overwritten. */
    method Acknowledged(len: nat)
      requires Valid() && len <= |ring.Handed()|
      modifies this`acked, ring
      ensures Valid() && acked == old(acked) + len && ring.data == old(ring.data)
    {
      hide RingBuffer.Cells, ForwardOk, BackwardOk;
      Acked(cameB, wentB, acked, ring.Handed(), ring.Readable(), closedB, resB, failed, gap, len);
      ring.ReadRelease(len);
      acked := acked + len;
    }

    /** tcp_err_handler: the pcb is gone. */
    method Lost()
      requires Valid()
      modifies this`pcb
      ensures Valid() && !pcb
    {
      hide RingBuffer.Cells, BackwardOk, Flat;
      pcb := false;
    }
  }

  /** The buffer of a session has the configured size, clamped. */
  method NewSession(configured: nat, sndBuf: nat) returns (s: Session)
    requires configured > 0 && sndBuf > 0
    ensures s.Valid() && fresh(s) && fresh(s.ring) && fresh(s.ring.data) && s.sndBuf == sndBuf && s.pcb && !s.failed
    ensures s.ring.maxSize <= sndBuf && (configured <= sndBuf ==> s.ring.maxSize == configured)
  {
    var ring := new RingBuffer(BufferSize(configured, sndBuf));
    s := new Session(ring, sndBuf);
  }

  lemma FlatPositive(q: seq<Octets>)
    requires q != [] && q[0] != []
    ensures |Flat(q)| > 0 && forall k :: 0 < k <= |q| ==> |Flat(q[..k])| > 0
  {
  }

  lemma {:induction false} DropFilled(q: seq<Octets>, n: nat)
    requires forall k :: 0 <= k < |q| ==> q[k] != []
    ensures forall k :: 0 <= k < |Drop(q, n)| ==> Drop(q, n)[k] != []
    decreases |q|
  {
    if n > 0 && q != [] && n >= |q[0]| { DropFilled(q[1..], n - |q[0]|); }
  }

  /** A socket that takes up to `most` octets at a time gets everything that came, and then the half-close. */
  method Drain(s: Session, most: nat)
    requires s.Valid() && s.resF >= 0 && s.pendingF == 0 && most > 0
    requires forall k :: 0 <= k < |s.queue| ==> s.queue[k] != []
    modifies s`queue, s`wentF, s`closedF, s`resF, s`pendingF, s`credit
    ensures s.Valid() && s.queue == [] && s.wentF == s.cameF && s.closedF == s.pcbEof
    ensures s.pcb ==> s.credit == |s.wentF|
  {
    hide RingBuffer.Cells, ForwardOk, BackwardOk, Flat, Drop;
    while s.queue != []
      invariant s.Valid() && s.resF >= 0 && s.pendingF == 0
      invariant forall k :: 0 <= k < |s.queue| ==> s.queue[k] != []
      decreases |Flat(s.queue)|
    {
      FlatPositive(s.queue);
      var room := |Flat(s.queue[..if |s.queue| < 64 then |s.queue| else 64])|;
      ghost var q, n := s.queue, if room < most then room else most;
      s.SpliceForward(Wrote(if room < most then room else most));
      s.ReleaseQueue();
      DropFlat(q, n);
      DropFilled(q, n);
    }
    s.SpliceForward(WriteAgain);
    AllWent(s.queue, s.pcb, s.pcbEof, s.resF, s.cameF, s.wentF, s.credit, s.closedF);
  }

  lemma AllWent(queue: seq<Octets>, pcb: bool, eof: bool, res: int, came: Octets, went: Octets, credit: nat,
                closed: bool)
    requires queue == [] && ForwardOk(queue, pcb, eof, res, came, went, credit, closed, 0)
    ensures came == went && (pcb ==> credit == |went|)
  {
  }

  lemma StretchNext(d: Octets, iov: seq<Stretch>, oks: seq<bool>, i: nat)
    requires InRange(iov, |d|) && i < |iov| <= 2 == |oks|
    ensures Total(iov[..i + 1]) == Total(iov[..i]) + iov[i].len <= Total(iov)
    ensures AllTaken(iov[..i + 1], oks) == (AllTaken(iov[..i], oks) && oks[i])
    ensures Accepted(d, iov[..i + 1], oks)
      == Accepted(d, iov[..i], oks) + if oks[i] then d[iov[i].base..iov[i].base + iov[i].len] else []
  {
  }

  lemma Came(came: Octets, went: Octets, acked: nat, handed: Octets, readable: Octets, res: int, bytes: Octets)
    requires BackwardOk(came, went, acked, handed, readable, false, res, false, false)
    ensures BackwardOk(came + bytes, went, acked, handed, readable + bytes, false, res, false, false)
  {
    Associative(went, readable, bytes);
  }

  lemma Whole(a: Octets)
    ensures a[..|a|] == a && a[|a|..] == []
  {
  }

  lemma NothingYet()
    ensures ForwardOk([], true, false, 1, [], [], 0, false, 0)
    ensures BackwardOk([], [], 0, [], [], false, 1, false, false)
  {
  }

  lemma NotClosed(came: Octets, went: Octets, acked: nat, handed: Octets, readable: Octets, closed: bool, res: int,
                  failed: bool, gap: bool)
    requires BackwardOk(came, went, acked, handed, readable, closed, res, failed, gap) && res >= 0
    ensures !closed && !failed && !gap
  {
  }

  lemma Turn(came: Octets, went: Octets, acked: nat, handed: Octets, readable: Octets, res: int, failed: bool,
             gap: bool, closed: bool, res': int)
    requires BackwardOk(came, went, acked, handed, readable, false, res, failed, gap)
    requires (closed ==> res' < 0 && readable == []) && (failed ==> res' < 0)
    ensures BackwardOk(came, went, acked, handed, readable, closed, res', failed, gap)
    ensures closed && !failed ==> went == came
    ensures !failed && readable == [] ==> went == came
  {
  }

  lemma Given(came: Octets, went: Octets, acked: nat, handed: Octets, readable: Octets, res: int, out: Octets, ok: bool,
              gap: bool)
    requires BackwardOk(came, went, acked, handed, readable, false, res, false, false)
    requires (ok ==> out == readable) && (gap ==> !ok) && (!gap ==> out <= readable)
    ensures BackwardOk(came, went + out, acked, handed + readable, [], false, if ok then 1 else -1, !ok, gap)
  {
    assert went + readable + [] == went + readable;
    assert (went + readable)[acked..] == went[acked..] + readable;
    if !gap { assert went + readable == went + out + readable[|out|..]; }
  }

  lemma Acked(came: Octets, went: Octets, acked: nat, handed: Octets, readable: Octets, closed: bool, res: int,
              failed: bool, gap: bool, len: nat)
    requires BackwardOk(came, went, acked, handed, readable, closed, res, failed, gap) && len <= |handed|
    ensures BackwardOk(came, went, acked + len, handed[len..], readable, closed, res, failed, gap)
  {
    if !failed { assert went[acked + len..] == went[acked..][len..]; }
  }

  // ----- any interleaving ------------------------------------------------------------------------------

  /** The stretches of code between two points at which the task may yield, with what the environment does in them. */
  datatype Event =
    | Forwarding(w: WriteResult) | Releasing | Reading(r: ReadResult) | Handing(oks: seq<bool>, outputOk: bool)
    | Data(p: Octets, window: nat) | Eof | Ack(len: nat) | Loss

  /** Any sequence of events - those that the environment's own contracts rule out are passed over. Forward, what went
      out is a prefix of what came in, and credit equals what was written and released while the pcb lives. Backward,
      the same holds of what lwIP has taken if it never takes a stretch after refusing the one before; as long as no
      call to it fails, lwIP never has more octets outstanding than its send buffer holds. */
  method Run(s: Session, events: seq<Event>)
    requires s.Valid() && !s.gap
    modifies s, s.ring, s.ring.data
    ensures s.Valid()
    ensures s.wentF <= s.cameF && (s.pcb ==> s.credit + s.pendingF == |s.wentF|) && (s.closedF ==> s.wentF == s.cameF)
    ensures (forall e <- events :: e.Handing? ==> e.oks != [false, true]) ==> s.wentB <= s.cameB
    ensures !s.failed ==> |s.wentB| - s.acked <= s.sndBuf && (s.closedB ==> s.wentB == s.cameB)
  {
    hide RingBuffer.Cells, ForwardOk, BackwardOk;
    for i := 0 to |events|
      invariant s.Valid() && s.ring.data == old(s.ring.data)
      invariant s.gap ==> exists e <- events :: e.Handing? && e.oks == [false, true]
    {
      Happen(s, events[i]);
      assert events[i] in events;
    }
    Conserved(s);
  }

  method Happen(s: Session, e: Event)
    requires s.Valid()
    modifies s, s.ring, s.ring.data
    ensures s.Valid() && s.ring.data == old(s.ring.data)
    ensures s.gap && !old(s.gap) ==> e.Handing? && e.oks == [false, true]
  {
    hide RingBuffer.Cells, ForwardOk, BackwardOk, Flat;
    match e {
      case Forwarding(w) =>
        if s.resF >= 0 && s.pendingF == 0
           && (w.Wrote? ==> 0 < w.n <= |Flat(s.queue[..if |s.queue| < 64 then |s.queue| else 64])|) {
          s.SpliceForward(w);
        }
      case Releasing =>
        if s.pendingF > 0 {
          s.ReleaseQueue();
        }
      case Reading(r) =>
        if s.resB >= 0 && s.midB.None?
           && (r.Got? ==> 0 < |r.bytes| <= s.ring.maxSize - s.ring.useSize || s.ring.useSize == s.ring.maxSize) {
          s.SpliceBackward(r);
        }
      case Handing(oks, outputOk) =>
        if s.midB.Some? && |oks| == 2 {
          s.HandOut(oks, outputOk);
        }
      case Data(p, window) =>
        if !s.pcbEof {
          var ok := s.Received(p, window);
        }
      case Eof => s.ReceivedEof();
      case Ack(len) =>
        if len <= s.ring.useSize - s.ring.rdaSize {
          s.Acknowledged(len);
        }
      case Loss => s.Lost();
    }
  }

  lemma Conserved(s: Session)
    requires s.Valid()
    ensures s.wentF <= s.cameF && (s.pcb ==> s.credit + s.pendingF == |s.wentF|) && (s.closedF ==> s.wentF == s.cameF)
    ensures !s.gap ==> s.wentB <= s.cameB
    ensures !s.failed ==> |s.wentB| - s.acked <= s.sndBuf && (s.closedB ==> s.wentB == s.cameB)
  {
  }
}
