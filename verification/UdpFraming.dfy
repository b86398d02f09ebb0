/**
 UDP messages over a TCP stream (an extension of this project) and in datagrams (section 7 of RFC 1928), as
 hev-socks5-udp.c sends and receives them.
 */
module UdpFraming {
  import opened Bytes
  import opened Socks5Proto

  datatype Message = Message(addr: Addr, payload: Octets)

  ghost predicate Sendable(m: Message) { m.addr.Valid() && |m.payload| < 0x1_0000 }

  /** The header length of the message fits one octet. */
  ghost predicate Framable(m: Message) { m.addr.Domain? ==> |m.addr.name| <= 248 }

  /** A header of data length and header length, both cut to their widths, then address and payload. */
  function Frame(m: Message): Octets
    requires m.addr.Valid()
  {
    [|m.payload| / 0x100 % 0x100, |m.payload| % 0x100, (3 + m.addr.Len()) % 0x100] + m.addr.Encode() + m.payload
  }

  function Frames(ms: seq<Message>): Octets
    requires forall k :: 0 <= k < |ms| ==> ms[k].addr.Valid()
  {
    if ms == [] then [] else Frame(ms[0]) + Frames(ms[1..])
  }

  lemma {:induction false} FramesConcat(a: seq<Message>, b: seq<Message>)
    requires (forall k :: 0 <= k < |a| ==> a[k].addr.Valid()) && forall k :: 0 <= k < |b| ==> b[k].addr.Valid()
    ensures Frames(a + b) == Frames(a) + Frames(b)
  {
    hide Frame;
    if a == [] {
      assert a + b == b;
    } else {
      FramesConcat(a[1..], b);
      var c, x := a + b, Frames(a[1..]);
      assert c[0] == a[0] && c[1..] == a[1..] + b;
      assert Frames(c) == Frame(a[0]) + (x + Frames(b));
    }
  }

  /** hev_socks5_udp_sendmmsg_tcp: one vector of three parts for each message. */
  method SendBatch(ms: seq<Message>) returns (out: Octets)
    requires forall k :: 0 <= k < |ms| ==> ms[k].addr.Valid()
    ensures out == Frames(ms)
  {
    hide Frames;
    out := [];
    FramesNext(ms, 0);
    for i := 0 to |ms|
      invariant out == Frames(ms[..i])
    {
      var m := ms[i];
      var head: Octets := [|m.payload| / 0x100 % 0x100, |m.payload| % 0x100, (3 + m.addr.Len()) % 0x100];
      FramesNext(ms, i);
      out := out + (head + m.addr.Encode() + m.payload);
    }
    assert ms[..|ms|] == ms;
  }

  lemma FramesNext(ms: seq<Message>, i: nat)
    requires i <= |ms| && forall k :: 0 <= k < |ms| ==> ms[k].addr.Valid()
    ensures Frames(ms[..0]) == [] && (i < |ms| ==> Frames(ms[..i + 1]) == Frames(ms[..i]) + Frame(ms[i]))
  {
    hide Frame;
    if i < |ms| {
      FramesConcat(ms[..i], [ms[i]]);
      assert ms[..i + 1] == ms[..i] + [ms[i]] && [ms[i]][1..] == [];
    }
  }

  // ----- receiving ------------------------------------------------------------------------------------

  /** A received message: the octets of its address, and its payload. */
  datatype Received = Received(addr: Octets, payload: Octets)

  datatype Outcome = Good(msg: Received, len: nat) | Refused | Overrun | Waiting

  /** One message off the front of the stream, into a buffer of `size` octets. The room for the payload is computed
      without sign, so a buffer smaller than the address passes the check. */
  function ReceiveOne(s: Octets, size: nat): Outcome {
    if |s| < 5 then Waiting
    else if s[2] < 5 then Refused
    else
      var addrlen, datlen := s[2] - 3, 0x100 * (s[0] as int) + s[1];
      if size < addrlen then Overrun
      else if datlen > size - addrlen then Refused
      else if |s| < 3 + addrlen + datlen then Waiting
      else Good(Received(s[3..3 + addrlen], s[3 + addrlen..3 + addrlen + datlen]), 3 + addrlen + datlen)
  }

  /** A message is received exactly as it was sent, whatever follows it, if and only if the buffer holds it and its
      header length fits one octet, which leaves 248 octets for a name. */
  lemma ReceiveFrame(m: Message, rest: Octets, size: nat)
    requires Sendable(m)
    ensures ReceiveOne(Frame(m) + rest, size) == Good(Received(m.addr.Encode(), m.payload), |Frame(m)|)
      <==> Framable(m) && m.addr.Len() + |m.payload| <= size
  {
    var s, a := Frame(m) + rest, m.addr.Encode();
    var n := |a|;
    assert s[3..] == a + m.payload + rest;
    if m.addr.Domain? && |m.addr.name| > 248 {
      assert s[2] == 3 + n - 0x100;
    } else {
      assert s[2] == 3 + n;
      assert 0x100 * (s[0] as int) + s[1] == |m.payload|;
      assert s[3..3 + n] == a && s[3 + n..3 + n + |m.payload|] == m.payload;
    }
  }

  /** A name of 249 octets is refused, and one of 254 is cut short: the rest of its frame is taken for messages. */
  lemma LongNameFails(port: Octets, size: nat)
    requires |port| == 2 && size >= 2
    ensures var m := Message(Domain(seq(249, _ => 97), port), []); ReceiveOne(Frame(m), size) == Refused
    ensures var m := Message(Domain(seq(254, _ => 97), port), []);
      ReceiveOne(Frame(m), size) == Good(Received([3, 254], []), 5) && |Frame(m)| == 261
  {
    var s := Frame(Message(Domain(seq(254, _ => 97), port), []));
    assert s[3..5] == [3, 254];
  }

  /** The other end of the stream: `stream` is all that will ever arrive, of which `pos` octets have been taken. */
  class Receiver {
    const stream: Octets
    var pos: nat

    constructor (stream: Octets)
      ensures this.stream == stream && pos == 0
    {
      this.stream, pos := stream, 0;
    }

    /** Between two messages: `k` of them have been received. */
    ghost predicate At(ms: seq<Message>, k: nat)
      reads this
    {
      k <= |ms| && (forall j :: 0 <= j < |ms| ==> Sendable(ms[j]) && Framable(ms[j])) && stream == Frames(ms)
        && pos <= |stream|
      && stream[pos..] == Frames(ms[k..])
    }

    /** hev_socks5_udp_recvmmsg_tcp: up to |sizes| messages. Whether there is anything to read when a message is due is
        up to the network (`ready`); once a message has begun, the rest of it is waited for. The messages received are
        the next ones that were sent, in order and complete, and the stream is left between two messages. */
    method ReceiveBatch(sizes: seq<nat>, ready: seq<bool>, ghost ms: seq<Message>, ghost k: nat)
      returns (msgs: seq<Received>)
      requires At(ms, k) && |ready| == |sizes|
      requires forall i :: 0 <= i < |sizes| && k + i < |ms| ==> sizes[i] >= ms[k + i].addr.Len() + |ms[k + i].payload|
      modifies this`pos
      ensures At(ms, k + |msgs|) && |msgs| <= |sizes|
      ensures forall i :: 0 <= i < |msgs| ==> msgs[i] == Received(ms[k + i].addr.Encode(), ms[k + i].payload)
      ensures |msgs| == |sizes| || k + |msgs| == |ms| || !ready[|msgs|]
    {
      hide Frame, Frames, ReceiveOne, Framable;
      msgs := [];
      for i := 0 to |sizes|
        invariant |msgs| == i && At(ms, k + i)
        invariant forall j :: 0 <= j < i ==> msgs[j] == Received(ms[k + j].addr.Encode(), ms[k + j].payload)
      {
        NoneLeft(ms[k + i..]);
        if pos == |stream| || !ready[i] {
          return;
        }
        NextFrame(ms, k + i, sizes[i]);
        var r := ReceiveOne(stream[pos..], sizes[i]);
        msgs := msgs + [r.msg];
        assert stream[pos..][r.len..] == stream[pos + r.len..];
        pos := pos + r.len;
      }
    }
  }

  /** The first of the messages still to come, and what is left of the stream after it. */
  lemma NextFrame(ms: seq<Message>, k: nat, size: nat)
    requires (forall j :: 0 <= j < |ms| ==> Sendable(ms[j]) && Framable(ms[j])) && k < |ms| && Sendable(ms[k])
    requires size >= ms[k].addr.Len() + |ms[k].payload|
    ensures ms[k].addr.Valid() && forall j :: 0 <= j < |ms| ==> ms[j].addr.Valid()
    ensures var s, len := Frames(ms[k..]), |Frame(ms[k])|;
      && ReceiveOne(s, size) == Good(Received(ms[k].addr.Encode(), ms[k].payload), len) && len <= |s|
      && s[len..] == Frames(ms[k + 1..])
  {
    hide Frame, ReceiveOne;
    assert ms[k..][0] == ms[k] && ms[k..][1..] == ms[k + 1..];
    ReceiveFrame(ms[k], Frames(ms[k + 1..]), size);
  }

  lemma NoneLeft(ms: seq<Message>)
    requires forall k :: 0 <= k < |ms| ==> ms[k].addr.Valid()
    ensures Frames(ms) == [] <==> ms == []
  {
  }

  // ----- datagrams ---------------------------------------------------------------------------------------

  function Datagram(m: Message): Octets
    requires m.addr.Valid()
  {
    [0, 0, 0] + m.addr.Encode() + m.payload
  }

  datatype Datum = Some(msg: Message) | Dropped | BadDatagram

  /** hev_socks5_udp_recvmmsg_udp on one datagram: too short ones are dropped, others must hold a whole address. */
  function ReadDatagram(d: Octets): Datum {
    if |d| < 4 then Dropped
    else
      match Parse(d[3..])
      case Parsed(addr, len) => Some(Message(addr, d[3 + len..]))
      case Short => BadDatagram
      case BadType => BadDatagram
  }

  /** Section 7 of RFC 1928: two reserved octets, the fragment number 0, the address and the data, read back as sent. */
  lemma DatagramBack(m: Message)
    requires m.addr.Valid()
    ensures ReadDatagram(Datagram(m)) == Some(m)
    ensures Datagram(m)[..3] == [0, 0, 0] && Datagram(m)[3..] == m.addr.Encode() + m.payload
  {
    var d := Datagram(m);
    assert d[3..] == m.addr.Encode() + m.payload;
    ParseEncode(m.addr, m.payload);
    assert d[3 + m.addr.Len()..] == m.payload;
  }
}
