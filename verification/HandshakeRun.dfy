/**
 This client against this server: no deadlock, and the same outcome for every interleaving and for both clients.
 */
module HandshakeRun {
  import opened Options
  import opened Bytes
  import opened Duplex
  import opened Socks5Proto
  import opened Handshake
  import A = Authenticator

  /** The course ends with an answer. */
  ghost predicate Answers(v: Server, q: seq<ServerState>)
    requires v.bound.Valid()
  {
    |q| >= 2 && ServerAct(v, q[|q| - 2]).Emit? && ServerAct(v, q[|q| - 2]).bytes != []
  }

  // ----- the server, stage by stage ---------------------------------------------------------------

  lemma ServerMethods(c: Client, v: Server) returns (q: seq<ServerState>)
    requires Ready(c, v)
    ensures Course(ServerProcess(v), q, Methods(c), [VERSION, Chosen(c, v)]) && q != [] && q[0] == ReadVersion
    ensures Last(q) == ServerNext(v, WriteMethod(Chosen(c, v)), []) && Answers(v, q)
  {
    var m := ServerProcess(v);
    var a: Octets, b: Octets := [VERSION, 1], [if c.creds.None? then NO_AUTH else USER];
    var x := Chosen(c, v);
    assert ServerNext(v, ReadVersion, a) == ReadMethods(1);
    assert ServerNext(v, ReadMethods(1), b) == WriteMethod(x);
    q := [ReadVersion];
    assert Course(m, q, [], []);
    hide Course, ServerNext;
    ThenTake(m, q, [], [], a, ReadMethods(1));
    q := q + [ReadMethods(1)];
    ThenTake(m, q, [] + a, [], b, WriteMethod(x));
    q := q + [WriteMethod(x)];
    ThenEmit(m, q, [] + a + b, [], [VERSION, x], m.next(WriteMethod(x), []));
    q := q + [m.next(WriteMethod(x), [])];
    assert [] + a + b == Methods(c) && [] + [VERSION, x] == [VERSION, x];
  }

  lemma CredsParts(k: Credentials)
    ensures var u, p := Cut(k.user), Cut(k.pass);
      CredsMessage(k) == [AUTH_VERSION, |u|] + (u + [|p|]) + p
  {
  }

  /** What the server takes of the credentials. */
  lemma ServerReadCreds(c: Client, v: Server) returns (q: seq<ServerState>, used: Octets)
    requires Ready(c, v) && c.creds.Some? && v.users.Some?
    ensures used <= CredsMessage(c.creds.value) && (Accepted(c, v) ==> used == CredsMessage(c.creds.value))
    ensures Course(ServerProcess(v), q, used, []) && q != [] && q[0] == ReadUserHead
      && Last(q) == WriteUser(if Accepted(c, v) then SUCC else DENY)
  {
    hide Course, Cut, CredsMessage;
    var m, k := ServerProcess(v), CredsMessage(c.creds.value);
    var u, p := Cut(c.creds.value.user), Cut(c.creds.value.pass);
    var a: Octets, b: Octets := [AUTH_VERSION, |u|], u + [|p|];
    CredsParts(c.creds.value);
    q, used := [ReadUserHead], [];
    Resting(m, ReadUserHead);
    if u == [] {
      ThenTake(m, q, used, [], a, WriteUser(DENY));
      q, used := q + [WriteUser(DENY)], used + a;
    } else {
      ThenTake(m, q, used, [], a, ReadName(|u|));
      q, used := q + [ReadName(|u|)], used + a;
      assert b[..|u|] == u;
      if p == [] {
        ThenTake(m, q, used, [], b, WriteUser(DENY));
        q, used := q + [WriteUser(DENY)], used + b;
      } else {
        ThenTake(m, q, used, [], b, ReadPass(u, |p|));
        q, used := q + [ReadPass(u, |p|)], used + b;
        if u in v.users.value { A.CheckIsEquality(v.users.value[u], p); }
        var res := if Accepted(c, v) then SUCC else DENY;
        ThenTake(m, q, used, [], p, WriteUser(res));
        q, used := q + [WriteUser(res)], used + p;
      }
    }
  }

  /** The server's answer to the credentials. */
  lemma ServerCreds(c: Client, v: Server) returns (q: seq<ServerState>, used: Octets)
    requires Ready(c, v) && c.creds.Some? && v.users.Some?
    ensures used <= CredsMessage(c.creds.value) && (Accepted(c, v) ==> used == CredsMessage(c.creds.value))
    ensures Course(ServerProcess(v), q, used, [AUTH_VERSION, if Accepted(c, v) then SUCC else DENY]) && q != []
      && q[0] == ReadUserHead
    ensures Answers(v, q) && Last(q) == if Accepted(c, v) then ReadRequest else ServerDone(false, None)
  {
    hide Course, Cut, CredsMessage, Accepted;
    var m, res := ServerProcess(v), if Accepted(c, v) then SUCC else DENY;
    q, used := ServerReadCreds(c, v);
    ThenEmit(m, q, used, [], [AUTH_VERSION, res], m.next(WriteUser(res), []));
    q := q + [m.next(WriteUser(res), [])];
    assert [] + [AUTH_VERSION, res] == [AUTH_VERSION, res];
  }

  /** What the server decodes of the request. */
  function Decoded(c: Client, v: Server): Option<Order> {
    if v.resolves(c.addr) then Some(Order(Command(c.kind), c.addr)) else None
  }

  function Response(v: Server, rep: byte): Octets
    requires v.bound.Valid()
  {
    [VERSION, rep, 0] + v.bound.Encode()
  }

  lemma ServerRequest(c: Client, v: Server) returns (q: seq<ServerState>)
    requires Ready(c, v)
    ensures Course(ServerProcess(v), q, Request(c), Response(v, Verdict(c, v))) && q != [] && q[0] == ReadRequest
    ensures Last(q) == ServerDone(Verdict(c, v) == SUCC, Decoded(c, v)) && Answers(v, q)
  {
    var m, r, rep := ServerProcess(v), Request(c), Verdict(c, v);
    RequestSteps(c, v);
    var a, b := r[..5], r[5..];
    var w := WriteResponse(rep, Decoded(c, v));
    q := [ReadRequest];
    assert Course(m, q, [], []);
    hide Course, Verdict, Decoded, Request;
    ThenTake(m, q, [], [], a, ReadAddress(a));
    q := q + [ReadAddress(a)];
    ThenTake(m, q, [] + a, [], b, w);
    q := q + [w];
    ThenEmit(m, q, [] + a + b, [], Response(v, rep), m.next(w, []));
    q := q + [m.next(w, [])];
    assert [] + a + b == r && [] + Response(v, rep) == Response(v, rep);
  }

  lemma RequestSteps(c: Client, v: Server)
    requires Ready(c, v)
    ensures var r := Request(c);
      && |r| >= 5 && ServerNext(v, ReadRequest, r[..5]) == ReadAddress(r[..5])
        && ServerAct(v, ReadAddress(r[..5])) == Take(|r[5..]|)
      && ServerNext(v, ReadAddress(r[..5]), r[5..]) == WriteResponse(Verdict(c, v), Decoded(c, v))
  {
    var r := Request(c);
    RequestParts(c);
    var a, b := r[..5], r[5..];
    ParseEncode(c.addr, []);
    hide Parse;
    assert [a[3], a[4]] + b == c.addr.Encode() == c.addr.Encode() + [];
  }

  /** The first five octets of a request tell how many follow. */
  lemma RequestParts(c: Client)
    requires c.addr.Valid()
    ensures var r := Request(c);
      && |r| >= 5 && |r| - 5 == AddressRest(r[3], r[4]) && r[0] == VERSION && r[1] == Command(c.kind)
      && (r[3] == IPV4 || r[3] == IPV6 || r[3] == NAME) && r[3..] == c.addr.Encode()
  {
  }

  // ----- the client, stage by stage ---------------------------------------------------------------------

  lemma ClientTake(c: Client, s: ClientState, b: Octets, s': ClientState)
    requires c.addr.Valid() && ClientAct(c, s) == Take(|b|) && s' == ClientNext(c, s, b)
    ensures Course(ClientProcess(c), [s, s'], b, [])
  {
    CourseTake(ClientProcess(c), s, b);
  }

  lemma Resting<S(!new)>(m: Process<S>, s: S)
    ensures Course(m, [s], [], [])
  {
  }

  /** A response is a head of four octets and the rest of an address. */
  lemma ResponseParts(c: Client, v: Server, rep: byte)
    requires Ready(c, v)
    ensures var r := Response(v, rep);
      && |r| >= 4 && r[0] == VERSION && r[1] == rep && (r[3] == IPV4 || r[3] == IPV6)
      && |r[4..]| == if r[3] == IPV4 then 6 else 18
  {
  }

  /** Taking the response: all of it if it reports success, else only its head. */
  lemma ClientResponse(c: Client, v: Server, rep: byte) returns (p: seq<ClientState>, used: Octets)
    requires Ready(c, v)
    ensures used <= Response(v, rep) && (rep == SUCC ==> used == Response(v, rep))
    ensures Course(ClientProcess(c), p, used, []) && p != [] && p[0] == ReadHead
      && Last(p) == ClientDone(rep == SUCC && c.accepts)
  {
    hide Course, Response;
    var m, r := ClientProcess(c), Response(v, rep);
    ResponseParts(c, v, rep);
    var a, b := r[..4], r[4..];
    p, used := [ReadHead], a;
    Resting(m, ReadHead);
    ThenTake(m, p, [], [], a, ClientNext(c, ReadHead, a));
    p := p + [ClientNext(c, ReadHead, a)];
    assert [] + a == a;
    if rep == SUCC {
      ThenTake(m, p, a, [], b, ClientNext(c, ReadTail(a), b));
      p, used := p + [ClientNext(c, ReadTail(a), b)], a + b;
      assert a + b == r;
    }
  }

  // ----- the standard client --------------------------------------------------------------------------

  /** The courses of both sides, and what they take and emit. */
  datatype Play = Play(p: seq<ClientState>, q: seq<ServerState>, pin: Octets, pout: Octets, qin: Octets, qout: Octets)

  ghost predicate Good(c: Client, v: Server, y: Play)
    requires Ready(c, v)
  {
    Dialogue(ClientProcess(c), ServerProcess(v), y.p, y.q, y.pin, y.pout, y.qin, y.qout)
  }

  /** From the request on. */
  lemma RequestRound(c: Client, v: Server) returns (y: Play)
    requires Ready(c, v) && !c.pipeline
    ensures Good(c, v, y) && Answers(v, y.q) && y.p != [] && y.q != [] && y.p[0] == WriteRequest
      && y.q[0] == ReadRequest
    ensures Last(y.p) == ClientDone(Verdict(c, v) == SUCC && c.accepts)
    ensures Last(y.q) == ServerDone(Verdict(c, v) == SUCC, Decoded(c, v))
    ensures Verdict(c, v) == SUCC ==> y.pin == y.qout && y.qin == y.pout
  {
    hide Course, Causal, Verdict;
    var rep := Verdict(c, v);
    var q := ServerRequest(c, v);
    var p, used := ClientResponse(c, v, rep);
    RoundDialogue(ClientProcess(c), ServerProcess(v), WriteRequest, p, q, used, Request(c), Request(c),
                  Response(v, rep));
    y := Play([WriteRequest] + p, q, used, Request(c), Request(c), Response(v, rep));
  }

  /** The exchange of credentials. */
  lemma CredsRound(c: Client, v: Server) returns (y: Play)
    requires Ready(c, v) && !c.pipeline && c.creds.Some? && v.users.Some?
    ensures Good(c, v, y) && Answers(v, y.q) && y.p != [] && y.q != [] && y.p[0] == WriteCreds && y.q[0] == ReadUserHead
    ensures Last(y.p) == if Accepted(c, v) then WriteRequest else ClientDone(false)
    ensures Last(y.q) == if Accepted(c, v) then ReadRequest else ServerDone(false, None)
    ensures Accepted(c, v) ==> y.pin == y.qout && y.qin == y.pout
  {
    hide Course, Causal, Accepted, CredsMessage;
    var z: byte := if Accepted(c, v) then SUCC else DENY;
    var k := CredsMessage(c.creds.value);
    var q, used := ServerCreds(c, v);
    var p := [ReadCreds, ClientNext(c, ReadCreds, [AUTH_VERSION, z])];
    ClientTake(c, ReadCreds, [AUTH_VERSION, z], p[1]);
    RoundDialogue(ClientProcess(c), ServerProcess(v), WriteCreds, p, q, [AUTH_VERSION, z], k, used, [AUTH_VERSION, z]);
    y := Play([WriteCreds] + p, q, [AUTH_VERSION, z], k, used, [AUTH_VERSION, z]);
  }

  /** The choice of a method. */
  lemma MethodRound(c: Client, v: Server) returns (y: Play)
    requires Ready(c, v) && !c.pipeline
    ensures Good(c, v, y) && Answers(v, y.q) && y.p != [] && y.q != [] && y.p[0] == WriteMethods
      && y.q[0] == ReadVersion && y.pin == y.qout && y.qin == y.pout
    ensures Last(y.p) == ClientNext(c, ReadMethod, [VERSION, Chosen(c, v)])
    ensures Last(y.q) == ServerNext(v, WriteMethod(Chosen(c, v)), [])
  {
    hide Course, Causal, Chosen;
    var x := Chosen(c, v);
    var q := ServerMethods(c, v);
    var p := [ReadMethod, ClientNext(c, ReadMethod, [VERSION, x])];
    ClientTake(c, ReadMethod, [VERSION, x], p[1]);
    RoundDialogue(ClientProcess(c), ServerProcess(v), WriteMethods, p, q, [VERSION, x], Methods(c), Methods(c),
                  [VERSION, x]);
    y := Play([WriteMethods] + p, q, [VERSION, x], Methods(c), Methods(c), [VERSION, x]);
  }

  lemma Then(c: Client, v: Server, y: Play, z: Play) returns (w: Play)
    requires Ready(c, v) && Good(c, v, y) && Good(c, v, z) && y.pin == y.qout && y.qin == y.pout
    requires y.p != [] && y.q != [] && z.p != [] && Answers(v, z.q) && Last(y.p) == z.p[0] && Last(y.q) == z.q[0]
    ensures Good(c, v, w) && w.p != [] && Answers(v, w.q) && w.p[0] == y.p[0] && w.q[0] == y.q[0]
      && Last(w.p) == Last(z.p) && Last(w.q) == Last(z.q)
    ensures z.pin == z.qout && z.qin == z.pout ==> w.pin == w.qout && w.qin == w.pout
  {
    hide Dialogue;
    DialogueThen(ClientProcess(c), ServerProcess(v), y.p, y.q, y.pout, y.pin, z.p, z.q, z.pin, z.pout, z.qin, z.qout);
    w := Play(y.p + z.p[1..], y.q + z.q[1..], y.pin + z.pin, y.pout + z.pout, y.qin + z.qin, y.qout + z.qout);
  }

  /** How a handshake ends. */
  ghost predicate Ends(c: Client, v: Server, y: Play)
    requires Ready(c, v)
  {
    && Good(c, v, y) && y.p != [] && Answers(v, y.q) && y.p[0] == WriteMethods && y.q[0] == ReadVersion
    && Last(y.p) == ClientDone(Succeeds(c, v))
    && Last(y.q) == ServerDone(Admitted(c, v) && Verdict(c, v) == SUCC, if Admitted(c, v) then Decoded(c, v) else None)
    && (Succeeds(c, v) ==> y.pin == y.qout && y.qin == y.pout)
  }

  lemma StandardPlay(c: Client, v: Server) returns (y: Play)
    requires Ready(c, v) && !c.pipeline
    ensures Ends(c, v, y)
  {
    hide Dialogue, Accepted, Verdict, Course;
    y := MethodRound(c, v);
    if Chosen(c, v) == NO_AUTH {
      var z := RequestRound(c, v);
      y := Then(c, v, y, z);
    } else if Chosen(c, v) == USER {
      var k := CredsRound(c, v);
      if Accepted(c, v) {
        y := Then(c, v, y, k);
        var z := RequestRound(c, v);
        y := Then(c, v, y, z);
      } else {
        y := Then(c, v, y, k);
      }
    }
  }

  // ----- the pipelined client ---------------------------------------------------------------------------

  function CredsOf(c: Client): Octets { if c.creds.None? then [] else CredsMessage(c.creds.value) }

  /** All three messages at once. */
  lemma PipelineEmits(c: Client) returns (e: seq<ClientState>)
    requires c.addr.Valid() && c.pipeline
    ensures e != [] && e[0] == WriteMethods && Last(e) == ReadMethod
    ensures forall k :: 0 <= k < |e| - 1 ==> ClientProcess(c).act(e[k]).Emit?
    ensures Course(ClientProcess(c), e, [], Methods(c) + CredsOf(c) + Request(c))
  {
    var m := ClientProcess(c);
    e := [WriteMethods];
    assert Course(m, e, [], []);
    hide Course;
    ThenEmit(m, e, [], [], Methods(c), WriteCreds);
    ThenEmit(m, e + [WriteCreds], [], [] + Methods(c), CredsOf(c), WriteRequest);
    ThenEmit(m, e + [WriteCreds] + [WriteRequest], [], [] + Methods(c) + CredsOf(c), Request(c), ReadMethod);
    e := e + [WriteCreds] + [WriteRequest] + [ReadMethod];
    assert [] + Methods(c) == Methods(c);
  }

  /** What the client takes and what the server does, as far as the handshake has got: nothing is left over. */
  ghost predicate Even(c: Client, v: Server, t: seq<ClientState>, q: seq<ServerState>, up: Octets, down: Octets)
    requires Ready(c, v)
  {
    && Course(ClientProcess(c), t, down, []) && Course(ServerProcess(v), q, up, down)
    && t != [] && q != [] && t[0] == ReadMethod && q[0] == ReadVersion
  }

  /** The next stage: the client takes `tin` of the server's answer `out` to `used`. */
  lemma Extend(c: Client, v: Server, t: seq<ClientState>, q: seq<ServerState>, up: Octets, down: Octets,
               t2: seq<ClientState>, tin: Octets, q2: seq<ServerState>, used: Octets, out: Octets)
                 returns (t': seq<ClientState>, q': seq<ServerState>)
    requires Ready(c, v) && Even(c, v, t, q, up, down) && t2 != [] && Answers(v, q2) && Last(t) == t2[0]
      && Last(q) == q2[0]
    requires Course(ClientProcess(c), t2, tin, []) && Course(ServerProcess(v), q2, used, out)
    ensures t' != [] && Answers(v, q') && t'[0] == ReadMethod && q'[0] == ReadVersion && Last(t') == Last(t2)
      && Last(q') == Last(q2)
    ensures Course(ClientProcess(c), t', down + tin, []) && Course(ServerProcess(v), q', up + used, down + out)
  {
    hide Course;
    CourseThen(ClientProcess(c), t, down, [], t2, tin, []);
    CourseThen(ServerProcess(v), q, up, down, q2, used, out);
    t', q' := t + t2[1..], q + q2[1..];
    var nothing: Octets := [];
    assert nothing + nothing == nothing;
  }

  /** Emit everything, then take: the two courses fit. */
  lemma PipelineFits(c: Client, v: Server, t: seq<ClientState>, tin: Octets, q: seq<ServerState>, qin: Octets,
                     qout: Octets) returns (y: Play)
    requires Ready(c, v) && c.pipeline && t != [] && q != [] && t[0] == ReadMethod
    requires Course(ClientProcess(c), t, tin, []) && Course(ServerProcess(v), q, qin, qout)
    requires tin <= qout && qin <= Methods(c) + CredsOf(c) + Request(c)
    ensures Good(c, v, y) && y.p != [] && y.p[0] == WriteMethods && Last(y.p) == Last(t)
    ensures y.q == q && y.pin == tin && y.pout == Methods(c) + CredsOf(c) + Request(c) && y.qin == qin && y.qout == qout
  {
    hide Course;
    var m, out := ClientProcess(c), Methods(c) + CredsOf(c) + Request(c);
    var e := PipelineEmits(c);
    CourseThen(m, e, [], out, t, tin, []);
    EmitFirst(m, e, t, out);
    var p := e + t[1..];
    assert [] + tin == tin && out + [] == out;
    CausalAtOnce(m, ServerProcess(v), p, q, tin, out, qin, qout);
    y := Play(p, q, tin, out, qin, qout);
  }

  lemma PipelinePlay(c: Client, v: Server) returns (y: Play)
    requires Ready(c, v) && c.pipeline
    ensures Ends(c, v, y)
  {
    hide Dialogue, Accepted, Verdict, Course;
    var x, all := Chosen(c, v), Methods(c) + CredsOf(c) + Request(c);
    var q := ServerMethods(c, v);
    var t := [ReadMethod, ClientNext(c, ReadMethod, [VERSION, x])];
    ClientTake(c, ReadMethod, [VERSION, x], t[1]);
    if x == NO_AUTH {
      var q3 := ServerRequest(c, v);
      var rep := Verdict(c, v);
      var t3, used := ClientResponse(c, v, rep);
      t, q := Extend(c, v, t, q, Methods(c), [VERSION, x], t3, used, q3, Request(c), Response(v, rep));
      assert Methods(c) + [] == Methods(c);
      PrefixThen([VERSION, x], used, Response(v, rep));
      y := PipelineFits(c, v, t, [VERSION, x] + used, q, Methods(c) + Request(c), [VERSION, x] + Response(v, rep));
    } else if x == USER {
      y := PipelineUser(c, v, t, q);
    } else {
      assert Methods(c) <= all;
      y := PipelineFits(c, v, t, [VERSION, x], q, Methods(c), [VERSION, x]);
    }
  }

  lemma PipelineUser(c: Client, v: Server, t: seq<ClientState>, q: seq<ServerState>) returns (y: Play)
    requires Ready(c, v) && c.pipeline && Chosen(c, v) == USER
    requires Even(c, v, t, q, Methods(c), [VERSION, USER]) && Last(t) == ReadCreds && Last(q) == ReadUserHead
    ensures Ends(c, v, y)
  {
    hide Dialogue, Accepted, Verdict, Course, CredsMessage;
    var z: byte := if Accepted(c, v) then SUCC else DENY;
    var k := CredsMessage(c.creds.value);
    var q2, used2 := ServerCreds(c, v);
    var t2 := [ReadCreds, ClientNext(c, ReadCreds, [AUTH_VERSION, z])];
    ClientTake(c, ReadCreds, [AUTH_VERSION, z], t2[1]);
    var t', q' := Extend(c, v, t, q, Methods(c), [VERSION, USER], t2, [AUTH_VERSION, z], q2, used2, [AUTH_VERSION, z]);
    var up, down := Methods(c) + used2, [VERSION, USER] + [AUTH_VERSION, z];
    if Accepted(c, v) {
      var q3 := ServerRequest(c, v);
      var rep := Verdict(c, v);
      var t3, used := ClientResponse(c, v, rep);
      t', q' := Extend(c, v, t', q', up, down, t3, used, q3, Request(c), Response(v, rep));
      PrefixThen(down, used, Response(v, rep));
      y := PipelineFits(c, v, t', down + used, q', up + Request(c), down + Response(v, rep));
    } else {
      PrefixThen(Methods(c), used2, k);
      assert Methods(c) + k <= Methods(c) + k + Request(c);
      y := PipelineFits(c, v, t', down, q', up, down);
    }
  }

  // ----- all interleavings --------------------------------------------------------------------------------

  ghost function Begin(): Pair<ClientState, ServerState> { Pair(WriteMethods, ReadVersion, [], []) }

  lemma PlayOf(c: Client, v: Server) returns (y: Play)
    requires Ready(c, v)
    ensures Ends(c, v, y)
  {
    if c.pipeline {
      y := PipelinePlay(c, v);
    } else {
      y := StandardPlay(c, v);
    }
  }

  /** What the server has in the end. */
  function ServerEnd(c: Client, v: Server): ServerState {
    ServerDone(Admitted(c, v) && Verdict(c, v) == SUCC, if Admitted(c, v) then Decoded(c, v) else None)
  }

  /** The handshake under any schedule: there is no deadlock, and when both sides have stopped, the outcome is
      `Succeeds` for the client and `ServerEnd` for the server. */
  lemma AnyInterleaving(c: Client, v: Server, schedule: seq<bool>)
    requires Ready(c, v)
    ensures var m, n := ClientProcess(c), ServerProcess(v);
      var x := RunPair(m, n, Begin(), schedule);
      && (m.act(x.a).Stop? && n.act(x.b).Stop? ==> x.a == ClientDone(Succeeds(c, v)) && x.b == ServerEnd(c, v))
      && ((m.act(x.a).Stop? && n.act(x.b).Stop?) || Enabled(m, x.a, x.ba, n.act(x.b).Stop?)
          || Enabled(n, x.b, x.ab, m.act(x.a).Stop?))
  {
    var m, n := ClientProcess(c), ServerProcess(v);
    var y := PlayOf(c, v);
    assert Meet(m, n, y.p, y.q, y.pin, y.pout, y.qin, y.qout);
    hide Course, Causal, Succeeds, Admitted, Verdict, Answers;
    Start(m, n, y.p, y.q, y.pin, y.pout, y.qin, y.qout);
    var i, j := AnySchedule(m, n, y.p, y.q, y.pin, y.pout, y.qin, y.qout, Begin(), 0, 0, schedule);
    var x := RunPair(m, n, Begin(), schedule);
    hide Moves, RunPair;
    Progress(m, n, y.p, y.q, y.pin, y.pout, y.qin, y.qout, x, i, j);
    if m.act(x.a).Stop? && n.act(x.b).Stop? {
      Finished(m, n, y.p, y.q, y.pin, y.pout, y.qin, y.qout, x, i, j);
    }
  }

  /** No schedule can go on for ever: the number of steps that move a process is bounded for all of them at once. */
  lemma Terminates(c: Client, v: Server) returns (bound: nat)
    requires Ready(c, v)
    ensures forall schedule :: Moves(ClientProcess(c), ServerProcess(v), Begin(), schedule) <= bound
  {
    var m, n := ClientProcess(c), ServerProcess(v);
    var y := PlayOf(c, v);
    bound := |y.p| + |y.q|;
    assert Meet(m, n, y.p, y.q, y.pin, y.pout, y.qin, y.qout);
    hide Moves, RunPair, Course, Causal, Answers;
    Start(m, n, y.p, y.q, y.pin, y.pout, y.qin, y.qout);
    forall schedule ensures Moves(m, n, Begin(), schedule) <= bound {
      var i, j := AnySchedule(m, n, y.p, y.q, y.pin, y.pout, y.qin, y.qout, Begin(), 0, 0, schedule);
    }
  }

  /** As soon as the client has succeeded, the server has finished too, with exactly the command and the address of the
      client, having accepted its credentials if it authenticates; and no octet of the handshake is left unread. */
  lemma ClientSuccess(c: Client, v: Server, schedule: seq<bool>)
    requires Ready(c, v)
    ensures var x := RunPair(ClientProcess(c), ServerProcess(v), Begin(), schedule);
      x.a == ClientDone(true) ==>
        && x.b == ServerDone(true, Some(Order(if c.kind.Tcp? then 1 else if c.kind.UdpInUdp? then 3 else 5, c.addr)))
        && x.ab == [] && x.ba == [] && (v.users.Some? ==> c.creds.Some? && Accepted(c, v))
  {
    var m, n := ClientProcess(c), ServerProcess(v);
    var y := PlayOf(c, v);
    assert Meet(m, n, y.p, y.q, y.pin, y.pout, y.qin, y.qout);
    hide Causal, Course, Accepted, Verdict;
    Start(m, n, y.p, y.q, y.pin, y.pout, y.qin, y.qout);
    var i, j := AnySchedule(m, n, y.p, y.q, y.pin, y.pout, y.qin, y.qout, Begin(), 0, 0, schedule);
    var x := RunPair(m, n, Begin(), schedule);
    hide RunPair, Moves, Dialogue;
    if x.a == ClientDone(true) {
      SuccessEnds(c, v, y, x, i, j);
      SuccessMeans(c, v);
    }
  }

  /** The last thing the client takes is the last thing the server emits. */
  lemma SuccessEnds(c: Client, v: Server, y: Play, x: Pair<ClientState, ServerState>, i: nat, j: nat)
    requires Ready(c, v) && Ends(c, v, y) && x.a == ClientDone(true)
    requires Meet(ClientProcess(c), ServerProcess(v), y.p, y.q, y.pin, y.pout, y.qin, y.qout)
    requires On(ClientProcess(c), ServerProcess(v), y.p, y.q, y.pout, y.qout, x, i, j) && i < |y.p| && j < |y.q|
      && x.a == y.p[i] && x.b == y.q[j]
    ensures Succeeds(c, v) && x.b == ServerEnd(c, v) && x.ab == [] && x.ba == []
  {
    var m, n := ClientProcess(c), ServerProcess(v);
    hide Course, Causal, Dialogue, Admitted, Verdict, On;
    StoppedAtEnd(m, y.p, y.pin, y.pout, i);
    AllTaken(m, n, y.p, y.q, y.pin, y.pout, y.qin, y.qout, x, i, j);
    Finished(m, n, y.p, y.q, y.pin, y.pout, y.qin, y.qout, x, i, j);
  }

  lemma SuccessMeans(c: Client, v: Server)
    requires Succeeds(c, v)
    ensures ServerEnd(c, v) == ServerDone(true, Some(Order(Command(c.kind), c.addr)))
    ensures v.users.Some? ==> c.creds.Some? && Accepted(c, v)
  {
    hide Accepted;
  }

  /** The standard and the pipelined client come to the same end, whatever the schedules. */
  lemma SameOutcome(c: Client, v: Server, schedule: seq<bool>, schedule': seq<bool>)
    requires Ready(c, v)
    ensures var c', n := c.(pipeline := !c.pipeline), ServerProcess(v);
      var x, x' := RunPair(ClientProcess(c), n, Begin(), schedule), RunPair(ClientProcess(c'), n, Begin(), schedule');
      ClientAct(c, x.a).Stop? && n.act(x.b).Stop? && ClientAct(c', x'.a).Stop? && n.act(x'.b).Stop? ==>
        x.a == x'.a && x.b == x'.b
  {
    hide RunPair, Moves;
    AnyInterleaving(c, v, schedule);
    AnyInterleaving(c.(pipeline := !c.pipeline), v, schedule');
  }
}
