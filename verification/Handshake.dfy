/**
 The SOCKS5 handshakes of hev-socks5-client.c and hev-socks5-server.c (sections 3, 4 and 6 of RFC 1928, section 2 of
 RFC 1929) as processes over byte channels.
 */
module Handshake {
  import opened Options
  import opened Bytes
  import opened Duplex
  import opened Socks5Proto
  import A = Authenticator

  const VERSION := 5
  const AUTH_VERSION := 1
  const NO_AUTH := 0
  const USER := 2
  const DENY := 255

  const CONNECT: byte := 1
  const UDP_ASC: byte := 3
  const FWD_UDP: byte := 5

  const SUCC: byte := 0
  const FAIL: byte := 1
  const HOST: byte := 4
  const IMPL: byte := 7
  const ADDR: byte := 8

  datatype Credentials = Credentials(user: Octets, pass: Octets)

  datatype SocketType = Tcp | UdpInTcp | UdpInUdp

  // ----- the client --------------------------------------------------------------------------------

  /** What a client is given; `accepts` is what set_upstream_addr says to the server's address. */
  datatype Client = Client(creds: Option<Credentials>, kind: SocketType, addr: Addr, pipeline: bool, accepts: bool)

  datatype ClientState =
    | WriteMethods | ReadMethod | WriteCreds | ReadCreds | WriteRequest | ReadHead | ReadTail(head: Octets)
    | ClientDone(ok: bool)

  /** A length octet holds only the low eight bits, and as many octets are sent. */
  function Cut(s: Octets): (r: Octets)
    ensures |r| <= 255
  {
    s[..|s| % 256]
  }

  function Methods(c: Client): Octets { [VERSION, 1, if c.creds.None? then NO_AUTH else USER] }

  function CredsMessage(creds: Credentials): Octets {
    var u, p := Cut(creds.user), Cut(creds.pass);
    [AUTH_VERSION, |u|] + u + [|p|] + p
  }

  function Command(kind: SocketType): byte {
    match kind
    case Tcp => CONNECT
    case UdpInTcp => FWD_UDP
    case UdpInUdp => UDP_ASC
  }

  function Request(c: Client): Octets
    requires c.addr.Valid()
  {
    [VERSION, Command(c.kind), 0] + c.addr.Encode()
  }

  /** The client's messages octet by octet (sections 3 and 4 of RFC 1928, section 2 of RFC 1929); command 5 is that of
      hev-socks5-proto.h. */
  lemma ClientOctets(c: Client)
    requires c.addr.Valid()
    ensures Methods(c) == [5, 1, if c.creds.Some? then 2 else 0]
    ensures c.creds.Some? && |c.creds.value.user| < 256 && |c.creds.value.pass| < 256 ==>
      var u, p := c.creds.value.user, c.creds.value.pass;
      CredsMessage(c.creds.value) == [1, |u|] + u + [|p|] + p
    ensures var command := match c.kind case Tcp => 1 case UdpInUdp => 3 case UdpInTcp => 5;
      var address := match c.addr
        case IPv4(a, p) => [1] + a + p
        case Domain(n, p) => [3, |n|] + n + p
        case IPv6(a, p) => [4] + a + p;
      Request(c) == [5, command, 0] + address
  {
    if c.creds.Some? && |c.creds.value.user| < 256 && |c.creds.value.pass| < 256 {
      var u, p := c.creds.value.user, c.creds.value.pass;
      assert Cut(u) == u && Cut(p) == p;
    }
  }

  function ClientAct(c: Client, s: ClientState): Act
    requires c.addr.Valid()
  {
    match s
    case WriteMethods => Emit(Methods(c))
    case ReadMethod => Take(2)
    case WriteCreds => Emit(if c.creds.None? then [] else CredsMessage(c.creds.value))
    case ReadCreds => Take(2)
    case WriteRequest => Emit(Request(c))
    case ReadHead => Take(4)
    case ReadTail(head) => Take(if |head| == 4 && head[3] == IPV4 then 6 else 18)
    case ClientDone(_) => Stop
  }

  function ClientNext(c: Client, s: ClientState, got: Octets): ClientState {
    match s
    case WriteMethods => if c.pipeline then WriteCreds else ReadMethod
    case ReadMethod =>
      if |got| != 2 || got[0] != VERSION then ClientDone(false)
      else if got[1] == USER then (if c.pipeline then ReadCreds else WriteCreds)
      else if got[1] == NO_AUTH then (if c.pipeline then ReadHead else WriteRequest)
      else ClientDone(false)
    case WriteCreds => if c.pipeline then WriteRequest else ReadCreds
    case ReadCreds =>
      if |got| != 2 || got[0] != AUTH_VERSION || got[1] != SUCC then ClientDone(false)
      else if c.pipeline then ReadHead
      else WriteRequest
    case WriteRequest => if c.pipeline then ReadMethod else ReadHead
    case ReadHead =>
      if |got| != 4 || got[0] != VERSION || got[1] != SUCC then ClientDone(false)
      else if got[3] != IPV4 && got[3] != IPV6 then ClientDone(false)
      else ReadTail(got)
    case ReadTail(head) => ClientDone(|head| == 4 && |got| == (if head[3] == IPV4 then 6 else 18) && c.accepts)
    case ClientDone(_) => s
  }

  // ----- the server ---------------------------------------------------------------------------------

  /** What a server is given: its users, if it authenticates; whether addresses resolve and the command can be carried
      out; and the address it reports. */
  datatype Server = Server(users: Option<map<Octets, A.User>>, resolves: Addr -> bool, works: bool, bound: Addr)

  datatype Order = Order(command: byte, addr: Addr)

  datatype ServerState =
    | ReadVersion | ReadMethods(n: nat) | WriteMethod(reply: byte)
    | ReadUserHead | ReadName(nlen: nat) | ReadPass(name: Octets, plen: nat) | WriteUser(res: byte)
    | ReadRequest | ReadAddress(head: Octets) | WriteResponse(rep: byte, order: Option<Order>)
    | ServerDone(ok: bool, order: Option<Order>)

  /** What is left of the address after its first octet. */
  function AddressRest(atype: byte, first: byte): nat {
    if atype == IPV4 then 5 else if atype == IPV6 then 17 else 2 + first
  }

  function ServerAct(v: Server, s: ServerState): Act
    requires v.bound.Valid()
  {
    match s
    case ReadVersion => Take(2)
    case ReadMethods(n) => Take(n)
    case WriteMethod(m) => Emit([VERSION, m])
    case ReadUserHead => Take(2)
    case ReadName(nlen) => Take(nlen + 1)
    case ReadPass(_, plen) => Take(plen)
    case WriteUser(res) => Emit([AUTH_VERSION, res])
    case ReadRequest => Take(5)
    case ReadAddress(head) => Take(if |head| == 5 then AddressRest(head[3], head[4]) else 0)
    case WriteResponse(rep, _) => Emit([VERSION, rep, 0] + v.bound.Encode())
    case ServerDone(_, _) => Stop
  }

  /** Connecting or binding. */
  function Perform(v: Server, order: Order): byte {
    if order.command == CONNECT then (if v.works then SUCC else HOST)
    else if order.command == UDP_ASC || order.command == FWD_UDP then (if v.works then SUCC else FAIL)
    else IMPL
  }

  function ServerNext(v: Server, s: ServerState, got: Octets): ServerState {
    match s
    case ReadVersion => if |got| != 2 || got[0] != VERSION then WriteMethod(DENY) else ReadMethods(got[1])
    case ReadMethods(n) =>
      var wanted := if v.users.Some? then USER else NO_AUTH;
      if |got| == n && wanted in got then WriteMethod(wanted) else WriteMethod(DENY)
    case WriteMethod(m) =>
      if m == NO_AUTH then ReadRequest else if m == USER then ReadUserHead else ServerDone(false, None)
    case ReadUserHead => if |got| != 2 || got[0] != AUTH_VERSION || got[1] == 0 then WriteUser(DENY)
      else ReadName(got[1])
    case ReadName(nlen) =>
      if |got| != nlen + 1 || got[nlen] == 0 then WriteUser(DENY) else ReadPass(got[..nlen], got[nlen])
    case ReadPass(name, plen) =>
      if |got| == plen && v.users.Some? && name in v.users.value
        && A.Check(v.users.value[name], got) == 0 then WriteUser(SUCC) else WriteUser(DENY)
    case WriteUser(res) => if res == SUCC then ReadRequest else ServerDone(false, None)
    case ReadRequest =>
      if |got| != 5 then ServerDone(false, None)
      else if got[0] != VERSION then WriteResponse(FAIL, None)
      else if got[3] != IPV4 && got[3] != IPV6 && got[3] != NAME then WriteResponse(ADDR, None)
      else ReadAddress(got)
    case ReadAddress(head) =>
      var p := if |head| == 5 then Parse([head[3], head[4]] + got) else Short;
      if !p.Parsed? || !v.resolves(p.addr) then WriteResponse(ADDR, None)
      else WriteResponse(Perform(v, Order(head[1], p.addr)), Some(Order(head[1], p.addr)))
    case WriteResponse(rep, order) => ServerDone(rep == SUCC, order)
    case ServerDone(_, _) => s
  }

  // ----- the processes --------------------------------------------------------------------------------

  function ClientProcess(c: Client): Process<ClientState>
    requires c.addr.Valid()
  {
    Process((s: ClientState) => ClientAct(c, s), (s: ClientState, got: Octets) => ClientNext(c, s, got))
  }

  function ServerProcess(v: Server): Process<ServerState>
    requires v.bound.Valid()
  {
    Process((s: ServerState) => ServerAct(v, s), (s: ServerState, got: Octets) => ServerNext(v, s, got))
  }

  // ----- what happens -----------------------------------------------------------------------------------

  /** The method the server replies to the client's offer. */
  function Chosen(c: Client, v: Server): byte {
    if c.creds.Some? != v.users.Some? then DENY else if v.users.Some? then USER else NO_AUTH
  }

  /** The server knows the (possibly cut) credentials. Empty ones are never accepted. */
  predicate Accepted(c: Client, v: Server)
    requires c.creds.Some? && v.users.Some?
  {
    var u, p := Cut(c.creds.value.user), Cut(c.creds.value.pass);
    u != [] && p != [] && u in v.users.value && v.users.value[u].pass == p
  }

  /** The server's verdict on the request. */
  function Verdict(c: Client, v: Server): byte {
    if !v.resolves(c.addr) then ADDR else Perform(v, Order(Command(c.kind), c.addr))
  }

  /** The client gets as far as its request being looked at. */
  predicate Admitted(c: Client, v: Server) {
    Chosen(c, v) == NO_AUTH || (Chosen(c, v) == USER && Accepted(c, v))
  }

  predicate Succeeds(c: Client, v: Server) { Admitted(c, v) && Verdict(c, v) == SUCC && c.accepts }

  /** A handshake succeeds exactly if client and server agree on authenticating, the credentials are known if they do,
      the address resolves, the command can be carried out, and the client takes the address that the server reports. */
  lemma WhenSucceeds(c: Client, v: Server)
    ensures Succeeds(c, v) <==>
      && (c.creds.Some? <==> v.users.Some?) && (c.creds.Some? && v.users.Some? ==> Accepted(c, v))
      && v.resolves(c.addr) && v.works && c.accepts
  {
  }

  ghost predicate Ready(c: Client, v: Server) { c.addr.Valid() && v.bound.Valid() && !v.bound.Domain? }
}
