/**
 The address format of hev-socks5-proto.h (section 5 of RFC 1928): a type octet, an IPv4 address, a counted domain
 name or an IPv6 address, and a port in network order.
 */
module Socks5Proto {
  import opened Bytes

  const IPV4 := 1
  const NAME := 3
  const IPV6 := 4

  datatype Addr =
    | IPv4(addr: Octets, port: Octets)
    | Domain(name: Octets, port: Octets)
    | IPv6(addr: Octets, port: Octets)
  {
    ghost predicate Valid() {
      && |port| == 2
      && (IPv4? ==> |addr| == 4) && (IPv6? ==> |addr| == 16) && (Domain? ==> |name| <= 255)
    }

    function Encode(): Octets
      requires Valid()
    {
      match this
      case IPv4(a, p) => [IPV4] + a + p
      case Domain(n, p) => [NAME, |n|] + n + p
      case IPv6(a, p) => [IPV6] + a + p
    }

    /** hev_socks5_addr_len. */
    function Len(): (n: nat)
      requires Valid()
      ensures n == |Encode()|
    {
      match this
      case IPv4(_, _) => 7
      case IPv6(_, _) => 19
      case Domain(n, _) => 4 + |n|
    }
  }

  datatype Parsed = Parsed(addr: Addr, len: nat) | Short | BadType

  /** Read an address off the front of `s`. */
  function Parse(s: Octets): (r: Parsed)
    ensures r.Parsed? ==> r.addr.Valid() && r.len == r.addr.Len() && r.len <= |s| && s[..r.len] == r.addr.Encode()
  {
    if s == [] then Short
    else if s[0] == IPV4 then
      if |s| < 7 then Short else FixedPrefix(s, 4); Parsed(IPv4(s[1..5], s[5..7]), 7)
    else if s[0] == IPV6 then
      if |s| < 19 then Short else FixedPrefix(s, 16); Parsed(IPv6(s[1..17], s[17..19]), 19)
    else if s[0] == NAME then
      if |s| < 2 || |s| - 4 < s[1] then Short
      else
        var n: nat := s[1];
        NamePrefix(s, n);
        Parsed(Domain(s[2..2 + n], s[2 + n..4 + n]), 4 + n)
    else BadType
  }

  /** Type, `n` octets of address, and a port. */
  lemma FixedPrefix(s: Octets, n: nat)
    requires |s| >= n + 3
    ensures s[..n + 3] == [s[0]] + s[1..n + 1] + s[n + 1..n + 3]
  {
  }

  /** Type, length, `n` octets of a name, and a port. */
  lemma NamePrefix(s: Octets, n: nat)
    requires |s| >= n + 4 && s[1] == n
    ensures s[..n + 4] == [s[0], n] + s[2..n + 2] + s[n + 2..n + 4]
  {
  }

  /** An encoded address is read back, whatever follows it. */
  lemma ParseEncode(a: Addr, rest: Octets)
    requires a.Valid()
    ensures Parse(a.Encode() + rest) == Parsed(a, a.Len())
  {
    var s := a.Encode() + rest;
    match a
    case IPv4(x, p) => assert s[1..5] == x && s[5..7] == p;
    case IPv6(x, p) => assert s[1..17] == x && s[17..19] == p;
    case Domain(n, p) => assert s[2..2 + |n|] == n && s[2 + |n|..4 + |n|] == p;
  }
}
