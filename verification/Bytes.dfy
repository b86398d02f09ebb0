/**
 Octet strings and the two orders the indexes use: `memcmp` on strings of one length, preceded by a
 comparison of lengths (hev-socks5-authenticator.c), and `strcmp` on NUL-terminated names (hev-mapped-dns.c).
 */
module Bytes {
  type byte = b: int | 0 <= b < 256
  type Octets = seq<byte>

  /** The sign is that of the first difference. */
  function Memcmp(a: Octets, b: Octets): int
    requires |a| == |b|
  {
    if a == [] then 0 else if a[0] != b[0] then a[0] - b[0] else Memcmp(a[1..], b[1..])
  }

  function LengthThenBytes(a: Octets, b: Octets): int {
    if |a| < |b| then -1 else if |a| > |b| then 1 else Memcmp(a, b)
  }

  /** The terminating NUL compares below every other octet. */
  function Strcmp(a: Octets, b: Octets): int {
    if a == [] then (if b == [] then 0 else -1)
    else if b == [] then 1
    else if a[0] != b[0] then a[0] - b[0]
    else Strcmp(a[1..], b[1..])
  }

  lemma {:induction false} MemcmpOrder(a: Octets, b: Octets, c: Octets)
    requires |a| == |b| == |c|
    ensures Memcmp(a, b) == 0 <==> a == b
    ensures Memcmp(a, b) < 0 <==> Memcmp(b, a) > 0
    ensures Memcmp(a, b) < 0 && Memcmp(b, c) <= 0 ==> Memcmp(a, c) < 0
  {
    if a != [] {
      MemcmpOrder(a[1..], b[1..], c[1..]);
      if a[0] == b[0] {
        assert a == [a[0]] + a[1..] && b == [b[0]] + b[1..];
      }
    }
  }

  lemma LengthThenBytesOrder(a: Octets, b: Octets, c: Octets)
    ensures LengthThenBytes(a, b) == 0 <==> a == b
    ensures LengthThenBytes(a, b) < 0 <==> LengthThenBytes(b, a) > 0
    ensures LengthThenBytes(a, b) < 0 && LengthThenBytes(b, c) <= 0 ==> LengthThenBytes(a, c) < 0
  {
    if |a| == |b| {
      MemcmpOrder(a, b, if |c| == |a| then c else a);
    }
  }

  lemma {:induction false} StrcmpOrder(a: Octets, b: Octets, c: Octets)
    ensures Strcmp(a, b) == 0 <==> a == b
    ensures Strcmp(a, b) < 0 <==> Strcmp(b, a) > 0
    ensures Strcmp(a, b) < 0 && Strcmp(b, c) <= 0 ==> Strcmp(a, c) < 0
  {
    if a != [] && b != [] {
      StrcmpOrder(a[1..], b[1..], if c == [] then [] else c[1..]);
      if a[0] == b[0] {
        assert a == [a[0]] + a[1..] && b == [b[0]] + b[1..];
      }
    }
  }

  lemma Associative(a: Octets, b: Octets, c: Octets)
    ensures a + (b + c) == a + b + c
  {
  }
}
