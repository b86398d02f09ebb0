/** Powers of two. */
module Powers {
  function Pow2(k: nat): (p: nat)
    ensures p >= 1
  {
    if k == 0 then 1 else 2 * Pow2(k - 1)
  }
}

/**
 Bitwise operations on 32-bit words, written on naturals.
 */
module Words {
  import opened Powers

  const WORD: nat := 0x1_0000_0000

  type word = w: nat | w < 0x1_0000_0000

  function And(x: nat, y: nat): (z: nat)
    ensures z <= x && z <= y
  {
    if x == 0 || y == 0 then 0 else 2 * And(x / 2, y / 2) + (if x % 2 == 1 && y % 2 == 1 then 1 else 0)
  }

  function Or(x: nat, y: nat): (z: nat)
    ensures x <= z && y <= z
    decreases x + y
  {
    if x == 0 then y else if y == 0 then x else 2 * Or(x / 2, y / 2) + (if x % 2 == 1 || y % 2 == 1 then 1 else 0)
  }

  lemma {:induction false} OrBound(x: nat, y: nat, k: nat)
    requires x < Pow2(k) && y < Pow2(k)
    ensures Or(x, y) < Pow2(k)
    decreases k
  {
    if x != 0 && y != 0 {
      OrBound(x / 2, y / 2, k - 1);
    }
  }

  lemma WordPow()
    ensures Pow2(32) == WORD
  {
    assert Pow2(8) == 0x100;
    assert Pow2(16) == 0x1_0000;
    assert Pow2(24) == 0x100_0000;
  }

  function OrWord(x: word, y: word): word {
    WordPow();
    OrBound(x, y, 32);
    Or(x, y)
  }

  function Not(x: word): word { WORD - 1 - x }

  /** The value of a word as a signed `int`. */
  function Signed(x: word): int { if x < 0x8000_0000 then x else x - WORD }

  /** `x` has the form 2^k - 1: the complement of a contiguous network mask. */
  ghost predicate LowOnes(x: nat) { exists k: nat :: x == Pow2(k) - 1 }

  /** All bits up to the highest one of `x`. */
  function Ones(x: nat): (y: nat)
    ensures x <= y
  {
    if x == 0 then 0 else 2 * Ones(x / 2) + 1
  }

  /** `max` indices fit below the network prefix: it has no host bits, and the host part has all bits they need. */
  predicate Recovers(net: nat, host: nat, max: nat)
    requires max >= 1
  {
    And(net, host) == 0 && And(Ones(max - 1), host) == Ones(max - 1)
  }

  lemma OrHalves(x: nat, y: nat)
    ensures Or(x, y) / 2 == Or(x / 2, y / 2)
    ensures Or(x, y) % 2 == 1 <==> x % 2 == 1 || y % 2 == 1
  {
  }

  lemma AndHalves(x: nat, y: nat)
    ensures And(x, y) / 2 == And(x / 2, y / 2)
    ensures And(x, y) % 2 == 1 <==> x % 2 == 1 && y % 2 == 1
  {
  }

  lemma AndZero(h: nat)
    ensures And(0, h) == 0
  {
  }

  lemma OnesHalves(m: nat)
    ensures Ones(m) / 2 == Ones(m / 2) && (m > 0 ==> Ones(m) % 2 == 1) && (m == 0 ==> Ones(m) == 0)
  {
  }

  lemma {:induction false} AndOr(x: nat, y: nat, h: nat)
    ensures And(Or(x, y), h) == Or(And(x, h), And(y, h))
    decreases h
  {
    if h > 0 {
      hide And, Or;
      AndOr(x / 2, y / 2, h / 2);
      OrHalves(x, y);
      AndHalves(Or(x, y), h);
      AndHalves(x, h);
      AndHalves(y, h);
      OrHalves(And(x, h), And(y, h));
    } else {
      assert And(Or(x, y), 0) == 0 && And(x, 0) == 0 && And(y, 0) == 0;
    }
  }

  lemma {:induction false} OnesCover(m: nat, h: nat, i: nat)
    requires And(Ones(m), h) == Ones(m) && i <= m
    ensures And(i, h) == i
    decreases m
  {
    hide And, Ones;
    OnesHalves(m);
    AndZero(h);
    if i > 0 {
      AndHalves(Ones(m), h);
      AndHalves(i, h);
      OnesCover(m / 2, h / 2, i / 2);
    }
  }

  lemma {:induction false} CoverOnes(m: nat, h: nat)
    requires forall i :: 0 <= i <= m ==> And(i, h) == i
    ensures And(Ones(m), h) == Ones(m)
    decreases m
  {
    hide And, Ones;
    OnesHalves(m);
    if m > 0 {
      assert And(1, h) == 1;
      AndHalves(1, h);
      forall i | 0 <= i <= m / 2 ensures And(i, h / 2) == i {
        assert And(2 * i, h) == 2 * i;
        AndHalves(2 * i, h);
      }
      CoverOnes(m / 2, h / 2);
      AndHalves(Ones(m), h);
    } else {
      assert And(0, h) == 0;
    }
  }

  /** An index placed under a network prefix is recovered by masking with the host mask. */
  lemma HostBack(net: word, idx: word, host: word, max: nat)
    requires idx < max && Recovers(net, host, max)
    ensures And(OrWord(net, idx), host) == idx
  {
    AndOr(net, idx, host);
    OnesCover(max - 1, host, idx);
  }

  /** All indices below `max` come back if and only if the configured network has no host bits and the complement of
      the mask has every bit that these indices use. */
  lemma HostBackExact(net: word, host: word, max: word)
    requires max >= 1
    ensures (forall idx: word :: idx < max ==> And(OrWord(net, idx), host) == idx) <==> Recovers(net, host, max)
  {
    if Recovers(net, host, max) {
      forall idx: word | idx < max ensures And(OrWord(net, idx), host) == idx { HostBack(net, idx, host, max); }
    } else if forall idx: word :: idx < max ==> And(OrWord(net, idx), host) == idx {
      assert OrWord(net, 0) == net;
      forall i | 0 <= i <= max - 1 ensures And(i, host) == i {
        AndOr(net, i, host);
        assert And(OrWord(net, i), host) == i;
      }
      CoverOnes(max - 1, host);
    }
  }

  /** With a contiguous mask and room for `max` hosts only the host bits of the network matter. */
  lemma ContiguousRecovers(net: word, host: word, max: nat)
    requires LowOnes(host) && 1 <= max <= host
    ensures Recovers(net, host, max) <==> And(net, host) == 0
  {
    var k: nat :| host == Pow2(k) - 1;
    forall i | 0 <= i <= max - 1 ensures And(i, host) == i { MaskKeeps(i, k); }
    CoverOnes(max - 1, host);
  }

  lemma {:induction false} MaskKeeps(i: nat, k: nat)
    requires i < Pow2(k)
    ensures And(i, Pow2(k) - 1) == i
    decreases k
  {
    if k > 0 {
      var host := Pow2(k) - 1;
      assert host / 2 == Pow2(k - 1) - 1 && host % 2 == 1;
      AndHalves(i, host);
      MaskKeeps(i / 2, k - 1);
    }
  }

  /** 10.0.0.1 with room for three hosts: index 0 comes back as 1. */
  lemma HostBitsFail()
    ensures And(OrWord(0x0a00_0001, 0), 3) == 1
  {
    assert And(0x0a00_0001, 3) == 1 by { assert And(0x0500_0000, 1) == 0; }
  }

  /** 10.0.0.0 with 255.255.255.250, a mask that is not contiguous: index 2 comes back as 0. */
  lemma HoleyMaskFails()
    ensures And(OrWord(0x0a00_0000, 2), Not(0xffff_fffa)) == 0
  {
    assert Or(0x0a00_0000, 2) == 0x0a00_0002 by { assert Or(0x0500_0000, 1) == 0x0500_0001; }
    assert And(0x0a00_0002, 5) == 0 by { assert And(0x0500_0001, 2) == 0; }
  }
}
