/**
  Parsed addresses and prefixes, as Go's `net/netip` hands them to the provider.

  `Contains` compares the network bits of an address with those of the prefix
  (section 3.1 of RFC 4632 for IPv4, section 2.3 of RFC 4291 for IPv6).
 */
module Prefixes {

  datatype Family = V4 | V6

  function Width(f: Family): nat {
    match f
    case V4 => 32
    case V6 => 128
  }

  datatype Address = Address(family: Family, value: nat)

  datatype Subnet = Subnet(family: Family, base: nat, bits: nat)

  /** A prefix as its parser produces it: the length fits and the address fits. */
  ghost predicate WellFormed(s: Subnet) {
    s.bits <= Width(s.family) && s.base < Pow2(Width(s.family))
  }

  function Pow2(k: nat): nat {
    if k == 0 then 1 else 2 * Pow2(k - 1)
  }

  function ShiftRight(v: nat, k: nat): nat {
    if k == 0 then v else ShiftRight(v / 2, k - 1)
  }

  function HostBits(s: Subnet): nat
    requires s.bits <= Width(s.family)
  {
    Width(s.family) - s.bits
  }

  /** `Prefix.Contains`: an invalid prefix contains nothing and families never mix. */
  predicate Contains(s: Subnet, a: Address) {
    && s.bits <= Width(s.family)
    && a.family == s.family
    && ShiftRight(a.value, HostBits(s)) == ShiftRight(s.base, HostBits(s))
  }

  ghost predicate Disjoint(s: Subnet, t: Subnet) {
    forall a :: !(Contains(s, a) && Contains(t, a))
  }

  ghost predicate Within(s: Subnet, t: Subnet) {
    forall a :: Contains(s, a) ==> Contains(t, a)
  }

  /** The base address carries no host bits: what `network.String() == CIDR` checks. */
  predicate Canonical(s: Subnet) {
    && s.bits <= Width(s.family)
    && ShiftRight(s.base, HostBits(s)) * Pow2(HostBits(s)) == s.base
  }

  // ---------- shifting ----------

  lemma {:induction false} ShiftTwice(v: nat, j: nat, k: nat)
    ensures ShiftRight(ShiftRight(v, j), k) == ShiftRight(v, j + k)
  {
    if j > 0 {
      ShiftTwice(v / 2, j - 1, k);
    }
  }

  /** Shifting right by k and comparing is membership in an aligned block of size 2^k. */
  lemma {:induction false} ShiftIsBlock(v: nat, k: nat, q: nat)
    ensures ShiftRight(v, k) == q <==> q * Pow2(k) <= v < q * Pow2(k) + Pow2(k)
  {
    if k > 0 {
      var p := Pow2(k - 1);
      ShiftIsBlock(v / 2, k - 1, q);
      assert q * Pow2(k) == 2 * (q * p);
    }
  }

  // ---------- prefixes as intervals ----------

  /**
    Any prefix, canonical or not, contains the addresses that lie in one aligned block with its
    base. IPv4 addresses have 32 bits and IPv6 addresses 128.
   */
  lemma {:induction false} ContainsIffOneBlock(s: Subnet, a: Address)
    requires s.bits <= if s.family.V4? then 32 else 128
    ensures var size := Pow2((if s.family.V4? then 32 else 128) - s.bits);
      Contains(s, a) <==> a.family == s.family && exists q: nat ::
        q * size <= s.base < q * size + size && q * size <= a.value < q * size + size
  {
    var k := HostBits(s);
    var size, p := Pow2(k), ShiftRight(s.base, k);
    ShiftIsBlock(s.base, k, p);
    ShiftIsBlock(a.value, k, p);
    forall q: nat | q * size <= s.base < q * size + size && q * size <= a.value < q * size + size
      ensures q == p && ShiftRight(a.value, k) == p
    {
      ShiftIsBlock(s.base, k, q);
      ShiftIsBlock(a.value, k, q);
    }
  }

  /** A prefix whose length is over the width of its family contains nothing. */
  lemma {:induction false} TooLongContainsNothing(s: Subnet, a: Address)
    requires s.bits > if s.family.V4? then 32 else 128
    ensures !Contains(s, a)
  {
  }

  /** The prefixes that print back are those whose base begins an aligned block. */
  lemma {:induction false} CanonicalIff(s: Subnet)
    ensures
      var width := if s.family.V4? then 32 else 128;
      if s.bits > width then !Canonical(s)
      else var size := Pow2(width - s.bits); Canonical(s) <==> exists q: nat :: s.base == q * size
  {
    if s.bits <= Width(s.family) {
      var k := HostBits(s);
      Pow2Grows(0, k);
      forall q: nat | s.base == q * Pow2(k)
        ensures Canonical(s)
      {
        ShiftIsBlock(s.base, k, q);
      }
      assert Canonical(s) ==> s.base == ShiftRight(s.base, k) * Pow2(k);
    }
  }

  /** A canonical prefix is exactly the aligned interval that starts at its base. */
  lemma {:induction false} CanonicalIsAlignedInterval(s: Subnet, a: Address)
    requires Canonical(s)
    ensures s.bits <= if s.family.V4? then 32 else 128
    ensures var size := Pow2((if s.family.V4? then 32 else 128) - s.bits);
      && (Contains(s, a) <==> a.family == s.family && s.base <= a.value < s.base + size)
      && exists q: nat :: s.base == q * size
  {
    ShiftIsBlock(a.value, HostBits(s), ShiftRight(s.base, HostBits(s)));
  }

  /** A prefix that shares one address with a shorter one lies inside it. */
  lemma {:induction false} LongerPrefixLiesInside(s: Subnet, t: Subnet, x: Address)
    requires t.bits <= s.bits && Contains(s, x) && Contains(t, x)
    ensures Within(s, t)
  {
    var j, k := HostBits(s), HostBits(t) - HostBits(s);
    forall a | Contains(s, a)
      ensures Contains(t, a)
    {
      ShiftTwice(a.value, j, k);
      ShiftTwice(x.value, j, k);
    }
  }

  /** Any two prefixes are nested or disjoint. */
  lemma {:induction false} NestedOrDisjoint(s: Subnet, t: Subnet)
    ensures Disjoint(s, t) || Within(s, t) || Within(t, s)
  {
    if !Disjoint(s, t) {
      var x :| Contains(s, x) && Contains(t, x);
      if t.bits <= s.bits {
        LongerPrefixLiesInside(s, t, x);
      } else {
        LongerPrefixLiesInside(t, s, x);
      }
    }
  }

  /** A shorter prefix has addresses outside a longer one. */
  lemma {:induction false} ShorterIsNotWithin(s: Subnet, t: Subnet)
    requires s.bits < t.bits <= Width(t.family) && s.bits <= Width(s.family)
    ensures !Within(s, t)
  {
    var k, j := HostBits(s), HostBits(t);
    var q := ShiftRight(s.base, k);
    Pow2Grows(j, k);
    var first, last := Address(s.family, q * Pow2(k)), Address(s.family, q * Pow2(k) + Pow2(k) - 1);
    ShiftIsBlock(first.value, k, q);
    ShiftIsBlock(last.value, k, q);
    ShiftIsBlock(first.value, j, ShiftRight(t.base, j));
    ShiftIsBlock(last.value, j, ShiftRight(t.base, j));
    assert Contains(s, first) && Contains(s, last);
  }

  lemma {:induction false} Pow2Grows(j: nat, k: nat)
    ensures Pow2(k) >= 1
    ensures j < k ==> Pow2(k) >= 2 * Pow2(j)
  {
    if k > 0 {
      Pow2Grows(j, k - 1);
    }
  }

  /** Whether one prefix lies within another is decided by their lengths and one membership test. */
  lemma {:induction false} WithinIffBaseInside(s: Subnet, t: Subnet)
    requires WellFormed(s) && WellFormed(t)
    ensures Within(s, t) <==> t.bits <= s.bits && Contains(t, Address(s.family, s.base))
  {
    var b := Address(s.family, s.base);
    assert Contains(s, b);
    if t.bits <= s.bits {
      if Contains(t, b) {
        LongerPrefixLiesInside(s, t, b);
      }
    } else {
      ShorterIsNotWithin(s, t);
    }
  }

  /** Disjointness is decided by two membership tests on the base addresses. */
  lemma {:induction false} DisjointIffBasesOutside(s: Subnet, t: Subnet)
    requires WellFormed(s) && WellFormed(t)
    ensures Disjoint(s, t) <==>
      !Contains(s, Address(t.family, t.base)) && !Contains(t, Address(s.family, s.base))
  {
    var sb, tb := Address(s.family, s.base), Address(t.family, t.base);
    assert Contains(s, sb) && Contains(t, tb);
    if !Disjoint(s, t) {
      var x :| Contains(s, x) && Contains(t, x);
      if t.bits <= s.bits {
        LongerPrefixLiesInside(s, t, x);
      } else {
        LongerPrefixLiesInside(t, s, x);
      }
    }
  }
}
