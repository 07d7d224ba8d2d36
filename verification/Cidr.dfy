/**
  IP blocks as the scope policy uses them: prefixes in the sense of section 3.1 of RFC 4632, with the
  containment tests and the host enumeration that the policy code calls.
*/
module Cidr {
  import opened Common

  datatype Family = V4 | V6

  function Width(f: Family): nat {
    if f.V4? then 32 else 128
  }

  datatype Address = Address(family: Family, value: nat)

  datatype Network = Network(family: Family, base: nat, prefix: nat)

  predicate ValidAddress(a: Address) {
    a.value < Pow2(Width(a.family))
  }

  predicate ValidNetwork(n: Network) {
    n.prefix <= Width(n.family) && n.base < Pow2(Width(n.family)) && n.base % NumAddresses(n) == 0
  }

  function NumAddresses(n: Network): (size: nat)
    requires n.prefix <= Width(n.family)
    ensures size >= 1
  {
    Pow2Add(Width(n.family) - n.prefix, 0);
    Pow2(Width(n.family) - n.prefix)
  }

  function Broadcast(n: Network): int
    requires n.prefix <= Width(n.family)
  {
    n.base + NumAddresses(n) - 1
  }

  /** A block as ip_network produces it. */
  type Block = n: Network | ValidNetwork(n) witness ZeroAddress()

  function ZeroAddress(): (n: Network)
    ensures ValidNetwork(n)
  {
    Pow2Add(32, 0);
    Network(V4, 0, 32)
  }

  /** The value with the bits below a block of the given size cleared. */
  function Masked(x: nat, size: nat): nat
    requires size >= 1
  {
    Division(x, size);
    x - x % size
  }

  /** A block written with host bits set (strict=False): the bits below the prefix are cleared. */
  function NetworkOf(a: Address, prefix: nat): Network
    requires prefix <= Width(a.family)
  {
    Network(a.family, Masked(a.value, NumAddresses(Network(a.family, 0, prefix))), prefix)
  }

  /** `address in network`: masking the address gives the network address; False across families. */
  predicate Contains(n: Network, a: Address)
    requires ValidNetwork(n)
  {
    a.family == n.family && Masked(a.value, NumAddresses(n)) == n.base
  }

  /** `a.subnet_of(b)`, which raises unless the families agree. */
  predicate SubnetOf(a: Network, b: Network)
    requires a.family == b.family && ValidNetwork(a) && ValidNetwork(b)
  {
    b.base <= a.base && Broadcast(b) >= Broadcast(a)
  }

  lemma Squared(n: nat, p: nat)
    requires Pow2(n) == p
    ensures Pow2(n + n) == p * p
  {
    Pow2Add(n, n);
  }

  /** The sizes of the two address spaces. */
  lemma AddressSpaces()
    ensures Pow2(Width(V4)) == 0x1_0000_0000
    ensures Pow2(Width(V6)) == 0x1_0000_0000_0000_0000_0000_0000_0000_0000
  {
    assert Pow2(2) == 4;
    Squared(2, 4);
    Squared(4, 16);
    Squared(8, 256);
    Squared(16, 65536);
    Squared(32, 0x1_0000_0000);
    Squared(64, 0x1_0000_0000_0000_0000);
  }

  // ---------------------------------------------------------------- arithmetic of aligned blocks

  lemma Division(x: nat, p: nat)
    requires p >= 1
    ensures x == p * (x / p) + x % p && 0 <= x % p < p && p * (x / p) >= 0
  {
  }

  lemma MultipleStep(p: nat, i: nat, j: nat)
    requires i < j
    ensures p * i + p <= p * j
  {
    var d := j - i - 1;
    assert p * j == p * (i + 1 + d) == p * (i + 1) + p * d;
  }

  lemma {:induction false} MultipleMod(p: nat, i: nat)
    requires p >= 1
    ensures (p * i) % p == 0
  {
    if i > 0 {
      MultipleMod(p, i - 1);
      var m := p * (i - 1);
      assert p * i == m + p;
      Division(m, p);
      Division(m + p, p);
      var a, b := m / p, (m + p) / p;
      if b < a + 1 { MultipleStep(p, b, a + 1); } else if b > a + 1 { MultipleStep(p, a + 1, b); }
    }
  }

  lemma FloorToMultiple(x: nat, y: nat, p: nat)
    requires p >= 1 && y % p == 0
    ensures Masked(x, p) == y <==> y <= x < y + p
    ensures Masked(x, p) % p == 0
  {
    Division(x, p);
    Division(y, p);
    var i, j := x / p, y / p;
    MultipleMod(p, i);
    if i < j {
      MultipleStep(p, i, j);
    } else if i > j {
      MultipleStep(p, j, i);
    }
  }

  /** Two aligned blocks, the first one no longer than the second, nest or are disjoint. */
  lemma AlignedBlocks(x: nat, q: nat, y: nat, k: nat)
    requires q >= 1 && k >= 1 && q * k >= 1 && x % q == 0 && y % (q * k) == 0
    ensures (y <= x && x + q <= y + q * k) || x + q <= y || y + q * k <= x
  {
    var p := q * k;
    Division(x, q);
    Division(y, p);
    var i, m := x / q, k * (y / p);
    assert y == q * m by { Associative(q, k, y / p); }
    assert q * (m + k) == q * m + q * k by { Distributive(q, m, k); }
    if i < m {
      MultipleStep(q, i, m);
    } else if i < m + k {
      MultipleStep(q, i, m + k);
      if m < i { MultipleStep(q, m, i); }
    } else if m + k < i {
      MultipleStep(q, m + k, i);
    }
  }

  lemma Associative(a: nat, b: nat, c: nat)
    ensures (a * b) * c == a * (b * c)
  {
  }

  lemma Distributive(a: nat, b: nat, c: nat)
    ensures a * (b + c) == a * b + a * c
  {
  }

  lemma BlockSizes(a: Network, b: Network)
    requires a.family == b.family && b.prefix <= a.prefix <= Width(a.family)
    ensures NumAddresses(b) == NumAddresses(a) * Pow2(a.prefix - b.prefix)
    ensures Pow2(a.prefix - b.prefix) >= 1
    ensures b.prefix < a.prefix ==> NumAddresses(a) < NumAddresses(b)
  {
    var w := Width(a.family);
    Pow2Add(w - a.prefix, a.prefix - b.prefix);
    Pow2Add(a.prefix - b.prefix, 0);
    if b.prefix < a.prefix {
      Pow2Add(a.prefix - b.prefix - 1, 0);
      MultipleStep(NumAddresses(a), 1, Pow2(a.prefix - b.prefix));
    }
  }

  // ---------------------------------------------------------------- what containment means

  lemma ContainsIsInterval(n: Network, a: Address)
    requires ValidNetwork(n)
    ensures Contains(n, a) <==> a.family == n.family && n.base <= a.value < n.base + NumAddresses(n)
  {
    FloorToMultiple(a.value, n.base, NumAddresses(n));
  }

  /** The whole block lies inside the address space. */
  lemma BlockFitsSpace(n: Network)
    requires ValidNetwork(n)
    ensures n.base + NumAddresses(n) <= Pow2(Width(n.family))
  {
    var all := Network(n.family, 0, 0);
    BlockSizes(n, all);
    AlignedBlocks(n.base, NumAddresses(n), 0, Pow2(n.prefix));
  }

  lemma NestedOrDisjoint(a: Network, b: Network)
    requires a.family == b.family && ValidNetwork(a) && ValidNetwork(b)
    ensures SubnetOf(a, b) || SubnetOf(b, a) || forall x :: !(Contains(a, x) && Contains(b, x))
  {
    if b.prefix <= a.prefix {
      BlockSizes(a, b);
      AlignedBlocks(a.base, NumAddresses(a), b.base, Pow2(a.prefix - b.prefix));
    } else {
      BlockSizes(b, a);
      AlignedBlocks(b.base, NumAddresses(b), a.base, Pow2(b.prefix - a.prefix));
    }
    forall x ensures Contains(a, x) && Contains(b, x) ==> SubnetOf(a, b) || SubnetOf(b, a) {
      ContainsIsInterval(a, x);
      ContainsIsInterval(b, x);
    }
  }

  /** subnet_of is inclusion of address sets. */
  lemma SubnetIsInclusion(a: Network, b: Network)
    requires a.family == b.family && ValidNetwork(a) && ValidNetwork(b)
    ensures SubnetOf(a, b) <==> forall x | ValidAddress(x) && Contains(a, x) :: Contains(b, x)
  {
    var first, last := Address(a.family, a.base), Address(a.family, a.base + NumAddresses(a) - 1);
    BlockFitsSpace(a);
    ContainsIsInterval(a, first);
    ContainsIsInterval(a, last);
    ContainsIsInterval(b, first);
    ContainsIsInterval(b, last);
    if SubnetOf(a, b) {
      forall x | Contains(a, x) ensures Contains(b, x) {
        ContainsIsInterval(a, x);
        ContainsIsInterval(b, x);
      }
    } else {
      assert ValidAddress(first) && ValidAddress(last);
      assert Contains(a, first) && Contains(a, last);
    }
  }

  /**
    The prefix reading of RFC 4632: a is inside b exactly when b's prefix is no longer and a's address
    starts with it.
  */
  lemma SubnetIsPrefixAgreement(a: Network, b: Network)
    requires a.family == b.family && ValidNetwork(a) && ValidNetwork(b)
    ensures SubnetOf(a, b) <==> b.prefix <= a.prefix && NetworkOf(Address(a.family, a.base), b.prefix) == b
  {
    FloorToMultiple(a.base, b.base, NumAddresses(b));
    if b.prefix <= a.prefix {
      BlockSizes(a, b);
      AlignedBlocks(a.base, NumAddresses(a), b.base, Pow2(a.prefix - b.prefix));
    } else {
      BlockSizes(b, a);
    }
  }

  lemma SubnetIsTransitive(a: Network, b: Network, c: Network)
    requires a.family == b.family == c.family && ValidNetwork(a) && ValidNetwork(b) && ValidNetwork(c)
    requires SubnetOf(a, b) && SubnetOf(b, c)
    ensures SubnetOf(a, c)
    ensures forall x | Contains(a, x) :: Contains(c, x)
  {
    forall x | Contains(a, x) ensures Contains(c, x) {
      ContainsIsInterval(a, x);
      ContainsIsInterval(c, x);
    }
  }

  lemma NetworkOfIsValid(a: Address, prefix: nat)
    requires ValidAddress(a) && prefix <= Width(a.family)
    ensures ValidNetwork(NetworkOf(a, prefix))
    ensures Contains(NetworkOf(a, prefix), a)
  {
    FloorToMultiple(a.value, 0, NumAddresses(Network(a.family, 0, prefix)));
  }

  /** A block of full length is one address. */
  lemma SingleAddress(a: Address, n: Network)
    requires ValidAddress(a) && ValidNetwork(n) && a.family == n.family
    ensures var host := NetworkOf(a, Width(a.family));
      ValidNetwork(host) && NumAddresses(host) == 1 && host.base == a.value && (SubnetOf(host, n) <==> Contains(n, a))
  {
    NetworkOfIsValid(a, Width(a.family));
    ContainsIsInterval(n, a);
  }

  // ---------------------------------------------------------------- host enumeration

  /** First and last usable host: IPv4 skips the network and broadcast addresses, IPv6 the router anycast address. */
  function FirstHost(n: Network): nat
    requires n.prefix <= Width(n.family)
  {
    if n.prefix >= Width(n.family) - 1 then n.base else n.base + 1
  }

  function HostCount(n: Network): nat
    requires n.prefix <= Width(n.family)
  {
    if n.prefix >= Width(n.family) - 1 then NumAddresses(n)
    else if n.family.V6? then NumAddresses(n) - 1
    else if NumAddresses(n) >= 2 then NumAddresses(n) - 2 else 0
  }

  function Hosts(n: Network): seq<Address>
    requires n.prefix <= Width(n.family)
  {
    seq(HostCount(n), i requires 0 <= i => Address(n.family, FirstHost(n) + i))
  }

  predicate Usable(n: Network, a: Address)
    requires ValidNetwork(n)
  {
    && Contains(n, a)
    && (n.prefix < Width(n.family) - 1 ==>
          a.value != n.base && (n.family.V4? ==> a.value != Broadcast(n)))
  }

  /** The enumeration lists each usable host of the block, each once, and nothing else. */
  lemma HostsAreTheUsableAddresses(n: Network, a: Address)
    requires ValidNetwork(n)
    ensures a in Hosts(n) <==> Usable(n, a)
    ensures NoDuplicates(Hosts(n))
    ensures a in Hosts(n) ==> ValidAddress(a)
  {
    ContainsIsInterval(n, a);
    BlockFitsSpace(n);
    if n.prefix < Width(n.family) - 1 {
      var spare := Width(n.family) - n.prefix;
      Pow2Add(spare - 2, 0);
      assert Pow2(spare) == 2 * Pow2(spare - 1) == 4 * Pow2(spare - 2);
    }
    if Usable(n, a) {
      var i := a.value - FirstHost(n);
      assert 0 <= i < HostCount(n) && Hosts(n)[i] == a;
    }
    if a in Hosts(n) {
      var i :| 0 <= i < HostCount(n) && Hosts(n)[i] == a;
      assert a.value == FirstHost(n) + i;
    }
  }
}
