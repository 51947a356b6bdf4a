/**
 * IPv4 and IPv6 network prefixes as integers.
 *
 * A prefix is an address family, a network address and a prefix length.
 * In canonical form every host bit (the bits after the first `len`) of the
 * address is zero, so the prefix stands for the contiguous address range
 * [addr, addr + Size(p)).  Containment and overlap are stated on these
 * ranges; `Supernets` models the supernet list that the netaddr library
 * builds by masking, and `SupernetsAreStrictSupernets` ties the two views.
 */
module IpPrefix {

  datatype Family = IPv4 | IPv6

  /** Number of address bits of a family (the family's max_prefixlen). */
  function Width(f: Family): (w: nat)
    ensures w == 32 || w == 128
  {
    if f == IPv4 then 32 else 128
  }

  /** A prefix as written by a caller: not necessarily valid or canonical. */
  datatype Prefix = Prefix(family: Family, addr: nat, len: nat)

  /** A single host address of a family. */
  datatype Address = Address(family: Family, value: nat)

  function Pow2(k: nat): (r: nat)
    ensures r >= 1
  {
    if k == 0 then 1 else 2 * Pow2(k - 1)
  }

  /** Number of host bits of a prefix of length `len` in family `f` (0 past the width). */
  function HostBits(f: Family, len: nat): nat
  {
    if len <= Width(f) then Width(f) - len else 0
  }

  /** Number of addresses in the block of `p`. */
  function Size(p: Prefix): (s: nat)
    ensures s >= 1
  {
    Pow2(HostBits(p.family, p.len))
  }

  /** What the trie accepts: the length fits the family and the address is representable. */
  predicate Parsable(p: Prefix)
  {
    p.len <= Width(p.family) && p.addr < Pow2(Width(p.family))
  }

  /** A parsable prefix in canonical form (host bits zero). */
  predicate ValidPrefix(p: Prefix)
  {
    Parsable(p) && p.addr % Size(p) == 0
  }

  /** `p` cut down to its first `k` bits: the network of length `k` that holds `p.addr`. */
  function Truncate(p: Prefix, k: nat): Prefix
  {
    var s := Pow2(HostBits(p.family, k));
    ModBounds(p.addr, s);
    Prefix(p.family, p.addr - p.addr % s, k)
  }

  /** Host bits of `p` zeroed, as the trie stores a network. */
  function Canonical(p: Prefix): (c: Prefix)
    requires Parsable(p)
    ensures ValidPrefix(c)
    ensures c.family == p.family && c.len == p.len
    ensures c.addr <= p.addr < c.addr + Size(c)
  {
    var c := Truncate(p, p.len);
    ModBounds(p.addr, Size(p));
    MultipleMod(p.addr / Size(p), Size(p));
    assert c.addr == (p.addr / Size(p)) * Size(p);
    c
  }

  /** A prefix already in canonical form is its own canonical form. */
  lemma CanonicalOfValid(p: Prefix)
    requires ValidPrefix(p)
    ensures Canonical(p) == p
  {
  }

  ghost predicate InBlock(p: Prefix, a: Address)
  {
    a.family == p.family && p.addr <= a.value < p.addr + Size(p)
  }

  /** `q` lies inside `p` (or is `p`): same family, no shorter, and its range within p's. */
  predicate Covers(p: Prefix, q: Prefix)
  {
    && p.family == q.family
    && p.len <= q.len
    && p.addr <= q.addr
    && q.addr + Size(q) <= p.addr + Size(p)
  }

  /** `q` lies strictly inside `p`. */
  predicate StrictSubnet(q: Prefix, p: Prefix)
  {
    Covers(p, q) && p.len < q.len
  }

  /** The two blocks share at least one host. */
  predicate Overlap(p: Prefix, q: Prefix)
  {
    p.family == q.family && p.addr < q.addr + Size(q) && q.addr < p.addr + Size(p)
  }

  /** The lower half of `p`: the first /len+1 subnet. */
  function Lower(p: Prefix): Prefix
  {
    Prefix(p.family, p.addr, p.len + 1)
  }

  /** The upper half of `p`: the second /len+1 subnet. */
  function Upper(p: Prefix): Prefix
  {
    Prefix(p.family, p.addr + Size(Lower(p)), p.len + 1)
  }

  /**
   * The /len+1 subnets of `p` in ascending address order, as
   * `network.subnet(prefixlen + 1)` enumerates them.
   */
  function Halves(p: Prefix): (r: seq<Prefix>)
    requires ValidPrefix(p) && p.len < Width(p.family)
    ensures |r| == 2 && r[0].addr < r[1].addr
    ensures forall i :: 0 <= i < 2 ==> ValidPrefix(r[i]) && StrictSubnet(r[i], p) && r[i].len == p.len + 1
    ensures !Overlap(r[0], r[1])
    ensures forall a :: InBlock(p, a) <==> InBlock(r[0], a) || InBlock(r[1], a)
  {
    HalvesValid(p);
    [Lower(p), Upper(p)]
  }

  /**
   * The strict supernets of `c` from /0 up to /len-1, each masked, as
   * netaddr's `supernet()` lists them.
   */
  function Supernets(c: Prefix): (r: seq<Prefix>)
    ensures |r| == c.len
    ensures forall k :: 0 <= k < c.len ==> r[k] == Truncate(c, k)
    ensures ValidPrefix(c) ==>
      forall k :: 0 <= k < c.len ==> ValidPrefix(r[k]) && r[k].len == k && StrictSubnet(c, r[k])
  {
    TruncatesAreSupernets(c);
    seq(c.len, (k: int) requires 0 <= k < c.len => Truncate(c, k))
  }

  // ---------------------------------------------------------------------
  // Arithmetic on powers of two and aligned addresses

  lemma {:induction false} Pow2Add(a: nat, b: nat)
    ensures Pow2(a + b) == Pow2(a) * Pow2(b)
  {
    if a > 0 {
      Pow2Add(a - 1, b);
      assert Pow2(a + b) == 2 * Pow2(a - 1 + b);
    }
  }

  lemma ModBounds(x: nat, s: nat)
    requires s > 0
    ensures x == (x / s) * s + x % s && 0 <= x % s < s && x / s >= 0
  {
  }

  lemma MulLeft(i: int, j: int, s: int)
    requires s > 0 && i * s < j * s
    ensures i < j
  {
  }

  lemma MulDistrib(a: int, b: int, s: int)
    ensures a * s - b * s == (a - b) * s
  {
  }

  lemma MulAtLeast(d: int, s: int)
    requires d >= 1 && s > 0
    ensures d * s >= s
  {
  }

  /** If x == q*s + r with 0 <= r < s, then r is x % s. */
  lemma ModUnique(x: nat, s: nat, q: int, r: int)
    requires s > 0 && 0 <= r < s && x == q * s + r
    ensures x % s == r && x / s == q
  {
    ModBounds(x, s);
    var q', r' := x / s, x % s;
    MulDistrib(q, q', s);
    assert (q - q') * s == r' - r;
    if q > q' {
      MulAtLeast(q - q', s);
    } else if q < q' {
      MulDistrib(q', q, s);
      MulAtLeast(q' - q, s);
    }
  }

  lemma MultipleMod(m: nat, s: nat)
    requires s > 0
    ensures (m * s) % s == 0
  {
    ModUnique(m * s, s, m, 0);
  }

  /** A multiple of s*k is a multiple of s. */
  lemma MultipleOfMultiple(x: nat, s: nat, k: nat)
    requires s > 0 && k > 0 && x % (s * k) == 0
    ensures x % s == 0
  {
    ModBounds(x, s * k);
    var m := x / (s * k);
    assert x == (m * k) * s;
    ModUnique(x, s, m * k, 0);
  }

  /** Two multiples of s that are less than s apart are ordered accordingly. */
  lemma AlignedOrder(a: nat, b: nat, s: nat)
    requires s > 0 && a % s == 0 && b % s == 0 && a < b + s
    ensures a <= b
  {
    var qa, qb := a / s, b / s;
    assert a == qa * s by { ModBounds(a, s); }
    assert b + s == (qb + 1) * s by {
      ModBounds(b, s);
      MulDistrib(qb + 1, qb, s);
    }
    MulLeft(qa, qb + 1, s);
  }

  /** Adding a multiple of s keeps a multiple of s. */
  lemma AddMultiple(x: nat, s: nat, k: nat)
    requires s > 0 && x % s == 0
    ensures (x + s * k) % s == 0
  {
    ModBounds(x, s);
    assert x + s * k == (x / s + k) * s;
    ModUnique(x + s * k, s, x / s + k, 0);
  }

  /** A multiple of s below a multiple n of s ends, with its block of s, at most at n. */
  lemma AlignedBelow(a: nat, n: nat, s: nat)
    requires s > 0 && a % s == 0 && n % s == 0 && a < n
    ensures a + s <= n
  {
    AddMultiple(a, s, 1);
    if a + s > n {
      AlignedOrder(n, a, s);
    }
  }

  /** The size of a longer prefix divides the size of a shorter one. */
  lemma SizeFactor(p: Prefix, q: Prefix)
    requires p.family == q.family && p.len <= q.len <= Width(p.family)
    ensures Size(p) == Size(q) * Pow2(q.len - p.len)
  {
    Pow2Add(Width(q.family) - q.len, q.len - p.len);
  }

  /** A canonical address of a shorter prefix is aligned to any longer prefix's size. */
  lemma AlignedToLonger(p: Prefix, q: Prefix)
    requires ValidPrefix(p) && p.family == q.family && p.len <= q.len <= Width(p.family)
    ensures p.addr % Size(q) == 0 && (p.addr + Size(p)) % Size(q) == 0
  {
    var s, k := Size(q), Pow2(q.len - p.len);
    SizeFactor(p, q);
    MultipleOfMultiple(p.addr, s, k);
    AddMultiple(p.addr, s, k);
  }

  /** The block of a valid prefix ends within the family's address space. */
  lemma BlockFits(p: Prefix)
    requires ValidPrefix(p)
    ensures p.addr + Size(p) <= Pow2(Width(p.family))
  {
    var s, k := Size(p), Pow2(p.len);
    Pow2Add(Width(p.family) - p.len, p.len);
    assert Width(p.family) - p.len + p.len == Width(p.family);
    assert Pow2(Width(p.family)) == s * k;
    AlignedFits(p.addr, s, k);
  }

  /** A multiple of s below s*k ends, with its block of s, at most at s*k. */
  lemma AlignedFits(a: nat, s: nat, k: nat)
    requires s > 0 && a % s == 0 && a < s * k
    ensures a + s <= s * k
  {
    AddMultiple(0, s, k);
    AlignedBelow(a, s * k, s);
  }

  // ---------------------------------------------------------------------
  // Containment and overlap

  /** Covers means: every host of q is a host of p. */
  lemma CoversHosts(p: Prefix, q: Prefix, a: Address)
    requires Covers(p, q) && InBlock(q, a)
    ensures InBlock(p, a)
  {
  }

  /** Two prefixes share a host exactly when they overlap. */
  lemma OverlapIsSharedHost(p: Prefix, q: Prefix)
    ensures Overlap(p, q) <==> exists a :: InBlock(p, a) && InBlock(q, a)
  {
    if Overlap(p, q) {
      var a := Address(p.family, if p.addr < q.addr then q.addr else p.addr);
      assert InBlock(p, a) && InBlock(q, a);
    }
  }

  /** Overlapping canonical prefixes are nested: the shorter covers the longer. */
  lemma Nested(p: Prefix, q: Prefix)
    requires ValidPrefix(p) && ValidPrefix(q) && Overlap(p, q) && p.len <= q.len
    ensures Covers(p, q)
  {
    var sq := Size(q);
    AlignedToLonger(p, q);
    AlignedOrder(p.addr, q.addr, sq);
    AlignedBelow(q.addr, p.addr + Size(p), sq);
  }

  /** Nested or disjoint: any two canonical prefixes either nest or share no host. */
  lemma NestedOrDisjoint(p: Prefix, q: Prefix)
    requires ValidPrefix(p) && ValidPrefix(q)
    ensures Overlap(p, q) <==> Covers(p, q) || Covers(q, p)
  {
    if Overlap(p, q) {
      if p.len <= q.len { Nested(p, q); } else { Nested(q, p); }
    }
  }

  /** Two canonical prefixes of one length that cover each other are the same prefix. */
  lemma CoversSameLength(p: Prefix, q: Prefix)
    requires Covers(p, q) && p.len == q.len
    ensures p == q
  {
  }

  lemma CoversTransitive(p: Prefix, q: Prefix, r: Prefix)
    requires Covers(p, q) && Covers(q, r)
    ensures Covers(p, r)
  {
  }

  /** A prefix that overlaps something inside `q` overlaps `q`. */
  lemma OverlapWiden(p: Prefix, q: Prefix, r: Prefix)
    requires Covers(q, r) && Overlap(p, r)
    ensures Overlap(p, q)
  {
  }

  lemma HalvesValid(p: Prefix)
    requires ValidPrefix(p) && p.len < Width(p.family)
    ensures Size(p) == 2 * Size(Lower(p))
    ensures ValidPrefix(Lower(p)) && ValidPrefix(Upper(p))
  {
    HalfSizes(p);
    BlockFits(p);
    HalfAligned(p.addr, Size(Lower(p)), Pow2(Width(p.family)));
    UpperValid(p);
  }

  /** Each half of `p` holds half of its addresses. */
  lemma HalfSizes(p: Prefix)
    requires p.len < Width(p.family)
    ensures Size(p) == 2 * Size(Lower(p)) && Size(Upper(p)) == Size(Lower(p))
  {
    assert HostBits(p.family, p.len) == HostBits(p.family, p.len + 1) + 1;
  }

  /** The upper half is valid once its start is aligned to, and lies below, the family's address space. */
  lemma UpperValid(p: Prefix)
    requires p.len < Width(p.family) && Size(Upper(p)) == Size(Lower(p))
    requires (p.addr + Size(Lower(p))) % Size(Lower(p)) == 0
    requires p.addr + Size(Lower(p)) < Pow2(Width(p.family))
    ensures ValidPrefix(Upper(p))
  {
  }

  /** Both halves of an aligned block of 2*h below `top` are aligned to h and start below `top`. */
  lemma HalfAligned(a: nat, h: nat, top: nat)
    requires h > 0 && a % (2 * h) == 0 && a + 2 * h <= top
    ensures a % h == 0 && (a + h) % h == 0 && a + h < top
  {
    assert h * 2 == 2 * h;
    MultipleOfMultiple(a, h, 2);
    AddMultiple(a, h, 1);
  }

  /** Truncating to the length of a covering canonical prefix yields that prefix. */
  lemma TruncateToCover(p: Prefix, c: Prefix)
    requires ValidPrefix(p) && ValidPrefix(c) && p.family == c.family && p.len <= c.len
    ensures Truncate(c, p.len) == p <==> Covers(p, c)
  {
    var s, sc := Size(p), Size(c);
    assert Truncate(c, p.len).addr == c.addr - c.addr % s;
    ModBounds(c.addr, s);
    if Covers(p, c) {
      ModBounds(p.addr, s);
      ModUnique(c.addr, s, p.addr / s, c.addr - p.addr);
    }
    if Truncate(c, p.len) == p {
      AlignedToLonger(p, c);
      AlignedBelow(c.addr, p.addr + s, sc);
    }
  }

  /** Cutting a canonical prefix to a shorter length gives a canonical prefix of that length holding it strictly inside. */
  lemma TruncateIsSupernet(c: Prefix, k: nat)
    requires ValidPrefix(c) && k < c.len
    ensures ValidPrefix(Truncate(c, k)) && Truncate(c, k).len == k && StrictSubnet(c, Truncate(c, k))
  {
    var p := Truncate(c, k);
    var s := Size(p);
    ModBounds(c.addr, s);
    assert p.addr == (c.addr / s) * s;
    MultipleMod(c.addr / s, s);
    assert ValidPrefix(p);
    TruncateToCover(p, c);
  }

  /** Every cut of a canonical prefix to a shorter length is a strict supernet of it. */
  lemma TruncatesAreSupernets(c: Prefix)
    ensures ValidPrefix(c) ==>
      forall k: nat :: k < c.len ==> ValidPrefix(Truncate(c, k)) && Truncate(c, k).len == k && StrictSubnet(c, Truncate(c, k))
  {
    if ValidPrefix(c) {
      forall k: nat | k < c.len
        ensures ValidPrefix(Truncate(c, k)) && Truncate(c, k).len == k && StrictSubnet(c, Truncate(c, k))
      {
        TruncateIsSupernet(c, k);
      }
    }
  }

  /** netaddr's supernet membership is strict containment. */
  lemma SupernetsAreStrictSupernets(p: Prefix, c: Prefix)
    requires ValidPrefix(p) && ValidPrefix(c)
    ensures p in Supernets(c) <==> StrictSubnet(c, p)
  {
    if p in Supernets(c) {
      var k :| 0 <= k < c.len && Supernets(c)[k] == p;
      TruncateToCover(p, c);
    }
    if StrictSubnet(c, p) {
      TruncateToCover(p, c);
      assert Supernets(c)[p.len] == p;
    }
  }
}
