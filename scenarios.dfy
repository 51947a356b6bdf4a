/**
 * The program's worked examples, stated on the model.  For each list of
 * networks, `Outcome` says which list `Adjust` returns: `Adjust` promises
 * a list in trie order holding exactly `Adjusted(Accepted(networks))`, and
 * by `SortedUnique` only one list is both (`OutcomeIsResult`).  Each example
 * is a lemma proving its `Outcome`, and a method that calls `Adjust` on the
 * example's networks and promises the expected list.  Dotted-quad
 * addresses are written in hexadecimal one octet per group, IPv6 addresses
 * one group of four hex digits per hextet.
 */
module Scenarios {
  import opened IpPrefix
  import opened RadixTrie
  import opened SubnetSpec
  import opened AdjustSpec
  import opened BlockAdjust

  function V4(addr: nat, len: nat): Prefix
  {
    Prefix(IPv4, addr, len)
  }

  function V6(addr: nat, len: nat): Prefix
  {
    Prefix(IPv6, addr, len)
  }

  /** `expected` is in trie order and holds exactly the adjusted blocks of `networks`. */
  predicate Outcome(networks: seq<Prefix>, expected: seq<Prefix>)
  {
    StrictlySorted(expected) && Elements(expected) == Adjusted(Accepted(networks))
  }

  /** The list `Adjust` returns is the one `Outcome` names. */
  lemma OutcomeIsResult(networks: seq<Prefix>, expected: seq<Prefix>, result: seq<Prefix>)
    requires Outcome(networks, expected)
    requires StrictlySorted(result) && Elements(result) == Adjusted(Accepted(networks))
    ensures result == expected
  {
    SortedUnique(result, expected);
  }

  /** The powers of two up to 2^16. */
  lemma Pow2Low()
    ensures Pow2(0) == 1 && Pow2(1) == 2 && Pow2(2) == 4 && Pow2(3) == 8
    ensures Pow2(4) == 0x10 && Pow2(5) == 0x20 && Pow2(6) == 0x40 && Pow2(7) == 0x80
    ensures Pow2(8) == 0x100 && Pow2(9) == 0x200 && Pow2(10) == 0x400 && Pow2(11) == 0x800
    ensures Pow2(12) == 0x1000 && Pow2(13) == 0x2000 && Pow2(14) == 0x4000 && Pow2(15) == 0x8000
    ensures Pow2(16) == 0x1_0000
  {
    assert Pow2(8) == 0x100;
    Pow2Add(8, 1);
    Pow2Add(8, 2);
    Pow2Add(8, 3);
    Pow2Add(8, 4);
    Pow2Add(8, 5);
    Pow2Add(8, 6);
    Pow2Add(8, 7);
    Pow2Add(8, 8);
  }

  /** The powers of two the IPv4 examples need. */
  lemma Pow2V4()
    ensures Pow2(22) == 0x40_0000 && Pow2(23) == 0x80_0000 && Pow2(24) == 0x100_0000
    ensures Pow2(32) == 0x1_0000_0000
  {
    Pow2Low();
    Pow2Add(16, 6);
    Pow2Add(16, 7);
    Pow2Add(16, 8);
    Pow2Add(16, 16);
  }

  /** The powers of two the IPv6 examples need. */
  lemma Pow2V6()
    ensures Pow2(64) == 0x1_0000_0000_0000_0000
    ensures Pow2(128) == 0x1_0000_0000_0000_0000_0000_0000_0000_0000
  {
    Pow2V4();
    Pow2Add(32, 32);
    Pow2Add(64, 64);
  }

  /** The powers of two from 2^64 to 2^80, the block sizes of /64 to /48 in IPv6. */
  lemma Pow2V6Blocks()
    ensures Pow2(64) == 0x1_0000_0000_0000_0000 && Pow2(65) == 0x2_0000_0000_0000_0000
    ensures Pow2(66) == 0x4_0000_0000_0000_0000 && Pow2(67) == 0x8_0000_0000_0000_0000
    ensures Pow2(68) == 0x10_0000_0000_0000_0000 && Pow2(69) == 0x20_0000_0000_0000_0000
    ensures Pow2(70) == 0x40_0000_0000_0000_0000 && Pow2(71) == 0x80_0000_0000_0000_0000
    ensures Pow2(72) == 0x100_0000_0000_0000_0000 && Pow2(73) == 0x200_0000_0000_0000_0000
    ensures Pow2(74) == 0x400_0000_0000_0000_0000 && Pow2(75) == 0x800_0000_0000_0000_0000
    ensures Pow2(76) == 0x1000_0000_0000_0000_0000 && Pow2(77) == 0x2000_0000_0000_0000_0000
    ensures Pow2(78) == 0x4000_0000_0000_0000_0000 && Pow2(79) == 0x8000_0000_0000_0000_0000
    ensures Pow2(80) == 0x1_0000_0000_0000_0000_0000
  {
    Pow2Low();
    Pow2V6();
    Pow2Add(64, 1);
    Pow2Add(64, 2);
    Pow2Add(64, 3);
    Pow2Add(64, 4);
    Pow2Add(64, 5);
    Pow2Add(64, 6);
    Pow2Add(64, 7);
    Pow2Add(64, 8);
    Pow2Add(64, 9);
    Pow2Add(64, 10);
    Pow2Add(64, 11);
    Pow2Add(64, 12);
    Pow2Add(64, 13);
    Pow2Add(64, 14);
    Pow2Add(64, 15);
    Pow2Add(64, 16);
  }

  /** A list whose neighbours are in trie order is in trie order. */
  lemma {:induction false} SortedBySteps(s: seq<Prefix>)
    requires forall i :: 0 <= i < |s| - 1 ==> KeyLess(s[i], s[i + 1])
    ensures StrictlySorted(s)
  {
    if |s| > 1 {
      SortedBySteps(s[1..]);
      forall j | 1 <= j < |s|
        ensures KeyLess(s[0], s[j])
      {
        if j > 1 {
          assert KeyLess(s[1], s[j]) by {
            assert s[1..][0] == s[1] && s[1..][j - 1] == s[j];
          }
          KeyLessTransitive(s[0], s[1], s[j]);
        }
      }
      forall i, j | 1 <= i < j < |s|
        ensures KeyLess(s[i], s[j])
      {
        assert s[1..][i - 1] == s[i] && s[1..][j - 1] == s[j];
      }
    }
  }

  /** A single canonical network comes back unchanged. */
  lemma SingleOutcome(networks: seq<Prefix>, p: Prefix)
    requires networks == [p] && ValidPrefix(p)
    ensures Outcome(networks, [p])
  {
    CanonicalOfValid(p);
    assert Accepted(networks) == {p};
    assert Elements([p]) == {p};
    AdjustedSingle(p);
  }

  /** A network the trie refuses, on its own, leaves nothing. */
  lemma AloneOutcome(networks: seq<Prefix>, bad: Prefix)
    requires networks == [bad] && !Parsable(bad)
    ensures Outcome(networks, [])
  {
    assert Accepted(networks) == {};
    AdjustedEmpty({});
  }

  /** A canonical network beside one the trie refuses comes back alone. */
  lemma BesideOutcome(networks: seq<Prefix>, p: Prefix, bad: Prefix)
    requires networks == [p, bad] && ValidPrefix(p) && !Parsable(bad)
    ensures Outcome(networks, [p])
  {
    CanonicalOfValid(p);
    assert Accepted(networks) == {p};
    assert Elements([p]) == {p};
    AdjustedSingle(p);
  }

  /** A list holds exactly the set that holds each of its elements and nothing else. */
  lemma ElementsExactly(s: seq<Prefix>, X: set<Prefix>)
    requires forall k :: 0 <= k < |s| ==> s[k] in X
    requires forall x :: x in X ==> x in s
    ensures Elements(s) == X
  {
  }

  /** Canonical inputs are accepted as they are. */
  lemma AcceptedValid(networks: seq<Prefix>)
    requires forall k :: 0 <= k < |networks| ==> ValidPrefix(networks[k])
    ensures Accepted(networks) == Elements(networks)
  {
    forall p | p in networks
      ensures Parsable(p) && Canonical(p) == p
    {
      CanonicalOfValid(p);
    }
  }

  /** Two canonical inputs are accepted as they are. */
  lemma AcceptedTwo(networks: seq<Prefix>, p: Prefix, q: Prefix)
    requires networks == [p, q] && ValidPrefix(p) && ValidPrefix(q)
    ensures Accepted(networks) == {p, q}
  {
    AcceptedValid(networks);
    ElementsTwo(p, q);
  }

  /** A two-element list holds exactly its two elements. */
  lemma ElementsTwo(p: Prefix, q: Prefix)
    ensures Elements([p, q]) == {p, q}
  {
    var s := [p, q];
    assert s[0] == p && s[1] == q;
  }

  /** A three-element list holds exactly its three elements. */
  lemma ElementsThree(p: Prefix, q: Prefix, r: Prefix)
    ensures Elements([p, q, r]) == {p, q, r}
  {
    var s := [p, q, r];
    assert s[0] == p && s[1] == q && s[2] == r;
  }

  /** Three canonical inputs are accepted as they are. */
  lemma AcceptedThree(networks: seq<Prefix>, p: Prefix, q: Prefix, r: Prefix)
    requires networks == [p, q, r] && ValidPrefix(p) && ValidPrefix(q) && ValidPrefix(r)
    ensures Accepted(networks) == {p, q, r}
  {
    AcceptedValid(networks);
    ElementsThree(p, q, r);
  }

  /**
   * Two inputs, the second strictly inside the first: the result is the
   * inner one and the blocks around it.
   */
  lemma NestedOutcome(networks: seq<Prefix>, p: Prefix, q: Prefix, blocks: set<Prefix>, expected: seq<Prefix>)
    requires networks == [p, q] && ValidPrefix(p) && ValidPrefix(q) && StrictSubnet(q, p)
    requires Around(p, q) == blocks
    requires StrictlySorted(expected) && Elements(expected) == {q} + blocks
    ensures Outcome(networks, expected)
  {
    AcceptedTwo(networks, p, q);
    AdjustedNested(p, q);
  }

  /**
   * Three inputs, each strictly inside the one before: the result is the
   * innermost one and the blocks around each inner one inside its outer one.
   */
  lemma ChainOutcome(networks: seq<Prefix>, p: Prefix, q: Prefix, r: Prefix, blocks: set<Prefix>, expected: seq<Prefix>)
    requires networks == [p, q, r] && ValidPrefix(p) && ValidPrefix(q) && ValidPrefix(r)
    requires StrictSubnet(q, p) && StrictSubnet(r, q)
    requires Around(q, r) + Around(p, q) == blocks
    requires StrictlySorted(expected) && Elements(expected) == {r} + blocks
    ensures Outcome(networks, expected)
  {
    AcceptedThree(networks, p, q, r);
    AdjustedChain(p, q, r);
  }

  /** test_bogus_network: 1.0.0.0/33 is refused and nothing is left. */
  lemma BogusV4Alone()
    ensures Outcome([V4(0x01_00_00_00, 33)], [])
  {
    AloneOutcome([V4(0x01_00_00_00, 33)], V4(0x01_00_00_00, 33));
  }

  /** test_bogus_network: next to 1.0.0.0/32, 1.0.0.0/33 is refused and 1.0.0.0/32 kept. */
  lemma BogusV4Beside()
    ensures Outcome([V4(0x01_00_00_00, 32), V4(0x01_00_00_00, 33)], [V4(0x01_00_00_00, 32)])
  {
    Pow2V4();
    assert Size(V4(0x01_00_00_00, 32)) == 1;
    BesideOutcome([V4(0x01_00_00_00, 32), V4(0x01_00_00_00, 33)], V4(0x01_00_00_00, 32), V4(0x01_00_00_00, 33));
  }

  /** test_bogus_network: 1::/129 is refused and nothing is left. */
  lemma BogusV6Alone()
    ensures Outcome([V6(0x0001_0000_0000_0000_0000_0000_0000_0000, 129)], [])
  {
    AloneOutcome([V6(0x0001_0000_0000_0000_0000_0000_0000_0000, 129)], V6(0x0001_0000_0000_0000_0000_0000_0000_0000, 129));
  }

  /** test_bogus_network: next to 1::/128, 1::/129 is refused and 1::/128 kept. */
  lemma BogusV6Beside()
    ensures Outcome([
      V6(0x0001_0000_0000_0000_0000_0000_0000_0000, 128),
      V6(0x0001_0000_0000_0000_0000_0000_0000_0000, 129)], [V6(0x0001_0000_0000_0000_0000_0000_0000_0000, 128)])
  {
    Pow2V6();
    assert Size(V6(0x0001_0000_0000_0000_0000_0000_0000_0000, 128)) == 1;
    BesideOutcome([V6(0x0001_0000_0000_0000_0000_0000_0000_0000, 128), V6(0x0001_0000_0000_0000_0000_0000_0000_0000, 129)], V6(0x0001_0000_0000_0000_0000_0000_0000_0000, 128), V6(0x0001_0000_0000_0000_0000_0000_0000_0000, 129));
  }

  /** test_single_network: 1.0.0.0/8 alone comes back unchanged. */
  lemma SingleV4()
    ensures Outcome([V4(0x01_00_00_00, 8)], [V4(0x01_00_00_00, 8)])
  {
    Pow2V4();
    assert Size(V4(0x01_00_00_00, 8)) == 0x100_0000;
    SingleOutcome([V4(0x01_00_00_00, 8)], V4(0x01_00_00_00, 8));
  }

  /** test_single_network: 1::/48 alone comes back unchanged. */
  lemma SingleV6()
    ensures Outcome([V6(0x0001_0000_0000_0000_0000_0000_0000_0000, 48)], [V6(0x0001_0000_0000_0000_0000_0000_0000_0000, 48)])
  {
    Pow2V6Blocks();
    Pow2V6();
    assert Size(V6(0x0001_0000_0000_0000_0000_0000_0000_0000, 48)) == 0x1_0000_0000_0000_0000_0000;
    SingleOutcome([V6(0x0001_0000_0000_0000_0000_0000_0000_0000, 48)], V6(0x0001_0000_0000_0000_0000_0000_0000_0000, 48));
  }

  /** Splitting V4(0x01_00_00_00, 8), the half away from V4(0x01_00_00_00, 9) is V4(0x01_80_00_00, 9). */
  lemma LargestSubnetFirstLevel0(n: Prefix, inner: Prefix, q: Prefix)
    requires n == V4(0x01_00_00_00, 8) && inner == V4(0x01_00_00_00, 9)
    requires q == V4(0x01_00_00_00, 9)
    ensures ValidPrefix(n) && ValidPrefix(q) && StrictSubnet(q, n)
    ensures Around(n, q) == {V4(0x01_80_00_00, 9)}
  {
    Pow2Low();
    Pow2V4();
    var outer := V4(0x01_80_00_00, 9);
    assert Size(n) == 0x100_0000;
    assert Size(outer) == 0x80_0000;
    assert Size(q) == 0x80_0000;
    assert ValidPrefix(n);
    assert ValidPrefix(q);
    AroundStep(n, q, inner, outer);
  }

  /** The blocks around V4(0x01_00_00_00, 9) inside V4(0x01_00_00_00, 8). */
  lemma LargestSubnetFirstBlocks(n: Prefix, q: Prefix)
    requires n == V4(0x01_00_00_00, 8) && q == V4(0x01_00_00_00, 9)
    ensures ValidPrefix(n) && ValidPrefix(q) && StrictSubnet(q, n)
    ensures Around(n, q) == {V4(0x01_80_00_00, 9)}
  {
    LargestSubnetFirstLevel0(n, q, q);
  }

  /** The expected list of `LargestSubnetFirst` is in trie order. */
  lemma LargestSubnetFirstOrdered(expected: seq<Prefix>)
    requires expected == [V4(0x01_00_00_00, 9), V4(0x01_80_00_00, 9)]
    ensures StrictlySorted(expected)
  {
    SortedBySteps(expected);
  }

  /** The expected list of `LargestSubnetFirst` lists exactly the blocks of `listed`. */
  lemma LargestSubnetFirstListed(expected: seq<Prefix>, listed: set<Prefix>)
    requires expected == [V4(0x01_00_00_00, 9), V4(0x01_80_00_00, 9)]
    requires listed == {V4(0x01_00_00_00, 9)} + (
      {V4(0x01_80_00_00, 9)})
    ensures forall k :: 0 <= k < |expected| ==> expected[k] in listed
    ensures forall x :: x in listed ==> x in expected
  {
  }

  /** test_supernet_largest_subnet_pos_first, and the example of `adjust`'s own description: 1.0.0.0/8 and 1.0.0.0/9 become 1.0.0.0/9 and 1.128.0.0/9. */
  lemma LargestSubnetFirst()
    ensures Outcome([V4(0x01_00_00_00, 8), V4(0x01_00_00_00, 9)], [V4(0x01_00_00_00, 9), V4(0x01_80_00_00, 9)])
  {
    var p, q := V4(0x01_00_00_00, 8), V4(0x01_00_00_00, 9);
    var blocks := {V4(0x01_80_00_00, 9)};
    var expected := [V4(0x01_00_00_00, 9), V4(0x01_80_00_00, 9)];
    LargestSubnetFirstBlocks(p, q);
    LargestSubnetFirstOrdered(expected);
    LargestSubnetFirstListed(expected, {q} + blocks);
    ElementsExactly(expected, {q} + blocks);
    NestedOutcome([p, q], p, q, blocks, expected);
  }

  /** Splitting V4(0x01_00_00_00, 8), the half away from V4(0x01_80_00_00, 9) is V4(0x01_00_00_00, 9). */
  lemma LargestSubnetLastLevel0(n: Prefix, inner: Prefix, q: Prefix)
    requires n == V4(0x01_00_00_00, 8) && inner == V4(0x01_80_00_00, 9)
    requires q == V4(0x01_80_00_00, 9)
    ensures ValidPrefix(n) && ValidPrefix(q) && StrictSubnet(q, n)
    ensures Around(n, q) == {V4(0x01_00_00_00, 9)}
  {
    Pow2Low();
    Pow2V4();
    var outer := V4(0x01_00_00_00, 9);
    assert Size(n) == 0x100_0000;
    assert Size(outer) == 0x80_0000;
    assert Size(q) == 0x80_0000;
    assert ValidPrefix(n);
    assert ValidPrefix(q);
    AroundStep(n, q, inner, outer);
  }

  /** The blocks around V4(0x01_80_00_00, 9) inside V4(0x01_00_00_00, 8). */
  lemma LargestSubnetLastBlocks(n: Prefix, q: Prefix)
    requires n == V4(0x01_00_00_00, 8) && q == V4(0x01_80_00_00, 9)
    ensures ValidPrefix(n) && ValidPrefix(q) && StrictSubnet(q, n)
    ensures Around(n, q) == {V4(0x01_00_00_00, 9)}
  {
    LargestSubnetLastLevel0(n, q, q);
  }

  /** The expected list of `LargestSubnetLast` is in trie order. */
  lemma LargestSubnetLastOrdered(expected: seq<Prefix>)
    requires expected == [V4(0x01_00_00_00, 9), V4(0x01_80_00_00, 9)]
    ensures StrictlySorted(expected)
  {
    SortedBySteps(expected);
  }

  /** The expected list of `LargestSubnetLast` lists exactly the blocks of `listed`. */
  lemma LargestSubnetLastListed(expected: seq<Prefix>, listed: set<Prefix>)
    requires expected == [V4(0x01_00_00_00, 9), V4(0x01_80_00_00, 9)]
    requires listed == {V4(0x01_80_00_00, 9)} + (
      {V4(0x01_00_00_00, 9)})
    ensures forall k :: 0 <= k < |expected| ==> expected[k] in listed
    ensures forall x :: x in listed ==> x in expected
  {
  }

  /** test_supernet_largest_subnet_pos_last: 1.0.0.0/8 and 1.128.0.0/9 become 1.0.0.0/9 and 1.128.0.0/9. */
  lemma LargestSubnetLast()
    ensures Outcome([V4(0x01_00_00_00, 8), V4(0x01_80_00_00, 9)], [V4(0x01_00_00_00, 9), V4(0x01_80_00_00, 9)])
  {
    var p, q := V4(0x01_00_00_00, 8), V4(0x01_80_00_00, 9);
    var blocks := {V4(0x01_00_00_00, 9)};
    var expected := [V4(0x01_00_00_00, 9), V4(0x01_80_00_00, 9)];
    LargestSubnetLastBlocks(p, q);
    LargestSubnetLastOrdered(expected);
    LargestSubnetLastListed(expected, {q} + blocks);
    ElementsExactly(expected, {q} + blocks);
    NestedOutcome([p, q], p, q, blocks, expected);
  }

  /** Splitting V4(0x01_00_00_00, 8), the half away from V4(0x01_00_00_00, 10) is V4(0x01_80_00_00, 9). */
  lemma LargeSubnetFirstLevel0(n: Prefix, inner: Prefix, q: Prefix)
    requires n == V4(0x01_00_00_00, 8) && inner == V4(0x01_00_00_00, 9)
    requires q == V4(0x01_00_00_00, 10)
    ensures ValidPrefix(n) && ValidPrefix(q) && StrictSubnet(q, n)
    ensures ValidPrefix(inner) && StrictSubnet(q, inner)
    ensures Around(n, q) == {V4(0x01_80_00_00, 9)} + Around(inner, q)
  {
    Pow2Low();
    Pow2V4();
    var outer := V4(0x01_80_00_00, 9);
    assert Size(n) == 0x100_0000;
    assert Size(inner) == 0x80_0000;
    assert Size(outer) == 0x80_0000;
    assert Size(q) == 0x40_0000;
    assert ValidPrefix(n);
    assert ValidPrefix(inner);
    assert ValidPrefix(q);
    AroundStep(n, q, inner, outer);
  }

  /** Splitting V4(0x01_00_00_00, 9), the half away from V4(0x01_00_00_00, 10) is V4(0x01_40_00_00, 10). */
  lemma LargeSubnetFirstLevel1(n: Prefix, inner: Prefix, q: Prefix)
    requires n == V4(0x01_00_00_00, 9) && inner == V4(0x01_00_00_00, 10)
    requires q == V4(0x01_00_00_00, 10)
    ensures ValidPrefix(n) && ValidPrefix(q) && StrictSubnet(q, n)
    ensures Around(n, q) == {V4(0x01_40_00_00, 10)}
  {
    Pow2Low();
    Pow2V4();
    var outer := V4(0x01_40_00_00, 10);
    assert Size(n) == 0x80_0000;
    assert Size(outer) == 0x40_0000;
    assert Size(q) == 0x40_0000;
    assert ValidPrefix(n);
    assert ValidPrefix(q);
    AroundStep(n, q, inner, outer);
  }

  /** The blocks around V4(0x01_00_00_00, 10) inside V4(0x01_00_00_00, 8). */
  lemma LargeSubnetFirstBlocks(n: Prefix, q: Prefix)
    requires n == V4(0x01_00_00_00, 8) && q == V4(0x01_00_00_00, 10)
    ensures ValidPrefix(n) && ValidPrefix(q) && StrictSubnet(q, n)
    ensures Around(n, q) == {V4(0x01_80_00_00, 9)} + {V4(0x01_40_00_00, 10)}
  {
    var n1 := V4(0x01_00_00_00, 9);
    LargeSubnetFirstLevel0(n, n1, q);
    LargeSubnetFirstLevel1(n1, q, q);
  }

  /** The expected list of `LargeSubnetFirst` is in trie order. */
  lemma LargeSubnetFirstOrdered(expected: seq<Prefix>)
    requires expected == [V4(0x01_00_00_00, 10), V4(0x01_40_00_00, 10), V4(0x01_80_00_00, 9)]
    ensures StrictlySorted(expected)
  {
    SortedBySteps(expected);
  }

  /** The expected list of `LargeSubnetFirst` lists exactly the blocks of `listed`. */
  lemma LargeSubnetFirstListed(expected: seq<Prefix>, listed: set<Prefix>)
    requires expected == [V4(0x01_00_00_00, 10), V4(0x01_40_00_00, 10), V4(0x01_80_00_00, 9)]
    requires listed == {V4(0x01_00_00_00, 10)} + (
      {V4(0x01_80_00_00, 9)} + {V4(0x01_40_00_00, 10)})
    ensures forall k :: 0 <= k < |expected| ==> expected[k] in listed
    ensures forall x :: x in listed ==> x in expected
  {
  }

  /** test_supernet_large_subnet_pos_first: 1.0.0.0/8 and 1.0.0.0/10 become 1.0.0.0/10, 1.64.0.0/10 and 1.128.0.0/9. */
  lemma LargeSubnetFirst()
    ensures Outcome([V4(0x01_00_00_00, 8), V4(0x01_00_00_00, 10)], [V4(0x01_00_00_00, 10), V4(0x01_40_00_00, 10), V4(0x01_80_00_00, 9)])
  {
    var p, q := V4(0x01_00_00_00, 8), V4(0x01_00_00_00, 10);
    var blocks := {V4(0x01_80_00_00, 9)} + {V4(0x01_40_00_00, 10)};
    var expected := [V4(0x01_00_00_00, 10), V4(0x01_40_00_00, 10), V4(0x01_80_00_00, 9)];
    LargeSubnetFirstBlocks(p, q);
    LargeSubnetFirstOrdered(expected);
    LargeSubnetFirstListed(expected, {q} + blocks);
    ElementsExactly(expected, {q} + blocks);
    NestedOutcome([p, q], p, q, blocks, expected);
  }

  /** Splitting V4(0x01_00_00_00, 8), the half away from V4(0x01_40_00_00, 10) is V4(0x01_80_00_00, 9). */
  lemma LargeSubnetSecondLevel0(n: Prefix, inner: Prefix, q: Prefix)
    requires n == V4(0x01_00_00_00, 8) && inner == V4(0x01_00_00_00, 9)
    requires q == V4(0x01_40_00_00, 10)
    ensures ValidPrefix(n) && ValidPrefix(q) && StrictSubnet(q, n)
    ensures ValidPrefix(inner) && StrictSubnet(q, inner)
    ensures Around(n, q) == {V4(0x01_80_00_00, 9)} + Around(inner, q)
  {
    Pow2Low();
    Pow2V4();
    var outer := V4(0x01_80_00_00, 9);
    assert Size(n) == 0x100_0000;
    assert Size(inner) == 0x80_0000;
    assert Size(outer) == 0x80_0000;
    assert Size(q) == 0x40_0000;
    assert ValidPrefix(n);
    assert ValidPrefix(inner);
    assert ValidPrefix(q);
    AroundStep(n, q, inner, outer);
  }

  /** Splitting V4(0x01_00_00_00, 9), the half away from V4(0x01_40_00_00, 10) is V4(0x01_00_00_00, 10). */
  lemma LargeSubnetSecondLevel1(n: Prefix, inner: Prefix, q: Prefix)
    requires n == V4(0x01_00_00_00, 9) && inner == V4(0x01_40_00_00, 10)
    requires q == V4(0x01_40_00_00, 10)
    ensures ValidPrefix(n) && ValidPrefix(q) && StrictSubnet(q, n)
    ensures Around(n, q) == {V4(0x01_00_00_00, 10)}
  {
    Pow2Low();
    Pow2V4();
    var outer := V4(0x01_00_00_00, 10);
    assert Size(n) == 0x80_0000;
    assert Size(outer) == 0x40_0000;
    assert Size(q) == 0x40_0000;
    assert ValidPrefix(n);
    assert ValidPrefix(q);
    AroundStep(n, q, inner, outer);
  }

  /** The blocks around V4(0x01_40_00_00, 10) inside V4(0x01_00_00_00, 8). */
  lemma LargeSubnetSecondBlocks(n: Prefix, q: Prefix)
    requires n == V4(0x01_00_00_00, 8) && q == V4(0x01_40_00_00, 10)
    ensures ValidPrefix(n) && ValidPrefix(q) && StrictSubnet(q, n)
    ensures Around(n, q) == {V4(0x01_80_00_00, 9)} + {V4(0x01_00_00_00, 10)}
  {
    var n1 := V4(0x01_00_00_00, 9);
    LargeSubnetSecondLevel0(n, n1, q);
    LargeSubnetSecondLevel1(n1, q, q);
  }

  /** The expected list of `LargeSubnetSecond` is in trie order. */
  lemma LargeSubnetSecondOrdered(expected: seq<Prefix>)
    requires expected == [V4(0x01_00_00_00, 10), V4(0x01_40_00_00, 10), V4(0x01_80_00_00, 9)]
    ensures StrictlySorted(expected)
  {
    SortedBySteps(expected);
  }

  /** The expected list of `LargeSubnetSecond` lists exactly the blocks of `listed`. */
  lemma LargeSubnetSecondListed(expected: seq<Prefix>, listed: set<Prefix>)
    requires expected == [V4(0x01_00_00_00, 10), V4(0x01_40_00_00, 10), V4(0x01_80_00_00, 9)]
    requires listed == {V4(0x01_40_00_00, 10)} + (
      {V4(0x01_80_00_00, 9)} + {V4(0x01_00_00_00, 10)})
    ensures forall k :: 0 <= k < |expected| ==> expected[k] in listed
    ensures forall x :: x in listed ==> x in expected
  {
  }

  /** test_supernet_large_subnet_pos_second: 1.0.0.0/8 and 1.64.0.0/10 become 1.0.0.0/10, 1.64.0.0/10 and 1.128.0.0/9. */
  lemma LargeSubnetSecond()
    ensures Outcome([V4(0x01_00_00_00, 8), V4(0x01_40_00_00, 10)], [V4(0x01_00_00_00, 10), V4(0x01_40_00_00, 10), V4(0x01_80_00_00, 9)])
  {
    var p, q := V4(0x01_00_00_00, 8), V4(0x01_40_00_00, 10);
    var blocks := {V4(0x01_80_00_00, 9)} + {V4(0x01_00_00_00, 10)};
    var expected := [V4(0x01_00_00_00, 10), V4(0x01_40_00_00, 10), V4(0x01_80_00_00, 9)];
    LargeSubnetSecondBlocks(p, q);
    LargeSubnetSecondOrdered(expected);
    LargeSubnetSecondListed(expected, {q} + blocks);
    ElementsExactly(expected, {q} + blocks);
    NestedOutcome([p, q], p, q, blocks, expected);
  }

  /** Splitting V4(0x01_00_00_00, 8), the half away from V4(0x01_80_00_00, 10) is V4(0x01_00_00_00, 9). */
  lemma LargeSubnetThirdLevel0(n: Prefix, inner: Prefix, q: Prefix)
    requires n == V4(0x01_00_00_00, 8) && inner == V4(0x01_80_00_00, 9)
    requires q == V4(0x01_80_00_00, 10)
    ensures ValidPrefix(n) && ValidPrefix(q) && StrictSubnet(q, n)
    ensures ValidPrefix(inner) && StrictSubnet(q, inner)
    ensures Around(n, q) == {V4(0x01_00_00_00, 9)} + Around(inner, q)
  {
    Pow2Low();
    Pow2V4();
    var outer := V4(0x01_00_00_00, 9);
    assert Size(n) == 0x100_0000;
    assert Size(inner) == 0x80_0000;
    assert Size(outer) == 0x80_0000;
    assert Size(q) == 0x40_0000;
    assert ValidPrefix(n);
    assert ValidPrefix(inner);
    assert ValidPrefix(q);
    AroundStep(n, q, inner, outer);
  }

  /** Splitting V4(0x01_80_00_00, 9), the half away from V4(0x01_80_00_00, 10) is V4(0x01_C0_00_00, 10). */
  lemma LargeSubnetThirdLevel1(n: Prefix, inner: Prefix, q: Prefix)
    requires n == V4(0x01_80_00_00, 9) && inner == V4(0x01_80_00_00, 10)
    requires q == V4(0x01_80_00_00, 10)
    ensures ValidPrefix(n) && ValidPrefix(q) && StrictSubnet(q, n)
    ensures Around(n, q) == {V4(0x01_C0_00_00, 10)}
  {
    Pow2Low();
    Pow2V4();
    var outer := V4(0x01_C0_00_00, 10);
    assert Size(n) == 0x80_0000;
    assert Size(outer) == 0x40_0000;
    assert Size(q) == 0x40_0000;
    assert ValidPrefix(n);
    assert ValidPrefix(q);
    AroundStep(n, q, inner, outer);
  }

  /** The blocks around V4(0x01_80_00_00, 10) inside V4(0x01_00_00_00, 8). */
  lemma LargeSubnetThirdBlocks(n: Prefix, q: Prefix)
    requires n == V4(0x01_00_00_00, 8) && q == V4(0x01_80_00_00, 10)
    ensures ValidPrefix(n) && ValidPrefix(q) && StrictSubnet(q, n)
    ensures Around(n, q) == {V4(0x01_00_00_00, 9)} + {V4(0x01_C0_00_00, 10)}
  {
    var n1 := V4(0x01_80_00_00, 9);
    LargeSubnetThirdLevel0(n, n1, q);
    LargeSubnetThirdLevel1(n1, q, q);
  }

  /** The expected list of `LargeSubnetThird` is in trie order. */
  lemma LargeSubnetThirdOrdered(expected: seq<Prefix>)
    requires expected == [V4(0x01_00_00_00, 9), V4(0x01_80_00_00, 10), V4(0x01_C0_00_00, 10)]
    ensures StrictlySorted(expected)
  {
    SortedBySteps(expected);
  }

  /** The expected list of `LargeSubnetThird` lists exactly the blocks of `listed`. */
  lemma LargeSubnetThirdListed(expected: seq<Prefix>, listed: set<Prefix>)
    requires expected == [V4(0x01_00_00_00, 9), V4(0x01_80_00_00, 10), V4(0x01_C0_00_00, 10)]
    requires listed == {V4(0x01_80_00_00, 10)} + (
      {V4(0x01_00_00_00, 9)} + {V4(0x01_C0_00_00, 10)})
    ensures forall k :: 0 <= k < |expected| ==> expected[k] in listed
    ensures forall x :: x in listed ==> x in expected
  {
  }

  /** test_supernet_large_subnet_pos_third: 1.0.0.0/8 and 1.128.0.0/10 become 1.0.0.0/9, 1.128.0.0/10 and 1.192.0.0/10. */
  lemma LargeSubnetThird()
    ensures Outcome([V4(0x01_00_00_00, 8), V4(0x01_80_00_00, 10)], [V4(0x01_00_00_00, 9), V4(0x01_80_00_00, 10), V4(0x01_C0_00_00, 10)])
  {
    var p, q := V4(0x01_00_00_00, 8), V4(0x01_80_00_00, 10);
    var blocks := {V4(0x01_00_00_00, 9)} + {V4(0x01_C0_00_00, 10)};
    var expected := [V4(0x01_00_00_00, 9), V4(0x01_80_00_00, 10), V4(0x01_C0_00_00, 10)];
    LargeSubnetThirdBlocks(p, q);
    LargeSubnetThirdOrdered(expected);
    LargeSubnetThirdListed(expected, {q} + blocks);
    ElementsExactly(expected, {q} + blocks);
    NestedOutcome([p, q], p, q, blocks, expected);
  }

  /** Splitting V4(0x01_00_00_00, 8), the half away from V4(0x01_C0_00_00, 10) is V4(0x01_00_00_00, 9). */
  lemma LargeSubnetLastLevel0(n: Prefix, inner: Prefix, q: Prefix)
    requires n == V4(0x01_00_00_00, 8) && inner == V4(0x01_80_00_00, 9)
    requires q == V4(0x01_C0_00_00, 10)
    ensures ValidPrefix(n) && ValidPrefix(q) && StrictSubnet(q, n)
    ensures ValidPrefix(inner) && StrictSubnet(q, inner)
    ensures Around(n, q) == {V4(0x01_00_00_00, 9)} + Around(inner, q)
  {
    Pow2Low();
    Pow2V4();
    var outer := V4(0x01_00_00_00, 9);
    assert Size(n) == 0x100_0000;
    assert Size(inner) == 0x80_0000;
    assert Size(outer) == 0x80_0000;
    assert Size(q) == 0x40_0000;
    assert ValidPrefix(n);
    assert ValidPrefix(inner);
    assert ValidPrefix(q);
    AroundStep(n, q, inner, outer);
  }

  /** Splitting V4(0x01_80_00_00, 9), the half away from V4(0x01_C0_00_00, 10) is V4(0x01_80_00_00, 10). */
  lemma LargeSubnetLastLevel1(n: Prefix, inner: Prefix, q: Prefix)
    requires n == V4(0x01_80_00_00, 9) && inner == V4(0x01_C0_00_00, 10)
    requires q == V4(0x01_C0_00_00, 10)
    ensures ValidPrefix(n) && ValidPrefix(q) && StrictSubnet(q, n)
    ensures Around(n, q) == {V4(0x01_80_00_00, 10)}
  {
    Pow2Low();
    Pow2V4();
    var outer := V4(0x01_80_00_00, 10);
    assert Size(n) == 0x80_0000;
    assert Size(outer) == 0x40_0000;
    assert Size(q) == 0x40_0000;
    assert ValidPrefix(n);
    assert ValidPrefix(q);
    AroundStep(n, q, inner, outer);
  }

  /** The blocks around V4(0x01_C0_00_00, 10) inside V4(0x01_00_00_00, 8). */
  lemma LargeSubnetLastBlocks(n: Prefix, q: Prefix)
    requires n == V4(0x01_00_00_00, 8) && q == V4(0x01_C0_00_00, 10)
    ensures ValidPrefix(n) && ValidPrefix(q) && StrictSubnet(q, n)
    ensures Around(n, q) == {V4(0x01_00_00_00, 9)} + {V4(0x01_80_00_00, 10)}
  {
    var n1 := V4(0x01_80_00_00, 9);
    LargeSubnetLastLevel0(n, n1, q);
    LargeSubnetLastLevel1(n1, q, q);
  }

  /** The expected list of `LargeSubnetLast` is in trie order. */
  lemma LargeSubnetLastOrdered(expected: seq<Prefix>)
    requires expected == [V4(0x01_00_00_00, 9), V4(0x01_80_00_00, 10), V4(0x01_C0_00_00, 10)]
    ensures StrictlySorted(expected)
  {
    SortedBySteps(expected);
  }

  /** The expected list of `LargeSubnetLast` lists exactly the blocks of `listed`. */
  lemma LargeSubnetLastListed(expected: seq<Prefix>, listed: set<Prefix>)
    requires expected == [V4(0x01_00_00_00, 9), V4(0x01_80_00_00, 10), V4(0x01_C0_00_00, 10)]
    requires listed == {V4(0x01_C0_00_00, 10)} + (
      {V4(0x01_00_00_00, 9)} + {V4(0x01_80_00_00, 10)})
    ensures forall k :: 0 <= k < |expected| ==> expected[k] in listed
    ensures forall x :: x in listed ==> x in expected
  {
  }

  /** test_supernet_large_subnet_pos_last: 1.0.0.0/8 and 1.192.0.0/10 become 1.0.0.0/9, 1.128.0.0/10 and 1.192.0.0/10. */
  lemma LargeSubnetLast()
    ensures Outcome([V4(0x01_00_00_00, 8), V4(0x01_C0_00_00, 10)], [V4(0x01_00_00_00, 9), V4(0x01_80_00_00, 10), V4(0x01_C0_00_00, 10)])
  {
    var p, q := V4(0x01_00_00_00, 8), V4(0x01_C0_00_00, 10);
    var blocks := {V4(0x01_00_00_00, 9)} + {V4(0x01_80_00_00, 10)};
    var expected := [V4(0x01_00_00_00, 9), V4(0x01_80_00_00, 10), V4(0x01_C0_00_00, 10)];
    LargeSubnetLastBlocks(p, q);
    LargeSubnetLastOrdered(expected);
    LargeSubnetLastListed(expected, {q} + blocks);
    ElementsExactly(expected, {q} + blocks);
    NestedOutcome([p, q], p, q, blocks, expected);
  }

  /** Splitting V4(0x01_00_00_00, 24), the half away from V4(0x01_00_00_05, 32) is V4(0x01_00_00_80, 25). */
  lemma SmallNetworkLevel0(n: Prefix, inner: Prefix, q: Prefix)
    requires n == V4(0x01_00_00_00, 24) && inner == V4(0x01_00_00_00, 25)
    requires q == V4(0x01_00_00_05, 32)
    ensures ValidPrefix(n) && ValidPrefix(q) && StrictSubnet(q, n)
    ensures ValidPrefix(inner) && StrictSubnet(q, inner)
    ensures Around(n, q) == {V4(0x01_00_00_80, 25)} + Around(inner, q)
  {
    Pow2Low();
    Pow2V4();
    var outer := V4(0x01_00_00_80, 25);
    assert Size(n) == 0x100;
    assert Size(inner) == 0x80;
    assert Size(outer) == 0x80;
    assert Size(q) == 0x1;
    assert ValidPrefix(n);
    assert ValidPrefix(inner);
    assert ValidPrefix(q);
    AroundStep(n, q, inner, outer);
  }

  /** Splitting V4(0x01_00_00_00, 25), the half away from V4(0x01_00_00_05, 32) is V4(0x01_00_00_40, 26). */
  lemma SmallNetworkLevel1(n: Prefix, inner: Prefix, q: Prefix)
    requires n == V4(0x01_00_00_00, 25) && inner == V4(0x01_00_00_00, 26)
    requires q == V4(0x01_00_00_05, 32)
    ensures ValidPrefix(n) && ValidPrefix(q) && StrictSubnet(q, n)
    ensures ValidPrefix(inner) && StrictSubnet(q, inner)
    ensures Around(n, q) == {V4(0x01_00_00_40, 26)} + Around(inner, q)
  {
    Pow2Low();
    Pow2V4();
    var outer := V4(0x01_00_00_40, 26);
    assert Size(n) == 0x80;
    assert Size(inner) == 0x40;
    assert Size(outer) == 0x40;
    assert Size(q) == 0x1;
    assert ValidPrefix(n);
    assert ValidPrefix(inner);
    assert ValidPrefix(q);
    AroundStep(n, q, inner, outer);
  }

  /** Splitting V4(0x01_00_00_00, 26), the half away from V4(0x01_00_00_05, 32) is V4(0x01_00_00_20, 27). */
  lemma SmallNetworkLevel2(n: Prefix, inner: Prefix, q: Prefix)
    requires n == V4(0x01_00_00_00, 26) && inner == V4(0x01_00_00_00, 27)
    requires q == V4(0x01_00_00_05, 32)
    ensures ValidPrefix(n) && ValidPrefix(q) && StrictSubnet(q, n)
    ensures ValidPrefix(inner) && StrictSubnet(q, inner)
    ensures Around(n, q) == {V4(0x01_00_00_20, 27)} + Around(inner, q)
  {
    Pow2Low();
    Pow2V4();
    var outer := V4(0x01_00_00_20, 27);
    assert Size(n) == 0x40;
    assert Size(inner) == 0x20;
    assert Size(outer) == 0x20;
    assert Size(q) == 0x1;
    assert ValidPrefix(n);
    assert ValidPrefix(inner);
    assert ValidPrefix(q);
    AroundStep(n, q, inner, outer);
  }

  /** Splitting V4(0x01_00_00_00, 27), the half away from V4(0x01_00_00_05, 32) is V4(0x01_00_00_10, 28). */
  lemma SmallNetworkLevel3(n: Prefix, inner: Prefix, q: Prefix)
    requires n == V4(0x01_00_00_00, 27) && inner == V4(0x01_00_00_00, 28)
    requires q == V4(0x01_00_00_05, 32)
    ensures ValidPrefix(n) && ValidPrefix(q) && StrictSubnet(q, n)
    ensures ValidPrefix(inner) && StrictSubnet(q, inner)
    ensures Around(n, q) == {V4(0x01_00_00_10, 28)} + Around(inner, q)
  {
    Pow2Low();
    Pow2V4();
    var outer := V4(0x01_00_00_10, 28);
    assert Size(n) == 0x20;
    assert Size(inner) == 0x10;
    assert Size(outer) == 0x10;
    assert Size(q) == 0x1;
    assert ValidPrefix(n);
    assert ValidPrefix(inner);
    assert ValidPrefix(q);
    AroundStep(n, q, inner, outer);
  }

  /** Splitting V4(0x01_00_00_00, 28), the half away from V4(0x01_00_00_05, 32) is V4(0x01_00_00_08, 29). */
  lemma SmallNetworkLevel4(n: Prefix, inner: Prefix, q: Prefix)
    requires n == V4(0x01_00_00_00, 28) && inner == V4(0x01_00_00_00, 29)
    requires q == V4(0x01_00_00_05, 32)
    ensures ValidPrefix(n) && ValidPrefix(q) && StrictSubnet(q, n)
    ensures ValidPrefix(inner) && StrictSubnet(q, inner)
    ensures Around(n, q) == {V4(0x01_00_00_08, 29)} + Around(inner, q)
  {
    Pow2Low();
    Pow2V4();
    var outer := V4(0x01_00_00_08, 29);
    assert Size(n) == 0x10;
    assert Size(inner) == 0x8;
    assert Size(outer) == 0x8;
    assert Size(q) == 0x1;
    assert ValidPrefix(n);
    assert ValidPrefix(inner);
    assert ValidPrefix(q);
    AroundStep(n, q, inner, outer);
  }

  /** Splitting V4(0x01_00_00_00, 29), the half away from V4(0x01_00_00_05, 32) is V4(0x01_00_00_00, 30). */
  lemma SmallNetworkLevel5(n: Prefix, inner: Prefix, q: Prefix)
    requires n == V4(0x01_00_00_00, 29) && inner == V4(0x01_00_00_04, 30)
    requires q == V4(0x01_00_00_05, 32)
    ensures ValidPrefix(n) && ValidPrefix(q) && StrictSubnet(q, n)
    ensures ValidPrefix(inner) && StrictSubnet(q, inner)
    ensures Around(n, q) == {V4(0x01_00_00_00, 30)} + Around(inner, q)
  {
    Pow2Low();
    Pow2V4();
    var outer := V4(0x01_00_00_00, 30);
    assert Size(n) == 0x8;
    assert Size(inner) == 0x4;
    assert Size(outer) == 0x4;
    assert Size(q) == 0x1;
    assert ValidPrefix(n);
    assert ValidPrefix(inner);
    assert ValidPrefix(q);
    AroundStep(n, q, inner, outer);
  }

  /** Splitting V4(0x01_00_00_04, 30), the half away from V4(0x01_00_00_05, 32) is V4(0x01_00_00_06, 31). */
  lemma SmallNetworkLevel6(n: Prefix, inner: Prefix, q: Prefix)
    requires n == V4(0x01_00_00_04, 30) && inner == V4(0x01_00_00_04, 31)
    requires q == V4(0x01_00_00_05, 32)
    ensures ValidPrefix(n) && ValidPrefix(q) && StrictSubnet(q, n)
    ensures ValidPrefix(inner) && StrictSubnet(q, inner)
    ensures Around(n, q) == {V4(0x01_00_00_06, 31)} + Around(inner, q)
  {
    Pow2Low();
    Pow2V4();
    var outer := V4(0x01_00_00_06, 31);
    assert Size(n) == 0x4;
    assert Size(inner) == 0x2;
    assert Size(outer) == 0x2;
    assert Size(q) == 0x1;
    assert ValidPrefix(n);
    assert ValidPrefix(inner);
    assert ValidPrefix(q);
    AroundStep(n, q, inner, outer);
  }

  /** Splitting V4(0x01_00_00_04, 31), the half away from V4(0x01_00_00_05, 32) is V4(0x01_00_00_04, 32). */
  lemma SmallNetworkLevel7(n: Prefix, inner: Prefix, q: Prefix)
    requires n == V4(0x01_00_00_04, 31) && inner == V4(0x01_00_00_05, 32)
    requires q == V4(0x01_00_00_05, 32)
    ensures ValidPrefix(n) && ValidPrefix(q) && StrictSubnet(q, n)
    ensures Around(n, q) == {V4(0x01_00_00_04, 32)}
  {
    Pow2Low();
    Pow2V4();
    var outer := V4(0x01_00_00_04, 32);
    assert Size(n) == 0x2;
    assert Size(outer) == 0x1;
    assert Size(q) == 0x1;
    assert ValidPrefix(n);
    assert ValidPrefix(q);
    AroundStep(n, q, inner, outer);
  }

  /** The blocks around V4(0x01_00_00_05, 32) inside V4(0x01_00_00_00, 24). */
  lemma SmallNetworkBlocks(n: Prefix, q: Prefix)
    requires n == V4(0x01_00_00_00, 24) && q == V4(0x01_00_00_05, 32)
    ensures ValidPrefix(n) && ValidPrefix(q) && StrictSubnet(q, n)
    ensures Around(n, q) == {V4(0x01_00_00_80, 25)} + (
      {V4(0x01_00_00_40, 26)} + (
        {V4(0x01_00_00_20, 27)} + (
          {V4(0x01_00_00_10, 28)} + (
            {V4(0x01_00_00_08, 29)} + (
              {V4(0x01_00_00_00, 30)} + (
                {V4(0x01_00_00_06, 31)} + {V4(0x01_00_00_04, 32)}))))))
  {
    var n1 := V4(0x01_00_00_00, 25);
    SmallNetworkLevel0(n, n1, q);
    var n2 := V4(0x01_00_00_00, 26);
    SmallNetworkLevel1(n1, n2, q);
    SmallNetworkBlocks1(n2, q);
  }

  /** The blocks around V4(0x01_00_00_05, 32) inside V4(0x01_00_00_00, 26). */
  lemma SmallNetworkBlocks1(n: Prefix, q: Prefix)
    requires n == V4(0x01_00_00_00, 26) && q == V4(0x01_00_00_05, 32)
    ensures ValidPrefix(n) && ValidPrefix(q) && StrictSubnet(q, n)
    ensures Around(n, q) == {V4(0x01_00_00_20, 27)} + (
      {V4(0x01_00_00_10, 28)} + (
        {V4(0x01_00_00_08, 29)} + (
          {V4(0x01_00_00_00, 30)} + (
            {V4(0x01_00_00_06, 31)} + {V4(0x01_00_00_04, 32)}))))
  {
    var n3 := V4(0x01_00_00_00, 27);
    SmallNetworkLevel2(n, n3, q);
    var n4 := V4(0x01_00_00_00, 28);
    SmallNetworkLevel3(n3, n4, q);
    SmallNetworkBlocks2(n4, q);
  }

  /** The blocks around V4(0x01_00_00_05, 32) inside V4(0x01_00_00_00, 28). */
  lemma SmallNetworkBlocks2(n: Prefix, q: Prefix)
    requires n == V4(0x01_00_00_00, 28) && q == V4(0x01_00_00_05, 32)
    ensures ValidPrefix(n) && ValidPrefix(q) && StrictSubnet(q, n)
    ensures Around(n, q) == {V4(0x01_00_00_08, 29)} + (
      {V4(0x01_00_00_00, 30)} + (
        {V4(0x01_00_00_06, 31)} + {V4(0x01_00_00_04, 32)}))
  {
    var n5 := V4(0x01_00_00_00, 29);
    SmallNetworkLevel4(n, n5, q);
    var n6 := V4(0x01_00_00_04, 30);
    SmallNetworkLevel5(n5, n6, q);
    SmallNetworkBlocks3(n6, q);
  }

  /** The blocks around V4(0x01_00_00_05, 32) inside V4(0x01_00_00_04, 30). */
  lemma SmallNetworkBlocks3(n: Prefix, q: Prefix)
    requires n == V4(0x01_00_00_04, 30) && q == V4(0x01_00_00_05, 32)
    ensures ValidPrefix(n) && ValidPrefix(q) && StrictSubnet(q, n)
    ensures Around(n, q) == {V4(0x01_00_00_06, 31)} + {V4(0x01_00_00_04, 32)}
  {
    var n7 := V4(0x01_00_00_04, 31);
    SmallNetworkLevel6(n, n7, q);
    SmallNetworkLevel7(n7, q, q);
  }

  /** The expected list of `SmallNetwork` is in trie order. */
  lemma SmallNetworkOrdered(expected: seq<Prefix>)
    requires expected == [
      V4(0x01_00_00_00, 30),
      V4(0x01_00_00_04, 32),
      V4(0x01_00_00_05, 32),
      V4(0x01_00_00_06, 31),
      V4(0x01_00_00_08, 29),
      V4(0x01_00_00_10, 28),
      V4(0x01_00_00_20, 27),
      V4(0x01_00_00_40, 26),
      V4(0x01_00_00_80, 25)
    ]
    ensures StrictlySorted(expected)
  {
    forall i | 0 <= i < |expected| - 1
      ensures KeyLess(expected[i], expected[i + 1])
    {
      if i == 0 {
        assert expected[0] == V4(0x01_00_00_00, 30) && expected[1] == V4(0x01_00_00_04, 32);
      } else if i == 1 {
        assert expected[1] == V4(0x01_00_00_04, 32) && expected[2] == V4(0x01_00_00_05, 32);
      } else if i == 2 {
        assert expected[2] == V4(0x01_00_00_05, 32) && expected[3] == V4(0x01_00_00_06, 31);
      } else if i == 3 {
        assert expected[3] == V4(0x01_00_00_06, 31) && expected[4] == V4(0x01_00_00_08, 29);
      } else if i == 4 {
        assert expected[4] == V4(0x01_00_00_08, 29) && expected[5] == V4(0x01_00_00_10, 28);
      } else if i == 5 {
        assert expected[5] == V4(0x01_00_00_10, 28) && expected[6] == V4(0x01_00_00_20, 27);
      } else if i == 6 {
        assert expected[6] == V4(0x01_00_00_20, 27) && expected[7] == V4(0x01_00_00_40, 26);
      } else {
        assert expected[7] == V4(0x01_00_00_40, 26) && expected[8] == V4(0x01_00_00_80, 25);
      }
    }
    SortedBySteps(expected);
  }

  /** The expected list of `SmallNetwork` lists exactly the blocks of `listed`. */
  lemma SmallNetworkListed(expected: seq<Prefix>, listed: set<Prefix>)
    requires expected == [
      V4(0x01_00_00_00, 30),
      V4(0x01_00_00_04, 32),
      V4(0x01_00_00_05, 32),
      V4(0x01_00_00_06, 31),
      V4(0x01_00_00_08, 29),
      V4(0x01_00_00_10, 28),
      V4(0x01_00_00_20, 27),
      V4(0x01_00_00_40, 26),
      V4(0x01_00_00_80, 25)
    ]
    requires listed == {V4(0x01_00_00_05, 32)} + (
      {V4(0x01_00_00_80, 25)} + (
        {V4(0x01_00_00_40, 26)} + (
          {V4(0x01_00_00_20, 27)} + (
            {V4(0x01_00_00_10, 28)} + (
              {V4(0x01_00_00_08, 29)} + (
                {V4(0x01_00_00_00, 30)} + (
                  {V4(0x01_00_00_06, 31)} + {V4(0x01_00_00_04, 32)})))))))
    ensures forall k :: 0 <= k < |expected| ==> expected[k] in listed
    ensures forall x :: x in listed ==> x in expected
  {
  }

  /** test_small_network: 1.0.0.0/24 and 1.0.0.5/32 become the nine blocks from 1.0.0.0/30 to 1.0.0.128/25. */
  lemma SmallNetwork()
    ensures Outcome([V4(0x01_00_00_00, 24), V4(0x01_00_00_05, 32)], [
        V4(0x01_00_00_00, 30),
        V4(0x01_00_00_04, 32),
        V4(0x01_00_00_05, 32),
        V4(0x01_00_00_06, 31),
        V4(0x01_00_00_08, 29),
        V4(0x01_00_00_10, 28),
        V4(0x01_00_00_20, 27),
        V4(0x01_00_00_40, 26),
        V4(0x01_00_00_80, 25)
      ])
  {
    var p, q := V4(0x01_00_00_00, 24), V4(0x01_00_00_05, 32);
    var blocks := {V4(0x01_00_00_80, 25)} + (
      {V4(0x01_00_00_40, 26)} + (
        {V4(0x01_00_00_20, 27)} + (
          {V4(0x01_00_00_10, 28)} + (
            {V4(0x01_00_00_08, 29)} + (
              {V4(0x01_00_00_00, 30)} + (
                {V4(0x01_00_00_06, 31)} + {V4(0x01_00_00_04, 32)}))))));
    var expected := [
      V4(0x01_00_00_00, 30),
      V4(0x01_00_00_04, 32),
      V4(0x01_00_00_05, 32),
      V4(0x01_00_00_06, 31),
      V4(0x01_00_00_08, 29),
      V4(0x01_00_00_10, 28),
      V4(0x01_00_00_20, 27),
      V4(0x01_00_00_40, 26),
      V4(0x01_00_00_80, 25)
    ];
    SmallNetworkBlocks(p, q);
    SmallNetworkOrdered(expected);
    SmallNetworkListed(expected, {q} + blocks);
    ElementsExactly(expected, {q} + blocks);
    NestedOutcome([p, q], p, q, blocks, expected);
  }

  /** Splitting V6(0x0001_0000_0000_0000_0000_0000_0000_0000, 48), the half away from V6(0x0001_0000_0000_0000_0000_0000_0000_0000, 64) is V6(0x0001_0000_0000_8000_0000_0000_0000_0000, 49). */
  lemma NestedV6Level0(n: Prefix, inner: Prefix, q: Prefix)
    requires n == V6(0x0001_0000_0000_0000_0000_0000_0000_0000, 48) && inner == V6(0x0001_0000_0000_0000_0000_0000_0000_0000, 49)
    requires q == V6(0x0001_0000_0000_0000_0000_0000_0000_0000, 64)
    ensures ValidPrefix(n) && ValidPrefix(q) && StrictSubnet(q, n)
    ensures ValidPrefix(inner) && StrictSubnet(q, inner)
    ensures Around(n, q) == {V6(0x0001_0000_0000_8000_0000_0000_0000_0000, 49)} + Around(inner, q)
  {
    Pow2V6Blocks();
    Pow2V6();
    var outer := V6(0x0001_0000_0000_8000_0000_0000_0000_0000, 49);
    assert Size(n) == 0x1_0000_0000_0000_0000_0000;
    assert Size(inner) == 0x8000_0000_0000_0000_0000;
    assert Size(outer) == 0x8000_0000_0000_0000_0000;
    assert Size(q) == 0x1_0000_0000_0000_0000;
    assert ValidPrefix(n);
    assert ValidPrefix(inner);
    assert ValidPrefix(q);
    AroundStep(n, q, inner, outer);
  }

  /** Splitting V6(0x0001_0000_0000_0000_0000_0000_0000_0000, 49), the half away from V6(0x0001_0000_0000_0000_0000_0000_0000_0000, 64) is V6(0x0001_0000_0000_4000_0000_0000_0000_0000, 50). */
  lemma NestedV6Level1(n: Prefix, inner: Prefix, q: Prefix)
    requires n == V6(0x0001_0000_0000_0000_0000_0000_0000_0000, 49) && inner == V6(0x0001_0000_0000_0000_0000_0000_0000_0000, 50)
    requires q == V6(0x0001_0000_0000_0000_0000_0000_0000_0000, 64)
    ensures ValidPrefix(n) && ValidPrefix(q) && StrictSubnet(q, n)
    ensures ValidPrefix(inner) && StrictSubnet(q, inner)
    ensures Around(n, q) == {V6(0x0001_0000_0000_4000_0000_0000_0000_0000, 50)} + Around(inner, q)
  {
    Pow2V6Blocks();
    Pow2V6();
    var outer := V6(0x0001_0000_0000_4000_0000_0000_0000_0000, 50);
    assert Size(n) == 0x8000_0000_0000_0000_0000;
    assert Size(inner) == 0x4000_0000_0000_0000_0000;
    assert Size(outer) == 0x4000_0000_0000_0000_0000;
    assert Size(q) == 0x1_0000_0000_0000_0000;
    assert ValidPrefix(n);
    assert ValidPrefix(inner);
    assert ValidPrefix(q);
    AroundStep(n, q, inner, outer);
  }

  /** Splitting V6(0x0001_0000_0000_0000_0000_0000_0000_0000, 50), the half away from V6(0x0001_0000_0000_0000_0000_0000_0000_0000, 64) is V6(0x0001_0000_0000_2000_0000_0000_0000_0000, 51). */
  lemma NestedV6Level2(n: Prefix, inner: Prefix, q: Prefix)
    requires n == V6(0x0001_0000_0000_0000_0000_0000_0000_0000, 50) && inner == V6(0x0001_0000_0000_0000_0000_0000_0000_0000, 51)
    requires q == V6(0x0001_0000_0000_0000_0000_0000_0000_0000, 64)
    ensures ValidPrefix(n) && ValidPrefix(q) && StrictSubnet(q, n)
    ensures ValidPrefix(inner) && StrictSubnet(q, inner)
    ensures Around(n, q) == {V6(0x0001_0000_0000_2000_0000_0000_0000_0000, 51)} + Around(inner, q)
  {
    Pow2V6Blocks();
    Pow2V6();
    var outer := V6(0x0001_0000_0000_2000_0000_0000_0000_0000, 51);
    assert Size(n) == 0x4000_0000_0000_0000_0000;
    assert Size(inner) == 0x2000_0000_0000_0000_0000;
    assert Size(outer) == 0x2000_0000_0000_0000_0000;
    assert Size(q) == 0x1_0000_0000_0000_0000;
    assert ValidPrefix(n);
    assert ValidPrefix(inner);
    assert ValidPrefix(q);
    AroundStep(n, q, inner, outer);
  }

  /** Splitting V6(0x0001_0000_0000_0000_0000_0000_0000_0000, 51), the half away from V6(0x0001_0000_0000_0000_0000_0000_0000_0000, 64) is V6(0x0001_0000_0000_1000_0000_0000_0000_0000, 52). */
  lemma NestedV6Level3(n: Prefix, inner: Prefix, q: Prefix)
    requires n == V6(0x0001_0000_0000_0000_0000_0000_0000_0000, 51) && inner == V6(0x0001_0000_0000_0000_0000_0000_0000_0000, 52)
    requires q == V6(0x0001_0000_0000_0000_0000_0000_0000_0000, 64)
    ensures ValidPrefix(n) && ValidPrefix(q) && StrictSubnet(q, n)
    ensures ValidPrefix(inner) && StrictSubnet(q, inner)
    ensures Around(n, q) == {V6(0x0001_0000_0000_1000_0000_0000_0000_0000, 52)} + Around(inner, q)
  {
    Pow2V6Blocks();
    Pow2V6();
    var outer := V6(0x0001_0000_0000_1000_0000_0000_0000_0000, 52);
    assert Size(n) == 0x2000_0000_0000_0000_0000;
    assert Size(inner) == 0x1000_0000_0000_0000_0000;
    assert Size(outer) == 0x1000_0000_0000_0000_0000;
    assert Size(q) == 0x1_0000_0000_0000_0000;
    assert ValidPrefix(n);
    assert ValidPrefix(inner);
    assert ValidPrefix(q);
    AroundStep(n, q, inner, outer);
  }

  /** Splitting V6(0x0001_0000_0000_0000_0000_0000_0000_0000, 52), the half away from V6(0x0001_0000_0000_0000_0000_0000_0000_0000, 64) is V6(0x0001_0000_0000_0800_0000_0000_0000_0000, 53). */
  lemma NestedV6Level4(n: Prefix, inner: Prefix, q: Prefix)
    requires n == V6(0x0001_0000_0000_0000_0000_0000_0000_0000, 52) && inner == V6(0x0001_0000_0000_0000_0000_0000_0000_0000, 53)
    requires q == V6(0x0001_0000_0000_0000_0000_0000_0000_0000, 64)
    ensures ValidPrefix(n) && ValidPrefix(q) && StrictSubnet(q, n)
    ensures ValidPrefix(inner) && StrictSubnet(q, inner)
    ensures Around(n, q) == {V6(0x0001_0000_0000_0800_0000_0000_0000_0000, 53)} + Around(inner, q)
  {
    Pow2V6Blocks();
    Pow2V6();
    var outer := V6(0x0001_0000_0000_0800_0000_0000_0000_0000, 53);
    assert Size(n) == 0x1000_0000_0000_0000_0000;
    assert Size(inner) == 0x800_0000_0000_0000_0000;
    assert Size(outer) == 0x800_0000_0000_0000_0000;
    assert Size(q) == 0x1_0000_0000_0000_0000;
    assert ValidPrefix(n);
    assert ValidPrefix(inner);
    assert ValidPrefix(q);
    AroundStep(n, q, inner, outer);
  }

  /** Splitting V6(0x0001_0000_0000_0000_0000_0000_0000_0000, 53), the half away from V6(0x0001_0000_0000_0000_0000_0000_0000_0000, 64) is V6(0x0001_0000_0000_0400_0000_0000_0000_0000, 54). */
  lemma NestedV6Level5(n: Prefix, inner: Prefix, q: Prefix)
    requires n == V6(0x0001_0000_0000_0000_0000_0000_0000_0000, 53) && inner == V6(0x0001_0000_0000_0000_0000_0000_0000_0000, 54)
    requires q == V6(0x0001_0000_0000_0000_0000_0000_0000_0000, 64)
    ensures ValidPrefix(n) && ValidPrefix(q) && StrictSubnet(q, n)
    ensures ValidPrefix(inner) && StrictSubnet(q, inner)
    ensures Around(n, q) == {V6(0x0001_0000_0000_0400_0000_0000_0000_0000, 54)} + Around(inner, q)
  {
    Pow2V6Blocks();
    Pow2V6();
    var outer := V6(0x0001_0000_0000_0400_0000_0000_0000_0000, 54);
    assert Size(n) == 0x800_0000_0000_0000_0000;
    assert Size(inner) == 0x400_0000_0000_0000_0000;
    assert Size(outer) == 0x400_0000_0000_0000_0000;
    assert Size(q) == 0x1_0000_0000_0000_0000;
    assert ValidPrefix(n);
    assert ValidPrefix(inner);
    assert ValidPrefix(q);
    AroundStep(n, q, inner, outer);
  }

  /** Splitting V6(0x0001_0000_0000_0000_0000_0000_0000_0000, 54), the half away from V6(0x0001_0000_0000_0000_0000_0000_0000_0000, 64) is V6(0x0001_0000_0000_0200_0000_0000_0000_0000, 55). */
  lemma NestedV6Level6(n: Prefix, inner: Prefix, q: Prefix)
    requires n == V6(0x0001_0000_0000_0000_0000_0000_0000_0000, 54) && inner == V6(0x0001_0000_0000_0000_0000_0000_0000_0000, 55)
    requires q == V6(0x0001_0000_0000_0000_0000_0000_0000_0000, 64)
    ensures ValidPrefix(n) && ValidPrefix(q) && StrictSubnet(q, n)
    ensures ValidPrefix(inner) && StrictSubnet(q, inner)
    ensures Around(n, q) == {V6(0x0001_0000_0000_0200_0000_0000_0000_0000, 55)} + Around(inner, q)
  {
    Pow2V6Blocks();
    Pow2V6();
    var outer := V6(0x0001_0000_0000_0200_0000_0000_0000_0000, 55);
    assert Size(n) == 0x400_0000_0000_0000_0000;
    assert Size(inner) == 0x200_0000_0000_0000_0000;
    assert Size(outer) == 0x200_0000_0000_0000_0000;
    assert Size(q) == 0x1_0000_0000_0000_0000;
    assert ValidPrefix(n);
    assert ValidPrefix(inner);
    assert ValidPrefix(q);
    AroundStep(n, q, inner, outer);
  }

  /** Splitting V6(0x0001_0000_0000_0000_0000_0000_0000_0000, 55), the half away from V6(0x0001_0000_0000_0000_0000_0000_0000_0000, 64) is V6(0x0001_0000_0000_0100_0000_0000_0000_0000, 56). */
  lemma NestedV6Level7(n: Prefix, inner: Prefix, q: Prefix)
    requires n == V6(0x0001_0000_0000_0000_0000_0000_0000_0000, 55) && inner == V6(0x0001_0000_0000_0000_0000_0000_0000_0000, 56)
    requires q == V6(0x0001_0000_0000_0000_0000_0000_0000_0000, 64)
    ensures ValidPrefix(n) && ValidPrefix(q) && StrictSubnet(q, n)
    ensures ValidPrefix(inner) && StrictSubnet(q, inner)
    ensures Around(n, q) == {V6(0x0001_0000_0000_0100_0000_0000_0000_0000, 56)} + Around(inner, q)
  {
    Pow2V6Blocks();
    Pow2V6();
    var outer := V6(0x0001_0000_0000_0100_0000_0000_0000_0000, 56);
    assert Size(n) == 0x200_0000_0000_0000_0000;
    assert Size(inner) == 0x100_0000_0000_0000_0000;
    assert Size(outer) == 0x100_0000_0000_0000_0000;
    assert Size(q) == 0x1_0000_0000_0000_0000;
    assert ValidPrefix(n);
    assert ValidPrefix(inner);
    assert ValidPrefix(q);
    AroundStep(n, q, inner, outer);
  }

  /** Splitting V6(0x0001_0000_0000_0000_0000_0000_0000_0000, 56), the half away from V6(0x0001_0000_0000_0000_0000_0000_0000_0000, 64) is V6(0x0001_0000_0000_0080_0000_0000_0000_0000, 57). */
  lemma NestedV6Level8(n: Prefix, inner: Prefix, q: Prefix)
    requires n == V6(0x0001_0000_0000_0000_0000_0000_0000_0000, 56) && inner == V6(0x0001_0000_0000_0000_0000_0000_0000_0000, 57)
    requires q == V6(0x0001_0000_0000_0000_0000_0000_0000_0000, 64)
    ensures ValidPrefix(n) && ValidPrefix(q) && StrictSubnet(q, n)
    ensures ValidPrefix(inner) && StrictSubnet(q, inner)
    ensures Around(n, q) == {V6(0x0001_0000_0000_0080_0000_0000_0000_0000, 57)} + Around(inner, q)
  {
    Pow2V6Blocks();
    Pow2V6();
    var outer := V6(0x0001_0000_0000_0080_0000_0000_0000_0000, 57);
    assert Size(n) == 0x100_0000_0000_0000_0000;
    assert Size(inner) == 0x80_0000_0000_0000_0000;
    assert Size(outer) == 0x80_0000_0000_0000_0000;
    assert Size(q) == 0x1_0000_0000_0000_0000;
    assert ValidPrefix(n);
    assert ValidPrefix(inner);
    assert ValidPrefix(q);
    AroundStep(n, q, inner, outer);
  }

  /** Splitting V6(0x0001_0000_0000_0000_0000_0000_0000_0000, 57), the half away from V6(0x0001_0000_0000_0000_0000_0000_0000_0000, 64) is V6(0x0001_0000_0000_0040_0000_0000_0000_0000, 58). */
  lemma NestedV6Level9(n: Prefix, inner: Prefix, q: Prefix)
    requires n == V6(0x0001_0000_0000_0000_0000_0000_0000_0000, 57) && inner == V6(0x0001_0000_0000_0000_0000_0000_0000_0000, 58)
    requires q == V6(0x0001_0000_0000_0000_0000_0000_0000_0000, 64)
    ensures ValidPrefix(n) && ValidPrefix(q) && StrictSubnet(q, n)
    ensures ValidPrefix(inner) && StrictSubnet(q, inner)
    ensures Around(n, q) == {V6(0x0001_0000_0000_0040_0000_0000_0000_0000, 58)} + Around(inner, q)
  {
    Pow2V6Blocks();
    Pow2V6();
    var outer := V6(0x0001_0000_0000_0040_0000_0000_0000_0000, 58);
    assert Size(n) == 0x80_0000_0000_0000_0000;
    assert Size(inner) == 0x40_0000_0000_0000_0000;
    assert Size(outer) == 0x40_0000_0000_0000_0000;
    assert Size(q) == 0x1_0000_0000_0000_0000;
    assert ValidPrefix(n);
    assert ValidPrefix(inner);
    assert ValidPrefix(q);
    AroundStep(n, q, inner, outer);
  }

  /** Splitting V6(0x0001_0000_0000_0000_0000_0000_0000_0000, 58), the half away from V6(0x0001_0000_0000_0000_0000_0000_0000_0000, 64) is V6(0x0001_0000_0000_0020_0000_0000_0000_0000, 59). */
  lemma NestedV6Level10(n: Prefix, inner: Prefix, q: Prefix)
    requires n == V6(0x0001_0000_0000_0000_0000_0000_0000_0000, 58) && inner == V6(0x0001_0000_0000_0000_0000_0000_0000_0000, 59)
    requires q == V6(0x0001_0000_0000_0000_0000_0000_0000_0000, 64)
    ensures ValidPrefix(n) && ValidPrefix(q) && StrictSubnet(q, n)
    ensures ValidPrefix(inner) && StrictSubnet(q, inner)
    ensures Around(n, q) == {V6(0x0001_0000_0000_0020_0000_0000_0000_0000, 59)} + Around(inner, q)
  {
    Pow2V6Blocks();
    Pow2V6();
    var outer := V6(0x0001_0000_0000_0020_0000_0000_0000_0000, 59);
    assert Size(n) == 0x40_0000_0000_0000_0000;
    assert Size(inner) == 0x20_0000_0000_0000_0000;
    assert Size(outer) == 0x20_0000_0000_0000_0000;
    assert Size(q) == 0x1_0000_0000_0000_0000;
    assert ValidPrefix(n);
    assert ValidPrefix(inner);
    assert ValidPrefix(q);
    AroundStep(n, q, inner, outer);
  }

  /** Splitting V6(0x0001_0000_0000_0000_0000_0000_0000_0000, 59), the half away from V6(0x0001_0000_0000_0000_0000_0000_0000_0000, 64) is V6(0x0001_0000_0000_0010_0000_0000_0000_0000, 60). */
  lemma NestedV6Level11(n: Prefix, inner: Prefix, q: Prefix)
    requires n == V6(0x0001_0000_0000_0000_0000_0000_0000_0000, 59) && inner == V6(0x0001_0000_0000_0000_0000_0000_0000_0000, 60)
    requires q == V6(0x0001_0000_0000_0000_0000_0000_0000_0000, 64)
    ensures ValidPrefix(n) && ValidPrefix(q) && StrictSubnet(q, n)
    ensures ValidPrefix(inner) && StrictSubnet(q, inner)
    ensures Around(n, q) == {V6(0x0001_0000_0000_0010_0000_0000_0000_0000, 60)} + Around(inner, q)
  {
    Pow2V6Blocks();
    Pow2V6();
    var outer := V6(0x0001_0000_0000_0010_0000_0000_0000_0000, 60);
    assert Size(n) == 0x20_0000_0000_0000_0000;
    assert Size(inner) == 0x10_0000_0000_0000_0000;
    assert Size(outer) == 0x10_0000_0000_0000_0000;
    assert Size(q) == 0x1_0000_0000_0000_0000;
    assert ValidPrefix(n);
    assert ValidPrefix(inner);
    assert ValidPrefix(q);
    AroundStep(n, q, inner, outer);
  }

  /** Splitting V6(0x0001_0000_0000_0000_0000_0000_0000_0000, 60), the half away from V6(0x0001_0000_0000_0000_0000_0000_0000_0000, 64) is V6(0x0001_0000_0000_0008_0000_0000_0000_0000, 61). */
  lemma NestedV6Level12(n: Prefix, inner: Prefix, q: Prefix)
    requires n == V6(0x0001_0000_0000_0000_0000_0000_0000_0000, 60) && inner == V6(0x0001_0000_0000_0000_0000_0000_0000_0000, 61)
    requires q == V6(0x0001_0000_0000_0000_0000_0000_0000_0000, 64)
    ensures ValidPrefix(n) && ValidPrefix(q) && StrictSubnet(q, n)
    ensures ValidPrefix(inner) && StrictSubnet(q, inner)
    ensures Around(n, q) == {V6(0x0001_0000_0000_0008_0000_0000_0000_0000, 61)} + Around(inner, q)
  {
    Pow2V6Blocks();
    Pow2V6();
    var outer := V6(0x0001_0000_0000_0008_0000_0000_0000_0000, 61);
    assert Size(n) == 0x10_0000_0000_0000_0000;
    assert Size(inner) == 0x8_0000_0000_0000_0000;
    assert Size(outer) == 0x8_0000_0000_0000_0000;
    assert Size(q) == 0x1_0000_0000_0000_0000;
    assert ValidPrefix(n);
    assert ValidPrefix(inner);
    assert ValidPrefix(q);
    AroundStep(n, q, inner, outer);
  }

  /** Splitting V6(0x0001_0000_0000_0000_0000_0000_0000_0000, 61), the half away from V6(0x0001_0000_0000_0000_0000_0000_0000_0000, 64) is V6(0x0001_0000_0000_0004_0000_0000_0000_0000, 62). */
  lemma NestedV6Level13(n: Prefix, inner: Prefix, q: Prefix)
    requires n == V6(0x0001_0000_0000_0000_0000_0000_0000_0000, 61) && inner == V6(0x0001_0000_0000_0000_0000_0000_0000_0000, 62)
    requires q == V6(0x0001_0000_0000_0000_0000_0000_0000_0000, 64)
    ensures ValidPrefix(n) && ValidPrefix(q) && StrictSubnet(q, n)
    ensures ValidPrefix(inner) && StrictSubnet(q, inner)
    ensures Around(n, q) == {V6(0x0001_0000_0000_0004_0000_0000_0000_0000, 62)} + Around(inner, q)
  {
    Pow2V6Blocks();
    Pow2V6();
    var outer := V6(0x0001_0000_0000_0004_0000_0000_0000_0000, 62);
    assert Size(n) == 0x8_0000_0000_0000_0000;
    assert Size(inner) == 0x4_0000_0000_0000_0000;
    assert Size(outer) == 0x4_0000_0000_0000_0000;
    assert Size(q) == 0x1_0000_0000_0000_0000;
    assert ValidPrefix(n);
    assert ValidPrefix(inner);
    assert ValidPrefix(q);
    AroundStep(n, q, inner, outer);
  }

  /** Splitting V6(0x0001_0000_0000_0000_0000_0000_0000_0000, 62), the half away from V6(0x0001_0000_0000_0000_0000_0000_0000_0000, 64) is V6(0x0001_0000_0000_0002_0000_0000_0000_0000, 63). */
  lemma NestedV6Level14(n: Prefix, inner: Prefix, q: Prefix)
    requires n == V6(0x0001_0000_0000_0000_0000_0000_0000_0000, 62) && inner == V6(0x0001_0000_0000_0000_0000_0000_0000_0000, 63)
    requires q == V6(0x0001_0000_0000_0000_0000_0000_0000_0000, 64)
    ensures ValidPrefix(n) && ValidPrefix(q) && StrictSubnet(q, n)
    ensures ValidPrefix(inner) && StrictSubnet(q, inner)
    ensures Around(n, q) == {V6(0x0001_0000_0000_0002_0000_0000_0000_0000, 63)} + Around(inner, q)
  {
    Pow2V6Blocks();
    Pow2V6();
    var outer := V6(0x0001_0000_0000_0002_0000_0000_0000_0000, 63);
    assert Size(n) == 0x4_0000_0000_0000_0000;
    assert Size(inner) == 0x2_0000_0000_0000_0000;
    assert Size(outer) == 0x2_0000_0000_0000_0000;
    assert Size(q) == 0x1_0000_0000_0000_0000;
    assert ValidPrefix(n);
    assert ValidPrefix(inner);
    assert ValidPrefix(q);
    AroundStep(n, q, inner, outer);
  }

  /** Splitting V6(0x0001_0000_0000_0000_0000_0000_0000_0000, 63), the half away from V6(0x0001_0000_0000_0000_0000_0000_0000_0000, 64) is V6(0x0001_0000_0000_0001_0000_0000_0000_0000, 64). */
  lemma NestedV6Level15(n: Prefix, inner: Prefix, q: Prefix)
    requires n == V6(0x0001_0000_0000_0000_0000_0000_0000_0000, 63) && inner == V6(0x0001_0000_0000_0000_0000_0000_0000_0000, 64)
    requires q == V6(0x0001_0000_0000_0000_0000_0000_0000_0000, 64)
    ensures ValidPrefix(n) && ValidPrefix(q) && StrictSubnet(q, n)
    ensures Around(n, q) == {V6(0x0001_0000_0000_0001_0000_0000_0000_0000, 64)}
  {
    Pow2V6Blocks();
    Pow2V6();
    var outer := V6(0x0001_0000_0000_0001_0000_0000_0000_0000, 64);
    assert Size(n) == 0x2_0000_0000_0000_0000;
    assert Size(outer) == 0x1_0000_0000_0000_0000;
    assert Size(q) == 0x1_0000_0000_0000_0000;
    assert ValidPrefix(n);
    assert ValidPrefix(q);
    AroundStep(n, q, inner, outer);
  }

  /** The blocks around V6(0x0001_0000_0000_0000_0000_0000_0000_0000, 64) inside V6(0x0001_0000_0000_0000_0000_0000_0000_0000, 48). */
  lemma NestedV6Blocks(n: Prefix, q: Prefix)
    requires n == V6(0x0001_0000_0000_0000_0000_0000_0000_0000, 48) && q == V6(0x0001_0000_0000_0000_0000_0000_0000_0000, 64)
    ensures ValidPrefix(n) && ValidPrefix(q) && StrictSubnet(q, n)
    ensures Around(n, q) == {V6(0x0001_0000_0000_8000_0000_0000_0000_0000, 49)} + (
      {V6(0x0001_0000_0000_4000_0000_0000_0000_0000, 50)} + (
        {V6(0x0001_0000_0000_2000_0000_0000_0000_0000, 51)} + (
          {V6(0x0001_0000_0000_1000_0000_0000_0000_0000, 52)} + (
            {V6(0x0001_0000_0000_0800_0000_0000_0000_0000, 53)} + (
              {V6(0x0001_0000_0000_0400_0000_0000_0000_0000, 54)} + (
                {V6(0x0001_0000_0000_0200_0000_0000_0000_0000, 55)} + (
                  {V6(0x0001_0000_0000_0100_0000_0000_0000_0000, 56)} + (
                    {V6(0x0001_0000_0000_0080_0000_0000_0000_0000, 57)} + (
                      {V6(0x0001_0000_0000_0040_0000_0000_0000_0000, 58)} + (
                        {V6(0x0001_0000_0000_0020_0000_0000_0000_0000, 59)} + (
                          {V6(0x0001_0000_0000_0010_0000_0000_0000_0000, 60)} + (
                            {V6(0x0001_0000_0000_0008_0000_0000_0000_0000, 61)} + (
                              {V6(0x0001_0000_0000_0004_0000_0000_0000_0000, 62)} + (
                                {V6(0x0001_0000_0000_0002_0000_0000_0000_0000, 63)} + {V6(0x0001_0000_0000_0001_0000_0000_0000_0000, 64)}))))))))))))))
  {
    var n1 := V6(0x0001_0000_0000_0000_0000_0000_0000_0000, 49);
    NestedV6Level0(n, n1, q);
    var n2 := V6(0x0001_0000_0000_0000_0000_0000_0000_0000, 50);
    NestedV6Level1(n1, n2, q);
    NestedV6Blocks1(n2, q);
  }

  /** The blocks around V6(0x0001_0000_0000_0000_0000_0000_0000_0000, 64) inside V6(0x0001_0000_0000_0000_0000_0000_0000_0000, 50). */
  lemma NestedV6Blocks1(n: Prefix, q: Prefix)
    requires n == V6(0x0001_0000_0000_0000_0000_0000_0000_0000, 50) && q == V6(0x0001_0000_0000_0000_0000_0000_0000_0000, 64)
    ensures ValidPrefix(n) && ValidPrefix(q) && StrictSubnet(q, n)
    ensures Around(n, q) == {V6(0x0001_0000_0000_2000_0000_0000_0000_0000, 51)} + (
      {V6(0x0001_0000_0000_1000_0000_0000_0000_0000, 52)} + (
        {V6(0x0001_0000_0000_0800_0000_0000_0000_0000, 53)} + (
          {V6(0x0001_0000_0000_0400_0000_0000_0000_0000, 54)} + (
            {V6(0x0001_0000_0000_0200_0000_0000_0000_0000, 55)} + (
              {V6(0x0001_0000_0000_0100_0000_0000_0000_0000, 56)} + (
                {V6(0x0001_0000_0000_0080_0000_0000_0000_0000, 57)} + (
                  {V6(0x0001_0000_0000_0040_0000_0000_0000_0000, 58)} + (
                    {V6(0x0001_0000_0000_0020_0000_0000_0000_0000, 59)} + (
                      {V6(0x0001_0000_0000_0010_0000_0000_0000_0000, 60)} + (
                        {V6(0x0001_0000_0000_0008_0000_0000_0000_0000, 61)} + (
                          {V6(0x0001_0000_0000_0004_0000_0000_0000_0000, 62)} + (
                            {V6(0x0001_0000_0000_0002_0000_0000_0000_0000, 63)} + {V6(0x0001_0000_0000_0001_0000_0000_0000_0000, 64)}))))))))))))
  {
    var n3 := V6(0x0001_0000_0000_0000_0000_0000_0000_0000, 51);
    NestedV6Level2(n, n3, q);
    var n4 := V6(0x0001_0000_0000_0000_0000_0000_0000_0000, 52);
    NestedV6Level3(n3, n4, q);
    NestedV6Blocks2(n4, q);
  }

  /** The blocks around V6(0x0001_0000_0000_0000_0000_0000_0000_0000, 64) inside V6(0x0001_0000_0000_0000_0000_0000_0000_0000, 52). */
  lemma NestedV6Blocks2(n: Prefix, q: Prefix)
    requires n == V6(0x0001_0000_0000_0000_0000_0000_0000_0000, 52) && q == V6(0x0001_0000_0000_0000_0000_0000_0000_0000, 64)
    ensures ValidPrefix(n) && ValidPrefix(q) && StrictSubnet(q, n)
    ensures Around(n, q) == {V6(0x0001_0000_0000_0800_0000_0000_0000_0000, 53)} + (
      {V6(0x0001_0000_0000_0400_0000_0000_0000_0000, 54)} + (
        {V6(0x0001_0000_0000_0200_0000_0000_0000_0000, 55)} + (
          {V6(0x0001_0000_0000_0100_0000_0000_0000_0000, 56)} + (
            {V6(0x0001_0000_0000_0080_0000_0000_0000_0000, 57)} + (
              {V6(0x0001_0000_0000_0040_0000_0000_0000_0000, 58)} + (
                {V6(0x0001_0000_0000_0020_0000_0000_0000_0000, 59)} + (
                  {V6(0x0001_0000_0000_0010_0000_0000_0000_0000, 60)} + (
                    {V6(0x0001_0000_0000_0008_0000_0000_0000_0000, 61)} + (
                      {V6(0x0001_0000_0000_0004_0000_0000_0000_0000, 62)} + (
                        {V6(0x0001_0000_0000_0002_0000_0000_0000_0000, 63)} + {V6(0x0001_0000_0000_0001_0000_0000_0000_0000, 64)}))))))))))
  {
    var n5 := V6(0x0001_0000_0000_0000_0000_0000_0000_0000, 53);
    NestedV6Level4(n, n5, q);
    var n6 := V6(0x0001_0000_0000_0000_0000_0000_0000_0000, 54);
    NestedV6Level5(n5, n6, q);
    NestedV6Blocks3(n6, q);
  }

  /** The blocks around V6(0x0001_0000_0000_0000_0000_0000_0000_0000, 64) inside V6(0x0001_0000_0000_0000_0000_0000_0000_0000, 54). */
  lemma NestedV6Blocks3(n: Prefix, q: Prefix)
    requires n == V6(0x0001_0000_0000_0000_0000_0000_0000_0000, 54) && q == V6(0x0001_0000_0000_0000_0000_0000_0000_0000, 64)
    ensures ValidPrefix(n) && ValidPrefix(q) && StrictSubnet(q, n)
    ensures Around(n, q) == {V6(0x0001_0000_0000_0200_0000_0000_0000_0000, 55)} + (
      {V6(0x0001_0000_0000_0100_0000_0000_0000_0000, 56)} + (
        {V6(0x0001_0000_0000_0080_0000_0000_0000_0000, 57)} + (
          {V6(0x0001_0000_0000_0040_0000_0000_0000_0000, 58)} + (
            {V6(0x0001_0000_0000_0020_0000_0000_0000_0000, 59)} + (
              {V6(0x0001_0000_0000_0010_0000_0000_0000_0000, 60)} + (
                {V6(0x0001_0000_0000_0008_0000_0000_0000_0000, 61)} + (
                  {V6(0x0001_0000_0000_0004_0000_0000_0000_0000, 62)} + (
                    {V6(0x0001_0000_0000_0002_0000_0000_0000_0000, 63)} + {V6(0x0001_0000_0000_0001_0000_0000_0000_0000, 64)}))))))))
  {
    var n7 := V6(0x0001_0000_0000_0000_0000_0000_0000_0000, 55);
    NestedV6Level6(n, n7, q);
    var n8 := V6(0x0001_0000_0000_0000_0000_0000_0000_0000, 56);
    NestedV6Level7(n7, n8, q);
    NestedV6Blocks4(n8, q);
  }

  /** The blocks around V6(0x0001_0000_0000_0000_0000_0000_0000_0000, 64) inside V6(0x0001_0000_0000_0000_0000_0000_0000_0000, 56). */
  lemma NestedV6Blocks4(n: Prefix, q: Prefix)
    requires n == V6(0x0001_0000_0000_0000_0000_0000_0000_0000, 56) && q == V6(0x0001_0000_0000_0000_0000_0000_0000_0000, 64)
    ensures ValidPrefix(n) && ValidPrefix(q) && StrictSubnet(q, n)
    ensures Around(n, q) == {V6(0x0001_0000_0000_0080_0000_0000_0000_0000, 57)} + (
      {V6(0x0001_0000_0000_0040_0000_0000_0000_0000, 58)} + (
        {V6(0x0001_0000_0000_0020_0000_0000_0000_0000, 59)} + (
          {V6(0x0001_0000_0000_0010_0000_0000_0000_0000, 60)} + (
            {V6(0x0001_0000_0000_0008_0000_0000_0000_0000, 61)} + (
              {V6(0x0001_0000_0000_0004_0000_0000_0000_0000, 62)} + (
                {V6(0x0001_0000_0000_0002_0000_0000_0000_0000, 63)} + {V6(0x0001_0000_0000_0001_0000_0000_0000_0000, 64)}))))))
  {
    var n9 := V6(0x0001_0000_0000_0000_0000_0000_0000_0000, 57);
    NestedV6Level8(n, n9, q);
    var n10 := V6(0x0001_0000_0000_0000_0000_0000_0000_0000, 58);
    NestedV6Level9(n9, n10, q);
    NestedV6Blocks5(n10, q);
  }

  /** The blocks around V6(0x0001_0000_0000_0000_0000_0000_0000_0000, 64) inside V6(0x0001_0000_0000_0000_0000_0000_0000_0000, 58). */
  lemma NestedV6Blocks5(n: Prefix, q: Prefix)
    requires n == V6(0x0001_0000_0000_0000_0000_0000_0000_0000, 58) && q == V6(0x0001_0000_0000_0000_0000_0000_0000_0000, 64)
    ensures ValidPrefix(n) && ValidPrefix(q) && StrictSubnet(q, n)
    ensures Around(n, q) == {V6(0x0001_0000_0000_0020_0000_0000_0000_0000, 59)} + (
      {V6(0x0001_0000_0000_0010_0000_0000_0000_0000, 60)} + (
        {V6(0x0001_0000_0000_0008_0000_0000_0000_0000, 61)} + (
          {V6(0x0001_0000_0000_0004_0000_0000_0000_0000, 62)} + (
            {V6(0x0001_0000_0000_0002_0000_0000_0000_0000, 63)} + {V6(0x0001_0000_0000_0001_0000_0000_0000_0000, 64)}))))
  {
    var n11 := V6(0x0001_0000_0000_0000_0000_0000_0000_0000, 59);
    NestedV6Level10(n, n11, q);
    var n12 := V6(0x0001_0000_0000_0000_0000_0000_0000_0000, 60);
    NestedV6Level11(n11, n12, q);
    NestedV6Blocks6(n12, q);
  }

  /** The blocks around V6(0x0001_0000_0000_0000_0000_0000_0000_0000, 64) inside V6(0x0001_0000_0000_0000_0000_0000_0000_0000, 60). */
  lemma NestedV6Blocks6(n: Prefix, q: Prefix)
    requires n == V6(0x0001_0000_0000_0000_0000_0000_0000_0000, 60) && q == V6(0x0001_0000_0000_0000_0000_0000_0000_0000, 64)
    ensures ValidPrefix(n) && ValidPrefix(q) && StrictSubnet(q, n)
    ensures Around(n, q) == {V6(0x0001_0000_0000_0008_0000_0000_0000_0000, 61)} + (
      {V6(0x0001_0000_0000_0004_0000_0000_0000_0000, 62)} + (
        {V6(0x0001_0000_0000_0002_0000_0000_0000_0000, 63)} + {V6(0x0001_0000_0000_0001_0000_0000_0000_0000, 64)}))
  {
    var n13 := V6(0x0001_0000_0000_0000_0000_0000_0000_0000, 61);
    NestedV6Level12(n, n13, q);
    var n14 := V6(0x0001_0000_0000_0000_0000_0000_0000_0000, 62);
    NestedV6Level13(n13, n14, q);
    NestedV6Blocks7(n14, q);
  }

  /** The blocks around V6(0x0001_0000_0000_0000_0000_0000_0000_0000, 64) inside V6(0x0001_0000_0000_0000_0000_0000_0000_0000, 62). */
  lemma NestedV6Blocks7(n: Prefix, q: Prefix)
    requires n == V6(0x0001_0000_0000_0000_0000_0000_0000_0000, 62) && q == V6(0x0001_0000_0000_0000_0000_0000_0000_0000, 64)
    ensures ValidPrefix(n) && ValidPrefix(q) && StrictSubnet(q, n)
    ensures Around(n, q) == {V6(0x0001_0000_0000_0002_0000_0000_0000_0000, 63)} + {V6(0x0001_0000_0000_0001_0000_0000_0000_0000, 64)}
  {
    var n15 := V6(0x0001_0000_0000_0000_0000_0000_0000_0000, 63);
    NestedV6Level14(n, n15, q);
    NestedV6Level15(n15, q, q);
  }

  /** The expected list of `NestedV6` is in trie order. */
  lemma NestedV6Ordered(expected: seq<Prefix>)
    requires expected == [
      V6(0x0001_0000_0000_0000_0000_0000_0000_0000, 64),
      V6(0x0001_0000_0000_0001_0000_0000_0000_0000, 64),
      V6(0x0001_0000_0000_0002_0000_0000_0000_0000, 63),
      V6(0x0001_0000_0000_0004_0000_0000_0000_0000, 62),
      V6(0x0001_0000_0000_0008_0000_0000_0000_0000, 61),
      V6(0x0001_0000_0000_0010_0000_0000_0000_0000, 60),
      V6(0x0001_0000_0000_0020_0000_0000_0000_0000, 59),
      V6(0x0001_0000_0000_0040_0000_0000_0000_0000, 58),
      V6(0x0001_0000_0000_0080_0000_0000_0000_0000, 57),
      V6(0x0001_0000_0000_0100_0000_0000_0000_0000, 56),
      V6(0x0001_0000_0000_0200_0000_0000_0000_0000, 55),
      V6(0x0001_0000_0000_0400_0000_0000_0000_0000, 54),
      V6(0x0001_0000_0000_0800_0000_0000_0000_0000, 53),
      V6(0x0001_0000_0000_1000_0000_0000_0000_0000, 52),
      V6(0x0001_0000_0000_2000_0000_0000_0000_0000, 51),
      V6(0x0001_0000_0000_4000_0000_0000_0000_0000, 50),
      V6(0x0001_0000_0000_8000_0000_0000_0000_0000, 49)
    ]
    ensures StrictlySorted(expected)
  {
    forall i | 0 <= i < |expected| - 1
      ensures KeyLess(expected[i], expected[i + 1])
    {
      if i == 0 {
        assert expected[0] == V6(0x0001_0000_0000_0000_0000_0000_0000_0000, 64) && expected[1] == V6(0x0001_0000_0000_0001_0000_0000_0000_0000, 64);
      } else if i == 1 {
        assert expected[1] == V6(0x0001_0000_0000_0001_0000_0000_0000_0000, 64) && expected[2] == V6(0x0001_0000_0000_0002_0000_0000_0000_0000, 63);
      } else if i == 2 {
        assert expected[2] == V6(0x0001_0000_0000_0002_0000_0000_0000_0000, 63) && expected[3] == V6(0x0001_0000_0000_0004_0000_0000_0000_0000, 62);
      } else if i == 3 {
        assert expected[3] == V6(0x0001_0000_0000_0004_0000_0000_0000_0000, 62) && expected[4] == V6(0x0001_0000_0000_0008_0000_0000_0000_0000, 61);
      } else if i == 4 {
        assert expected[4] == V6(0x0001_0000_0000_0008_0000_0000_0000_0000, 61) && expected[5] == V6(0x0001_0000_0000_0010_0000_0000_0000_0000, 60);
      } else if i == 5 {
        assert expected[5] == V6(0x0001_0000_0000_0010_0000_0000_0000_0000, 60) && expected[6] == V6(0x0001_0000_0000_0020_0000_0000_0000_0000, 59);
      } else if i == 6 {
        assert expected[6] == V6(0x0001_0000_0000_0020_0000_0000_0000_0000, 59) && expected[7] == V6(0x0001_0000_0000_0040_0000_0000_0000_0000, 58);
      } else if i == 7 {
        assert expected[7] == V6(0x0001_0000_0000_0040_0000_0000_0000_0000, 58) && expected[8] == V6(0x0001_0000_0000_0080_0000_0000_0000_0000, 57);
      } else if i == 8 {
        assert expected[8] == V6(0x0001_0000_0000_0080_0000_0000_0000_0000, 57) && expected[9] == V6(0x0001_0000_0000_0100_0000_0000_0000_0000, 56);
      } else if i == 9 {
        assert expected[9] == V6(0x0001_0000_0000_0100_0000_0000_0000_0000, 56) && expected[10] == V6(0x0001_0000_0000_0200_0000_0000_0000_0000, 55);
      } else if i == 10 {
        assert expected[10] == V6(0x0001_0000_0000_0200_0000_0000_0000_0000, 55) && expected[11] == V6(0x0001_0000_0000_0400_0000_0000_0000_0000, 54);
      } else if i == 11 {
        assert expected[11] == V6(0x0001_0000_0000_0400_0000_0000_0000_0000, 54) && expected[12] == V6(0x0001_0000_0000_0800_0000_0000_0000_0000, 53);
      } else if i == 12 {
        assert expected[12] == V6(0x0001_0000_0000_0800_0000_0000_0000_0000, 53) && expected[13] == V6(0x0001_0000_0000_1000_0000_0000_0000_0000, 52);
      } else if i == 13 {
        assert expected[13] == V6(0x0001_0000_0000_1000_0000_0000_0000_0000, 52) && expected[14] == V6(0x0001_0000_0000_2000_0000_0000_0000_0000, 51);
      } else if i == 14 {
        assert expected[14] == V6(0x0001_0000_0000_2000_0000_0000_0000_0000, 51) && expected[15] == V6(0x0001_0000_0000_4000_0000_0000_0000_0000, 50);
      } else {
        assert expected[15] == V6(0x0001_0000_0000_4000_0000_0000_0000_0000, 50) && expected[16] == V6(0x0001_0000_0000_8000_0000_0000_0000_0000, 49);
      }
    }
    SortedBySteps(expected);
  }

  /** The expected list of `NestedV6` lists exactly the blocks of `listed`. */
  lemma NestedV6Listed(expected: seq<Prefix>, listed: set<Prefix>)
    requires expected == [
      V6(0x0001_0000_0000_0000_0000_0000_0000_0000, 64),
      V6(0x0001_0000_0000_0001_0000_0000_0000_0000, 64),
      V6(0x0001_0000_0000_0002_0000_0000_0000_0000, 63),
      V6(0x0001_0000_0000_0004_0000_0000_0000_0000, 62),
      V6(0x0001_0000_0000_0008_0000_0000_0000_0000, 61),
      V6(0x0001_0000_0000_0010_0000_0000_0000_0000, 60),
      V6(0x0001_0000_0000_0020_0000_0000_0000_0000, 59),
      V6(0x0001_0000_0000_0040_0000_0000_0000_0000, 58),
      V6(0x0001_0000_0000_0080_0000_0000_0000_0000, 57),
      V6(0x0001_0000_0000_0100_0000_0000_0000_0000, 56),
      V6(0x0001_0000_0000_0200_0000_0000_0000_0000, 55),
      V6(0x0001_0000_0000_0400_0000_0000_0000_0000, 54),
      V6(0x0001_0000_0000_0800_0000_0000_0000_0000, 53),
      V6(0x0001_0000_0000_1000_0000_0000_0000_0000, 52),
      V6(0x0001_0000_0000_2000_0000_0000_0000_0000, 51),
      V6(0x0001_0000_0000_4000_0000_0000_0000_0000, 50),
      V6(0x0001_0000_0000_8000_0000_0000_0000_0000, 49)
    ]
    requires listed == {V6(0x0001_0000_0000_0000_0000_0000_0000_0000, 64)} + (
      {V6(0x0001_0000_0000_8000_0000_0000_0000_0000, 49)} + (
        {V6(0x0001_0000_0000_4000_0000_0000_0000_0000, 50)} + (
          {V6(0x0001_0000_0000_2000_0000_0000_0000_0000, 51)} + (
            {V6(0x0001_0000_0000_1000_0000_0000_0000_0000, 52)} + (
              {V6(0x0001_0000_0000_0800_0000_0000_0000_0000, 53)} + (
                {V6(0x0001_0000_0000_0400_0000_0000_0000_0000, 54)} + (
                  {V6(0x0001_0000_0000_0200_0000_0000_0000_0000, 55)} + (
                    {V6(0x0001_0000_0000_0100_0000_0000_0000_0000, 56)} + (
                      {V6(0x0001_0000_0000_0080_0000_0000_0000_0000, 57)} + (
                        {V6(0x0001_0000_0000_0040_0000_0000_0000_0000, 58)} + (
                          {V6(0x0001_0000_0000_0020_0000_0000_0000_0000, 59)} + (
                            {V6(0x0001_0000_0000_0010_0000_0000_0000_0000, 60)} + (
                              {V6(0x0001_0000_0000_0008_0000_0000_0000_0000, 61)} + (
                                {V6(0x0001_0000_0000_0004_0000_0000_0000_0000, 62)} + (
                                  {V6(0x0001_0000_0000_0002_0000_0000_0000_0000, 63)} + {V6(0x0001_0000_0000_0001_0000_0000_0000_0000, 64)})))))))))))))))
    ensures forall k :: 0 <= k < |expected| ==> expected[k] in listed
    ensures forall x :: x in listed ==> x in expected
  {
  }

  /** test_v6: 1::/48 and 1::/64 become 1::/64 and the sixteen blocks from 1:0:0:1::/64 up to 1:0:0:8000::/49. */
  lemma NestedV6()
    ensures Outcome([V6(0x0001_0000_0000_0000_0000_0000_0000_0000, 48), V6(0x0001_0000_0000_0000_0000_0000_0000_0000, 64)], [
        V6(0x0001_0000_0000_0000_0000_0000_0000_0000, 64),
        V6(0x0001_0000_0000_0001_0000_0000_0000_0000, 64),
        V6(0x0001_0000_0000_0002_0000_0000_0000_0000, 63),
        V6(0x0001_0000_0000_0004_0000_0000_0000_0000, 62),
        V6(0x0001_0000_0000_0008_0000_0000_0000_0000, 61),
        V6(0x0001_0000_0000_0010_0000_0000_0000_0000, 60),
        V6(0x0001_0000_0000_0020_0000_0000_0000_0000, 59),
        V6(0x0001_0000_0000_0040_0000_0000_0000_0000, 58),
        V6(0x0001_0000_0000_0080_0000_0000_0000_0000, 57),
        V6(0x0001_0000_0000_0100_0000_0000_0000_0000, 56),
        V6(0x0001_0000_0000_0200_0000_0000_0000_0000, 55),
        V6(0x0001_0000_0000_0400_0000_0000_0000_0000, 54),
        V6(0x0001_0000_0000_0800_0000_0000_0000_0000, 53),
        V6(0x0001_0000_0000_1000_0000_0000_0000_0000, 52),
        V6(0x0001_0000_0000_2000_0000_0000_0000_0000, 51),
        V6(0x0001_0000_0000_4000_0000_0000_0000_0000, 50),
        V6(0x0001_0000_0000_8000_0000_0000_0000_0000, 49)
      ])
  {
    var p, q := V6(0x0001_0000_0000_0000_0000_0000_0000_0000, 48), V6(0x0001_0000_0000_0000_0000_0000_0000_0000, 64);
    var blocks := {V6(0x0001_0000_0000_8000_0000_0000_0000_0000, 49)} + (
      {V6(0x0001_0000_0000_4000_0000_0000_0000_0000, 50)} + (
        {V6(0x0001_0000_0000_2000_0000_0000_0000_0000, 51)} + (
          {V6(0x0001_0000_0000_1000_0000_0000_0000_0000, 52)} + (
            {V6(0x0001_0000_0000_0800_0000_0000_0000_0000, 53)} + (
              {V6(0x0001_0000_0000_0400_0000_0000_0000_0000, 54)} + (
                {V6(0x0001_0000_0000_0200_0000_0000_0000_0000, 55)} + (
                  {V6(0x0001_0000_0000_0100_0000_0000_0000_0000, 56)} + (
                    {V6(0x0001_0000_0000_0080_0000_0000_0000_0000, 57)} + (
                      {V6(0x0001_0000_0000_0040_0000_0000_0000_0000, 58)} + (
                        {V6(0x0001_0000_0000_0020_0000_0000_0000_0000, 59)} + (
                          {V6(0x0001_0000_0000_0010_0000_0000_0000_0000, 60)} + (
                            {V6(0x0001_0000_0000_0008_0000_0000_0000_0000, 61)} + (
                              {V6(0x0001_0000_0000_0004_0000_0000_0000_0000, 62)} + (
                                {V6(0x0001_0000_0000_0002_0000_0000_0000_0000, 63)} + {V6(0x0001_0000_0000_0001_0000_0000_0000_0000, 64)}))))))))))))));
    var expected := [
      V6(0x0001_0000_0000_0000_0000_0000_0000_0000, 64),
      V6(0x0001_0000_0000_0001_0000_0000_0000_0000, 64),
      V6(0x0001_0000_0000_0002_0000_0000_0000_0000, 63),
      V6(0x0001_0000_0000_0004_0000_0000_0000_0000, 62),
      V6(0x0001_0000_0000_0008_0000_0000_0000_0000, 61),
      V6(0x0001_0000_0000_0010_0000_0000_0000_0000, 60),
      V6(0x0001_0000_0000_0020_0000_0000_0000_0000, 59),
      V6(0x0001_0000_0000_0040_0000_0000_0000_0000, 58),
      V6(0x0001_0000_0000_0080_0000_0000_0000_0000, 57),
      V6(0x0001_0000_0000_0100_0000_0000_0000_0000, 56),
      V6(0x0001_0000_0000_0200_0000_0000_0000_0000, 55),
      V6(0x0001_0000_0000_0400_0000_0000_0000_0000, 54),
      V6(0x0001_0000_0000_0800_0000_0000_0000_0000, 53),
      V6(0x0001_0000_0000_1000_0000_0000_0000_0000, 52),
      V6(0x0001_0000_0000_2000_0000_0000_0000_0000, 51),
      V6(0x0001_0000_0000_4000_0000_0000_0000_0000, 50),
      V6(0x0001_0000_0000_8000_0000_0000_0000_0000, 49)
    ];
    NestedV6Blocks(p, q);
    NestedV6Ordered(expected);
    NestedV6Listed(expected, {q} + blocks);
    ElementsExactly(expected, {q} + blocks);
    NestedOutcome([p, q], p, q, blocks, expected);
  }

  /** Splitting V4(0x01_80_00_00, 9), the half away from V4(0x01_C0_00_00, 10) is V4(0x01_80_00_00, 10). */
  lemma DescriptionLevel0(n: Prefix, inner: Prefix, q: Prefix)
    requires n == V4(0x01_80_00_00, 9) && inner == V4(0x01_C0_00_00, 10)
    requires q == V4(0x01_C0_00_00, 10)
    ensures ValidPrefix(n) && ValidPrefix(q) && StrictSubnet(q, n)
    ensures Around(n, q) == {V4(0x01_80_00_00, 10)}
  {
    Pow2Low();
    Pow2V4();
    var outer := V4(0x01_80_00_00, 10);
    assert Size(n) == 0x80_0000;
    assert Size(outer) == 0x40_0000;
    assert Size(q) == 0x40_0000;
    assert ValidPrefix(n);
    assert ValidPrefix(q);
    AroundStep(n, q, inner, outer);
  }

  /** The block around 1.192.0.0/10 inside 1.128.0.0/9. */
  lemma DescriptionBlocks(n: Prefix, q: Prefix)
    requires n == V4(0x01_80_00_00, 9) && q == V4(0x01_C0_00_00, 10)
    ensures ValidPrefix(n) && ValidPrefix(q) && StrictSubnet(q, n)
    ensures Around(n, q) == {V4(0x01_80_00_00, 10)}
  {
    DescriptionLevel0(n, q, q);
  }

  /** The expected list of `Description` is in trie order. */
  lemma DescriptionOrdered(expected: seq<Prefix>)
    requires expected == [V4(0x01_00_00_00, 9), V4(0x01_80_00_00, 10), V4(0x01_C0_00_00, 10)]
    ensures StrictlySorted(expected)
  {
    SortedBySteps(expected);
  }

  /** The expected list of `Description` lists exactly the blocks of `listed`. */
  lemma DescriptionListed(expected: seq<Prefix>, listed: set<Prefix>)
    requires expected == [V4(0x01_00_00_00, 9), V4(0x01_80_00_00, 10), V4(0x01_C0_00_00, 10)]
    requires listed == {V4(0x01_C0_00_00, 10)} + (
      {V4(0x01_80_00_00, 10)} + {V4(0x01_00_00_00, 9)})
    ensures forall k :: 0 <= k < |expected| ==> expected[k] in listed
    ensures forall x :: x in listed ==> x in expected
  {
  }

  /**
   * The example of the program's description: 1.0.0.0/8, 1.128.0.0/9 and
   * 1.192.0.0/10 become 1.0.0.0/9, 1.128.0.0/10 and 1.192.0.0/10.
   */
  lemma DescriptionExample()
    ensures Outcome([V4(0x01_00_00_00, 8), V4(0x01_80_00_00, 9), V4(0x01_C0_00_00, 10)], [V4(0x01_00_00_00, 9), V4(0x01_80_00_00, 10), V4(0x01_C0_00_00, 10)])
  {
    var p, q, r := V4(0x01_00_00_00, 8), V4(0x01_80_00_00, 9), V4(0x01_C0_00_00, 10);
    var expected := [V4(0x01_00_00_00, 9), V4(0x01_80_00_00, 10), V4(0x01_C0_00_00, 10)];
    LargestSubnetLastBlocks(p, q);
    DescriptionBlocks(q, r);
    DescriptionOrdered(expected);
    var blocks := {V4(0x01_80_00_00, 10)} + {V4(0x01_00_00_00, 9)};
    DescriptionListed(expected, {r} + blocks);
    ElementsExactly(expected, {r} + blocks);
    ChainOutcome([p, q, r], p, q, r, blocks, expected);
  }

  /** `Adjust` on the networks of `BogusV4Alone` returns its expected list. */
  method BogusV4AloneAdjusted() returns (result: seq<Prefix>)
    ensures result == []
  {
    var networks := [V4(0x01_00_00_00, 33)];
    result := Adjust(networks);
    BogusV4Alone();
    OutcomeIsResult(networks, [], result);
  }

  /** `Adjust` on the networks of `BogusV4Beside` returns its expected list. */
  method BogusV4BesideAdjusted() returns (result: seq<Prefix>)
    ensures result == [V4(0x01_00_00_00, 32)]
  {
    var networks := [V4(0x01_00_00_00, 32), V4(0x01_00_00_00, 33)];
    result := Adjust(networks);
    BogusV4Beside();
    OutcomeIsResult(networks, [V4(0x01_00_00_00, 32)], result);
  }

  /** `Adjust` on the networks of `BogusV6Alone` returns its expected list. */
  method BogusV6AloneAdjusted() returns (result: seq<Prefix>)
    ensures result == []
  {
    var networks := [V6(0x0001_0000_0000_0000_0000_0000_0000_0000, 129)];
    result := Adjust(networks);
    BogusV6Alone();
    OutcomeIsResult(networks, [], result);
  }

  /** `Adjust` on the networks of `BogusV6Beside` returns its expected list. */
  method BogusV6BesideAdjusted() returns (result: seq<Prefix>)
    ensures result == [V6(0x0001_0000_0000_0000_0000_0000_0000_0000, 128)]
  {
    var networks := [
      V6(0x0001_0000_0000_0000_0000_0000_0000_0000, 128),
      V6(0x0001_0000_0000_0000_0000_0000_0000_0000, 129)];
    result := Adjust(networks);
    BogusV6Beside();
    OutcomeIsResult(networks, [V6(0x0001_0000_0000_0000_0000_0000_0000_0000, 128)], result);
  }

  /** `Adjust` on the networks of `SingleV4` returns its expected list. */
  method SingleV4Adjusted() returns (result: seq<Prefix>)
    ensures result == [V4(0x01_00_00_00, 8)]
  {
    var networks := [V4(0x01_00_00_00, 8)];
    result := Adjust(networks);
    SingleV4();
    OutcomeIsResult(networks, [V4(0x01_00_00_00, 8)], result);
  }

  /** `Adjust` on the networks of `SingleV6` returns its expected list. */
  method SingleV6Adjusted() returns (result: seq<Prefix>)
    ensures result == [V6(0x0001_0000_0000_0000_0000_0000_0000_0000, 48)]
  {
    var networks := [V6(0x0001_0000_0000_0000_0000_0000_0000_0000, 48)];
    result := Adjust(networks);
    SingleV6();
    OutcomeIsResult(networks, [V6(0x0001_0000_0000_0000_0000_0000_0000_0000, 48)], result);
  }

  /** `Adjust` on the networks of `LargestSubnetFirst` returns its expected list. */
  method LargestSubnetFirstAdjusted() returns (result: seq<Prefix>)
    ensures result == [V4(0x01_00_00_00, 9), V4(0x01_80_00_00, 9)]
  {
    var networks := [V4(0x01_00_00_00, 8), V4(0x01_00_00_00, 9)];
    result := Adjust(networks);
    LargestSubnetFirst();
    OutcomeIsResult(networks, [V4(0x01_00_00_00, 9), V4(0x01_80_00_00, 9)], result);
  }

  /** `Adjust` on the networks of `LargestSubnetLast` returns its expected list. */
  method LargestSubnetLastAdjusted() returns (result: seq<Prefix>)
    ensures result == [V4(0x01_00_00_00, 9), V4(0x01_80_00_00, 9)]
  {
    var networks := [V4(0x01_00_00_00, 8), V4(0x01_80_00_00, 9)];
    result := Adjust(networks);
    LargestSubnetLast();
    OutcomeIsResult(networks, [V4(0x01_00_00_00, 9), V4(0x01_80_00_00, 9)], result);
  }

  /** `Adjust` on the networks of `LargeSubnetFirst` returns its expected list. */
  method LargeSubnetFirstAdjusted() returns (result: seq<Prefix>)
    ensures result == [V4(0x01_00_00_00, 10), V4(0x01_40_00_00, 10), V4(0x01_80_00_00, 9)]
  {
    var networks := [V4(0x01_00_00_00, 8), V4(0x01_00_00_00, 10)];
    result := Adjust(networks);
    LargeSubnetFirst();
    OutcomeIsResult(networks, [V4(0x01_00_00_00, 10), V4(0x01_40_00_00, 10), V4(0x01_80_00_00, 9)], result);
  }

  /** `Adjust` on the networks of `LargeSubnetSecond` returns its expected list. */
  method LargeSubnetSecondAdjusted() returns (result: seq<Prefix>)
    ensures result == [V4(0x01_00_00_00, 10), V4(0x01_40_00_00, 10), V4(0x01_80_00_00, 9)]
  {
    var networks := [V4(0x01_00_00_00, 8), V4(0x01_40_00_00, 10)];
    result := Adjust(networks);
    LargeSubnetSecond();
    OutcomeIsResult(networks, [V4(0x01_00_00_00, 10), V4(0x01_40_00_00, 10), V4(0x01_80_00_00, 9)], result);
  }

  /** `Adjust` on the networks of `LargeSubnetThird` returns its expected list. */
  method LargeSubnetThirdAdjusted() returns (result: seq<Prefix>)
    ensures result == [V4(0x01_00_00_00, 9), V4(0x01_80_00_00, 10), V4(0x01_C0_00_00, 10)]
  {
    var networks := [V4(0x01_00_00_00, 8), V4(0x01_80_00_00, 10)];
    result := Adjust(networks);
    LargeSubnetThird();
    OutcomeIsResult(networks, [V4(0x01_00_00_00, 9), V4(0x01_80_00_00, 10), V4(0x01_C0_00_00, 10)], result);
  }

  /** `Adjust` on the networks of `LargeSubnetLast` returns its expected list. */
  method LargeSubnetLastAdjusted() returns (result: seq<Prefix>)
    ensures result == [V4(0x01_00_00_00, 9), V4(0x01_80_00_00, 10), V4(0x01_C0_00_00, 10)]
  {
    var networks := [V4(0x01_00_00_00, 8), V4(0x01_C0_00_00, 10)];
    result := Adjust(networks);
    LargeSubnetLast();
    OutcomeIsResult(networks, [V4(0x01_00_00_00, 9), V4(0x01_80_00_00, 10), V4(0x01_C0_00_00, 10)], result);
  }

  /** `Adjust` on the networks of `SmallNetwork` returns its expected list. */
  method SmallNetworkAdjusted() returns (result: seq<Prefix>)
    ensures result == [
        V4(0x01_00_00_00, 30),
        V4(0x01_00_00_04, 32),
        V4(0x01_00_00_05, 32),
        V4(0x01_00_00_06, 31),
        V4(0x01_00_00_08, 29),
        V4(0x01_00_00_10, 28),
        V4(0x01_00_00_20, 27),
        V4(0x01_00_00_40, 26),
        V4(0x01_00_00_80, 25)
      ]
  {
    var networks := [V4(0x01_00_00_00, 24), V4(0x01_00_00_05, 32)];
    result := Adjust(networks);
    SmallNetwork();
    OutcomeIsResult(networks, [
        V4(0x01_00_00_00, 30),
        V4(0x01_00_00_04, 32),
        V4(0x01_00_00_05, 32),
        V4(0x01_00_00_06, 31),
        V4(0x01_00_00_08, 29),
        V4(0x01_00_00_10, 28),
        V4(0x01_00_00_20, 27),
        V4(0x01_00_00_40, 26),
        V4(0x01_00_00_80, 25)
      ], result);
  }

  /** `Adjust` on the networks of `NestedV6` returns its expected list. */
  method NestedV6Adjusted() returns (result: seq<Prefix>)
    ensures result == [
        V6(0x0001_0000_0000_0000_0000_0000_0000_0000, 64),
        V6(0x0001_0000_0000_0001_0000_0000_0000_0000, 64),
        V6(0x0001_0000_0000_0002_0000_0000_0000_0000, 63),
        V6(0x0001_0000_0000_0004_0000_0000_0000_0000, 62),
        V6(0x0001_0000_0000_0008_0000_0000_0000_0000, 61),
        V6(0x0001_0000_0000_0010_0000_0000_0000_0000, 60),
        V6(0x0001_0000_0000_0020_0000_0000_0000_0000, 59),
        V6(0x0001_0000_0000_0040_0000_0000_0000_0000, 58),
        V6(0x0001_0000_0000_0080_0000_0000_0000_0000, 57),
        V6(0x0001_0000_0000_0100_0000_0000_0000_0000, 56),
        V6(0x0001_0000_0000_0200_0000_0000_0000_0000, 55),
        V6(0x0001_0000_0000_0400_0000_0000_0000_0000, 54),
        V6(0x0001_0000_0000_0800_0000_0000_0000_0000, 53),
        V6(0x0001_0000_0000_1000_0000_0000_0000_0000, 52),
        V6(0x0001_0000_0000_2000_0000_0000_0000_0000, 51),
        V6(0x0001_0000_0000_4000_0000_0000_0000_0000, 50),
        V6(0x0001_0000_0000_8000_0000_0000_0000_0000, 49)
      ]
  {
    var networks := [V6(0x0001_0000_0000_0000_0000_0000_0000_0000, 48), V6(0x0001_0000_0000_0000_0000_0000_0000_0000, 64)];
    result := Adjust(networks);
    NestedV6();
    OutcomeIsResult(networks, [
        V6(0x0001_0000_0000_0000_0000_0000_0000_0000, 64),
        V6(0x0001_0000_0000_0001_0000_0000_0000_0000, 64),
        V6(0x0001_0000_0000_0002_0000_0000_0000_0000, 63),
        V6(0x0001_0000_0000_0004_0000_0000_0000_0000, 62),
        V6(0x0001_0000_0000_0008_0000_0000_0000_0000, 61),
        V6(0x0001_0000_0000_0010_0000_0000_0000_0000, 60),
        V6(0x0001_0000_0000_0020_0000_0000_0000_0000, 59),
        V6(0x0001_0000_0000_0040_0000_0000_0000_0000, 58),
        V6(0x0001_0000_0000_0080_0000_0000_0000_0000, 57),
        V6(0x0001_0000_0000_0100_0000_0000_0000_0000, 56),
        V6(0x0001_0000_0000_0200_0000_0000_0000_0000, 55),
        V6(0x0001_0000_0000_0400_0000_0000_0000_0000, 54),
        V6(0x0001_0000_0000_0800_0000_0000_0000_0000, 53),
        V6(0x0001_0000_0000_1000_0000_0000_0000_0000, 52),
        V6(0x0001_0000_0000_2000_0000_0000_0000_0000, 51),
        V6(0x0001_0000_0000_4000_0000_0000_0000_0000, 50),
        V6(0x0001_0000_0000_8000_0000_0000_0000_0000, 49)
      ], result);
  }

  /** `Adjust` on the networks of `DescriptionExample` returns its expected list. */
  method DescriptionExampleAdjusted() returns (result: seq<Prefix>)
    ensures result == [V4(0x01_00_00_00, 9), V4(0x01_80_00_00, 10), V4(0x01_C0_00_00, 10)]
  {
    var networks := [V4(0x01_00_00_00, 8), V4(0x01_80_00_00, 9), V4(0x01_C0_00_00, 10)];
    result := Adjust(networks);
    DescriptionExample();
    OutcomeIsResult(networks, [V4(0x01_00_00_00, 9), V4(0x01_80_00_00, 10), V4(0x01_C0_00_00, 10)], result);
  }
}
