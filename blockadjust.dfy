/**
 * The block adjuster itself: `has_subnet`, `generate_subnets` and `adjust`,
 * working on a `Radix` trie the way the program does.
 *
 * Each method is proved against the functions of `SubnetSpec` and
 * `AdjustSpec`: `HasSubnet` answers `HasStrictSubnet`, `GenerateSubnets`
 * adds exactly `Gen`, and `Adjust` returns, in trie order, exactly the set
 * `Adjusted(Accepted(networks))`, whose properties `AdjustSpec` proves.
 */
module BlockAdjust {
  import opened IpPrefix
  import opened RadixTrie
  import opened SubnetSpec
  import opened AdjustSpec

  /**
   * Whether the trie stores a prefix strictly inside `network`: among the
   * stored prefixes covered by `network`, one other than `network` itself
   * lists `network` among its supernets.
   */
  method HasSubnet(network: Prefix, trie: Radix) returns (b: bool)
    requires trie.Valid() && ValidPrefix(network)
    ensures b <==> HasStrictSubnet(trie.Contents(), network)
  {
    var candidates := trie.SearchCovered(network);
    for i := 0 to |candidates|
      invariant forall j :: 0 <= j < i ==> candidates[j] == network || network !in Supernets(candidates[j])
    {
      if candidates[i] == network {
        continue;
      }
      if network in Supernets(candidates[i]) {
        SupernetsAreStrictSupernets(network, candidates[i]);
        return true;
      }
    }
    forall q | q in trie.Contents() && StrictSubnet(q, network)
      ensures false
    {
      var j :| 0 <= j < |candidates| && candidates[j] == q;
      SupernetsAreStrictSupernets(network, q);
    }
    return false;
  }

  /**
   * Splits `network` into its two halves and handles each in turn with
   * `HandleSubnet`.  The trie gains exactly `Gen(old contents, network)`;
   * nothing is removed.
   */
  method GenerateSubnets(trie: Radix, network: Prefix, maxPrefixLen: nat)
    requires trie.Valid() && ValidPrefix(network) && maxPrefixLen == Width(network.family)
    modifies trie
    ensures trie.Valid()
    ensures trie.Contents() == old(trie.Contents()) + Gen(old(trie.Contents()), network)
    decreases maxPrefixLen - network.len, 1
  {
    var subnetLen := network.len + 1;
    if subnetLen > maxPrefixLen {
      return;
    }
    ghost var S0 := trie.Contents();
    var subnets := Halves(network);
    GenIsGenAllOfHalves(S0, network);
    for k := 0 to |subnets|
      invariant trie.Valid()
      invariant trie.Contents() == S0 + GenAll(S0, subnets[..k])
    {
      HalfStep(S0, network, k, trie.Contents());
      HandleSubnet(trie, subnets[k], maxPrefixLen);
    }
    assert subnets[..|subnets|] == subnets;
  }

  /**
   * One turn of the loop in `generate_subnets`: a stored subnet is skipped,
   * a subnet with nothing stored strictly inside it is stored, and any
   * other subnet is split in turn.  The trie gains `GenChild(old contents, subnet)`.
   */
  method HandleSubnet(trie: Radix, subnet: Prefix, maxPrefixLen: nat)
    requires trie.Valid() && ValidPrefix(subnet) && maxPrefixLen == Width(subnet.family)
    modifies trie
    ensures trie.Valid()
    ensures trie.Contents() == old(trie.Contents()) + GenChild(old(trie.Contents()), subnet)
    decreases maxPrefixLen - subnet.len, 2
  {
    var stored := trie.SearchExact(subnet);
    if stored {
      return;
    }
    var has := HasSubnet(subnet, trie);
    if !has {
      CanonicalOfValid(subnet);
      var ok := trie.Add(subnet);
    } else {
      GenerateSubnets(trie, subnet, maxPrefixLen);
    }
  }

  /** `a` comes before `b` in the sorted node list: shorter first, ties in trie order. */
  predicate LenBefore(a: Prefix, b: Prefix)
  {
    a.len < b.len || (a.len == b.len && KeyLess(a, b))
  }

  predicate SortedByLen(s: seq<Prefix>)
  {
    forall i, j :: 0 <= i < j < |s| ==> LenBefore(s[i], s[j])
  }

  /** Inserting an element at its place keeps a sequence sorted by length. */
  lemma InsertByLen(s: seq<Prefix>, i: nat, c: Prefix)
    requires SortedByLen(s) && i <= |s|
    requires forall j :: 0 <= j < i ==> LenBefore(s[j], c)
    requires forall j :: i <= j < |s| ==> LenBefore(c, s[j])
    ensures SortedByLen(s[..i] + [c] + s[i..])
    ensures multiset(s[..i] + [c] + s[i..]) == multiset(s) + multiset{c}
  {
    var t := s[..i] + [c] + s[i..];
    assert forall j :: 0 <= j < i ==> t[j] == s[j];
    assert forall j :: i < j < |t| ==> t[j] == s[j - 1];
    assert s == s[..i] + s[i..];
  }

  /**
   * Inserting the `i`-th node of a strictly sorted list into `r`, whose
   * members all come before the nodes from `i` on, leaves every member
   * before the nodes after `i`.
   */
  lemma InsertedBelowRest(r: seq<Prefix>, p: nat, s: seq<Prefix>, i: nat)
    requires p <= |r| && i < |s| && StrictlySorted(s)
    requires forall k, j :: 0 <= k < |r| && i <= j < |s| ==> KeyLess(r[k], s[j])
    ensures forall k, j :: 0 <= k < |r| + 1 && i + 1 <= j < |s| ==> KeyLess((r[..p] + [s[i]] + r[p..])[k], s[j])
  {
    var t := r[..p] + [s[i]] + r[p..];
    forall k, j | 0 <= k < |t| && i + 1 <= j < |s|
      ensures KeyLess(t[k], s[j])
    {
      if k < p {
        assert t[k] == r[k];
      } else if k > p {
        assert t[k] == r[k - 1];
      }
    }
  }

  /**
   * The trie's nodes reordered by prefix length.  The sort is stable, so
   * nodes of equal length keep the trie order they arrived in.
   */
  method SortByPrefixLen(s: seq<Prefix>) returns (r: seq<Prefix>)
    requires StrictlySorted(s)
    ensures SortedByLen(r)
    ensures multiset(r) == multiset(s)
  {
    r := [];
    for i := 0 to |s|
      invariant SortedByLen(r)
      invariant multiset(r) == multiset(s[..i])
      invariant forall k, j :: 0 <= k < |r| && i <= j < |s| ==> KeyLess(r[k], s[j])
    {
      var x := s[i];
      var p := |r|;
      while p > 0 && r[p - 1].len > x.len
        invariant 0 <= p <= |r|
        invariant forall k :: p <= k < |r| ==> r[k].len > x.len
      {
        p := p - 1;
      }
      InsertByLen(r, p, x);
      InsertedBelowRest(r, p, s, i);
      r := r[..p] + [x] + r[p..];
      assert s[..i + 1] == s[..i] + [x];
    }
    assert s[..|s|] == s;
  }

  /**
   * In a list sorted by length, the nodes before position `i` are distinct
   * from the `i`-th and no longer than it.
   */
  lemma SortedPrefixBefore(s: seq<Prefix>, i: nat)
    requires SortedByLen(s) && i < |s|
    ensures forall m :: m in Elements(s[..i]) ==> m.len <= s[i].len && m != s[i]
    ensures Elements(s[..i + 1]) == Elements(s[..i]) + {s[i]}
    ensures Elements(s[..i]) <= Elements(s) && s[i] in Elements(s)
  {
    forall m | m in Elements(s[..i])
      ensures m.len <= s[i].len && m != s[i]
    {
      var k :| 0 <= k < i && s[k] == m;
      assert LenBefore(s[k], s[i]);
    }
    assert s[..i + 1] == s[..i] + [s[i]];
  }

  /** Two sequences with the same multiset hold the same elements. */
  lemma SameElements(a: seq<Prefix>, b: seq<Prefix>)
    requires multiset(a) == multiset(b)
    ensures Elements(a) == Elements(b)
  {
    forall x | x in a ensures x in b {
      assert x in multiset(a);
    }
    forall x | x in b ensures x in a {
      assert x in multiset(b);
    }
  }

  /** One more network offered to the trie adds its canonical form, if it is accepted. */
  lemma AcceptedSnoc(s: seq<Prefix>, x: Prefix)
    ensures Accepted(s + [x]) == Accepted(s) + (if Parsable(x) then {Canonical(x)} else {})
  {
    var t := s + [x];
    forall p | p in t ensures p == x || p in s {
      var i :| 0 <= i < |t| && t[i] == p;
      if i < |s| {
        assert s[i] == p;
      }
    }
    assert x in t;
  }

  /**
   * Loads every network into a fresh trie (dropping the ones it refuses),
   * then visits the stored prefixes from shortest to longest: one with a
   * stored strict subnet is replaced by the subnets `GenerateSubnets`
   * produces for it.  The result lists, in trie order, exactly the blocks
   * of `Adjusted(Accepted(networks))`.
   */
  method Adjust(networks: seq<Prefix>) returns (result: seq<Prefix>)
    ensures StrictlySorted(result)
    ensures Elements(result) == Adjusted(Accepted(networks))
    ensures forall k :: 0 <= k < |result| ==> ValidPrefix(result[k])
  {
    var trie := new Radix();
    for i := 0 to |networks|
      invariant trie.Valid()
      invariant trie.Contents() == Accepted(networks[..i])
    {
      var ok := trie.Add(networks[i]);
      assert networks[..i + 1] == networks[..i] + [networks[i]];
      AcceptedSnoc(networks[..i], networks[i]);
    }
    assert networks[..|networks|] == networks;
    ghost var I := trie.Contents();
    var nodes := trie.Prefixes();
    var sortedNodes := SortByPrefixLen(nodes);
    SameElements(sortedNodes, nodes);
    for i := 0 to |sortedNodes|
      invariant trie.Valid()
      invariant trie.Contents() == Partial(I, Elements(sortedNodes[..i]))
    {
      var node := sortedNodes[i];
      ghost var P := Elements(sortedNodes[..i]);
      SortedPrefixBefore(sortedNodes, i);
      AdjustStep(I, P, node);
      ghost var next := Partial(I, P + {node});
      var has := HasSubnet(node, trie);
      if has {
        GenInside(trie.Contents(), node);
        GenerateSubnets(trie, node, if node.family == IPv4 then 32 else 128);
        var found := trie.Delete(node);
        assert found;
      }
      assert trie.Contents() == next;
    }
    assert sortedNodes[..|sortedNodes|] == sortedNodes;
    result := trie.Prefixes();
  }

  /** The order of the networks does not matter: any reordering gives the same list. */
  method AdjustReordered(a: seq<Prefix>, b: seq<Prefix>) returns (ra: seq<Prefix>, rb: seq<Prefix>)
    requires multiset(a) == multiset(b)
    ensures ra == rb
  {
    ra := Adjust(a);
    rb := Adjust(b);
    SameElements(a, b);
    AcceptedOfElements(a, b);
    SortedUnique(ra, rb);
  }

  /** Lists holding the same networks have the same accepted set. */
  lemma AcceptedOfElements(a: seq<Prefix>, b: seq<Prefix>)
    requires Elements(a) == Elements(b)
    ensures Accepted(a) == Accepted(b)
  {
    forall q | q in Accepted(a) ensures q in Accepted(b) {
      var p :| p in a && Parsable(p) && q == Canonical(p);
      assert p in Elements(a);
    }
    forall q | q in Accepted(b) ensures q in Accepted(a) {
      var p :| p in b && Parsable(p) && q == Canonical(p);
      assert p in Elements(b);
    }
  }

  /** Adjusting the list `Adjust` returns gives back that list. */
  method AdjustTwice(networks: seq<Prefix>) returns (once: seq<Prefix>, twice: seq<Prefix>)
    ensures twice == once
  {
    once := Adjust(networks);
    twice := Adjust(once);
    forall p | p in once
      ensures Parsable(p) && Canonical(p) == p
    {
      var k :| 0 <= k < |once| && once[k] == p;
      CanonicalOfValid(p);
    }
    assert Accepted(once) == Elements(once);
    AdjustedIdempotent(Accepted(networks));
    SortedUnique(once, twice);
  }
}
