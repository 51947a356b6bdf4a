/**
 * What `has_subnet` answers and what `generate_subnets` adds, as functions
 * of the stored set of prefixes.
 *
 * `Gen(S, n)` is the set of prefixes that `generate_subnets` inserts when it
 * splits `n` while the trie holds `S`: each half of `n` is skipped when
 * stored, inserted when nothing stored lies strictly inside it, and split
 * again otherwise.  The lemmas below say that these additions are fresh
 * canonical strict subnets of `n`, pairwise disjoint, disjoint from every
 * stored prefix inside `n`, and that together with those stored prefixes
 * they cover every host of `n`.
 */
module SubnetSpec {
  import opened IpPrefix

  /** Every member of `S` is a canonical prefix (what the trie stores). */
  ghost predicate AllValid(S: set<Prefix>)
  {
    forall q :: q in S ==> ValidPrefix(q)
  }

  /**
   * Some stored prefix lies strictly inside `p`; a stored copy of `p` itself
   * does not count.  On canonical prefixes this is the test `has_subnet`
   * makes: some stored prefix covered by `p`, other than `p`, lists `p`
   * among its supernets.
   */
  predicate HasStrictSubnet(S: set<Prefix>, p: Prefix)
    ensures AllValid(S) && ValidPrefix(p) ==>
      (HasStrictSubnet(S, p) <==> exists q :: q in S && q != p && Covers(p, q) && p in Supernets(q))
  {
    SupernetCriterion(S, p);
    exists q :: q in S && StrictSubnet(q, p)
  }

  /** Among canonical prefixes, lying strictly inside `p` is being covered by `p`, differing from it and listing it as a supernet. */
  lemma SupernetCriterion(S: set<Prefix>, p: Prefix)
    ensures AllValid(S) && ValidPrefix(p) ==>
      ((exists q :: q in S && StrictSubnet(q, p)) <==> exists q :: q in S && q != p && Covers(p, q) && p in Supernets(q))
  {
    if AllValid(S) && ValidPrefix(p) {
      forall q | q in S
        ensures StrictSubnet(q, p) <==> q != p && Covers(p, q) && p in Supernets(q)
      {
        SupernetsAreStrictSupernets(p, q);
      }
    }
  }

  /**
   * The prefixes `generate_subnets` adds for the network `n` while the trie
   * holds `S`.  Each was not stored, has nothing stored strictly inside it,
   * and is a longer prefix of the same family, no longer than the family's width.
   */
  function Gen(S: set<Prefix>, n: Prefix): (r: set<Prefix>)
    ensures forall g :: g in r ==>
      && g !in S && !HasStrictSubnet(S, g)
      && g.family == n.family && n.len < g.len <= Width(n.family)
    decreases HostBits(n.family, n.len), 1
  {
    if n.len + 1 > Width(n.family) then {}
    else GenChild(S, Lower(n)) + GenChild(S, Upper(n))
  }

  /**
   * What handling one generated subnet `c` adds: nothing, `c` itself, or
   * its own split.  Each addition was not stored, has nothing stored
   * strictly inside it, and is `c` or a longer prefix of its family.
   */
  function GenChild(S: set<Prefix>, c: Prefix): (r: set<Prefix>)
    ensures forall g :: g in r ==>
      && g !in S && !HasStrictSubnet(S, g)
      && g.family == c.family && c.len <= g.len
      && (c.len <= Width(c.family) ==> g.len <= Width(c.family))
    decreases HostBits(c.family, c.len) + 1, 0
  {
    if c in S then {}
    else if !HasStrictSubnet(S, c) then {c}
    else Gen(S, c)
  }

  /** What handling the subnets `cs`, one after the other, adds. */
  function GenAll(S: set<Prefix>, cs: seq<Prefix>): set<Prefix>
  {
    if |cs| == 0 then {} else GenAll(S, cs[..|cs| - 1]) + GenChild(S, cs[|cs| - 1])
  }

  lemma GenIsGenAllOfHalves(S: set<Prefix>, n: Prefix)
    requires ValidPrefix(n) && n.len < Width(n.family)
    ensures Gen(S, n) == GenAll(S, Halves(n))
  {
    var hs := Halves(n);
    assert GenAll(S, hs[..1]) == GenChild(S, hs[0]) by {
      assert hs[..1][..0] == [];
    }
    assert hs[..1] == hs[..|hs| - 1];
  }

  /**
   * Handling the first `k` halves of `n` adds nothing inside the `k`-th
   * half, so the later half sees the stored set as it was.
   */
  lemma SiblingUntouched(S: set<Prefix>, n: Prefix, k: nat, q: Prefix)
    requires ValidPrefix(n) && n.len < Width(n.family) && k < 2
    requires Covers(Halves(n)[k], q)
    ensures q !in GenAll(S, Halves(n)[..k])
  {
    var hs := Halves(n);
    if k == 1 {
      assert GenAll(S, hs[..1]) == GenChild(S, hs[0]) by {
        assert hs[..1][..0] == [];
      }
      GenChildInside(S, hs[0]);
      if q in GenChild(S, hs[0]) {
        OverlapWiden(hs[1], hs[0], q);
        assert false;
      }
    } else {
      assert hs[..0] == [];
    }
  }

  /**
   * While the halves of `n` are handled in turn, the `k`-th half sees the
   * stored set as it was: its presence, its subnet test and its split are
   * the same as against `S`.
   */
  lemma HalfStep(S: set<Prefix>, n: Prefix, k: nat, cur: set<Prefix>)
    requires ValidPrefix(n) && n.len < Width(n.family) && k < 2
    requires cur == S + GenAll(S, Halves(n)[..k])
    ensures Halves(n)[k] in cur <==> Halves(n)[k] in S
    ensures HasStrictSubnet(cur, Halves(n)[k]) == HasStrictSubnet(S, Halves(n)[k])
    ensures Gen(cur, Halves(n)[k]) == Gen(S, Halves(n)[k])
    ensures GenChild(cur, Halves(n)[k]) == GenChild(S, Halves(n)[k])
    ensures GenAll(S, Halves(n)[..k + 1]) == GenAll(S, Halves(n)[..k]) + GenChild(S, Halves(n)[k])
    ensures cur + GenChild(cur, Halves(n)[k]) == S + GenAll(S, Halves(n)[..k + 1])
  {
    var hs := Halves(n);
    var c := hs[k];
    forall q | Covers(c, q)
      ensures q in cur <==> q in S
    {
      SiblingUntouched(S, n, k, q);
    }
    assert HasStrictSubnet(cur, c) == HasStrictSubnet(S, c) by {
      if q :| q in cur && StrictSubnet(q, c) {
        assert q in S;
      }
      if q :| q in S && StrictSubnet(q, c) {
        assert q in cur;
      }
    }
    GenLocal(cur, S, c);
    GenAllSnoc(S, hs, k);
  }

  /** Handling one more subnet adds what handling it alone adds. */
  lemma GenAllSnoc(S: set<Prefix>, cs: seq<Prefix>, k: nat)
    requires k < |cs|
    ensures GenAll(S, cs[..k + 1]) == GenAll(S, cs[..k]) + GenChild(S, cs[k])
  {
    assert cs[..k + 1][..k] == cs[..k];
  }

  /** A half of `n` and a prefix strictly inside `n` that share a host: the prefix is in the half. */
  lemma HalfCoversOverlapping(n: Prefix, c: Prefix, q: Prefix)
    requires ValidPrefix(n) && n.len < Width(n.family) && c in Halves(n)
    requires ValidPrefix(q) && StrictSubnet(q, n) && Overlap(c, q)
    ensures Covers(c, q)
  {
    NestedOrDisjoint(c, q);
    if Covers(q, c) {
      CoversSameLength(q, c);
    }
  }

  /**
   * Every added prefix is a canonical strict subnet of `n` that was not
   * stored and had no stored strict subnet when it was added.
   */
  lemma {:induction false} GenInside(S: set<Prefix>, n: Prefix)
    requires ValidPrefix(n)
    ensures forall g :: g in Gen(S, n) ==>
      ValidPrefix(g) && StrictSubnet(g, n) && g !in S && !HasStrictSubnet(S, g)
    decreases HostBits(n.family, n.len)
  {
    if n.len < Width(n.family) {
      var hs := Halves(n);
      forall c | c in hs && c !in S && HasStrictSubnet(S, c)
        ensures forall g :: g in Gen(S, c) ==>
          ValidPrefix(g) && StrictSubnet(g, n) && g !in S && !HasStrictSubnet(S, g)
      {
        GenInside(S, c);
      }
    }
  }

  /** `GenInside` for one added prefix `g`. */
  lemma GenInsideAt(S: set<Prefix>, n: Prefix, g: Prefix)
    requires ValidPrefix(n) && g in Gen(S, n)
    ensures ValidPrefix(g) && StrictSubnet(g, n) && g !in S && !HasStrictSubnet(S, g)
  {
    GenInside(S, n);
  }

  /** The additions for one half lie inside that half. */
  lemma GenChildInside(S: set<Prefix>, c: Prefix)
    requires ValidPrefix(c)
    ensures forall g :: g in GenChild(S, c) ==> Covers(c, g) && g !in S
  {
    if c !in S && HasStrictSubnet(S, c) {
      GenInside(S, c);
    }
  }

  /** No added prefix shares a host with a stored prefix inside `n`. */
  lemma GenAvoidsStored(S: set<Prefix>, n: Prefix)
    requires ValidPrefix(n) && AllValid(S)
    ensures forall g, q :: g in Gen(S, n) && q in S && StrictSubnet(q, n) ==> !Overlap(g, q)
  {
    forall g, q | g in Gen(S, n) && q in S && StrictSubnet(q, n)
      ensures !Overlap(g, q)
    {
      GenAvoidsOne(S, n, g, q);
    }
  }

  lemma {:induction false} GenAvoidsOne(S: set<Prefix>, n: Prefix, g: Prefix, q: Prefix)
    requires ValidPrefix(n) && AllValid(S)
    requires g in Gen(S, n) && q in S && StrictSubnet(q, n)
    ensures !Overlap(g, q)
    decreases HostBits(n.family, n.len)
  {
    assert n.len < Width(n.family);
    var hs := Halves(n);
    var c := if g in GenChild(S, hs[0]) then hs[0] else hs[1];
    assert g in GenChild(S, c) && c !in S;
    GenChildInside(S, c);
    if Overlap(g, q) {
      assert Overlap(q, g);
      OverlapWiden(q, c, g);
      HalfCoversOverlapping(n, c, q);
      if c.len == q.len {
        CoversSameLength(c, q);
        assert false;
      }
      assert StrictSubnet(q, c) && HasStrictSubnet(S, c);
      assert g in Gen(S, c);
      GenAvoidsOne(S, c, g, q);
      assert false;
    }
  }

  /** The added prefixes are pairwise disjoint. */
  lemma GenDisjoint(S: set<Prefix>, n: Prefix)
    requires ValidPrefix(n)
    ensures forall g, h :: g in Gen(S, n) && h in Gen(S, n) && g != h ==> !Overlap(g, h)
  {
    forall g, h | g in Gen(S, n) && h in Gen(S, n) && g != h
      ensures !Overlap(g, h)
    {
      GenApart(S, n, g, h);
    }
  }

  /** `GenDisjoint` for two added prefixes `g` and `h`. */
  lemma {:induction false} GenApart(S: set<Prefix>, n: Prefix, g: Prefix, h: Prefix)
    requires ValidPrefix(n) && g in Gen(S, n) && h in Gen(S, n) && g != h
    ensures !Overlap(g, h)
    decreases HostBits(n.family, n.len)
  {
    var hs := Halves(n);
    GenChildInside(S, hs[0]);
    GenChildInside(S, hs[1]);
    var c := if g in GenChild(S, hs[0]) then hs[0] else hs[1];
    var d := if h in GenChild(S, hs[0]) then hs[0] else hs[1];
    if c == d {
      assert c !in S && HasStrictSubnet(S, c);
      GenApart(S, c, g, h);
    } else if Overlap(g, h) {
      OverlapWiden(h, c, g);
      OverlapWiden(c, d, h);
      assert false;
    }
  }

  /**
   * When something stored lies strictly inside `n`, every host of `n` is in
   * an added prefix or in a stored prefix strictly inside `n`.
   */
  lemma {:induction false} GenCovers(S: set<Prefix>, n: Prefix, a: Address)
    requires ValidPrefix(n) && AllValid(S) && HasStrictSubnet(S, n) && InBlock(n, a)
    ensures || (exists g :: g in Gen(S, n) && InBlock(g, a))
            || (exists q :: q in S && StrictSubnet(q, n) && InBlock(q, a))
    decreases HostBits(n.family, n.len)
  {
    var w :| w in S && StrictSubnet(w, n);
    assert n.len < Width(n.family);
    var hs := Halves(n);
    var c := if InBlock(hs[0], a) then hs[0] else hs[1];
    assert InBlock(c, a) && StrictSubnet(c, n);
    if c in S {
      assert c in S && StrictSubnet(c, n) && InBlock(c, a);
    } else if !HasStrictSubnet(S, c) {
      assert c in Gen(S, n) && InBlock(c, a);
    } else {
      GenCovers(S, c, a);
      if q :| q in S && StrictSubnet(q, c) && InBlock(q, a) {
        CoversTransitive(n, c, q);
        assert q in S && StrictSubnet(q, n) && InBlock(q, a);
      } else {
        var g :| g in Gen(S, c) && InBlock(g, a);
        assert g in Gen(S, n);
      }
    }
  }

  /** The additions depend only on what is stored strictly inside `n`. */
  lemma {:induction false} GenLocal(S: set<Prefix>, T: set<Prefix>, n: Prefix)
    requires ValidPrefix(n)
    requires forall q :: StrictSubnet(q, n) ==> (q in S <==> q in T)
    ensures Gen(S, n) == Gen(T, n)
    decreases HostBits(n.family, n.len)
  {
    if n.len < Width(n.family) {
      var hs := Halves(n);
      forall c | c in hs
        ensures GenChild(S, c) == GenChild(T, c)
      {
        forall q | StrictSubnet(q, c)
          ensures StrictSubnet(q, n) && (q in S <==> q in T)
        {
          CoversTransitive(n, c, q);
        }
        assert HasStrictSubnet(S, c) == HasStrictSubnet(T, c);
        GenLocal(S, T, c);
      }
    }
  }

  /** A prefix strictly inside `n` lies inside one of its halves. */
  lemma HalfHolding(n: Prefix, q: Prefix)
    requires ValidPrefix(n) && ValidPrefix(q) && StrictSubnet(q, n)
    ensures Covers(Halves(n)[0], q) || Covers(Halves(n)[1], q)
  {
    var hs := Halves(n);
    var a := Address(n.family, q.addr);
    assert InBlock(n, a);
    var c := if InBlock(hs[0], a) then hs[0] else hs[1];
    assert Overlap(c, q);
    HalfCoversOverlapping(n, c, q);
  }

  /**
   * The blocks that fill `n` around one prefix `q` strictly inside it: at
   * each level down the path from `n` to `q`, the half that does not hold `q`.
   */
  function Around(n: Prefix, q: Prefix): (r: set<Prefix>)
    requires ValidPrefix(n) && ValidPrefix(q) && StrictSubnet(q, n)
    decreases q.len - n.len
  {
    HalfHolding(n, q);
    var hs := Halves(n);
    var inner := if Covers(hs[0], q) then hs[0] else hs[1];
    var outer := if Covers(hs[0], q) then hs[1] else hs[0];
    {outer} + (if inner == q then {} else Around(inner, q))
  }

  /**
   * The split is as coarse as possible: every block it adds has a parent
   * (the block one bit shorter) with a stored block strictly inside it, so
   * no two added halves could have been kept whole as their parent.
   */
  lemma {:induction false} GenCoarsest(S: set<Prefix>, n: Prefix, g: Prefix)
    requires ValidPrefix(n) && HasStrictSubnet(S, n) && g in Gen(S, n)
    ensures g.len >= 1 && HasStrictSubnet(S, Truncate(g, g.len - 1))
    decreases HostBits(n.family, n.len)
  {
    assert n.len < Width(n.family);
    var hs := Halves(n);
    assert Gen(S, n) == GenChild(S, hs[0]) + GenChild(S, hs[1]);
    var c := if g in GenChild(S, hs[0]) then hs[0] else hs[1];
    assert g in GenChild(S, c);
    if c in S || !HasStrictSubnet(S, c) {
      assert g == c;
      HalfParent(n, c);
      assert Truncate(g, g.len - 1) == n;
    } else {
      GenCoarsest(S, c, g);
    }
  }

  /** A /len+1 subnet of `n` cut back by one bit is `n`. */
  lemma HalfParent(n: Prefix, c: Prefix)
    requires ValidPrefix(n) && ValidPrefix(c) && StrictSubnet(c, n) && c.len == n.len + 1
    ensures c.len >= 1 && Truncate(c, c.len - 1) == n
  {
    TruncateToCover(n, c);
  }

  /**
   * When everything stored strictly inside `n` lies within the stored
   * prefix `q`, splitting `n` adds exactly the blocks around `q`.
   */
  lemma {:induction false} GenAroundOne(S: set<Prefix>, n: Prefix, q: Prefix)
    requires AllValid(S) && ValidPrefix(n) && q in S && StrictSubnet(q, n)
    requires forall r :: r in S && StrictSubnet(r, n) ==> Covers(q, r)
    ensures Gen(S, n) == Around(n, q)
    decreases q.len - n.len
  {
    HalfHolding(n, q);
    var hs := Halves(n);
    var inner := if Covers(hs[0], q) then hs[0] else hs[1];
    var outer := if Covers(hs[0], q) then hs[1] else hs[0];
    AroundHalves(S, n, q, inner, outer);
    AroundStep(n, q, inner, outer);
    if inner != q {
      GenAroundOne(S, inner, q);
    }
  }

  /**
   * One level of `GenAroundOne`: the half away from `q` holds nothing
   * stored and is added whole; the half holding `q` is skipped when it is
   * `q` and split otherwise, with everything stored inside it still within `q`.
   */
  lemma AroundHalves(S: set<Prefix>, n: Prefix, q: Prefix, inner: Prefix, outer: Prefix)
    requires AllValid(S) && ValidPrefix(n) && q in S && StrictSubnet(q, n)
    requires forall r :: r in S && StrictSubnet(r, n) ==> Covers(q, r)
    requires Halves(n) == [inner, outer] || Halves(n) == [outer, inner]
    requires Covers(inner, q)
    ensures Gen(S, n) == GenChild(S, outer) + GenChild(S, inner)
    ensures GenChild(S, outer) == {outer}
    ensures inner == q ==> GenChild(S, inner) == {}
    ensures inner != q ==> StrictSubnet(q, inner) && GenChild(S, inner) == Gen(S, inner)
    ensures inner != q ==> forall r :: r in S && StrictSubnet(r, inner) ==> Covers(q, r)
  {
    if Overlap(outer, q) {
      OverlapWiden(outer, inner, q);
      assert false;
    }
    OuterEmpty(S, n, q, outer);
    if inner != q {
      if inner.len == q.len || inner in S {
        CoversSameLength(inner, q);
        assert false;
      }
      forall r | r in S && StrictSubnet(r, inner)
        ensures Covers(q, r)
      {
        CoversTransitive(n, inner, r);
      }
    }
  }

  /** A half of `n` away from `q` holds nothing stored when everything stored inside `n` is within `q`. */
  lemma OuterEmpty(S: set<Prefix>, n: Prefix, q: Prefix, outer: Prefix)
    requires AllValid(S) && q in S && StrictSubnet(outer, n) && !Overlap(outer, q)
    requires forall r :: r in S && StrictSubnet(r, n) ==> Covers(q, r)
    ensures outer !in S && !HasStrictSubnet(S, outer)
  {
    forall r | r in S && Covers(outer, r)
      ensures false
    {
      CoversTransitive(n, outer, r);
      OverlapWiden(outer, q, r);
    }
  }

  /** One level of `Around`: the half away from `q`, then the blocks inside the half holding it. */
  lemma AroundStep(n: Prefix, q: Prefix, inner: Prefix, outer: Prefix)
    requires ValidPrefix(n) && ValidPrefix(q) && StrictSubnet(q, n)
    requires Halves(n) == [inner, outer] || Halves(n) == [outer, inner]
    requires Covers(inner, q)
    ensures Around(n, q) == {outer} + (if inner == q then {} else Around(inner, q))
  {
  }
}
