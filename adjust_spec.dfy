/**
 * The set of blocks `adjust` returns, as a function of its valid inputs.
 *
 * `adjust` walks the stored prefixes from least to most specific; each one
 * with a stored strict subnet is split (`Gen`) and then deleted.
 * `Partial(I, P)` is the stored set once the prefixes `P` of the input set
 * `I` have been handled, and `Adjusted(I)` the set once all of them have.
 * `AdjustStep` shows that handling one more prefix, in length order, moves
 * from one `Partial` to the next; the lemmas after it state what the
 * result promises: no host in two blocks, the hosts of the inputs exactly
 * kept, every most-specific input kept verbatim, and a fixed point.
 */
module AdjustSpec {
  import opened IpPrefix
  import opened SubnetSpec

  /** The inputs the trie accepts, as it stores them; refused ones are dropped. */
  function Accepted(networks: seq<Prefix>): (I: set<Prefix>)
    ensures AllValid(I)
    ensures forall p :: p in networks && Parsable(p) ==> Canonical(p) in I
    ensures forall q :: q in I ==> exists p :: p in networks && Parsable(p) && q == Canonical(p)
  {
    set p | p in networks && Parsable(p) :: Canonical(p)
  }

  /** The handled prefixes that had a strict subnet among the inputs (split, then deleted). */
  function Split(I: set<Prefix>, P: set<Prefix>): set<Prefix>
  {
    set m | m in P && HasStrictSubnet(I, m)
  }

  /** Everything generated while splitting the prefixes of `Split(I, P)`. */
  function Generated(I: set<Prefix>, P: set<Prefix>): set<Prefix>
  {
    set m, g | m in P && HasStrictSubnet(I, m) && g in Gen(I, m) :: g
  }

  /**
   * The stored set once the inputs `P` have been handled.  Inputs not yet
   * handled and inputs with no input strictly inside them are still
   * stored; anything else stored has no input strictly inside it.
   */
  function Partial(I: set<Prefix>, P: set<Prefix>): (r: set<Prefix>)
    ensures forall q :: q in I && q !in P ==> q in r
    ensures forall q :: q in I && !HasStrictSubnet(I, q) ==> q in r
    ensures forall q :: q in r ==> (q in I && q !in P) || !HasStrictSubnet(I, q)
  {
    (I - Split(I, P)) + Generated(I, P)
  }

  /**
   * The stored set once every input has been handled: the result of
   * `adjust`.  No input lies strictly inside a block of the result, and an
   * input is in the result exactly when no input lies strictly inside it.
   */
  function Adjusted(I: set<Prefix>): (r: set<Prefix>)
    ensures forall q :: q in r ==> !HasStrictSubnet(I, q)
    ensures forall q :: q in I ==> (q in r <==> !HasStrictSubnet(I, q))
  {
    Partial(I, I)
  }

  /** A generated prefix is never an input. */
  lemma GeneratedNotInput(I: set<Prefix>, P: set<Prefix>)
    requires AllValid(I) && P <= I
    ensures forall g :: g in Generated(I, P) ==> g !in I && ValidPrefix(g)
  {
    forall g | g in Generated(I, P)
      ensures g !in I && ValidPrefix(g)
    {
      var m :| m in P && HasStrictSubnet(I, m) && g in Gen(I, m);
      GenInside(I, m);
    }
  }

  /**
   * What splitting an input `m` generates lies outside every input `n` that
   * is at least as long as `m`.
   */
  lemma GenOutsideLongerInputs(I: set<Prefix>, m: Prefix, n: Prefix, g: Prefix)
    requires AllValid(I) && m in I && n in I && m != n && m.len <= n.len
    requires g in Gen(I, m)
    ensures !StrictSubnet(g, n)
  {
    GenInside(I, m);
    if StrictSubnet(g, n) {
      OverlapWiden(g, n, g);
      OverlapWiden(n, m, g);
      NestedOrDisjoint(m, n);
      if Covers(n, m) {
        CoversSameLength(n, m);
        assert false;
      }
      if m.len == n.len {
        CoversSameLength(m, n);
        assert false;
      }
      assert StrictSubnet(n, m);
      GenAvoidsStored(I, m);
      assert false;
    }
  }

  /**
   * Handling the next input `n` (no shorter than any handled one) sees, inside
   * `n`, exactly the inputs; so its subnet test and its split are those
   * against the inputs, and the stored set moves to `Partial(I, P + {n})`.
   */
  lemma AdjustStep(I: set<Prefix>, P: set<Prefix>, n: Prefix)
    requires AllValid(I) && P <= I && n in I && n !in P
    requires forall m :: m in P ==> m.len <= n.len
    ensures n in Partial(I, P)
    ensures AllValid(Partial(I, P))
    ensures HasStrictSubnet(Partial(I, P), n) == HasStrictSubnet(I, n)
    ensures HasStrictSubnet(I, n) ==>
      Partial(I, P) + Gen(Partial(I, P), n) - {n} == Partial(I, P + {n})
    ensures !HasStrictSubnet(I, n) ==> Partial(I, P) == Partial(I, P + {n})
  {
    var S := Partial(I, P);
    GeneratedNotInput(I, P);
    PartialSameInside(I, P, n);
    if HasStrictSubnet(I, n) {
      GenLocal(S, I, n);
      GenInside(I, n);
      SplitOneMore(I, P, n);
    } else {
      KeepOneMore(I, P, n);
    }
  }

  /** The prefixes strictly inside `n` are stored after handling `P` exactly when they are inputs. */
  lemma PartialSameInside(I: set<Prefix>, P: set<Prefix>, n: Prefix)
    requires AllValid(I) && P <= I && n in I && n !in P
    requires forall m :: m in P ==> m.len <= n.len
    ensures forall q :: StrictSubnet(q, n) ==> (q in Partial(I, P) <==> q in I)
  {
    GeneratedNotInput(I, P);
    forall q | StrictSubnet(q, n)
      ensures q in Partial(I, P) <==> q in I
    {
      if q in Generated(I, P) {
        var m :| m in P && HasStrictSubnet(I, m) && q in Gen(I, m);
        GenOutsideLongerInputs(I, m, n, q);
      }
    }
  }

  /** Handling a split input `n` adds it to the split set and its subnets to the generated ones. */
  lemma SplitOneMore(I: set<Prefix>, P: set<Prefix>, n: Prefix)
    requires HasStrictSubnet(I, n)
    ensures Split(I, P + {n}) == Split(I, P) + {n}
    ensures Generated(I, P + {n}) == Generated(I, P) + Gen(I, n)
  {
    forall g | g in Generated(I, P + {n})
      ensures g in Generated(I, P) || g in Gen(I, n)
    {
      var m :| m in P + {n} && HasStrictSubnet(I, m) && g in Gen(I, m);
    }
  }

  /** Handling an input `n` that is kept changes neither the split nor the generated set. */
  lemma KeepOneMore(I: set<Prefix>, P: set<Prefix>, n: Prefix)
    requires !HasStrictSubnet(I, n)
    ensures Split(I, P + {n}) == Split(I, P)
    ensures Generated(I, P + {n}) == Generated(I, P)
  {
  }

  /**
   * Every host of an input `p` lies in a block of the result that is inside
   * `p`: an input split by `adjust` is replaced by a partition of itself.
   */
  lemma {:induction false} AdjustedCoversInput(I: set<Prefix>, p: Prefix, a: Address)
    requires AllValid(I) && p in I && InBlock(p, a)
    ensures exists q :: q in Adjusted(I) && Covers(p, q) && InBlock(q, a)
    decreases HostBits(p.family, p.len)
  {
    if m :| m in I && StrictSubnet(m, p) && InBlock(m, a) {
      AdjustedCoversInput(I, m, a);
      var q :| q in Adjusted(I) && Covers(m, q) && InBlock(q, a);
      CoversTransitive(p, m, q);
    } else if !HasStrictSubnet(I, p) {
      assert p in Adjusted(I) && Covers(p, p) && InBlock(p, a);
    } else {
      GenCovers(I, p, a);
      var g :| g in Gen(I, p) && InBlock(g, a);
      GenInside(I, p);
      assert g in Generated(I, I);
    }
  }

  /** Every block of the result is canonical and lies inside some input. */
  lemma AdjustedWithinInputs(I: set<Prefix>)
    requires AllValid(I)
    ensures AllValid(Adjusted(I))
    ensures forall q :: q in Adjusted(I) ==> exists p :: p in I && Covers(p, q)
  {
    forall q | q in Adjusted(I)
      ensures ValidPrefix(q) && exists p :: p in I && Covers(p, q)
    {
      if q in I {
        assert Covers(q, q);
      } else {
        var m :| m in I && HasStrictSubnet(I, m) && q in Gen(I, m);
        GenInside(I, m);
      }
    }
  }

  /**
   * `adjust` never splits further than needed: a block of the result that
   * is not an input has a parent (the block one bit shorter) with an input
   * strictly inside it.
   */
  lemma AdjustedCoarsest(I: set<Prefix>, g: Prefix)
    requires AllValid(I) && g in Adjusted(I) && g !in I
    ensures g.len >= 1 && HasStrictSubnet(I, Truncate(g, g.len - 1))
  {
    var m :| m in I && HasStrictSubnet(I, m) && g in Gen(I, m);
    GenCoarsest(I, m, g);
  }

  /** The result holds exactly the hosts of the inputs: none lost, none added. */
  lemma AdjustedSameHosts(I: set<Prefix>, a: Address)
    requires AllValid(I)
    ensures (exists q :: q in Adjusted(I) && InBlock(q, a)) <==> (exists p :: p in I && InBlock(p, a))
  {
    if p :| p in I && InBlock(p, a) {
      AdjustedCoversInput(I, p, a);
    }
    if q :| q in Adjusted(I) && InBlock(q, a) {
      AdjustedWithinInputs(I);
      var p :| p in I && Covers(p, q);
      CoversHosts(p, q, a);
    }
  }

  /** An input kept verbatim and a generated block never share a host. */
  lemma KeptAvoidsGenerated(I: set<Prefix>, p: Prefix, m: Prefix, g: Prefix)
    requires AllValid(I) && p in I && !HasStrictSubnet(I, p)
    requires m in I && HasStrictSubnet(I, m) && g in Gen(I, m)
    ensures !Overlap(p, g)
  {
    GenInsideAt(I, m, g);
    if Overlap(p, g) {
      OverlapWiden(p, m, g);
      KeptInsideSplit(I, p, m);
      GenAvoidsStored(I, m);
      assert false;
    }
  }

  /** An input kept verbatim that shares a host with a split input lies strictly inside it. */
  lemma KeptInsideSplit(I: set<Prefix>, p: Prefix, m: Prefix)
    requires AllValid(I) && p in I && !HasStrictSubnet(I, p)
    requires m in I && HasStrictSubnet(I, m) && Overlap(p, m)
    ensures StrictSubnet(p, m)
  {
    assert p != m;
    assert !StrictSubnet(m, p);
    NestedOrDisjoint(p, m);
    if Covers(p, m) {
      CoversSameLength(p, m);
      assert false;
    }
    if p.len == m.len {
      CoversSameLength(m, p);
      assert false;
    }
  }

  /** Blocks generated for two different inputs never share a host. */
  lemma GeneratedApart(I: set<Prefix>, m1: Prefix, g1: Prefix, m2: Prefix, g2: Prefix)
    requires AllValid(I) && m1 in I && m2 in I && m1 != m2
    requires g1 in Gen(I, m1) && g2 in Gen(I, m2)
    ensures !Overlap(g1, g2)
  {
    GenInside(I, m1);
    GenInside(I, m2);
    if Overlap(g1, g2) {
      OverlapWiden(g1, m2, g2);
      OverlapWiden(m2, m1, g1);
      NestedOrDisjoint(m1, m2);
      if Covers(m1, m2) {
        if m1.len == m2.len { CoversSameLength(m1, m2); }
        GenAvoidsStored(I, m1);
        OverlapWiden(g1, m2, g2);
        assert false;
      } else {
        if m1.len == m2.len { CoversSameLength(m2, m1); }
        GenAvoidsStored(I, m2);
        OverlapWiden(g2, m1, g1);
        assert false;
      }
    }
  }

  /** No host lies in two blocks of the result. */
  lemma AdjustedDisjoint(I: set<Prefix>)
    requires AllValid(I)
    ensures forall p, q :: p in Adjusted(I) && q in Adjusted(I) && p != q ==> !Overlap(p, q)
  {
    GeneratedNotInput(I, I);
    forall p, q | p in Adjusted(I) && q in Adjusted(I) && p != q
      ensures !Overlap(p, q)
    {
      if p in I && q in I {
        if Overlap(p, q) {
          NestedOrDisjoint(p, q);
          if p.len == q.len {
            CoversSameLength(p, q);
            CoversSameLength(q, p);
            assert false;
          }
        }
      } else if p in I {
        var m :| m in I && HasStrictSubnet(I, m) && q in Gen(I, m);
        KeptAvoidsGenerated(I, p, m, q);
      } else if q in I {
        var m :| m in I && HasStrictSubnet(I, m) && p in Gen(I, m);
        KeptAvoidsGenerated(I, q, m, p);
      } else {
        var m1 :| m1 in I && HasStrictSubnet(I, m1) && p in Gen(I, m1);
        var m2 :| m2 in I && HasStrictSubnet(I, m2) && q in Gen(I, m2);
        if m1 == m2 {
          GenDisjoint(I, m1);
        } else {
          GeneratedApart(I, m1, p, m2, q);
        }
      }
    }
  }

  /** A block that shares no host with `p` is not inside it. */
  lemma ApartNotInside(p: Prefix, q: Prefix)
    requires !Overlap(p, q)
    ensures !StrictSubnet(q, p)
  {
  }

  /** Adjusting an adjusted set changes nothing. */
  lemma AdjustedIdempotent(I: set<Prefix>)
    requires AllValid(I)
    ensures Adjusted(Adjusted(I)) == Adjusted(I)
  {
    var J := Adjusted(I);
    AdjustedWithinInputs(I);
    AdjustedDisjoint(I);
    forall p, q | p in J && q in J
      ensures !StrictSubnet(q, p)
    {
      if p != q {
        ApartNotInside(p, q);
      }
    }
    assert Split(J, J) == {};
    assert Generated(J, J) == {};
  }

  /** The result is empty exactly when no input was accepted. */
  lemma AdjustedEmpty(I: set<Prefix>)
    requires AllValid(I)
    ensures Adjusted(I) == {} <==> I == {}
  {
    if p :| p in I {
      AdjustedCoversInput(I, p, Address(p.family, p.addr));
    }
  }

  /** A single input comes back unchanged. */
  lemma AdjustedSingle(p: Prefix)
    requires ValidPrefix(p)
    ensures Adjusted({p}) == {p}
  {
    assert !HasStrictSubnet({p}, p);
    assert Split({p}, {p}) == {};
    assert Generated({p}, {p}) == {};
  }

  /**
   * An input with one input strictly inside it is replaced by the blocks
   * around that one; the inner input is kept.
   */
  lemma AdjustedNested(p: Prefix, q: Prefix)
    requires ValidPrefix(p) && ValidPrefix(q) && StrictSubnet(q, p)
    ensures Adjusted({p, q}) == {q} + Around(p, q)
  {
    NestedSplits(p, q);
    NestedGen(p, q);
  }

  /** For two nested inputs, splitting the outer one adds the blocks around the inner one. */
  lemma NestedGen(p: Prefix, q: Prefix)
    requires ValidPrefix(p) && ValidPrefix(q) && StrictSubnet(q, p)
    ensures Gen({p, q}, p) == Around(p, q)
  {
    var I := {p, q};
    forall x | x in I && StrictSubnet(x, p)
      ensures Covers(q, x)
    {
    }
    GenAroundOne(I, p, q);
  }

  /** For two nested inputs, only the outer one is split. */
  lemma NestedSplits(p: Prefix, q: Prefix)
    requires ValidPrefix(p) && ValidPrefix(q) && StrictSubnet(q, p)
    ensures Adjusted({p, q}) == {q} + Gen({p, q}, p)
  {
    var I := {p, q};
    assert HasStrictSubnet(I, p);
    AdjustedOneSplit(I, p);
    assert I - {p} == {q};
  }

  /** When exactly one input `m` has an input strictly inside it, the result is the rest plus its split. */
  lemma AdjustedOneSplit(I: set<Prefix>, m: Prefix)
    requires m in I && HasStrictSubnet(I, m)
    requires forall x :: x in I && x != m ==> !HasStrictSubnet(I, x)
    ensures Adjusted(I) == (I - {m}) + Gen(I, m)
  {
    assert Split(I, I) == {m};
    assert Generated(I, I) == Gen(I, m);
  }

  /** Nothing lies strictly inside a longest input. */
  lemma NoneInsideLongest(I: set<Prefix>, n: Prefix)
    requires forall x :: x in I ==> x.len <= n.len
    ensures !HasStrictSubnet(I, n)
  {
  }

  /** When exactly the inputs `m1` and `m2` have inputs strictly inside them, both are split. */
  lemma AdjustedTwoSplits(I: set<Prefix>, m1: Prefix, m2: Prefix)
    requires m1 in I && HasStrictSubnet(I, m1) && m2 in I && HasStrictSubnet(I, m2)
    requires forall x :: x in I && x != m1 && x != m2 ==> !HasStrictSubnet(I, x)
    ensures Adjusted(I) == (I - {m1, m2}) + Gen(I, m1) + Gen(I, m2)
  {
    assert Split(I, I) == {m1, m2};
    forall g | g in Generated(I, I)
      ensures g in Gen(I, m1) || g in Gen(I, m2)
    {
      var m :| m in I && HasStrictSubnet(I, m) && g in Gen(I, m);
    }
    assert Generated(I, I) == Gen(I, m1) + Gen(I, m2);
  }

  /** For three nested inputs, the outer two are split. */
  lemma ChainSplits(p: Prefix, q: Prefix, r: Prefix)
    requires ValidPrefix(p) && ValidPrefix(q) && ValidPrefix(r)
    requires StrictSubnet(q, p) && StrictSubnet(r, q)
    ensures Adjusted({p, q, r}) == {r} + Gen({p, q, r}, p) + Gen({p, q, r}, q)
  {
    var I := {p, q, r};
    ChainSubnets(p, q, r);
    AdjustedTwoSplits(I, p, q);
    assert I - {p, q} == {r};
  }

  /** Of three nested inputs, the outer two have an input strictly inside them and the innermost has none. */
  lemma ChainSubnets(p: Prefix, q: Prefix, r: Prefix)
    requires StrictSubnet(q, p) && StrictSubnet(r, q)
    ensures p != q && q != r && p != r
    ensures HasStrictSubnet({p, q, r}, p) && HasStrictSubnet({p, q, r}, q)
    ensures !HasStrictSubnet({p, q, r}, r)
  {
    assert q in {p, q, r} && r in {p, q, r};
    NoneInsideLongest({p, q, r}, r);
  }

  /** For three nested inputs, splitting the outermost adds the blocks around the middle one. */
  lemma ChainGenOuter(p: Prefix, q: Prefix, r: Prefix)
    requires ValidPrefix(p) && ValidPrefix(q) && ValidPrefix(r)
    requires StrictSubnet(q, p) && StrictSubnet(r, q)
    ensures Gen({p, q, r}, p) == Around(p, q)
  {
    var I := {p, q, r};
    forall x | x in I && StrictSubnet(x, p)
      ensures Covers(q, x)
    {
    }
    GenAroundOne(I, p, q);
  }

  /** For three nested inputs, splitting the middle one adds the blocks around the innermost. */
  lemma ChainGenInner(p: Prefix, q: Prefix, r: Prefix)
    requires ValidPrefix(p) && ValidPrefix(q) && ValidPrefix(r)
    requires StrictSubnet(q, p) && StrictSubnet(r, q)
    ensures Gen({p, q, r}, q) == Around(q, r)
  {
    var I := {p, q, r};
    forall x | x in I && StrictSubnet(x, q)
      ensures Covers(r, x)
    {
    }
    GenAroundOne(I, q, r);
  }

  /**
   * Three inputs, each strictly inside the one before: the innermost is
   * kept and each of the other two is replaced by the blocks around the
   * next one.
   */
  lemma AdjustedChain(p: Prefix, q: Prefix, r: Prefix)
    requires ValidPrefix(p) && ValidPrefix(q) && ValidPrefix(r)
    requires StrictSubnet(q, p) && StrictSubnet(r, q)
    ensures Adjusted({p, q, r}) == {r} + Around(q, r) + Around(p, q)
  {
    ChainSplits(p, q, r);
    ChainGenOuter(p, q, r);
    ChainGenInner(p, q, r);
  }
}
