/**
 * The prefix trie the block adjuster works on (py-radix's `Radix`).
 *
 * Only its observable behaviour is modelled: a duplicate-free collection of
 * canonical prefixes with add, delete, exact match, covered search and an
 * enumeration in trie order.  The trie keeps one tree per address family,
 * IPv4 first, and walks each in pre-order, so the enumeration is ascending
 * by (family, address, length); the class keeps its entries in exactly that
 * order.
 */
module RadixTrie {
  import opened IpPrefix

  function Rank(f: Family): nat
  {
    if f == IPv4 then 0 else 1
  }

  /** The trie's enumeration order: family, then address, then ancestor before descendant. */
  predicate KeyLess(a: Prefix, b: Prefix)
  {
    || Rank(a.family) < Rank(b.family)
    || (a.family == b.family && (a.addr < b.addr || (a.addr == b.addr && a.len < b.len)))
  }

  predicate StrictlySorted(s: seq<Prefix>)
  {
    forall i, j :: 0 <= i < j < |s| ==> KeyLess(s[i], s[j])
  }

  function Elements(s: seq<Prefix>): set<Prefix>
  {
    set q | q in s
  }

  /** The enumeration order is transitive. */
  lemma KeyLessTransitive(a: Prefix, b: Prefix, c: Prefix)
    requires KeyLess(a, b) && KeyLess(b, c)
    ensures KeyLess(a, c)
  {
  }

  /** KeyLess is a strict total order on prefixes. */
  lemma KeyLessTotal(a: Prefix, b: Prefix)
    ensures !(KeyLess(a, b) && KeyLess(b, a))
    ensures a != b ==> KeyLess(a, b) || KeyLess(b, a)
  {
  }

  /** A strictly sorted sequence is determined by its elements. */
  lemma {:induction false} SortedUnique(r: seq<Prefix>, t: seq<Prefix>)
    requires StrictlySorted(r) && StrictlySorted(t) && Elements(r) == Elements(t)
    ensures r == t
  {
    assert r != [] ==> r[0] in Elements(t);
    assert t != [] ==> t[0] in Elements(r);
    if r != [] && t != [] {
      if r[0] != t[0] {
        var i :| 0 <= i < |t| && t[i] == r[0];
        var j :| 0 <= j < |r| && r[j] == t[0];
        KeyLessTotal(r[0], t[0]);
        assert false;
      }
      assert Elements(r[1..]) == Elements(t[1..]) by {
        forall q | q in Elements(r[1..]) ensures q in Elements(t[1..]) {
          var j :| 1 <= j < |r| && r[j] == q;
          KeyLessTotal(r[0], q);
          assert q in Elements(r) && q in t;
          var k :| 0 <= k < |t| && t[k] == q;
          assert k != 0 && t[1..][k - 1] == q;
        }
        forall q | q in Elements(t[1..]) ensures q in Elements(r[1..]) {
          var j :| 1 <= j < |t| && t[j] == q;
          KeyLessTotal(t[0], q);
          assert q in Elements(t) && q in r;
          var k :| 0 <= k < |r| && r[k] == q;
          assert k != 0 && r[1..][k - 1] == q;
        }
      }
      SortedUnique(r[1..], t[1..]);
      assert r == [r[0]] + r[1..] && t == [t[0]] + t[1..];
    }
  }

  /** Inserting an element at its place keeps a sequence strictly sorted. */
  lemma InsertSorted(s: seq<Prefix>, i: nat, c: Prefix)
    requires StrictlySorted(s) && i <= |s|
    requires forall j :: 0 <= j < i ==> KeyLess(s[j], c)
    requires forall j :: i <= j < |s| ==> KeyLess(c, s[j])
    ensures StrictlySorted(s[..i] + [c] + s[i..])
    ensures Elements(s[..i] + [c] + s[i..]) == Elements(s) + {c}
  {
    var t := s[..i] + [c] + s[i..];
    InsertedAt(s, i, c);
    forall a, b | 0 <= a < b < |t|
      ensures KeyLess(t[a], t[b])
    {
      if b < i {
        assert t[a] == s[a] && t[b] == s[b];
      } else if b == i {
        assert t[a] == s[a];
      } else if a < i {
        assert t[a] == s[a] && t[b] == s[b - 1];
      } else if a > i {
        assert t[a] == s[a - 1] && t[b] == s[b - 1];
      }
    }
    forall x | x in t
      ensures x in s || x == c
    {
      var j :| 0 <= j < |t| && t[j] == x;
      if j < i {
        assert s[j] == x;
      } else if j > i {
        assert s[j - 1] == x;
      }
    }
    forall x | x in s
      ensures x in t
    {
      var j :| 0 <= j < |s| && s[j] == x;
      if j < i {
        assert t[j] == x;
      } else {
        assert t[j + 1] == x;
      }
    }
    assert t[i] == c;
  }

  /** Inserting a valid prefix among valid prefixes leaves only valid prefixes. */
  lemma InsertValid(s: seq<Prefix>, i: nat, c: Prefix)
    requires i <= |s| && ValidPrefix(c)
    requires forall k :: 0 <= k < |s| ==> ValidPrefix(s[k])
    ensures forall k :: 0 <= k < |s| + 1 ==> ValidPrefix((s[..i] + [c] + s[i..])[k])
  {
    InsertedAt(s, i, c);
  }

  /**
   * Inserting a valid prefix `c` at its place, in front of the first
   * element not below it (which is not `c`), keeps the entries valid and
   * strictly sorted and adds just `c`.
   */
  lemma InsertAtPlace(s: seq<Prefix>, i: nat, c: Prefix)
    requires StrictlySorted(s) && i <= |s| && ValidPrefix(c)
    requires forall k :: 0 <= k < |s| ==> ValidPrefix(s[k])
    requires forall j :: 0 <= j < i ==> KeyLess(s[j], c)
    requires i < |s| ==> s[i] != c && !KeyLess(s[i], c)
    ensures StrictlySorted(s[..i] + [c] + s[i..])
    ensures Elements(s[..i] + [c] + s[i..]) == Elements(s) + {c}
    ensures forall k :: 0 <= k < |s| + 1 ==> ValidPrefix((s[..i] + [c] + s[i..])[k])
  {
    AfterPlace(s, i, c);
    InsertSorted(s, i, c);
    InsertValid(s, i, c);
  }

  /** In a strictly sorted sequence, everything from the first element not below `c`, if that is not `c`, is above `c`. */
  lemma AfterPlace(s: seq<Prefix>, i: nat, c: Prefix)
    requires StrictlySorted(s) && i <= |s|
    requires i < |s| ==> s[i] != c && !KeyLess(s[i], c)
    ensures forall j :: i <= j < |s| ==> KeyLess(c, s[j])
  {
    if i < |s| {
      KeyLessTotal(s[i], c);
    }
  }

  /** Where each element of `s` lands once `c` is inserted at position `i`. */
  lemma InsertedAt(s: seq<Prefix>, i: nat, c: Prefix)
    requires i <= |s|
    ensures |s[..i] + [c] + s[i..]| == |s| + 1 && (s[..i] + [c] + s[i..])[i] == c
    ensures forall j :: 0 <= j < i ==> (s[..i] + [c] + s[i..])[j] == s[j]
    ensures forall j :: i < j <= |s| ==> (s[..i] + [c] + s[i..])[j] == s[j - 1]
  {
  }

  /** Removing the element at position `i` keeps a sequence strictly sorted and drops just that element. */
  lemma RemoveSorted(s: seq<Prefix>, i: nat)
    requires StrictlySorted(s) && i < |s|
    ensures StrictlySorted(s[..i] + s[i + 1..])
    ensures Elements(s[..i] + s[i + 1..]) == Elements(s) - {s[i]}
  {
    var t := s[..i] + s[i + 1..];
    assert forall j :: 0 <= j < i ==> t[j] == s[j];
    assert forall j :: i <= j < |t| ==> t[j] == s[j + 1];
    forall a, b | 0 <= a < b < |t|
      ensures KeyLess(t[a], t[b])
    {
      var a', b' := if a < i then a else a + 1, if b < i then b else b + 1;
      assert t[a] == s[a'] && t[b] == s[b'];
    }
    forall x | x in t
      ensures x in s && x != s[i]
    {
      var j :| 0 <= j < |t| && t[j] == x;
      var j' := if j < i then j else j + 1;
      assert s[j'] == x;
      KeyLessTotal(s[j'], s[i]);
    }
    forall x | x in s && x != s[i]
      ensures x in t
    {
      var j :| 0 <= j < |s| && s[j] == x;
      if j < i {
        assert t[j] == x;
      } else {
        assert t[j - 1] == x;
      }
    }
  }

  class Radix {
    /** The stored prefixes in enumeration order. */
    var entries: seq<Prefix>

    ghost predicate Valid()
      reads this
    {
      && (forall i :: 0 <= i < |entries| ==> ValidPrefix(entries[i]))
      && StrictlySorted(entries)
    }

    /** The set of stored prefixes. */
    ghost function Contents(): set<Prefix>
      reads this
    {
      Elements(entries)
    }

    constructor ()
      ensures Valid() && Contents() == {}
    {
      entries := [];
    }

    /**
     * Stores the network of `p`.  A length past the family's width, or an
     * address outside the family, is refused (`ok` false, the library's
     * ValueError); storing a prefix already present changes nothing.
     */
    method Add(p: Prefix) returns (ok: bool)
      requires Valid()
      modifies this
      ensures Valid()
      ensures ok <==> Parsable(p)
      ensures Contents() == if ok then old(Contents()) + {Canonical(p)} else old(Contents())
    {
      if !Parsable(p) {
        return false;
      }
      Insert(Canonical(p));
      return true;
    }

    /** Stores the canonical prefix `c` at its place in the enumeration order, unless it is stored already. */
    method Insert(c: Prefix)
      requires Valid() && ValidPrefix(c)
      modifies this
      ensures Valid()
      ensures Contents() == old(Contents()) + {c}
    {
      var i := 0;
      while i < |entries| && KeyLess(entries[i], c)
        invariant 0 <= i <= |entries|
        invariant forall j :: 0 <= j < i ==> KeyLess(entries[j], c)
      {
        i := i + 1;
      }
      if i < |entries| && entries[i] == c {
        return;
      }
      InsertAtPlace(entries, i, c);
      entries := entries[..i] + [c] + entries[i..];
    }

    /** Removes `p`; `found` is false (the library's KeyError) when it was not stored. */
    method Delete(p: Prefix) returns (found: bool)
      requires Valid()
      modifies this
      ensures Valid()
      ensures found <==> p in old(Contents())
      ensures Contents() == old(Contents()) - {p}
    {
      var i := 0;
      while i < |entries| && entries[i] != p
        invariant 0 <= i <= |entries|
        invariant forall j :: 0 <= j < i ==> entries[j] != p
      {
        i := i + 1;
      }
      if i == |entries| {
        return false;
      }
      RemoveSorted(entries, i);
      entries := entries[..i] + entries[i + 1..];
      return true;
    }

    method SearchExact(p: Prefix) returns (found: bool)
      requires Valid()
      ensures found <==> p in Contents()
    {
      found := p in entries;
    }

    /** The stored prefixes inside `p`, `p` itself included, in enumeration order. */
    method SearchCovered(p: Prefix) returns (r: seq<Prefix>)
      requires Valid()
      ensures StrictlySorted(r)
      ensures forall q :: q in r <==> q in Contents() && Covers(p, q)
      ensures forall k :: 0 <= k < |r| ==> ValidPrefix(r[k])
    {
      r := [];
      for i := 0 to |entries|
        invariant StrictlySorted(r)
        invariant forall q :: q in r <==> q in entries[..i] && Covers(p, q)
        invariant forall k :: 0 <= k < |r| ==> r[k] in entries[..i]
        invariant forall k :: 0 <= k < |r| ==> ValidPrefix(r[k])
      {
        if Covers(p, entries[i]) {
          r := r + [entries[i]];
        }
        assert entries[..i + 1] == entries[..i] + [entries[i]];
      }
      assert entries[..|entries|] == entries;
    }

    /** All stored prefixes in enumeration order (`prefixes()`, and `nodes()` before sorting). */
    method Prefixes() returns (r: seq<Prefix>)
      requires Valid()
      ensures StrictlySorted(r) && Elements(r) == Contents()
      ensures forall k :: 0 <= k < |r| ==> ValidPrefix(r[k])
    {
      r := entries;
    }
  }
}
