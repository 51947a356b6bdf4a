/**
 * Turning the command-line text into prefix tokens: the BLOCKS argument is
 * split at every comma, each piece is stripped of surrounding whitespace and
 * blank pieces are dropped, keeping the order of the rest.
 */
module BlockTokens {

  /** The characters Python's `str.isspace` accepts, which `str.strip()` removes. */
  predicate IsSpace(c: char)
  {
    || c == ' ' || c == '\t' || c == '\n' || c == '\r'
    || c == '\U{B}' || c == '\U{C}'
    || ('\U{1C}' <= c <= '\U{1F}')
    || c == '\U{85}' || c == '\U{A0}' || c == '\U{1680}'
    || ('\U{2000}' <= c <= '\U{200A}')
    || c == '\U{2028}' || c == '\U{2029}' || c == '\U{202F}' || c == '\U{205F}' || c == '\U{3000}'
  }

  /** Number of leading whitespace characters of `s`. */
  function Lead(s: string): (n: nat)
    ensures n <= |s|
    ensures forall k :: 0 <= k < n ==> IsSpace(s[k])
    ensures n == |s| || !IsSpace(s[n])
  {
    if |s| > 0 && IsSpace(s[0]) then 1 + Lead(s[1..]) else 0
  }

  /** Number of trailing whitespace characters of `s`. */
  function Trail(s: string): (n: nat)
    ensures n <= |s|
    ensures forall k :: |s| - n <= k < |s| ==> IsSpace(s[k])
    ensures n == |s| || !IsSpace(s[|s| - n - 1])
  {
    if |s| > 0 && IsSpace(s[|s| - 1]) then 1 + Trail(s[..|s| - 1]) else 0
  }

  /** `str.strip()`: `s` without its leading whitespace, then without its trailing whitespace. */
  function Strip(s: string): (r: string)
    ensures |r| <= |s|
    ensures r == [] || (!IsSpace(r[0]) && !IsSpace(r[|r| - 1]))
  {
    var l := s[Lead(s)..];
    l[..|l| - Trail(l)]
  }

  /**
   * What `Strip` removes is whitespace only: the result is the stretch of
   * `s` after its `Lead(s)` leading whitespace characters, and everything
   * after that stretch is whitespace too.
   */
  lemma StripRemovesSpace(s: string)
    ensures Lead(s) + |Strip(s)| <= |s| && Strip(s) == s[Lead(s)..Lead(s) + |Strip(s)|]
    ensures forall k :: 0 <= k < Lead(s) ==> IsSpace(s[k])
    ensures forall k :: Lead(s) + |Strip(s)| <= k < |s| ==> IsSpace(s[k])
  {
    var n, l := Lead(s), s[Lead(s)..];
    var m := |l| - Trail(l);
    assert Strip(s) == l[..m];
    StretchOf(s, n, m);
    forall k | n + m <= k < |s|
      ensures IsSpace(s[k])
    {
      assert s[k] == l[k - n];
    }
  }

  /** The first `m` characters after position `n` are the stretch from `n` to `n + m`. */
  lemma StretchOf(s: string, n: nat, m: nat)
    requires n + m <= |s|
    ensures s[n..][..m] == s[n..n + m]
  {
  }

  /** Only an all-whitespace piece strips to the empty string. */
  lemma StripEmpty(s: string)
    ensures Strip(s) == [] <==> forall k :: 0 <= k < |s| ==> IsSpace(s[k])
  {
    StripRemovesSpace(s);
    if Strip(s) != [] {
      assert s[Lead(s)] == Strip(s)[0];
    }
  }

  /** Stripping removes characters and never adds one. */
  lemma StripKeepsOut(s: string, c: char)
    requires c !in s
    ensures c !in Strip(s)
  {
    StripRemovesSpace(s);
  }

  /** Stripping twice strips nothing more. */
  lemma StripIdempotent(s: string)
    ensures Strip(Strip(s)) == Strip(s)
  {
    var t := Strip(s);
    assert Lead(t) == 0;
    assert t[0..] == t;
    assert Trail(t) == 0;
  }

  /** What `get_blocks` keeps of one piece: its stripped form, unless that is blank. */
  function Kept(e: string): seq<string>
  {
    if Strip(e) != [] then [Strip(e)] else []
  }

  /**
   * What `get_blocks` keeps of a sequence of pieces: the stripped, non-blank
   * ones in order.  There are no more tokens than pieces, and each token is
   * non-empty with no whitespace at either end.
   */
  function Cleaned(xs: seq<string>): (r: seq<string>)
    ensures |r| <= |xs|
    ensures forall k :: 0 <= k < |r| ==> r[k] != [] && !IsSpace(r[k][0]) && !IsSpace(r[k][|r[k]| - 1])
  {
    if |xs| == 0 then [] else Cleaned(xs[..|xs| - 1]) + Kept(xs[|xs| - 1])
  }

  /** A piece kept from one input is non-empty and already stripped. */
  lemma KeptStripped(e: string)
    ensures forall t :: t in Kept(e) ==> t != [] && Strip(t) == t
  {
    if Strip(e) != [] {
      StripIdempotent(e);
    }
  }

  /** Position `k` of the cleaned pieces is either cleaned from the earlier pieces or kept from the last. */
  lemma CleanedAt(xs: seq<string>, k: nat)
    requires k < |Cleaned(xs)|
    ensures |xs| > 0
    ensures k < |Cleaned(xs[..|xs| - 1])| ==> Cleaned(xs)[k] == Cleaned(xs[..|xs| - 1])[k]
    ensures k >= |Cleaned(xs[..|xs| - 1])| ==> Cleaned(xs)[k] in Kept(xs[|xs| - 1]) && Cleaned(xs)[k] == Strip(xs[|xs| - 1])
  {
  }

  /** Every kept piece is non-empty and already stripped. */
  lemma {:induction false} CleanedStripped(xs: seq<string>, k: nat)
    requires k < |Cleaned(xs)|
    ensures Cleaned(xs)[k] != [] && Strip(Cleaned(xs)[k]) == Cleaned(xs)[k]
  {
    CleanedAt(xs, k);
    var init := xs[..|xs| - 1];
    if k < |Cleaned(init)| {
      CleanedStripped(init, k);
    } else {
      KeptStripped(xs[|xs| - 1]);
    }
  }

  /** Each kept piece is the stripped form of some input piece. */
  lemma {:induction false} CleanedFrom(xs: seq<string>, k: nat)
    requires k < |Cleaned(xs)|
    ensures exists i :: 0 <= i < |xs| && Strip(xs[i]) == Cleaned(xs)[k]
  {
    CleanedAt(xs, k);
    var init := xs[..|xs| - 1];
    if k < |Cleaned(init)| {
      CleanedFrom(init, k);
      var i :| 0 <= i < |init| && Strip(init[i]) == Cleaned(init)[k];
      assert xs[i] == init[i];
    } else {
      assert Strip(xs[|xs| - 1]) == Cleaned(xs)[k];
    }
  }

  /** Each input piece that is not blank is kept, stripped. */
  lemma {:induction false} CleanedHas(xs: seq<string>, i: nat)
    requires i < |xs| && Strip(xs[i]) != []
    ensures Strip(xs[i]) in Cleaned(xs)
  {
    var init := xs[..|xs| - 1];
    if i < |init| {
      CleanedHas(init, i);
      assert init[i] == xs[i];
    }
  }

  /** The kept pieces are exactly the non-blank stripped inputs. */
  lemma CleanedMembers(xs: seq<string>, t: string)
    ensures t in Cleaned(xs) <==> t != [] && exists e :: e in xs && Strip(e) == t
  {
    if t in Cleaned(xs) {
      var k :| 0 <= k < |Cleaned(xs)| && Cleaned(xs)[k] == t;
      CleanedStripped(xs, k);
      CleanedFrom(xs, k);
      var i :| 0 <= i < |xs| && Strip(xs[i]) == t;
      assert xs[i] in xs;
    }
    if e :| e in xs && Strip(e) == t && t != [] {
      var i :| 0 <= i < |xs| && xs[i] == e;
      CleanedHas(xs, i);
    }
  }

  /** Cleaning keeps a character out of the pieces when it was out of all of them. */
  lemma {:induction false} CleanedKeepsOut(xs: seq<string>, c: char)
    requires forall k :: 0 <= k < |xs| ==> c !in xs[k]
    ensures forall k :: 0 <= k < |Cleaned(xs)| ==> c !in Cleaned(xs)[k]
  {
    if |xs| > 0 {
      CleanedKeepsOut(xs[..|xs| - 1], c);
      StripKeepsOut(xs[|xs| - 1], c);
    }
  }

  /** Cleaning works piece by piece, so the input order is kept. */
  lemma {:induction false} CleanedAppend(a: seq<string>, b: seq<string>)
    ensures Cleaned(a + b) == Cleaned(a) + Cleaned(b)
    decreases |b|
  {
    if |b| == 0 {
      assert a + b == a;
    } else {
      var b' := b[..|b| - 1];
      assert (a + b)[..|a + b| - 1] == a + b';
      CleanedAppend(a, b');
    }
  }

  /** Cleaning cleaned pieces changes nothing. */
  lemma {:induction false} CleanedIdempotent(xs: seq<string>)
    ensures Cleaned(Cleaned(xs)) == Cleaned(xs)
  {
    if |xs| > 0 {
      var init := xs[..|xs| - 1];
      var last := Strip(xs[|xs| - 1]);
      CleanedIdempotent(init);
      var tail := if last != [] then [last] else [];
      CleanedAppend(Cleaned(init), tail);
      if last != [] {
        StripIdempotent(xs[|xs| - 1]);
        assert Cleaned(tail) == Cleaned([] + tail);
      }
    }
  }

  /**
   * `get_blocks`: strips every piece and keeps the non-blank ones, in the
   * order they come.
   */
  method GetBlocks(pieces: seq<string>) returns (result: seq<string>)
    ensures result == Cleaned(pieces)
  {
    result := [];
    for i := 0 to |pieces|
      invariant result == Cleaned(pieces[..i])
    {
      var candidate := Strip(pieces[i]);
      if candidate != [] {
        result := result + [candidate];
      }
      assert pieces[..i + 1][..i] == pieces[..i];
      assert Cleaned(pieces[..i + 1]) == Cleaned(pieces[..i]) + Kept(pieces[i]);
    }
    assert pieces[..|pieces|] == pieces;
  }

  /** Python's `s.split(',')`: the pieces between commas, at least one. */
  function SplitCommas(s: string): (r: seq<string>)
    ensures |r| >= 1
    ensures forall k :: 0 <= k < |r| ==> ',' !in r[k]
  {
    if |s| == 0 then [[]]
    else
      var rest := SplitCommas(s[1..]);
      if s[0] == ',' then [[]] + rest
      else [[s[0]] + rest[0]] + rest[1..]
  }

  /** The pieces written out with a comma between each two. */
  function JoinCommas(r: seq<string>): string
    requires |r| >= 1
  {
    if |r| == 1 then r[0] else r[0] + [','] + JoinCommas(r[1..])
  }

  /** Joining the pieces of a split gives back the string. */
  lemma {:induction false} JoinSplit(s: string)
    ensures JoinCommas(SplitCommas(s)) == s
  {
    if |s| > 0 {
      var rest := SplitCommas(s[1..]);
      JoinSplit(s[1..]);
      if s[0] == ',' {
        assert ([[]] + rest)[1..] == rest;
      } else {
        var r := [[s[0]] + rest[0]] + rest[1..];
        if |rest| > 1 {
          assert r[1..] == rest[1..];
        }
        assert [s[0]] + s[1..] == s;
      }
    }
  }

  /** A comma-free string is a single piece. */
  lemma {:induction false} SplitPiece(a: string)
    requires ',' !in a
    ensures SplitCommas(a) == [a]
  {
    if |a| > 0 {
      SplitPiece(a[1..]);
      assert [a[0]] + a[1..] == a;
    }
  }

  /** A comma-free string followed by a comma and more text splits off as the first piece. */
  lemma {:induction false} SplitAfterPiece(a: string, b: string)
    requires ',' !in a
    ensures SplitCommas(a + [','] + b) == [a] + SplitCommas(b)
  {
    var s := a + [','] + b;
    if |a| == 0 {
      assert s == [','] + b;
      assert s[1..] == b;
    } else {
      assert s[0] == a[0] && s[1..] == a[1..] + [','] + b;
      SplitAfterPiece(a[1..], b);
      var rest := SplitCommas(s[1..]);
      assert rest[0] == a[1..] && rest[1..] == SplitCommas(b);
      assert [a[0]] + a[1..] == a;
    }
  }

  /** Splitting what was joined gives back the comma-free pieces. */
  lemma {:induction false} SplitJoin(r: seq<string>)
    requires |r| >= 1 && forall k :: 0 <= k < |r| ==> ',' !in r[k]
    ensures SplitCommas(JoinCommas(r)) == r
  {
    SplitPiece(r[0]);
    if |r| > 1 {
      SplitJoin(r[1..]);
      SplitAfterPiece(r[0], JoinCommas(r[1..]));
    }
  }

  /**
   * `read_blocks_from_args`: the comma-separated BLOCKS argument as tokens,
   * each non-empty, stripped and free of commas.
   */
  method ReadBlocksFromArgs(blocks: string) returns (result: seq<string>)
    ensures result == Cleaned(SplitCommas(blocks))
    ensures forall k :: 0 <= k < |result| ==> result[k] != [] && ',' !in result[k]
  {
    result := GetBlocks(SplitCommas(blocks));
    forall k | 0 <= k < |result|
      ensures result[k] != []
    {
      CleanedStripped(SplitCommas(blocks), k);
    }
    CleanedKeepsOut(SplitCommas(blocks), ',');
  }
}
