/** Longest-common-subsequence alignment of two line arrays: the DP table and the
    greedy walk over it (`lcsPairs`), proved optimal among all alignments. */
module Lcs {

  /** `a` indexes the first array, `b` the second. */
  datatype Pair = Pair(a: nat, b: nat)

  /** A common subsequence, given by the positions it uses on both sides. */
  ghost predicate IsAlignment<T>(ps: seq<Pair>, a: seq<T>, b: seq<T>) {
    && (forall k :: 0 <= k < |ps| ==> ps[k].a < |a| && ps[k].b < |b| && a[ps[k].a] == b[ps[k].b])
    && (forall k, l :: 0 <= k < l < |ps| ==> ps[k].a < ps[l].a && ps[k].b < ps[l].b)
  }

  function Max(x: nat, y: nat): nat { if x >= y then x else y }

  /** The value the DP table holds for the two suffixes. */
  ghost function Len<T>(a: seq<T>, b: seq<T>): nat
    decreases |a| + |b|
  {
    if |a| == 0 || |b| == 0 then 0
    else if a[0] == b[0] then 1 + Len(a[1..], b[1..])
    else Max(Len(a[1..], b), Len(a, b[1..]))
  }

  /** The walk over the table from (i, j); ties move down the first array. */
  ghost function Walk<T>(a: seq<T>, b: seq<T>, i: nat, j: nat): seq<Pair>
    requires i <= |a| && j <= |b|
    decreases |a| - i + |b| - j
  {
    if i == |a| || j == |b| then []
    else if a[i] == b[j] then [Pair(i, j)] + Walk(a, b, i + 1, j + 1)
    else if Len(a[i + 1..], b[j..]) >= Len(a[i..], b[j + 1..]) then Walk(a, b, i + 1, j)
    else Walk(a, b, i, j + 1)
  }

  /** One step of the walk. */
  lemma WalkStep<T>(a: seq<T>, b: seq<T>, i: nat, j: nat)
    requires i < |a| && j < |b|
    ensures Walk(a, b, i, j)
         == if a[i] == b[j] then [Pair(i, j)] + Walk(a, b, i + 1, j + 1)
            else if Len(a[i + 1..], b[j..]) >= Len(a[i..], b[j + 1..]) then Walk(a, b, i + 1, j)
            else Walk(a, b, i, j + 1)
  {
    hide Len;
  }

  // ----- every alignment is at most Len long -----

  ghost function Shift(ps: seq<Pair>, da: nat, db: nat): (r: seq<Pair>)
    requires forall k :: 0 <= k < |ps| ==> ps[k].a >= da && ps[k].b >= db
  {
    seq(|ps|, k requires 0 <= k < |ps| => Pair(ps[k].a - da, ps[k].b - db))
  }

  lemma ShiftAlignment<T>(ps: seq<Pair>, a: seq<T>, b: seq<T>, da: nat, db: nat)
    requires IsAlignment(ps, a, b)
    requires da <= |a| && db <= |b|
    requires ps != [] ==> ps[0].a >= da && ps[0].b >= db
    ensures forall k :: 0 <= k < |ps| ==> ps[k].a >= da && ps[k].b >= db
    ensures IsAlignment(Shift(ps, da, db), a[da..], b[db..])
  {
  }

  /** No common subsequence is longer than the table's value. */
  lemma {:induction false} AlignmentAtMostLen<T>(ps: seq<Pair>, a: seq<T>, b: seq<T>)
    requires IsAlignment(ps, a, b)
    ensures |ps| <= Len(a, b)
    decreases |a| + |b|
  {
    if ps == [] {
      return;
    }
    assert ps[0].a < |a| && ps[0].b < |b|;
    if a[0] == b[0] {
      var rest := ps[1..];
      assert forall k :: 0 <= k < |rest| ==> rest[k] == ps[k + 1];
      assert rest != [] ==> ps[0].a < ps[1].a && ps[0].b < ps[1].b;
      ShiftAlignment(rest, a, b, 1, 1);
      AlignmentAtMostLen(Shift(rest, 1, 1), a[1..], b[1..]);
    } else if ps[0].a > 0 {
      ShiftAlignment(ps, a, b, 1, 0);
      AlignmentAtMostLen(Shift(ps, 1, 0), a[1..], b);
      assert b[0..] == b;
    } else {
      ShiftAlignment(ps, a, b, 0, 1);
      AlignmentAtMostLen(Shift(ps, 0, 1), a, b[1..]);
      assert a[0..] == a;
    }
  }

  // ----- the walk is an alignment of exactly that length -----

  ghost predicate AllFrom(ps: seq<Pair>, i: nat, j: nat) {
    forall k :: 0 <= k < |ps| ==> ps[k].a >= i && ps[k].b >= j
  }

  lemma PrependPair<T>(p: Pair, ps: seq<Pair>, a: seq<T>, b: seq<T>)
    requires IsAlignment(ps, a, b) && AllFrom(ps, p.a + 1, p.b + 1)
    requires p.a < |a| && p.b < |b| && a[p.a] == b[p.b]
    ensures IsAlignment([p] + ps, a, b) && AllFrom([p] + ps, p.a, p.b)
  {
    var q := [p] + ps;
    assert forall k :: 0 < k < |q| ==> q[k] == ps[k - 1];
  }

  lemma {:induction false} WalkStaysFrom<T>(a: seq<T>, b: seq<T>, i: nat, j: nat)
    requires i <= |a| && j <= |b|
    ensures AllFrom(Walk(a, b, i, j), i, j)
    decreases |a| - i + |b| - j
  {
    if i < |a| && j < |b| {
      WalkStaysFrom(a, b, i + 1, j + 1);
      WalkStaysFrom(a, b, i + 1, j);
      WalkStaysFrom(a, b, i, j + 1);
    }
  }

  lemma {:induction false} WalkIsAlignment<T>(a: seq<T>, b: seq<T>, i: nat, j: nat)
    requires i <= |a| && j <= |b|
    ensures IsAlignment(Walk(a, b, i, j), a, b)
    decreases |a| - i + |b| - j
  {
    hide Len;
    if i == |a| || j == |b| {
      assert Walk(a, b, i, j) == [];
    } else if a[i] == b[j] {
      WalkIsAlignment(a, b, i + 1, j + 1);
      WalkStaysFrom(a, b, i + 1, j + 1);
      hide AllFrom;
      PrependPair(Pair(i, j), Walk(a, b, i + 1, j + 1), a, b);
    } else {
      WalkIsAlignment(a, b, i + 1, j);
      WalkIsAlignment(a, b, i, j + 1);
    }
  }

  lemma {:induction false} WalkLength<T>(a: seq<T>, b: seq<T>, i: nat, j: nat)
    requires i <= |a| && j <= |b|
    ensures |Walk(a, b, i, j)| == Len(a[i..], b[j..])
    decreases |a| - i + |b| - j
  {
    if i < |a| && j < |b| {
      assert a[i..][1..] == a[i + 1..] && b[j..][1..] == b[j + 1..];
      if a[i] == b[j] {
        WalkLength(a, b, i + 1, j + 1);
      } else if Len(a[i + 1..], b[j..]) >= Len(a[i..], b[j + 1..]) {
        WalkLength(a, b, i + 1, j);
      } else {
        WalkLength(a, b, i, j + 1);
      }
    }
  }

  /** The alignment `lcsPairs` returns. */
  ghost function Pairs<T>(a: seq<T>, b: seq<T>): seq<Pair> { Walk(a, b, 0, 0) }

  /** The returned pairs are a common subsequence, of the length the table holds. */
  lemma PairsAreAlignment<T>(a: seq<T>, b: seq<T>)
    ensures IsAlignment(Pairs(a, b), a, b)
    ensures |Pairs(a, b)| == Len(a, b)
  {
    WalkIsAlignment(a, b, 0, 0);
    WalkLength(a, b, 0, 0);
    assert a[0..] == a && b[0..] == b;
  }

  /** No common subsequence is longer than the returned pairs. */
  lemma PairsOptimal<T>(a: seq<T>, b: seq<T>, q: seq<Pair>)
    requires IsAlignment(q, a, b)
    ensures |q| <= |Pairs(a, b)|
  {
    AlignmentAtMostLen(q, a, b);
    PairsAreAlignment(a, b);
  }

  /** Start of gap `k`: just after pair k-1. */
  ghost function GapStart(ps: seq<Pair>, k: nat): Pair
    requires k <= |ps|
  {
    if k == 0 then Pair(0, 0) else Pair(ps[k - 1].a + 1, ps[k - 1].b + 1)
  }

  ghost function GapEnd<T>(ps: seq<Pair>, a: seq<T>, b: seq<T>, k: nat): Pair
    requires k <= |ps|
  {
    if k == |ps| then Pair(|a|, |b|) else ps[k]
  }

  ghost function Insert(ps: seq<Pair>, k: nat, p: Pair): seq<Pair>
    requires k <= |ps|
  {
    seq(|ps| + 1, m requires 0 <= m <= |ps| => if m < k then ps[m] else if m == k then p else ps[m - 1])
  }

  lemma InsertPair<T>(ps: seq<Pair>, a: seq<T>, b: seq<T>, k: nat, p: Pair)
    requires IsAlignment(ps, a, b) && k <= |ps|
    requires k > 0 ==> ps[k - 1].a < p.a && ps[k - 1].b < p.b
    requires k < |ps| ==> p.a < ps[k].a && p.b < ps[k].b
    requires p.a < |a| && p.b < |b| && a[p.a] == b[p.b]
    ensures IsAlignment(Insert(ps, k, p), a, b)
  {
    var q := Insert(ps, k, p);
    forall m, n | 0 <= m < n < |q| ensures q[m].a < q[n].a && q[m].b < q[n].b {
      assert m < k - 1 ==> ps[m].a < ps[k - 1].a && ps[m].b < ps[k - 1].b;
      assert k < n - 1 ==> ps[k].a < ps[n - 1].a && ps[k].b < ps[n - 1].b;
    }
  }

  /** No line stands on both sides of the same gap between consecutive pairs. */
  lemma GapSidesDisjoint<T>(a: seq<T>, b: seq<T>, k: nat, i: nat, j: nat)
    requires k <= |Pairs(a, b)|
    requires GapStart(Pairs(a, b), k).a <= i < GapEnd(Pairs(a, b), a, b, k).a
    requires GapStart(Pairs(a, b), k).b <= j < GapEnd(Pairs(a, b), a, b, k).b
    ensures i < |a| && j < |b| && a[i] != b[j]
  {
    hide Pairs, Len;
    var ps := Pairs(a, b);
    PairsAreAlignment(a, b);
    if a[i] == b[j] {
      InsertPair(ps, a, b, k, Pair(i, j));
      PairsOptimal(a, b, Insert(ps, k, Pair(i, j)));
    }
  }

  // ----- shared ends -----

  /** A shared prefix contributes its whole length. */
  lemma {:induction false} StripPrefixLen<T>(p: seq<T>, a: seq<T>, b: seq<T>)
    ensures Len(p + a, p + b) == |p| + Len(a, b)
  {
    if p == [] {
      assert p + a == a && p + b == b;
    } else {
      assert (p + a)[1..] == p[1..] + a && (p + b)[1..] == p[1..] + b;
      StripPrefixLen(p[1..], a, b);
    }
  }

  lemma {:induction false} LenAtMostSides<T>(a: seq<T>, b: seq<T>)
    ensures Len(a, b) <= |a| && Len(a, b) <= |b|
    decreases |a| + |b|
  {
    if a != [] && b != [] {
      LenAtMostSides(a[1..], b[1..]);
      LenAtMostSides(a[1..], b);
      LenAtMostSides(a, b[1..]);
    }
  }

  /** Aligning `s` with something that ends in `s` keeps all of `s`. */
  lemma {:induction false} LenOfSuffix<T>(x: seq<T>, s: seq<T>)
    ensures Len(x + s, s) == |s| && Len(s, x + s) == |s|
  {
    var tail := seq(|s|, k requires 0 <= k < |s| => Pair(|x| + k, k));
    var tail' := seq(|s|, k requires 0 <= k < |s| => Pair(k, |x| + k));
    AlignmentAtMostLen(tail, x + s, s);
    AlignmentAtMostLen(tail', s, x + s);
    LenAtMostSides(x + s, s);
    LenAtMostSides(s, x + s);
  }

  /** A shared suffix contributes its whole length. */
  lemma {:induction false} StripSuffixLen<T>(a: seq<T>, b: seq<T>, s: seq<T>)
    ensures Len(a + s, b + s) == Len(a, b) + |s|
    decreases |a| + |b|
  {
    if a == [] {
      assert a + s == s;
      LenOfSuffix(b, s);
    } else if b == [] {
      assert b + s == s;
      LenOfSuffix(a, s);
    } else {
      assert (a + s)[1..] == a[1..] + s && (b + s)[1..] == b[1..] + s;
      StripSuffixLen(a[1..], b[1..], s);
      StripSuffixLen(a[1..], b, s);
      StripSuffixLen(a, b[1..], s);
    }
  }

  // ----- the walk over equal or shared text -----

  ghost function Diagonal(i: nat, j: nat, n: nat): seq<Pair> {
    seq(n, k requires 0 <= k < n => Pair(i + k, j + k))
  }

  /** While both sides agree the walk advances on both. */
  lemma {:induction false} WalkThroughEqual<T>(a: seq<T>, b: seq<T>, i: nat, j: nat, n: nat)
    requires i + n <= |a| && j + n <= |b|
    requires a[i..i + n] == b[j..j + n]
    ensures Walk(a, b, i, j) == Diagonal(i, j, n) + Walk(a, b, i + n, j + n)
    decreases n
  {
    if n > 0 {
      assert a[i..i + n][0] == a[i] && b[j..j + n][0] == b[j];
      assert a[i + 1..i + n] == a[i..i + n][1..] && b[j + 1..j + n] == b[j..j + n][1..];
      WalkThroughEqual(a, b, i + 1, j + 1, n - 1);
      assert [Pair(i, j)] + Diagonal(i + 1, j + 1, n - 1) == Diagonal(i, j, n);
    }
  }

  /** Aligning a text with itself pairs every line with itself. */
  lemma SelfPairsAreIdentity<T>(x: seq<T>)
    ensures Pairs(x, x) == Diagonal(0, 0, |x|)
  {
    WalkThroughEqual(x, x, 0, 0, |x|);
  }

  /** The walk, once it has emitted a pair, continues from just behind it. */
  lemma {:induction false} WalkResumes<T>(a: seq<T>, b: seq<T>, i: nat, j: nat, p: Pair)
    requires i <= |a| && j <= |b|
    requires p in Walk(a, b, i, j)
    ensures p.a < |a| && p.b < |b|
    ensures exists before :: Walk(a, b, i, j) == before + [p] + Walk(a, b, p.a + 1, p.b + 1)
    decreases |a| - i + |b| - j
  {
    WalkIsAlignment(a, b, i, j);
    WalkStep(a, b, i, j);
    assert p.a < |a| && p.b < |b|;
    hide Walk, Len, IsAlignment;
    if a[i] == b[j] {
      if p == Pair(i, j) {
        assert Walk(a, b, i, j) == [] + [p] + Walk(a, b, p.a + 1, p.b + 1);
      } else {
        WalkResumes(a, b, i + 1, j + 1, p);
        var before :| Walk(a, b, i + 1, j + 1) == before + [p] + Walk(a, b, p.a + 1, p.b + 1);
        assert Walk(a, b, i, j) == ([Pair(i, j)] + before) + [p] + Walk(a, b, p.a + 1, p.b + 1);
      }
    } else if Len(a[i + 1..], b[j..]) >= Len(a[i..], b[j + 1..]) {
      WalkResumes(a, b, i + 1, j, p);
    } else {
      WalkResumes(a, b, i, j + 1, p);
    }
  }

  // ----- the method -----

  ghost predicate IsTable<T>(dp: array2<nat>, a: seq<T>, b: seq<T>)
    reads dp
  {
    && dp.Length0 == |a| + 1 && dp.Length1 == |b| + 1
    && forall p, q :: 0 <= p <= |a| && 0 <= q <= |b| ==> dp[p, q] == Len(a[p..], b[q..])
  }

  lemma LenStep<T>(a: seq<T>, b: seq<T>, i: nat, j: nat)
    requires i < |a| && j < |b|
    ensures Len(a[i..], b[j..])
         == if a[i] == b[j] then Len(a[i + 1..], b[j + 1..]) + 1 else Max(Len(a[i + 1..], b[j..]), Len(a[i..], b[j + 1..]))
  {
    assert a[i..][1..] == a[i + 1..] && b[j..][1..] == b[j + 1..];
  }

  /** Lines 34-38: the table, from the far corner. */
  method FillTable<T(==)>(base: seq<T>, other: seq<T>) returns (dp: array2<nat>)
    ensures fresh(dp) && IsTable(dp, base, other)
  {
    var n, m := |base|, |other|;
    dp := new nat[n + 1, m + 1]((_, _) => 0);
    var i := n;
    while i > 0
      invariant 0 <= i <= n
      invariant forall p, q :: i <= p <= n && 0 <= q <= m ==> dp[p, q] == Len(base[p..], other[q..])
      invariant forall p :: 0 <= p <= n ==> dp[p, m] == 0
    {
      i := i - 1;
      var j := m;
      while j > 0
        invariant 0 <= j <= m
        invariant forall p, q :: i < p <= n && 0 <= q <= m ==> dp[p, q] == Len(base[p..], other[q..])
        invariant forall q :: j <= q <= m ==> dp[i, q] == Len(base[i..], other[q..])
        invariant forall p :: 0 <= p <= n ==> dp[p, m] == 0
      {
        j := j - 1;
        LenStep(base, other, i, j);
        dp[i, j] := if base[i] == other[j] then dp[i + 1, j + 1] + 1 else Max(dp[i + 1, j], dp[i, j + 1]);
      }
    }
  }

  /** `lcsPairs`: fill the table, then walk it from the near corner. */
  method LcsPairs<T(==)>(base: seq<T>, other: seq<T>) returns (out: seq<Pair>)
    ensures out == Pairs(base, other)
    ensures IsAlignment(out, base, other)
    ensures forall q :: IsAlignment(q, base, other) ==> |q| <= |out|
  {
    var n, m := |base|, |other|;
    var dp := FillTable(base, other);
    out := [];
    var i, j := 0, 0;
    while i < n && j < m
      invariant 0 <= i <= n && 0 <= j <= m
      invariant out + Walk(base, other, i, j) == Pairs(base, other)
      decreases n - i + m - j
    {
      if base[i] == other[j] {
        out := out + [Pair(i, j)];
        i, j := i + 1, j + 1;
      } else if dp[i + 1, j] >= dp[i, j + 1] {
        i := i + 1;
      } else {
        j := j + 1;
      }
    }
    PairsAreAlignment(base, other);
    forall q | IsAlignment(q, base, other) ensures |q| <= |out| { PairsOptimal(base, other, q); }
  }
}
