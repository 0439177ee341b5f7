/** Line-level three-way merge (`merge3`): two alignments of one base, the anchors both
    keep, and one decision per gap between anchors. */
module Merge {
  import opened Lcs

  // ----- alignments as maps -----

  /** `new Map(lcsPairs(..))`: base index to the index on the other side. */
  function PairMap(ps: seq<Pair>): map<nat, nat> {
    if ps == [] then map[] else PairMap(ps[..|ps| - 1])[ps[|ps| - 1].a := ps[|ps| - 1].b]
  }

  lemma {:induction false} PairMapHoldsPairs(ps: seq<Pair>)
    requires forall k, l :: 0 <= k < l < |ps| ==> ps[k].a < ps[l].a
    ensures forall k :: 0 <= k < |ps| ==> ps[k].a in PairMap(ps) && PairMap(ps)[ps[k].a] == ps[k].b
    ensures forall i :: i in PairMap(ps) ==> Pair(i, PairMap(ps)[i]) in ps
  {
    if ps != [] {
      var last := |ps| - 1;
      var init := ps[..last];
      PairMapHoldsPairs(init);
      forall i | i in PairMap(ps) ensures Pair(i, PairMap(ps)[i]) in ps {
        if i == ps[last].a {
          assert ps[last] == Pair(i, PairMap(ps)[i]);
        } else {
          assert Pair(i, PairMap(init)[i]) in init;
        }
      }
      forall k | 0 <= k < |ps| ensures ps[k].a in PairMap(ps) && PairMap(ps)[ps[k].a] == ps[k].b {
        if k < last { assert init[k] == ps[k]; }
      }
    }
  }

  /** An increasing partial matching of equal lines. */
  ghost predicate IsMatching<T>(m: map<nat, nat>, a: seq<T>, b: seq<T>) {
    && (forall i :: i in m ==> i < |a| && m[i] < |b| && a[i] == b[m[i]])
    && (forall i, j :: i in m && j in m && i < j ==> m[i] < m[j])
  }

  lemma PairMapIsMatching<T>(ps: seq<Pair>, a: seq<T>, b: seq<T>)
    requires IsAlignment(ps, a, b)
    ensures IsMatching(PairMap(ps), a, b)
  {
    PairMapHoldsPairs(ps);
    var m := PairMap(ps);
    forall i, j | i in m && j in m && i < j ensures m[i] < m[j] {
      var k :| 0 <= k < |ps| && ps[k] == Pair(i, m[i]);
      var l :| 0 <= l < |ps| && ps[l] == Pair(j, m[j]);
      assert k != l && !(l < k);
    }
  }

  // ----- anchors -----

  /** A base line kept on both sides, with its three positions. */
  datatype Anchor = Anchor(b: nat, l: nat, r: nat)

  ghost function Anchors(lb: map<nat, nat>, rb: map<nat, nat>, n: nat): seq<Anchor> {
    if n == 0 then []
    else Anchors(lb, rb, n - 1) + (if n - 1 in lb && n - 1 in rb then [Anchor(n - 1, lb[n - 1], rb[n - 1])] else [])
  }

  /** Anchors at or behind the given starts, increasing on all three sides, joining equal lines. */
  ghost predicate AreAnchors<T>(xs: seq<Anchor>, B: seq<T>, L: seq<T>, R: seq<T>, sb: nat, sl: nat, sr: nat)
    decreases |xs|
  {
    && sb <= |B| && sl <= |L| && sr <= |R|
    && (xs != [] ==>
          var x := xs[0];
          && sb <= x.b < |B| && sl <= x.l < |L| && sr <= x.r < |R|
          && B[x.b] == L[x.l] == R[x.r]
          && AreAnchors(xs[1..], B, L, R, x.b + 1, x.l + 1, x.r + 1))
  }

  lemma {:induction false} AnchorsMembers(lb: map<nat, nat>, rb: map<nat, nat>, n: nat)
    ensures forall k :: 0 <= k < |Anchors(lb, rb, n)| ==>
              var x := Anchors(lb, rb, n)[k];
              x.b < n && x.b in lb && x.b in rb && x.l == lb[x.b] && x.r == rb[x.b]
    ensures forall k, m :: 0 <= k < m < |Anchors(lb, rb, n)| ==> Anchors(lb, rb, n)[k].b < Anchors(lb, rb, n)[m].b
    ensures forall i :: 0 <= i < n && i in lb && i in rb ==> Anchor(i, lb[i], rb[i]) in Anchors(lb, rb, n)
  {
    if n > 0 {
      AnchorsMembers(lb, rb, n - 1);
      if n - 1 in lb && n - 1 in rb {
        var x := Anchor(n - 1, lb[n - 1], rb[n - 1]);
        assert Anchors(lb, rb, n) == Anchors(lb, rb, n - 1) + [x];
        assert x in Anchors(lb, rb, n);
      }
    }
  }

  lemma {:induction false} AnchorsFrom<T>(xs: seq<Anchor>, lb: map<nat, nat>, rb: map<nat, nat>,
                                       B: seq<T>, L: seq<T>, R: seq<T>, sb: nat, sl: nat, sr: nat)
    requires IsMatching(lb, B, L) && IsMatching(rb, B, R)
    requires sb <= |B| && sl <= |L| && sr <= |R|
    requires forall k :: 0 <= k < |xs| ==>
               xs[k].b in lb && xs[k].b in rb && xs[k].l == lb[xs[k].b] && xs[k].r == rb[xs[k].b]
    requires forall k, m :: 0 <= k < m < |xs| ==> xs[k].b < xs[m].b
    requires xs != [] ==> sb <= xs[0].b && sl <= xs[0].l && sr <= xs[0].r
    ensures AreAnchors(xs, B, L, R, sb, sl, sr)
    decreases |xs|
  {
    if xs != [] {
      var ys := xs[1..];
      assert forall k :: 0 <= k < |ys| ==> ys[k] == xs[k + 1];
      if ys != [] { assert xs[0].b < xs[1].b; }
      AnchorsFrom(ys, lb, rb, B, L, R, xs[0].b + 1, xs[0].l + 1, xs[0].r + 1);
    }
  }

  lemma AnchorsAreAnchors<T>(lb: map<nat, nat>, rb: map<nat, nat>, B: seq<T>, L: seq<T>, R: seq<T>)
    requires IsMatching(lb, B, L) && IsMatching(rb, B, R)
    ensures AreAnchors(Anchors(lb, rb, |B|), B, L, R, 0, 0, 0)
  {
    AnchorsMembers(lb, rb, |B|);
    AnchorsFrom(Anchors(lb, rb, |B|), lb, rb, B, L, R, 0, 0, 0);
  }

  // ----- the diff3 decomposition -----

  /** What the three texts hold between two neighbouring anchors. */
  datatype Gap<T> = Gap(bs: seq<T>, ls: seq<T>, rs: seq<T>)

  /** Gap, stable line, gap, ..., stable line, gap. */
  datatype Diff3<T> = Tail(gap: Gap<T>) | Step(gap: Gap<T>, line: T, rest: Diff3<T>)

  function Conflicting<T(==)>(g: Gap<T>): bool { g.ls != g.bs && g.rs != g.bs && g.ls != g.rs }

  /** `resolveGap`: the lines it emits. */
  function Resolve<T(==)>(g: Gap<T>): seq<T> {
    if g.ls == g.bs then g.rs
    else if g.rs == g.bs then g.ls
    else g.ls
  }

  /** No gap is a conflict. */
  ghost predicate Clean<T>(d: Diff3<T>) {
    !Conflicting(d.gap) && (d.Step? ==> Clean(d.rest))
  }

  /** Both sides made the same change here. */
  ghost predicate SameChange<T>(g: Gap<T>) { g.ls == g.rs && g.ls != g.bs }

  /** Which text to read off a gap. `SharedNew` and `SharedOld` are its local and its base
      text where both sides made the same change, nothing elsewhere. */
  datatype Side = Base | Local | Remote | Merged | SharedNew | SharedOld

  ghost function Pick<T>(g: Gap<T>, side: Side): seq<T> {
    match side
    case Base => g.bs
    case Local => g.ls
    case Remote => g.rs
    case Merged => Resolve(g)
    case SharedNew => if SameChange(g) then g.ls else []
    case SharedOld => if SameChange(g) then g.bs else []
  }

  /** Write the decomposition out, reading `side` off every gap. */
  ghost function Weave<T>(d: Diff3<T>, side: Side): seq<T> {
    match d
    case Tail(g) => Pick(g, side)
    case Step(g, l, rest) => Pick(g, side) + [l] + Weave(rest, side)
  }

  ghost function Cut<T>(xs: seq<Anchor>, B: seq<T>, L: seq<T>, R: seq<T>, sb: nat, sl: nat, sr: nat): Diff3<T>
    requires AreAnchors(xs, B, L, R, sb, sl, sr)
    decreases |xs|
  {
    if xs == [] then Tail(Gap(B[sb..], L[sl..], R[sr..]))
    else
      var x := xs[0];
      Step(Gap(B[sb..x.b], L[sl..x.l], R[sr..x.r]), B[x.b], Cut(xs[1..], B, L, R, x.b + 1, x.l + 1, x.r + 1))
  }

  /** The decomposition `merge3` works on. */
  ghost function Decompose<T>(B: seq<T>, L: seq<T>, R: seq<T>): Diff3<T> {
    var lb, rb := PairMap(Pairs(B, L)), PairMap(Pairs(B, R));
    DecomposeOk(B, L, R);
    Cut(Anchors(lb, rb, |B|), B, L, R, 0, 0, 0)
  }

  lemma DecomposeOk<T>(B: seq<T>, L: seq<T>, R: seq<T>)
    ensures AreAnchors(Anchors(PairMap(Pairs(B, L)), PairMap(Pairs(B, R)), |B|), B, L, R, 0, 0, 0)
  {
    PairsAreAlignment(B, L);
    PairsAreAlignment(B, R);
    PairMapIsMatching(Pairs(B, L), B, L);
    PairMapIsMatching(Pairs(B, R), B, R);
    AnchorsAreAnchors(PairMap(Pairs(B, L)), PairMap(Pairs(B, R)), B, L, R);
  }

  // ----- the sides are rebuilt -----

  /** One unfolding of `AreAnchors` and `Cut`. */
  lemma CutStep<T>(xs: seq<Anchor>, B: seq<T>, L: seq<T>, R: seq<T>, sb: nat, sl: nat, sr: nat)
    requires AreAnchors(xs, B, L, R, sb, sl, sr) && xs != []
    ensures var x := xs[0];
            && sb <= x.b < |B| && sl <= x.l < |L| && sr <= x.r < |R|
            && B[x.b] == L[x.l] == R[x.r]
            && AreAnchors(xs[1..], B, L, R, x.b + 1, x.l + 1, x.r + 1)
            && Cut(xs, B, L, R, sb, sl, sr)
               == Step(Gap(B[sb..x.b], L[sl..x.l], R[sr..x.r]), B[x.b], Cut(xs[1..], B, L, R, x.b + 1, x.l + 1, x.r + 1))
  {
  }

  lemma WeaveStep<T>(d: Diff3<T>, side: Side, s: seq<T>, i: nat, j: nat)
    requires d.Step? && i <= j < |s|
    requires Pick(d.gap, side) == s[i..j] && d.line == s[j] && Weave(d.rest, side) == s[j + 1..]
    ensures Weave(d, side) == s[i..]
  {
    assert s[i..] == s[i..j] + [s[j]] + s[j + 1..];
  }

  lemma {:induction false} CutRebuildsBase<T>(xs: seq<Anchor>, B: seq<T>, L: seq<T>, R: seq<T>, sb: nat, sl: nat, sr: nat)
    requires AreAnchors(xs, B, L, R, sb, sl, sr)
    ensures Weave(Cut(xs, B, L, R, sb, sl, sr), Base) == B[sb..]
    decreases |xs|
  {
    if xs != [] {
      var x := xs[0];
      CutRebuildsBase(xs[1..], B, L, R, x.b + 1, x.l + 1, x.r + 1);
      WeaveStep(Cut(xs, B, L, R, sb, sl, sr), Base, B, sb, x.b);
    }
  }

  lemma {:induction false} CutRebuildsLocal<T>(xs: seq<Anchor>, B: seq<T>, L: seq<T>, R: seq<T>, sb: nat, sl: nat, sr: nat)
    requires AreAnchors(xs, B, L, R, sb, sl, sr)
    ensures Weave(Cut(xs, B, L, R, sb, sl, sr), Local) == L[sl..]
    decreases |xs|
  {
    if xs != [] {
      var x := xs[0];
      CutRebuildsLocal(xs[1..], B, L, R, x.b + 1, x.l + 1, x.r + 1);
      WeaveStep(Cut(xs, B, L, R, sb, sl, sr), Local, L, sl, x.l);
    }
  }

  lemma {:induction false} CutRebuildsRemote<T>(xs: seq<Anchor>, B: seq<T>, L: seq<T>, R: seq<T>, sb: nat, sl: nat, sr: nat)
    requires AreAnchors(xs, B, L, R, sb, sl, sr)
    ensures Weave(Cut(xs, B, L, R, sb, sl, sr), Remote) == R[sr..]
    decreases |xs|
  {
    if xs != [] {
      var x := xs[0];
      CutRebuildsRemote(xs[1..], B, L, R, x.b + 1, x.l + 1, x.r + 1);
      WeaveStep(Cut(xs, B, L, R, sb, sl, sr), Remote, R, sr, x.r);
    }
  }

  /** Gaps and stable lines, woven back together, give each of the three texts. */
  lemma SidesRebuilt<T>(B: seq<T>, L: seq<T>, R: seq<T>)
    ensures Weave(Decompose(B, L, R), Base) == B
    ensures Weave(Decompose(B, L, R), Local) == L
    ensures Weave(Decompose(B, L, R), Remote) == R
  {
    DecomposeOk(B, L, R);
    var xs := Anchors(PairMap(Pairs(B, L)), PairMap(Pairs(B, R)), |B|);
    CutRebuildsBase(xs, B, L, R, 0, 0, 0);
    CutRebuildsLocal(xs, B, L, R, 0, 0, 0);
    CutRebuildsRemote(xs, B, L, R, 0, 0, 0);
    assert B[0..] == B && L[0..] == L && R[0..] == R;
  }

  // ----- what a clean merge is -----

  /** `t` carries every change either side made in gap `g`, and nothing else. */
  ghost predicate CarriesGap<T>(t: seq<T>, g: Gap<T>) {
    && (g.ls != g.bs ==> t == g.ls)
    && (g.rs != g.bs ==> t == g.rs)
    && (g.ls == g.bs && g.rs == g.bs ==> t == g.bs)
  }

  /** `m` is the stable lines in order with, in every gap, all changes and nothing else. */
  ghost predicate CarriesChanges<T>(m: seq<T>, d: Diff3<T>)
    decreases d
  {
    match d
    case Tail(g) => CarriesGap(m, g)
    case Step(g, l, rest) =>
      exists k :: 0 <= k < |m| && m[k] == l && CarriesGap(m[..k], g) && CarriesChanges(m[k + 1..], rest)
  }

  lemma CarriesGapIff<T>(t: seq<T>, g: Gap<T>)
    ensures CarriesGap(t, g) <==> !Conflicting(g) && t == Resolve(g)
  {
  }

  lemma {:induction false} MergedCarriesChanges<T>(d: Diff3<T>)
    requires Clean(d)
    ensures CarriesChanges(Weave(d, Merged), d)
    decreases d
  {
    CarriesGapIff(Resolve(d.gap), d.gap);
    if d.Step? {
      var p, t := Resolve(d.gap), Weave(d.rest, Merged);
      MergedCarriesChanges(d.rest);
      var m := p + [d.line] + t;
      assert m[..|p|] == p && m[|p| + 1..] == t && m[|p|] == d.line;
    }
  }

  lemma {:induction false} CarriedChangesAreMerged<T>(m: seq<T>, d: Diff3<T>)
    requires CarriesChanges(m, d)
    ensures Clean(d) && m == Weave(d, Merged)
    decreases d
  {
    match d
    case Tail(g) =>
      CarriesGapIff(m, g);
    case Step(g, l, rest) =>
      var k :| 0 <= k < |m| && m[k] == l && CarriesGap(m[..k], g) && CarriesChanges(m[k + 1..], rest);
      CarriedChangesAreMerged(m[k + 1..], rest);
      CarriesGapIff(m[..k], g);
      StepIsMerged(m, k, d);
  }

  lemma StepIsMerged<T>(m: seq<T>, k: int, d: Diff3<T>)
    requires d.Step? && 0 <= k < |m| && m[k] == d.line
    requires !Conflicting(d.gap) && m[..k] == Resolve(d.gap)
    requires Clean(d.rest) && m[k + 1..] == Weave(d.rest, Merged)
    ensures Clean(d) && m == Weave(d, Merged)
  {
    hide Conflicting, Resolve;
    assert m == m[..k] + [m[k]] + m[k + 1..];
  }

  /** A merge is clean iff some text carries both sides' changes, and the merged lines are the
      only such text: no change is dropped and none is invented. */
  lemma MergedIsTheTextWithEveryChange<T>(m: seq<T>, d: Diff3<T>)
    ensures CarriesChanges(m, d) <==> Clean(d) && m == Weave(d, Merged)
  {
    if Clean(d) { MergedCarriesChanges(d); }
    if CarriesChanges(m, d) { CarriedChangesAreMerged(m, d); }
  }

  // ----- symmetry -----

  ghost function SwapGap<T>(g: Gap<T>): Gap<T> { Gap(g.bs, g.rs, g.ls) }

  ghost function Swap<T>(d: Diff3<T>): Diff3<T> {
    match d
    case Tail(g) => Tail(SwapGap(g))
    case Step(g, l, rest) => Step(SwapGap(g), l, Swap(rest))
  }

  ghost predicate AreSwapped(xs: seq<Anchor>, ys: seq<Anchor>) {
    && |xs| == |ys|
    && forall k :: 0 <= k < |xs| ==> ys[k] == Anchor(xs[k].b, xs[k].r, xs[k].l)
  }

  lemma {:induction false} AnchorsSwap(lb: map<nat, nat>, rb: map<nat, nat>, n: nat)
    ensures AreSwapped(Anchors(lb, rb, n), Anchors(rb, lb, n))
  {
    if n > 0 { AnchorsSwap(lb, rb, n - 1); }
  }

  lemma {:induction false} CutSwap<T>(xs: seq<Anchor>, ys: seq<Anchor>, B: seq<T>, L: seq<T>, R: seq<T>, sb: nat, sl: nat, sr: nat)
    requires AreSwapped(xs, ys)
    requires AreAnchors(xs, B, L, R, sb, sl, sr)
    ensures AreAnchors(ys, B, R, L, sb, sr, sl)
    ensures Cut(ys, B, R, L, sb, sr, sl) == Swap(Cut(xs, B, L, R, sb, sl, sr))
    decreases |xs|
  {
    if xs != [] {
      assert ys[0] == Anchor(xs[0].b, xs[0].r, xs[0].l);
      CutSwap(xs[1..], ys[1..], B, L, R, xs[0].b + 1, xs[0].l + 1, xs[0].r + 1);
    }
  }

  lemma {:induction false} SwapWeave<T>(d: Diff3<T>)
    ensures Clean(Swap(d)) == Clean(d)
    ensures Clean(d) ==> Weave(Swap(d), Merged) == Weave(d, Merged)
  {
    if d.Step? { SwapWeave(d.rest); }
  }

  /** Exchanging the two sides keeps the verdict and, when clean, the merged lines. */
  lemma PassSymmetric<T>(B: seq<T>, L: seq<T>, R: seq<T>)
    ensures Clean(Decompose(B, R, L)) == Clean(Decompose(B, L, R))
    ensures Clean(Decompose(B, L, R)) ==> Weave(Decompose(B, R, L), Merged) == Weave(Decompose(B, L, R), Merged)
  {
    var lb, rb := PairMap(Pairs(B, L)), PairMap(Pairs(B, R));
    DecomposeOk(B, L, R);
    AnchorsSwap(lb, rb, |B|);
    CutSwap(Anchors(lb, rb, |B|), Anchors(rb, lb, |B|), B, L, R, 0, 0, 0);
    SwapWeave(Decompose(B, L, R));
  }

  // ----- conservation -----

  ghost function Count<T>(s: seq<T>, x: T): int { multiset(s)[x] }

  lemma CountWoven<T>(p: seq<T>, l: T, t: seq<T>, x: T)
    ensures Count(p + [l] + t, x) == Count(p, x) + Count([l], x) + Count(t, x)
  {
  }

  /** How often `side` reads `x` off the gaps, the stable lines left out. */
  ghost function GapCount<T>(d: Diff3<T>, side: Side, x: T): int {
    Count(Pick(d.gap, side), x) + if d.Step? then GapCount(d.rest, side, x) else 0
  }

  lemma {:induction false} WeaveCount<T>(d: Diff3<T>, side: Side, x: T)
    ensures Count(Weave(d, side), x) == GapCount(d, side, x) + StableCount(d, x)
  {
    if d.Step? {
      WeaveCount(d.rest, side, x);
      CountWoven(Pick(d.gap, side), d.line, Weave(d.rest, side), x);
    }
  }

  ghost function StableCount<T>(d: Diff3<T>, x: T): int {
    match d
    case Tail(_) => 0
    case Step(_, l, rest) => Count([l], x) + StableCount(rest, x)
  }

  lemma {:induction false} GapsConserve<T>(d: Diff3<T>, x: T)
    requires Clean(d)
    ensures GapCount(d, Merged, x) + GapCount(d, Base, x) + GapCount(d, SharedNew, x)
         == GapCount(d, Local, x) + GapCount(d, Remote, x) + GapCount(d, SharedOld, x)
  {
    if d.Step? { GapsConserve(d.rest, x); }
  }

  /** Line conservation: merged + base = local + remote for every line, a change both sides
      made alike being counted once. */
  lemma CleanMergeConservesLines<T>(B: seq<T>, L: seq<T>, R: seq<T>, x: T)
    requires Clean(Decompose(B, L, R))
    ensures var d := Decompose(B, L, R);
            Count(Weave(d, Merged), x)
            == Count(L, x) + Count(R, x) - Count(B, x) - (GapCount(d, SharedNew, x) - GapCount(d, SharedOld, x))
  {
    var d := Decompose(B, L, R);
    SidesRebuilt(B, L, R);
    WeaveCount(d, Merged, x);
    WeaveCount(d, Base, x);
    WeaveCount(d, Local, x);
    WeaveCount(d, Remote, x);
    GapsConserve(d, x);
  }

  lemma {:induction false} GapsKeepNewLines<T>(d: Diff3<T>, x: T)
    requires Clean(d) && GapCount(d, Base, x) == 0
    ensures GapCount(d, Merged, x) >= GapCount(d, Local, x)
    ensures GapCount(d, Merged, x) >= GapCount(d, Remote, x)
  {
    if d.Step? {
      GapCountPositive(d.rest, Base, x);
      GapsKeepNewLines(d.rest, x);
    }
  }

  lemma {:induction false} GapCountPositive<T>(d: Diff3<T>, side: Side, x: T)
    ensures GapCount(d, side, x) >= 0
  {
    if d.Step? { GapCountPositive(d.rest, side, x); }
  }

  /** No line that is new on either side is lost: a clean merge has it at least as often. */
  lemma CleanMergeKeepsNewLines<T>(B: seq<T>, L: seq<T>, R: seq<T>, x: T)
    requires Clean(Decompose(B, L, R)) && x !in B
    ensures Count(Weave(Decompose(B, L, R), Merged), x) >= Count(L, x)
    ensures Count(Weave(Decompose(B, L, R), Merged), x) >= Count(R, x)
  {
    var d := Decompose(B, L, R);
    SidesRebuilt(B, L, R);
    WeaveCount(d, Merged, x);
    WeaveCount(d, Base, x);
    WeaveCount(d, Local, x);
    WeaveCount(d, Remote, x);
    StableCountPositive(d, x);
    GapCountPositive(d, Base, x);
    assert Count(B, x) == 0;
    GapsKeepNewLines(d, x);
  }

  lemma {:induction false} StableCountPositive<T>(d: Diff3<T>, x: T)
    ensures StableCount(d, x) >= 0
  {
    if d.Step? { StableCountPositive(d.rest, x); }
  }
}
