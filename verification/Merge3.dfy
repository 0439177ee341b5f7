/** `merge3` on texts: normalisation, early exits, the line cap and the anchor pass. */
module Merge3 {
  import opened Lcs
  import opened Text
  import opened Merge

  const MAX_MERGE_LINES := 5000

  datatype MergeResult = MergeResult(merged: string, clean: bool)

  // ----- the anchor pass on lines -----

  /** What the anchor pass does to three line arrays. */
  ghost function Pass<T>(B: seq<T>, L: seq<T>, R: seq<T>): (seq<T>, bool) {
    (Weave(Decompose(B, L, R), Merged), Clean(Decompose(B, L, R)))
  }

  ghost predicate TooLong(base: string, local: string, remote: string) {
    |SplitLines(base)| > MAX_MERGE_LINES || |SplitLines(local)| > MAX_MERGE_LINES || |SplitLines(remote)| > MAX_MERGE_LINES
  }

  ghost function PassTexts(base: string, local: string, remote: string): MergeResult {
    var (lines, clean) := Pass(SplitLines(base), SplitLines(local), SplitLines(remote));
    MergeResult(Join(lines), clean)
  }

  /** `merge3` after normalisation. */
  ghost function MergeNormal(base: string, local: string, remote: string): MergeResult {
    if local == remote then MergeResult(local, true)
    else if base == local then MergeResult(remote, true)
    else if base == remote then MergeResult(local, true)
    else if TooLong(base, local, remote) then MergeResult(local, false)
    else PassTexts(base, local, remote)
  }

  ghost function MergeTexts(base: string, local: string, remote: string): MergeResult {
    MergeNormal(NormCrlf(base), NormCrlf(local), NormCrlf(remote))
  }

  ghost predicate LocalQuiet<T>(d: Diff3<T>) { d.gap.ls == d.gap.bs && (d.Step? ==> LocalQuiet(d.rest)) }
  ghost predicate SidesEqual<T>(d: Diff3<T>) { d.gap.ls == d.gap.rs && (d.Step? ==> SidesEqual(d.rest)) }

  lemma {:induction false} QuietLocalTakesRemote<T>(d: Diff3<T>)
    requires LocalQuiet(d)
    ensures Clean(d) && Weave(d, Merged) == Weave(d, Remote)
  {
    if d.Step? { QuietLocalTakesRemote(d.rest); }
  }

  lemma {:induction false} EqualSidesTakeEither<T>(d: Diff3<T>)
    requires SidesEqual(d)
    ensures Clean(d) && Weave(d, Merged) == Weave(d, Local)
  {
    if d.Step? { EqualSidesTakeEither(d.rest); }
  }

  // ----- early exits -----

  lemma {:induction false} AnchorsSkipSide<T>(xs: seq<Anchor>, B: seq<T>, L: seq<T>, R: seq<T>, s: nat, sr: nat)
    requires AreAnchors(xs, B, L, R, s, s, sr) && B == L
    requires forall k :: 0 <= k < |xs| ==> xs[k].b == xs[k].l
    ensures LocalQuiet(Cut(xs, B, L, R, s, s, sr))
    decreases |xs|
  {
    if xs != [] {
      assert forall k :: 0 <= k < |xs[1..]| ==> xs[1..][k] == xs[k + 1];
      AnchorsSkipSide(xs[1..], B, L, R, xs[0].b + 1, xs[0].r + 1);
    }
  }

  lemma SelfMapIsIdentity<T>(x: seq<T>, i: nat)
    requires i in PairMap(Pairs(x, x))
    ensures PairMap(Pairs(x, x))[i] == i
  {
    SelfPairsAreIdentity(x);
    PairMapHoldsPairs(Pairs(x, x));
  }

  /** When local is the base, every gap takes the remote text. */
  lemma LocalUnchanged<T>(B: seq<T>, R: seq<T>)
    ensures Pass(B, B, R) == (R, true)
  {
    var lb, rb := PairMap(Pairs(B, B)), PairMap(Pairs(B, R));
    var xs := Anchors(lb, rb, |B|);
    DecomposeOk(B, B, R);
    AnchorsMembers(lb, rb, |B|);
    forall k | 0 <= k < |xs| ensures xs[k].b == xs[k].l {
      SelfMapIsIdentity(B, xs[k].b);
    }
    AnchorsSkipSide(xs, B, B, R, 0, 0);
    var d := Decompose(B, B, R);
    QuietLocalTakesRemote(d);
    SidesRebuilt(B, B, R);
  }

  /** When remote is the base, the pass gives the local text. */
  lemma RemoteUnchanged<T>(B: seq<T>, L: seq<T>)
    ensures Pass(B, L, B) == (L, true)
  {
    LocalUnchanged(B, L);
    PassSymmetric(B, B, L);
  }

  lemma {:induction false} AnchorsSameSides<T>(xs: seq<Anchor>, B: seq<T>, L: seq<T>, R: seq<T>, sb: nat, s: nat)
    requires AreAnchors(xs, B, L, R, sb, s, s) && L == R
    requires forall k :: 0 <= k < |xs| ==> xs[k].l == xs[k].r
    ensures SidesEqual(Cut(xs, B, L, R, sb, s, s))
    decreases |xs|
  {
    if xs != [] {
      assert forall k :: 0 <= k < |xs[1..]| ==> xs[1..][k] == xs[k + 1];
      AnchorsSameSides(xs[1..], B, L, R, xs[0].b + 1, xs[0].l + 1);
    }
  }

  /** When both sides are the same text, the pass gives that text. */
  lemma SidesAgree<T>(B: seq<T>, L: seq<T>)
    ensures Pass(B, L, L) == (L, true)
  {
    var lb := PairMap(Pairs(B, L));
    DecomposeOk(B, L, L);
    AnchorsMembers(lb, lb, |B|);
    AnchorsSameSides(Anchors(lb, lb, |B|), B, L, L, 0, 0);
    var d := Decompose(B, L, L);
    EqualSidesTakeEither(d);
    SidesRebuilt(B, L, L);
  }

  /** The early exits change nothing: wherever the line cap allows the anchor pass, its result
      is the result. */
  lemma EarlyExitsAgree(base: string, local: string, remote: string)
    requires !TooLong(base, local, remote)
    ensures MergeNormal(base, local, remote) == PassTexts(base, local, remote)
  {
    var B, L, R := SplitLines(base), SplitLines(local), SplitLines(remote);
    JoinSplitLines(local);
    JoinSplitLines(remote);
    if local == remote {
      SidesAgree(B, L);
    } else if base == local {
      LocalUnchanged(B, R);
    } else if base == remote {
      RemoteUnchanged(B, L);
    }
  }

  /** Swapping the two sides keeps the verdict and, when clean, the text. */
  lemma MergeSymmetric(base: string, local: string, remote: string)
    ensures MergeTexts(base, remote, local).clean == MergeTexts(base, local, remote).clean
    ensures MergeTexts(base, local, remote).clean ==> MergeTexts(base, remote, local) == MergeTexts(base, local, remote)
  {
    PassSymmetric(SplitLines(NormCrlf(base)), SplitLines(NormCrlf(local)), SplitLines(NormCrlf(remote)));
  }

  /** Re-saving a side with CRLF line ends is no change at all. */
  lemma CrlfResaveIsNoChange(base: string, remote: string)
    ensures MergeTexts(base, ToCrlf(base), remote) == MergeResult(NormCrlf(remote), true)
    ensures MergeTexts(base, remote, ToCrlf(base)) == MergeResult(NormCrlf(remote), true)
  {
    NormUndoesCrlfSave(base);
  }

  // ----- separated edits -----

  ghost function Skip(p: Pair, i: nat, j: nat): (q: Pair)
    requires p.a != i && p.b != j
  {
    Pair(if p.a > i then p.a - 1 else p.a, if p.b > j then p.b - 1 else p.b)
  }

  /** An alignment that avoids one line on each side aligns the two texts without it. */
  lemma SkipAlignment<T>(ps: seq<Pair>, a: seq<T>, b: seq<T>, i: nat, j: nat)
    requires IsAlignment(ps, a, b) && i < |a| && j < |b|
    requires forall k :: 0 <= k < |ps| ==> ps[k].a != i && ps[k].b != j
    ensures |ps| <= Len(a[..i] + a[i + 1..], b[..j] + b[j + 1..])
  {
    var a', b' := a[..i] + a[i + 1..], b[..j] + b[j + 1..];
    var qs := seq(|ps|, k requires 0 <= k < |ps| => Skip(ps[k], i, j));
    forall k | 0 <= k < |qs| ensures qs[k].a < |a'| && qs[k].b < |b'| && a'[qs[k].a] == b'[qs[k].b] {
      assert a'[qs[k].a] == a[ps[k].a];
      assert b'[qs[k].b] == b[ps[k].b];
    }
    forall k, l | 0 <= k < l < |qs| ensures qs[k].a < qs[l].a && qs[k].b < qs[l].b {
      assert ps[k].a < ps[l].a && ps[k].b < ps[l].b;
    }
    AlignmentAtMostLen(qs, a', b');
  }

  /** A line that stands once on each side, with the same text behind it, is always aligned. */
  lemma UniqueLineIsAligned<T>(P: seq<T>, P': seq<T>, s: T, S: seq<T>)
    requires s !in P && s !in P' && s !in S
    ensures Pair(|P|, |P'|) in Pairs(P + [s] + S, P' + [s] + S)
  {
    var a, b := P + [s] + S, P' + [s] + S;
    var ps := Pairs(a, b);
    PairsAreAlignment(a, b);
    assert a == P + ([s] + S) && b == P' + ([s] + S);
    StripSuffixLen(P, P', [s] + S);
    if Pair(|P|, |P'|) !in ps {
      forall k | 0 <= k < |ps| ensures ps[k].a != |P| && ps[k].b != |P'| {
        assert a[ps[k].a] == b[ps[k].b];
        assert a[|P|] == s && b[|P'|] == s;
      }
      SkipAlignment(ps, a, b, |P|, |P'|);
      assert a[..|P|] + a[|P| + 1..] == P + S;
      assert b[..|P'|] + b[|P'| + 1..] == P' + S;
      StripSuffixLen(P, P', S);
    }
  }

  /** A pair the walk emits, followed by equal text to the end, is followed by the diagonal. */
  lemma DiagonalBehind<T>(a: seq<T>, b: seq<T>, p: Pair, n: nat, k: nat)
    requires p in Pairs(a, b) && k <= n
    requires |a| == p.a + 1 + n && |b| == p.b + 1 + n && a[p.a + 1..] == b[p.b + 1..]
    ensures Pair(p.a + k, p.b + k) in Pairs(a, b)
  {
    hide Len;
    WalkResumes(a, b, 0, 0, p);
    var before :| Walk(a, b, 0, 0) == before + [p] + Walk(a, b, p.a + 1, p.b + 1);
    WalkThroughEqual(a, b, p.a + 1, p.b + 1, n);
    if k > 0 {
      assert Diagonal(p.a + 1, p.b + 1, n)[k - 1] == Pair(p.a + k, p.b + k);
    }
  }

  lemma PairIsMapped<T>(a: seq<T>, b: seq<T>, p: Pair)
    requires p in Pairs(a, b)
    ensures p.a in PairMap(Pairs(a, b)) && PairMap(Pairs(a, b))[p.a] == p.b
  {
    PairsAreAlignment(a, b);
    PairMapHoldsPairs(Pairs(a, b));
    hide Pairs, PairMap;
    var k :| 0 <= k < |Pairs(a, b)| && Pairs(a, b)[k] == p;
  }

  /** Behind that line the alignment pairs the shared text with itself. */
  lemma SharedTailAlignment<T>(P: seq<T>, P': seq<T>, s: T, S: seq<T>, i: nat)
    requires s !in P && s !in P' && s !in S
    requires |P| <= i < |P| + 1 + |S|
    ensures i in PairMap(Pairs(P + [s] + S, P' + [s] + S))
    ensures PairMap(Pairs(P + [s] + S, P' + [s] + S))[i] == |P'| + (i - |P|)
  {
    var a, b := P + [s] + S, P' + [s] + S;
    hide Pairs, PairMap, IsAlignment;
    UniqueLineIsAligned(P, P', s, S);
    SlicesOf(P, s, S);
    SlicesOf(P', s, S);
    DiagonalBehind(a, b, Pair(|P|, |P'|), |S|, i - |P|);
    PairIsMapped(a, b, Pair(i, |P'| + (i - |P|)));
  }

  /** Ahead of a change the alignment pairs the shared text with itself. */
  lemma SharedHeadAlignment<T>(H: seq<T>, S: seq<T>, S': seq<T>, i: nat)
    requires i < |H|
    ensures i in PairMap(Pairs(H + S, H + S')) && PairMap(Pairs(H + S, H + S'))[i] == i
  {
    var a, b := H + S, H + S';
    PairsAreAlignment(a, b);
    PairMapHoldsPairs(Pairs(a, b));
    assert a[0..0 + |H|] == H == b[0..0 + |H|];
    WalkThroughEqual(a, b, 0, 0, |H|);
    assert Diagonal(0, 0, |H|)[i] == Pair(i, i);
    assert Pairs(a, b)[i] == Pair(i, i);
  }

  /** Anchors of a local edit before line `p` of the base and a remote edit behind it:
      `p` itself is an anchor, remote is aligned straight up to it, local straight from it. */
  ghost predicate SeparatedAnchors(xs: seq<Anchor>, p: nat, p': nat) {
    && (forall k :: 0 <= k < |xs| && xs[k].b <= p ==> xs[k].r == xs[k].b)
    && (forall k :: 0 <= k < |xs| && xs[k].b >= p ==> xs[k].l == p' + (xs[k].b - p))
  }

  /** Local is the base from line `p` (there line `p'`) to the end. */
  ghost predicate SharedFrom<T>(B: seq<T>, L: seq<T>, p: nat, p': nat) {
    p <= |B| && p' <= |L| && B[p..] == L[p'..]
  }

  lemma SharedSlice<T>(B: seq<T>, L: seq<T>, p: nat, p': nat, i: nat, j: nat)
    requires SharedFrom(B, L, p, p') && p <= i <= j <= |B|
    ensures |L| == p' + (|B| - p) && B[i..j] == L[p' + (i - p)..p' + (j - p)]
  {
    assert |B[p..]| == |L[p'..]|;
    forall k | 0 <= k < j - i ensures B[i..j][k] == L[p' + (i - p)..p' + (j - p)][k] {
      assert B[p..][i - p + k] == L[p'..][i - p + k];
    }
  }

  lemma {:induction false} BehindTheLine<T>(xs: seq<Anchor>, B: seq<T>, L: seq<T>, R: seq<T>, p: nat, p': nat, sb: nat, sl: nat, sr: nat)
    requires SharedFrom(B, L, p, p') && p <= sb && sl == p' + (sb - p)
    requires AreAnchors(xs, B, L, R, sb, sl, sr)
    requires SeparatedAnchors(xs, p, p')
    ensures LocalQuiet(Cut(xs, B, L, R, sb, sl, sr))
    decreases |xs|
  {
    if xs == [] {
      SharedSlice(B, L, p, p', sb, |B|);
      assert B[sb..] == B[sb..|B|] && L[sl..] == L[sl..|L|];
    } else {
      var x := xs[0];
      assert forall k :: 0 <= k < |xs[1..]| ==> xs[1..][k] == xs[k + 1];
      BehindTheLine(xs[1..], B, L, R, p, p', x.b + 1, x.l + 1, x.r + 1);
      SharedSlice(B, L, p, p', sb, x.b);
    }
  }

  lemma AtTheLine<T>(xs: seq<Anchor>, B: seq<T>, L: seq<T>, R: seq<T>, p: nat, p': nat)
    requires SharedFrom(B, L, p, p') && p < |B| && p < |R|
    requires AreAnchors(xs, B, L, R, p + 1, p' + 1, p + 1)
    requires SeparatedAnchors(xs, p, p')
    ensures Weave(Cut(xs, B, L, R, p + 1, p' + 1, p + 1), Merged) == R[p + 1..]
    ensures Clean(Cut(xs, B, L, R, p + 1, p' + 1, p + 1))
  {
    var d := Cut(xs, B, L, R, p + 1, p' + 1, p + 1);
    BehindTheLine(xs, B, L, R, p, p', p + 1, p' + 1, p + 1);
    QuietLocalTakesRemote(d);
    CutRebuildsRemote(xs, B, L, R, p + 1, p' + 1, p + 1);
  }

  lemma WeaveBefore<T>(d: Diff3<T>, s: seq<T>, i: nat, j: nat, k: nat, t: seq<T>)
    requires d.Step? && i <= j < k <= |s|
    requires Resolve(d.gap) == s[i..j] && d.line == s[j] && Weave(d.rest, Merged) == s[j + 1..k] + t
    requires !Conflicting(d.gap) && Clean(d.rest)
    ensures Weave(d, Merged) == s[i..k] + t && Clean(d)
  {
    assert s[i..k] == s[i..j] + [s[j]] + s[j + 1..k];
  }

  lemma WeaveAt<T>(d: Diff3<T>, h: seq<T>, t: seq<T>, j: nat)
    requires d.Step? && j < |t|
    requires Resolve(d.gap) == h && d.line == t[j] && Weave(d.rest, Merged) == t[j + 1..]
    requires !Conflicting(d.gap) && Clean(d.rest)
    ensures Weave(d, Merged) == h + t[j..] && Clean(d)
  {
    assert t[j..] == [t[j]] + t[j + 1..];
  }

  /** The gap ahead of the line: remote has the base's text there, so local's is taken. */
  lemma GapAhead<T>(xs: seq<Anchor>, B: seq<T>, L: seq<T>, R: seq<T>, p: nat, sb: nat, sl: nat)
    requires xs != [] && AreAnchors(xs, B, L, R, sb, sl, sb)
    requires p < |B| && p < |R| && B[..p + 1] == R[..p + 1]
    requires xs[0].b <= p && xs[0].r == xs[0].b
    ensures var g := Cut(xs, B, L, R, sb, sl, sb).gap; !Conflicting(g) && Resolve(g) == L[sl..xs[0].l]
  {
    SharedHeadSlice(B, R, p, sb, xs[0].b);
  }

  /** Up to the line the pass takes local's text, from it on remote's. */
  lemma {:induction false} UpToTheLine<T>(xs: seq<Anchor>, B: seq<T>, L: seq<T>, R: seq<T>, p: nat, p': nat, sb: nat, sl: nat)
    requires sb <= p < |B| && sl <= p' < |L| && p < |R|
    requires SharedFrom(B, L, p, p') && B[..p + 1] == R[..p + 1]
    requires AreAnchors(xs, B, L, R, sb, sl, sb)
    requires SeparatedAnchors(xs, p, p')
    requires Anchor(p, p', p) in xs
    ensures Weave(Cut(xs, B, L, R, sb, sl, sb), Merged) == L[sl..p'] + R[p..]
    ensures Clean(Cut(xs, B, L, R, sb, sl, sb))
    decreases |xs|
  {
    hide AreAnchors, Cut, Weave, Clean, Resolve, Conflicting;
    var x, d := xs[0], Cut(xs, B, L, R, sb, sl, sb);
    CutStep(xs, B, L, R, sb, sl, sb);
    FirstAnchorFirst(xs, B, L, R, sb, sl, sb, Anchor(p, p', p));
    SeparatedTail(xs, p, p');
    GapAhead(xs, B, L, R, p, sb, sl);
    if x.b == p {
      AtTheLine(xs[1..], B, L, R, p, p');
      WeaveAt(d, L[sl..p'], R, p);
    } else {
      UpToTheLine(xs[1..], B, L, R, p, p', x.b + 1, x.l + 1);
      WeaveBefore(d, L, sl, x.l, p', R[p..]);
    }
  }

  lemma SeparatedTail(xs: seq<Anchor>, p: nat, p': nat)
    requires xs != [] && SeparatedAnchors(xs, p, p')
    ensures SeparatedAnchors(xs[1..], p, p')
    ensures xs[0].b <= p ==> xs[0].r == xs[0].b
    ensures xs[0].b >= p ==> xs[0].l == p' + (xs[0].b - p)
  {
    assert forall k :: 0 <= k < |xs[1..]| ==> xs[1..][k] == xs[k + 1];
  }

  lemma SharedHeadSlice<T>(B: seq<T>, R: seq<T>, p: nat, i: nat, j: nat)
    requires p < |B| && p < |R| && B[..p + 1] == R[..p + 1] && i <= j <= p
    ensures B[i..j] == R[i..j]
  {
    assert B[i..j] == B[..p + 1][i..j];
    assert R[i..j] == R[..p + 1][i..j];
  }

  /** The first anchor is at or before every other on all sides. */
  lemma {:induction false} FirstAnchorFirst<T>(xs: seq<Anchor>, B: seq<T>, L: seq<T>, R: seq<T>, sb: nat, sl: nat, sr: nat, y: Anchor)
    requires AreAnchors(xs, B, L, R, sb, sl, sr) && y in xs
    ensures y == xs[0] || (xs[0].b < y.b && xs[0].l < y.l && xs[0].r < y.r && y in xs[1..])
    decreases |xs|
  {
    if y != xs[0] {
      FirstAnchorFirst(xs[1..], B, L, R, xs[0].b + 1, xs[0].l + 1, xs[0].r + 1, y);
    }
  }

  lemma SeparatedAnchorsHold<T>(P: seq<T>, P': seq<T>, s: T, S: seq<T>, S': seq<T>, xs: seq<Anchor>)
    requires s !in P && s !in P' && s !in S && s !in S'
    requires var B := P + [s] + S;
             xs == Anchors(PairMap(Pairs(B, P' + [s] + S)), PairMap(Pairs(B, P + [s] + S')), |B|)
    ensures SeparatedAnchors(xs, |P|, |P'|) && Anchor(|P|, |P'|, |P|) in xs
  {
    var B, L, R := P + [s] + S, P' + [s] + S, P + [s] + S';
    AnchorsMembers(PairMap(Pairs(B, L)), PairMap(Pairs(B, R)), |B|);
    SharedTailAlignment(P, P', s, S, |P|);
    SharedHeadAlignment(P + [s], S, S', |P|);
    forall k | 0 <= k < |xs| && xs[k].b <= |P| ensures xs[k].r == xs[k].b {
      SharedHeadAlignment(P + [s], S, S', xs[k].b);
    }
    forall k | 0 <= k < |xs| && xs[k].b >= |P| ensures xs[k].l == |P'| + (xs[k].b - |P|) {
      SharedTailAlignment(P, P', s, S, xs[k].b);
    }
  }

  lemma SeparatedPass<T>(B: seq<T>, L: seq<T>, R: seq<T>, p: nat, p': nat, xs: seq<Anchor>)
    requires xs == Anchors(PairMap(Pairs(B, L)), PairMap(Pairs(B, R)), |B|)
    requires p < |B| && p < |R| && p' < |L|
    requires SharedFrom(B, L, p, p') && B[..p + 1] == R[..p + 1]
    requires SeparatedAnchors(xs, p, p') && Anchor(p, p', p) in xs
    ensures Pass(B, L, R) == (L[0..p'] + R[p..], true)
  {
    hide AreAnchors, Cut, Anchors, PairMap, Pairs, Weave, Clean;
    DecomposeOk(B, L, R);
    UpToTheLine(xs, B, L, R, p, p', 0, 0);
  }

  lemma LocalEditFirst<T>(P: seq<T>, P': seq<T>, s: T, S: seq<T>, S': seq<T>)
    requires s !in P && s !in P' && s !in S && s !in S'
    ensures Pass(P + [s] + S, P' + [s] + S, P + [s] + S') == (P' + [s] + S', true)
  {
    var B, L, R := P + [s] + S, P' + [s] + S, P + [s] + S';
    var xs := Anchors(PairMap(Pairs(B, L)), PairMap(Pairs(B, R)), |B|);
    SeparatedAnchorsHold(P, P', s, S, S', xs);
    SlicesOf(P, s, S);
    SlicesOf(P', s, S);
    SlicesOf(P, s, S');
    SeparatedPass(B, L, R, |P|, |P'|, xs);
    assert P' + ([s] + S') == P' + [s] + S';
  }

  /** Edits separated by a line that is unique in all three texts merge cleanly, and the
      result is both edits, whatever they are. */
  lemma SeparatedEditsMergeCleanly<T>(P: seq<T>, P': seq<T>, s: T, S: seq<T>, S': seq<T>)
    requires s !in P && s !in P' && s !in S && s !in S'
    ensures Pass(P + [s] + S, P' + [s] + S, P + [s] + S') == (P' + [s] + S', true)
    ensures Pass(P + [s] + S, P + [s] + S', P' + [s] + S) == (P' + [s] + S', true)
  {
    LocalEditFirst(P, P', s, S, S');
    PassSymmetric(P + [s] + S, P' + [s] + S, P + [s] + S');
  }

  // ----- on texts as they are written -----

  lemma LinesOfWritten(ls: seq<Line>, ends: seq<Eol>)
    requires |ends| >= |ls| && ls != [] && ls != [""] && forall l :: l in ls ==> PlainLine(l)
    ensures SplitLines(NormCrlf(Written(ls, ends))) == ls
  {
    NormOfWritten(ls, ends);
    LinesOfJoined(ls);
  }

  /** Separated edits of texts as an editor wrote them: whichever of LF and CRLF each of the three
      texts has at each of its lines, edits on the two sides of a line that is unique in all three
      merge cleanly to both edits, written with LF. The one text whose lines are not what it shows
      is the empty one, which has no line. */
  lemma SeparatedEditsOnDisk(P: seq<Line>, P': seq<Line>, s: Line, S: seq<Line>, S': seq<Line>, eb: seq<Eol>, el: seq<Eol>, er: seq<Eol>)
    requires s !in P && s !in P' && s !in S && s !in S'
    requires forall l :: l in P + P' + [s] + S + S' ==> PlainLine(l)
    requires |P| + 1 + |S| <= 5000 && |P'| + 1 + |S| <= 5000 && |P| + 1 + |S'| <= 5000
    requires s != "" || (|P| + |S| > 0 && |P'| + |S| > 0 && |P| + |S'| > 0)
    requires |eb| >= |P| + 1 + |S| && |el| >= |P'| + 1 + |S| && |er| >= |P| + 1 + |S'|
    ensures MergeTexts(Written(P + [s] + S, eb), Written(P' + [s] + S, el), Written(P + [s] + S', er))
         == MergeResult(Join(P' + [s] + S'), true)
  {
    var B, L, R := P + [s] + S, P' + [s] + S, P + [s] + S';
    hide Pass, NormCrlf, SplitLines, Join, Written, PlainLine, MergeNormal;
    NotTheEmptyLine(P, s, S);
    NotTheEmptyLine(P', s, S);
    NotTheEmptyLine(P, s, S');
    LinesOfWritten(B, eb);
    LinesOfWritten(L, el);
    LinesOfWritten(R, er);
    SeparatedEditsMergeCleanly(P, P', s, S, S');
    EarlyExitsAgree(NormCrlf(Written(B, eb)), NormCrlf(Written(L, el)), NormCrlf(Written(R, er)));
  }

  lemma NotTheEmptyLine(P: seq<Line>, s: Line, S: seq<Line>)
    requires s != "" || |P| + |S| > 0
    ensures P + [s] + S != [""] && P + [s] + S != []
  {
    assert s != "" ==> (P + [s] + S)[|P|] == s;
  }

  /** Three different texts, one of them of more than 5000 lines: the local one stays, unclean. */
  lemma TooLongKeepsLocal(base: string, local: string, remote: string)
    requires !HasCrlf(base) && !HasCrlf(local) && !HasCrlf(remote)
    requires local != remote && base != local && base != remote
    requires |SplitLines(base)| > 5000 || |SplitLines(local)| > 5000 || |SplitLines(remote)| > 5000
    ensures MergeTexts(base, local, remote) == MergeResult(local, false)
  {
    NormCrlfKeeps(base);
    NormCrlfKeeps(local);
    NormCrlfKeeps(remote);
  }

  lemma SlicesOf<T>(P: seq<T>, s: T, S: seq<T>)
    ensures var x := P + [s] + S; x[0..|P|] == P && x[..|P| + 1] == P + [s] && x[|P|..] == [s] + S && x[|P| + 1..] == S
  {
  }

  // ----- the method -----

  method FindAnchors(lb: map<nat, nat>, rb: map<nat, nat>, n: nat) returns (anchors: seq<Anchor>)
    ensures anchors == Anchors(lb, rb, n)
  {
    anchors := [];
    for bi := 0 to n
      invariant anchors == Anchors(lb, rb, bi)
    {
      if bi in lb && bi in rb {
        anchors := anchors + [Anchor(bi, lb[bi], rb[bi])];
      }
    }
  }

  lemma PassStep<T>(xs: seq<Anchor>, B: seq<T>, L: seq<T>, R: seq<T>, sb: nat, sl: nat, sr: nat, out: seq<T>)
    requires xs != [] && AreAnchors(xs, B, L, R, sb, sl, sr)
    ensures var x := xs[0];
            var g := Gap(B[sb..x.b], L[sl..x.l], R[sr..x.r]);
            var d, rest := Cut(xs, B, L, R, sb, sl, sr), Cut(xs[1..], B, L, R, x.b + 1, x.l + 1, x.r + 1);
            && out + Weave(d, Merged) == out + Resolve(g) + [B[x.b]] + Weave(rest, Merged)
            && Clean(d) == (!Conflicting(g) && Clean(rest))
  {
    hide Resolve, Conflicting;
    var d := Cut(xs, B, L, R, sb, sl, sr);
    Reassociate(out, Resolve(d.gap), d.line, Weave(d.rest, Merged));
  }

  lemma Reassociate<T>(a: seq<T>, p: seq<T>, x: T, t: seq<T>)
    ensures a + (p + [x] + t) == a + p + [x] + t
  {
  }

  lemma PassEnd<T>(B: seq<T>, L: seq<T>, R: seq<T>, sb: nat, sl: nat, sr: nat)
    requires AreAnchors([], B, L, R, sb, sl, sr)
    ensures sb <= |B| && sl <= |L| && sr <= |R|
    ensures var d := Cut([], B, L, R, sb, sl, sr);
            var g := Gap(B[sb..], L[sl..], R[sr..]);
            Weave(d, Merged) == Resolve(g) && Clean(d) == !Conflicting(g)
  {
  }

  method ResolveGaps(anchors: seq<Anchor>, B: seq<Line>, L: seq<Line>, R: seq<Line>) returns (out: seq<Line>, clean: bool)
    requires AreAnchors(anchors, B, L, R, 0, 0, 0)
    ensures out == Weave(Cut(anchors, B, L, R, 0, 0, 0), Merged)
    ensures clean == Clean(Cut(anchors, B, L, R, 0, 0, 0))
  {
    hide AreAnchors, Cut, Weave, Clean, Resolve, Conflicting;
    out, clean := [], true;
    var pb: int, pl: int, pr: int := -1, -1, -1;
    assert anchors[0..] == anchors;
    for k := 0 to |anchors|
      invariant -1 <= pb && -1 <= pl && -1 <= pr
      invariant AreAnchors(anchors[k..], B, L, R, pb + 1, pl + 1, pr + 1)
      invariant out + Weave(Cut(anchors[k..], B, L, R, pb + 1, pl + 1, pr + 1), Merged) == Weave(Cut(anchors, B, L, R, 0, 0, 0), Merged)
      invariant (clean && Clean(Cut(anchors[k..], B, L, R, pb + 1, pl + 1, pr + 1))) == Clean(Cut(anchors, B, L, R, 0, 0, 0))
    {
      var x := anchors[k];
      assert anchors[k..][0] == x && anchors[k..][1..] == anchors[k + 1..];
      CutStep(anchors[k..], B, L, R, pb + 1, pl + 1, pr + 1);
      PassStep(anchors[k..], B, L, R, pb + 1, pl + 1, pr + 1, out);
      out, clean := ResolveGap(out, clean, Gap(B[pb + 1..x.b], L[pl + 1..x.l], R[pr + 1..x.r]));
      out := out + [B[x.b]];
      pb, pl, pr := x.b, x.l, x.r;
    }
    assert anchors[|anchors|..] == [];
    PassEnd(B, L, R, pb + 1, pl + 1, pr + 1);
    out, clean := ResolveGap(out, clean, Gap(B[pb + 1..], L[pl + 1..], R[pr + 1..]));
  }

  /** The source's lines 71-95: anchors, then one decision per gap. */
  method AnchorPass(B: seq<Line>, L: seq<Line>, R: seq<Line>) returns (out: seq<Line>, clean: bool)
    ensures (out, clean) == Pass(B, L, R)
  {
    var lps := LcsPairs(B, L);
    var rps := LcsPairs(B, R);
    DecomposeOk(B, L, R);
    var anchors := FindAnchors(PairMap(lps), PairMap(rps), |B|);
    out, clean := ResolveGaps(anchors, B, L, R);
  }

  /** The closure `resolveGap`, with the variables it updates passed in and out. */
  method ResolveGap(out: seq<Line>, clean: bool, g: Gap<Line>) returns (out': seq<Line>, clean': bool)
    ensures out' == out + Resolve(g)
    ensures clean' <==> clean && !Conflicting(g)
  {
    out', clean' := out, clean;
    if g.ls == g.bs {
      out' := out' + g.rs;
    } else if g.rs == g.bs {
      out' := out' + g.ls;
    } else if g.ls == g.rs {
      out' := out' + g.ls;
    } else {
      clean' := false;
      out' := out' + g.ls;
    }
  }

  method Merge3(base0: string, local0: string, remote0: string) returns (r: MergeResult)
    ensures r == MergeTexts(base0, local0, remote0)
  {
    var base, local, remote := NormCrlf(base0), NormCrlf(local0), NormCrlf(remote0);
    if local == remote { return MergeResult(local, true); }
    if base == local { return MergeResult(remote, true); }
    if base == remote { return MergeResult(local, true); }
    var B, L, R := SplitLines(base), SplitLines(local), SplitLines(remote);
    if |B| > MAX_MERGE_LINES || |L| > MAX_MERGE_LINES || |R| > MAX_MERGE_LINES {
      return MergeResult(local, false);
    }
    var out, clean := AnchorPass(B, L, R);
    r := MergeResult(Join(out), clean);
  }
}
