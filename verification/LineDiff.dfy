/** The two unified line diffs drawn from one alignment: the conflict view's
    `unifiedLineDiff` (shared ends stripped, capped) and the push preview's `lineDiff`. */
module LineDiff {
  import opened Wrappers
  import opened Lcs
  import opened Text

  const MAX_DIFF_CELLS := 2_000_000
  const MAX_DIFF_LINES := 2000

  datatype Sign = Ctx | Del | Add
  datatype DiffLine<T> = DiffLine(sign: Sign, text: T)

  // ----- what a diff says -----

  /** The old text: context and deleted lines. */
  ghost function OldSide<T>(d: seq<DiffLine<T>>): seq<T> {
    if d == [] then [] else (if d[0].sign == Add then [] else [d[0].text]) + OldSide(d[1..])
  }

  /** The new text: context and added lines. */
  ghost function NewSide<T>(d: seq<DiffLine<T>>): seq<T> {
    if d == [] then [] else (if d[0].sign == Del then [] else [d[0].text]) + NewSide(d[1..])
  }

  ghost function Changed<T>(d: seq<DiffLine<T>>): nat {
    if d == [] then 0 else (if d[0].sign == Ctx then 0 else 1) + Changed(d[1..])
  }

  /** `d` is a diff of `a` against `b`. */
  ghost predicate IsDiff<T>(d: seq<DiffLine<T>>, a: seq<T>, b: seq<T>) {
    OldSide(d) == a && NewSide(d) == b
  }

  lemma {:induction false} OldCat<T>(d: seq<DiffLine<T>>, e: seq<DiffLine<T>>)
    ensures OldSide(d + e) == OldSide(d) + OldSide(e)
  {
    if d == [] { assert d + e == e; } else {
      assert (d + e)[0] == d[0] && (d + e)[1..] == d[1..] + e;
      OldCat(d[1..], e);
    }
  }

  lemma {:induction false} NewCat<T>(d: seq<DiffLine<T>>, e: seq<DiffLine<T>>)
    ensures NewSide(d + e) == NewSide(d) + NewSide(e)
  {
    if d == [] { assert d + e == e; } else {
      assert (d + e)[0] == d[0] && (d + e)[1..] == d[1..] + e;
      NewCat(d[1..], e);
    }
  }

  lemma {:induction false} ChangedCat<T>(d: seq<DiffLine<T>>, e: seq<DiffLine<T>>)
    ensures Changed(d + e) == Changed(d) + Changed(e)
  {
    if d == [] { assert d + e == e; } else {
      assert (d + e)[0] == d[0] && (d + e)[1..] == d[1..] + e;
      ChangedCat(d[1..], e);
    }
  }

  lemma SidesCat<T>(d: seq<DiffLine<T>>, e: seq<DiffLine<T>>)
    ensures OldSide(d + e) == OldSide(d) + OldSide(e)
    ensures NewSide(d + e) == NewSide(d) + NewSide(e)
    ensures Changed(d + e) == Changed(d) + Changed(e)
  {
    OldCat(d, e);
    NewCat(d, e);
    ChangedCat(d, e);
  }

  /** All lines of `s` under one sign. */
  ghost function Mark<T>(sign: Sign, s: seq<T>): seq<DiffLine<T>> {
    seq(|s|, k requires 0 <= k < |s| => DiffLine(sign, s[k]))
  }

  lemma {:induction false} MarkSides<T>(sign: Sign, s: seq<T>)
    ensures OldSide(Mark(sign, s)) == (if sign == Add then [] else s)
    ensures NewSide(Mark(sign, s)) == (if sign == Del then [] else s)
    ensures Changed(Mark(sign, s)) == (if sign == Ctx then 0 else |s|)
  {
    if s != [] {
      assert Mark(sign, s)[1..] == Mark(sign, s[1..]);
      MarkSides(sign, s[1..]);
      assert s == [s[0]] + s[1..];
    }
  }

  // ----- minimality of any diff -----

  lemma LenDropFirst<T>(a: seq<T>, b: seq<T>)
    ensures a != [] ==> Len(a[1..], b) <= Len(a, b)
    ensures b != [] ==> Len(a, b[1..]) <= Len(a, b)
  {
    if a != [] {
      var ps := Pairs(a[1..], b);
      PairsAreAlignment(a[1..], b);
      AlignmentAtMostLen(seq(|ps|, k requires 0 <= k < |ps| => Pair(ps[k].a + 1, ps[k].b)), a, b);
    }
    if b != [] {
      var ps := Pairs(a, b[1..]);
      PairsAreAlignment(a, b[1..]);
      AlignmentAtMostLen(seq(|ps|, k requires 0 <= k < |ps| => Pair(ps[k].a, ps[k].b + 1)), a, b);
    }
  }

  /** No diff of two texts changes fewer lines than their longest common subsequence leaves. */
  lemma {:induction false} DiffChangesAtLeast<T>(d: seq<DiffLine<T>>)
    ensures Changed(d) >= |OldSide(d)| + |NewSide(d)| - 2 * Len(OldSide(d), NewSide(d))
  {
    if d != [] {
      var a, b := OldSide(d[1..]), NewSide(d[1..]);
      DiffChangesAtLeast(d[1..]);
      match d[0].sign {
        case Ctx =>
          var t := d[0].text;
          assert OldSide(d) == [t] + a && NewSide(d) == [t] + b;
          assert ([t] + a)[1..] == a && ([t] + b)[1..] == b;
          assert Len([t] + a, [t] + b) == 1 + Len(a, b);
        case Del =>
          assert OldSide(d)[1..] == a && NewSide(d) == b;
          LenDropFirst(OldSide(d), b);
        case Add =>
          assert NewSide(d)[1..] == b && OldSide(d) == a;
          LenDropFirst(a, NewSide(d));
      }
    }
  }

  // ----- the diff an alignment gives -----

  /** Deletions, then additions, then the shared line, pair by pair. */
  ghost function Emit<T>(a: seq<T>, b: seq<T>, ps: seq<Pair>, ai: nat, bi: nat): seq<DiffLine<T>>
    requires AlignedFrom(ps, a, b, ai, bi)
    decreases |ps|
  {
    if ps == [] then Mark(Del, a[ai..]) + Mark(Add, b[bi..])
    else
      var p := ps[0];
      Mark(Del, a[ai..p.a]) + Mark(Add, b[bi..p.b]) + [DiffLine(Ctx, a[p.a])] + Emit(a, b, ps[1..], p.a + 1, p.b + 1)
  }

  /** `IsAlignment`, stated along the array, for pairs at or behind (ai, bi). */
  ghost predicate AlignedFrom<T>(ps: seq<Pair>, a: seq<T>, b: seq<T>, ai: nat, bi: nat)
    decreases |ps|
  {
    && ai <= |a| && bi <= |b|
    && (ps != [] ==>
          var p := ps[0];
          && ai <= p.a < |a| && bi <= p.b < |b| && a[p.a] == b[p.b]
          && AlignedFrom(ps[1..], a, b, p.a + 1, p.b + 1))
  }

  lemma {:induction false} AlignmentFrom<T>(ps: seq<Pair>, a: seq<T>, b: seq<T>, ai: nat, bi: nat)
    requires IsAlignment(ps, a, b)
    requires ai <= |a| && bi <= |b| && (ps != [] ==> ai <= ps[0].a && bi <= ps[0].b)
    ensures AlignedFrom(ps, a, b, ai, bi)
    decreases |ps|
  {
    if ps != [] {
      var qs := ps[1..];
      assert forall k :: 0 <= k < |qs| ==> qs[k] == ps[k + 1];
      if qs != [] { assert ps[0].a < ps[1].a && ps[0].b < ps[1].b; }
      AlignmentFrom(qs, a, b, ps[0].a + 1, ps[0].b + 1);
    }
  }

  lemma PairsAligned<T>(a: seq<T>, b: seq<T>)
    ensures AlignedFrom(Pairs(a, b), a, b, 0, 0)
  {
    PairsAreAlignment(a, b);
    AlignmentFrom(Pairs(a, b), a, b, 0, 0);
  }

  lemma EmitPiece<T>(a: seq<T>, b: seq<T>, line: T)
    ensures var d := Mark(Del, a) + Mark(Add, b) + [DiffLine(Ctx, line)];
            OldSide(d) == a + [line] && NewSide(d) == b + [line] && Changed(d) == |a| + |b|
  {
    var l := [DiffLine(Ctx, line)];
    EmitEnd(a, b);
    SidesCat(Mark(Del, a) + Mark(Add, b), l);
    assert l[1..] == [];
  }

  lemma EmitEnd<T>(a: seq<T>, b: seq<T>)
    ensures var d := Mark(Del, a) + Mark(Add, b); OldSide(d) == a && NewSide(d) == b && Changed(d) == |a| + |b|
  {
    MarkSides(Del, a);
    MarkSides(Add, b);
    SidesCat(Mark(Del, a), Mark(Add, b));
  }

  lemma Resplit<T>(s: seq<T>, i: nat, j: nat, r: seq<T>)
    requires i <= j < |s| && r == s[i..j] + [s[j]] + s[j + 1..]
    ensures r == s[i..]
  {
  }

  /** Whatever the alignment, the diff rebuilds both texts and changes every line outside it. */
  lemma {:induction false} EmitIsDiff<T>(a: seq<T>, b: seq<T>, ps: seq<Pair>, ai: nat, bi: nat)
    requires AlignedFrom(ps, a, b, ai, bi)
    ensures IsDiff(Emit(a, b, ps, ai, bi), a[ai..], b[bi..])
    ensures Changed(Emit(a, b, ps, ai, bi)) == |a| - ai + |b| - bi - 2 * |ps|
    decreases |ps|
  {
    hide OldSide, NewSide, Changed, Mark;
    if ps == [] {
      EmitEnd(a[ai..], b[bi..]);
    } else {
      var p := ps[0];
      EmitIsDiff(a, b, ps[1..], p.a + 1, p.b + 1);
      EmitPiece(a[ai..p.a], b[bi..p.b], a[p.a]);
      SidesCat(Mark(Del, a[ai..p.a]) + Mark(Add, b[bi..p.b]) + [DiffLine(Ctx, a[p.a])], Emit(a, b, ps[1..], p.a + 1, p.b + 1));
      Resplit(a, ai, p.a, OldSide(Emit(a, b, ps, ai, bi)));
      Resplit(b, bi, p.b, NewSide(Emit(a, b, ps, ai, bi)));
    }
  }

  /** The diff of two texts from their `lcsPairs`, nothing stripped. */
  ghost function Plain<T>(a: seq<T>, b: seq<T>): seq<DiffLine<T>> {
    PairsAligned(a, b);
    Emit(a, b, Pairs(a, b), 0, 0)
  }

  /** The plain diff is a diff, changing exactly what the LCS leaves. */
  lemma PlainIsDiff<T>(a: seq<T>, b: seq<T>)
    ensures IsDiff(Plain(a, b), a, b)
    ensures Changed(Plain(a, b)) == |a| + |b| - 2 * Len(a, b)
  {
    PairsAligned(a, b);
    PairsAreAlignment(a, b);
    EmitIsDiff(a, b, Pairs(a, b), 0, 0);
    assert a[0..] == a && b[0..] == b;
  }

  /** No diff of the two texts changes fewer lines than the plain one. */
  lemma PlainIsMinimal<T>(a: seq<T>, b: seq<T>, d: seq<DiffLine<T>>)
    requires IsDiff(d, a, b)
    ensures Changed(d) >= Changed(Plain(a, b))
  {
    PlainIsDiff(a, b);
    DiffChangesAtLeast(d);
  }

  // ----- stripping shared ends -----

  /** First index from `n` on at which the two texts differ or one ends. */
  function PrefixFrom<T(==)>(a: seq<T>, b: seq<T>, n: nat): (r: nat)
    requires n <= |a| && n <= |b|
    ensures n <= r <= |a| && r <= |b|
    ensures forall k :: n <= k < r ==> a[k] == b[k]
    ensures r < |a| && r < |b| ==> a[r] != b[r]
    decreases |a| - n
  {
    if n < |a| && n < |b| && a[n] == b[n] then PrefixFrom(a, b, n + 1) else n
  }

  function FromEnd<T>(a: seq<T>, k: nat): T
    requires k < |a|
  {
    a[|a| - 1 - k]
  }

  /** The same from the end, leaving the first `pre` lines of both alone. */
  function SuffixFrom<T(==)>(a: seq<T>, b: seq<T>, pre: nat, n: nat): (r: nat)
    requires pre + n <= |a| && pre + n <= |b|
    ensures n <= r && pre + r <= |a| && pre + r <= |b|
    ensures forall k :: n <= k < r ==> FromEnd(a, k) == FromEnd(b, k)
    ensures pre + r < |a| && pre + r < |b| ==> FromEnd(a, r) != FromEnd(b, r)
    decreases |a| - n
  {
    if pre + n < |a| && pre + n < |b| && FromEnd(a, n) == FromEnd(b, n) then SuffixFrom(a, b, pre, n + 1) else n
  }

  /** The two texts as shared head, two middles, shared tail. */
  datatype Stripped<T> = Stripped(head: seq<T>, a: seq<T>, b: seq<T>, tail: seq<T>)

  ghost function Strip<T>(A: seq<T>, B: seq<T>): Stripped<T> {
    var pre := PrefixFrom(A, B, 0);
    var suf := SuffixFrom(A, B, pre, 0);
    Stripped(A[..pre], A[pre..|A| - suf], B[pre..|B| - suf], A[|A| - suf..])
  }

  lemma TailsEqual<T>(a: seq<T>, b: seq<T>, n: nat)
    requires n <= |a| && n <= |b|
    requires forall k :: 0 <= k < n ==> FromEnd(a, k) == FromEnd(b, k)
    ensures a[|a| - n..] == b[|b| - n..]
  {
    var x, y := a[|a| - n..], b[|b| - n..];
    forall i | 0 <= i < n ensures x[i] == y[i] {
      assert FromEnd(a, n - 1 - i) == FromEnd(b, n - 1 - i);
    }
  }

  lemma ThreeParts<T>(a: seq<T>, i: nat, j: nat)
    requires i <= j <= |a|
    ensures a == a[..i] + a[i..j] + a[j..]
  {
  }

  lemma StripRebuilds<T>(A: seq<T>, B: seq<T>)
    ensures var s := Strip(A, B); A == s.head + s.a + s.tail && B == s.head + s.b + s.tail
  {
    var pre := PrefixFrom(A, B, 0);
    var suf := SuffixFrom(A, B, pre, 0);
    TailsEqual(A, B, suf);
    assert A[..pre] == B[..pre];
    ThreeParts(A, pre, |A| - suf);
    ThreeParts(B, pre, |B| - suf);
  }

  ghost predicate OverCap<T>(s: Stripped<T>) { |s.a| * |s.b| > MAX_DIFF_CELLS }

  /** What `unifiedLineDiff` shows of the two middles. */
  ghost function Middle<T>(s: Stripped<T>): seq<DiffLine<T>> {
    if OverCap(s) then Mark(Del, s.a) + Mark(Add, s.b) else Plain(s.a, s.b)
  }

  /** `unifiedLineDiff` on line arrays. */
  ghost function Unified<T>(A: seq<T>, B: seq<T>): seq<DiffLine<T>> {
    var s := Strip(A, B);
    Mark(Ctx, s.head) + Middle(s) + Mark(Ctx, s.tail)
  }

  lemma FramedSides<T>(head: seq<T>, d: seq<DiffLine<T>>, tail: seq<T>)
    ensures var e := Mark(Ctx, head) + d + Mark(Ctx, tail);
            OldSide(e) == head + OldSide(d) + tail && NewSide(e) == head + NewSide(d) + tail && Changed(e) == Changed(d)
  {
    hide OldSide, NewSide, Changed, Mark;
    MarkSides(Ctx, head);
    MarkSides(Ctx, tail);
    SidesCat(Mark(Ctx, head), d);
    SidesCat(Mark(Ctx, head) + d, Mark(Ctx, tail));
  }

  /** Both renderings rebuild both texts, whichever way the middle was drawn. */
  lemma UnifiedIsDiff<T>(A: seq<T>, B: seq<T>)
    ensures IsDiff(Unified(A, B), A, B)
  {
    var s := Strip(A, B);
    hide OldSide, NewSide, Changed, Mark, Plain, Strip;
    StripRebuilds(A, B);
    FramedSides(s.head, Middle(s), s.tail);
    EmitEnd(s.a, s.b);
    PlainIsDiff(s.a, s.b);
  }

  /** Stripping shared ends takes exactly their length off the LCS. */
  lemma StripEndsLen<T>(head: seq<T>, a: seq<T>, b: seq<T>, tail: seq<T>)
    ensures Len(head + a + tail, head + b + tail) == |head| + Len(a, b) + |tail|
  {
    StripSuffixLen(head + a, head + b, tail);
    StripPrefixLen(head, a, b);
  }

  /** Under the cell cap the shown diff changes exactly what the LCS leaves, as many lines as
      the unstripped one; over the cap the whole middle is shown changed. */
  lemma UnifiedChanges<T>(A: seq<T>, B: seq<T>)
    ensures var s := Strip(A, B);
            |s.a| * |s.b| <= 2_000_000 ==> Changed(Unified(A, B)) == |A| + |B| - 2 * Len(A, B) == Changed(Plain(A, B))
    ensures var s := Strip(A, B);
            |s.a| * |s.b| > 2_000_000 ==> Changed(Unified(A, B)) == |s.a| + |s.b|
  {
    var s := Strip(A, B);
    hide OldSide, NewSide, Changed, Mark, Plain, Strip, Len;
    StripRebuilds(A, B);
    FramedSides(s.head, Middle(s), s.tail);
    EmitEnd(s.a, s.b);
    PlainIsDiff(s.a, s.b);
    PlainIsDiff(A, B);
    StripEndsLen(s.head, s.a, s.b, s.tail);
  }

  /** Under the cell cap no diff of the two texts changes fewer lines than the one shown. */
  lemma UnifiedIsMinimal<T>(A: seq<T>, B: seq<T>, d: seq<DiffLine<T>>)
    requires IsDiff(d, A, B) && |Strip(A, B).a| * |Strip(A, B).b| <= 2_000_000
    ensures Changed(d) >= Changed(Unified(A, B))
  {
    hide OldSide, NewSide, Changed, Strip, Len, Unified;
    UnifiedChanges(A, B);
    DiffChangesAtLeast(d);
  }

  /** The diff shows no change iff the two texts have the same lines. */
  lemma UnifiedSilentIff<T>(A: seq<T>, B: seq<T>)
    ensures Changed(Unified(A, B)) == 0 <==> A == B
  {
    UnifiedIsDiff(A, B);
    if Changed(Unified(A, B)) == 0 { UnchangedSides(Unified(A, B)); }
    if A == B {
      assert PrefixFrom(A, A, 0) == |A|;
      UnifiedChanges(A, A);
      StripRebuilds(A, A);
      StripEndsLen(Strip(A, A).head, Strip(A, A).a, Strip(A, A).b, Strip(A, A).tail);
    }
  }

  lemma {:induction false} UnchangedSides<T>(d: seq<DiffLine<T>>)
    requires Changed(d) == 0
    ensures OldSide(d) == NewSide(d)
  {
    if d != [] { UnchangedSides(d[1..]); }
  }

  // ----- the methods -----

  /** The two cursor loops both renderers run over the pairs. */
  method EmitPairs<T>(a: seq<T>, b: seq<T>, ps: seq<Pair>) returns (out: seq<DiffLine<T>>)
    requires AlignedFrom(ps, a, b, 0, 0)
    ensures out == Emit(a, b, ps, 0, 0)
  {
    hide AlignedFrom, Emit, Mark;
    out := [];
    var ai: nat, bi: nat := 0, 0;
    assert ps[0..] == ps;
    for k := 0 to |ps|
      invariant AlignedFrom(ps[k..], a, b, ai, bi)
      invariant out + Emit(a, b, ps[k..], ai, bi) == Emit(a, b, ps, 0, 0)
    {
      var p := ps[k];
      assert ps[k..][0] == p && ps[k..][1..] == ps[k + 1..];
      EmitStep(a, b, ps[k..], ai, bi, out);
      out := PushMarked(out, Del, a, ai, p.a);
      out := PushMarked(out, Add, b, bi, p.b);
      out := out + [DiffLine(Ctx, a[p.a])];
      ai, bi := p.a + 1, p.b + 1;
    }
    assert ps[|ps|..] == [];
    EmitLast(a, b, ai, bi, out);
    out := PushMarked(out, Del, a, ai, |a|);
    out := PushMarked(out, Add, b, bi, |b|);
  }

  lemma EmitStep<T>(a: seq<T>, b: seq<T>, ps: seq<Pair>, ai: nat, bi: nat, out: seq<DiffLine<T>>)
    requires ps != [] && AlignedFrom(ps, a, b, ai, bi)
    ensures var p := ps[0];
            && ai <= p.a < |a| && bi <= p.b < |b|
            && AlignedFrom(ps[1..], a, b, p.a + 1, p.b + 1)
            && out + Emit(a, b, ps, ai, bi)
               == out + Mark(Del, a[ai..p.a]) + Mark(Add, b[bi..p.b]) + [DiffLine(Ctx, a[p.a])] + Emit(a, b, ps[1..], p.a + 1, p.b + 1)
  {
    hide Mark;
    var p := ps[0];
    CatAssoc(out, Mark(Del, a[ai..p.a]), Mark(Add, b[bi..p.b]), [DiffLine(Ctx, a[p.a])], Emit(a, b, ps[1..], p.a + 1, p.b + 1));
  }

  lemma CatAssoc<T>(o: seq<T>, x: seq<T>, y: seq<T>, z: seq<T>, t: seq<T>)
    ensures o + (x + y + z + t) == o + x + y + z + t
  {
  }

  lemma EmitLast<T>(a: seq<T>, b: seq<T>, ai: nat, bi: nat, out: seq<DiffLine<T>>)
    requires AlignedFrom([], a, b, ai, bi)
    ensures ai <= |a| && bi <= |b|
    ensures out + Emit(a, b, [], ai, bi) == out + Mark(Del, a[ai..|a|]) + Mark(Add, b[bi..|b|])
  {
    assert a[ai..|a|] == a[ai..] && b[bi..|b|] == b[bi..];
    hide Mark;
    assert out + (Mark(Del, a[ai..]) + Mark(Add, b[bi..])) == out + Mark(Del, a[ai..]) + Mark(Add, b[bi..]);
  }

  /** `while (i < j) out.push({ sign, text: s[i++] })`. */
  method PushMarked<T>(out0: seq<DiffLine<T>>, sign: Sign, s: seq<T>, i0: nat, j: nat) returns (out: seq<DiffLine<T>>)
    requires i0 <= j <= |s|
    ensures out == out0 + Mark(sign, s[i0..j])
  {
    out := out0;
    var i := i0;
    while i < j
      invariant i0 <= i <= j
      invariant out == out0 + Mark(sign, s[i0..i])
    {
      MarkSnoc(sign, s, i0, i);
      out := out + [DiffLine(sign, s[i])];
      i := i + 1;
    }
  }

  lemma MarkSnoc<T>(sign: Sign, s: seq<T>, i: nat, j: nat)
    requires i <= j < |s|
    ensures Mark(sign, s[i..j + 1]) == Mark(sign, s[i..j]) + [DiffLine(sign, s[j])]
  {
  }

  /** Lengths of the shared head and tail. */
  method CommonEnds(A: seq<Line>, B: seq<Line>) returns (pre: nat, suf: nat)
    ensures pre == PrefixFrom(A, B, 0) && suf == SuffixFrom(A, B, pre, 0)
  {
    pre := 0;
    while pre < |A| && pre < |B| && A[pre] == B[pre]
      invariant pre <= |A| && pre <= |B|
      invariant PrefixFrom(A, B, pre) == PrefixFrom(A, B, 0)
    {
      pre := pre + 1;
    }
    suf := 0;
    while suf < |A| - pre && suf < |B| - pre && A[|A| - 1 - suf] == B[|B| - 1 - suf]
      invariant pre + suf <= |A| && pre + suf <= |B|
      invariant SuffixFrom(A, B, pre, suf) == SuffixFrom(A, B, pre, 0)
    {
      suf := suf + 1;
    }
  }

  /** The over-cap and the aligned drawing of the two middles. */
  method DrawMiddle(out0: seq<DiffLine<Line>>, midA: seq<Line>, midB: seq<Line>, ghost s: Stripped<Line>) returns (out: seq<DiffLine<Line>>)
    requires s.a == midA && s.b == midB
    ensures out == out0 + Middle(s)
  {
    hide Mark, Emit, AlignedFrom, Pairs;
    if |midA| * |midB| > MAX_DIFF_CELLS {
      assert midA[0..|midA|] == midA && midB[0..|midB|] == midB;
      out := PushMarked(out0, Del, midA, 0, |midA|);
      out := PushMarked(out, Add, midB, 0, |midB|);
      assert out == out0 + (Mark(Del, midA) + Mark(Add, midB));
    } else {
      var pairs := LcsPairs(midA, midB);
      PairsAligned(midA, midB);
      var mid := EmitPairs(midA, midB, pairs);
      out := out0 + mid;
    }
  }

  /** `unifiedLineDiff`, from the two line arrays on. */
  method UnifiedLines(A: seq<Line>, B: seq<Line>) returns (out: seq<DiffLine<Line>>)
    ensures out == Unified(A, B)
  {
    hide Mark, Middle;
    var pre, suf := CommonEnds(A, B);
    assert A[0..pre] == A[..pre] && A[|A| - suf..|A|] == A[|A| - suf..];
    out := PushMarked([], Ctx, A, 0, pre);
    assert out == Mark(Ctx, A[..pre]);
    out := DrawMiddle(out, A[pre..|A| - suf], B[pre..|B| - suf], Strip(A, B));
    out := PushMarked(out, Ctx, A, |A| - suf, |A|);
  }

  /** `unifiedLineDiff`: normalise line ends, drop trailing empty lines, diff. */
  function DiffLines(s: string): seq<Line> { Split(StripTrailingLf(NormEol(s))) }

  /** A text that normalising leaves alone: no CR, no LF at the end. */
  predicate Settled(s: string) { '\r' !in s && (s != "" ==> s[|s| - 1] != '\n') }

  /** Of such a text the lines are those between its LFs. */
  lemma LinesOfSettled(s: string)
    requires Settled(s)
    ensures Join(DiffLines(s)) == s && forall l :: l in DiffLines(s) ==> '\n' !in l
  {
    NormEolKeeps(s);
    assert StripTrailingLf(s) == s;
    JoinSplit(s);
    PiecesHaveNoSeparator(s);
  }

  /** A CRLF counts as an LF wherever it stands, and so does a CR that no LF follows. */
  lemma LinesAcrossLineEnds(a: string, b: string)
    ensures DiffLines(a + "\r\n" + b) == DiffLines(NormEol(a) + "\n" + NormEol(b))
    ensures b == "" || b[0] != '\n' ==> DiffLines(a + "\r" + b) == DiffLines(NormEol(a) + "\n" + NormEol(b))
  {
    var s := NormEol(a) + "\n" + NormEol(b);
    NormEolHasNoCr(a);
    NormEolHasNoCr(b);
    NormEolKeeps(s);
    NormEolAtCrlf(a, b);
    if b == "" || b[0] != '\n' { NormEolAtCr(a, b); }
  }

  /** An LF at the end counts for nothing. */
  lemma LinesWithoutTrailingLf(s: string)
    requires '\r' !in s
    ensures DiffLines(s + "\n") == DiffLines(s)
  {
    NormEolKeeps(s);
    NormEolKeeps(s + "\n");
    assert (s + "\n")[..|s|] == s;
  }

  method UnifiedLineDiff(theirs: string, mine: string) returns (out: seq<DiffLine<Line>>)
    ensures out == Unified(DiffLines(theirs), DiffLines(mine))
    ensures IsDiff(out, DiffLines(theirs), DiffLines(mine))
    ensures Changed(out) == 0 <==> StripTrailingLf(NormEol(theirs)) == StripTrailingLf(NormEol(mine))
    ensures Settled(theirs) ==> Join(OldSide(out)) == theirs
    ensures Settled(mine) ==> Join(NewSide(out)) == mine
    ensures Settled(theirs) && Settled(mine) ==> (Changed(out) == 0 <==> theirs == mine)
  {
    if Settled(theirs) { LinesOfSettled(theirs); }
    if Settled(mine) { LinesOfSettled(mine); }
    out := UnifiedLines(DiffLines(theirs), DiffLines(mine));
    UnifiedIsDiff(DiffLines(theirs), DiffLines(mine));
    UnifiedSilentIff(DiffLines(theirs), DiffLines(mine));
    JoinSplit(StripTrailingLf(NormEol(theirs)));
    JoinSplit(StripTrailingLf(NormEol(mine)));
  }

  /** `lineDiff` of the push preview: nothing stripped, None over the line cap. */
  method PreviewDiff(oldText: string, newText: string) returns (r: Option<seq<DiffLine<Line>>>)
    ensures r.None? <==> |SplitLines(oldText)| + |SplitLines(newText)| > 2000
    ensures r.Some? ==> r.value == Plain(SplitLines(oldText), SplitLines(newText))
    ensures r.Some? ==> Join(OldSide(r.value)) == oldText && Join(NewSide(r.value)) == newText
    ensures r.Some? ==> forall d :: IsDiff(d, SplitLines(oldText), SplitLines(newText)) ==> Changed(d) >= Changed(r.value)
  {
    hide Emit, AlignedFrom, IsAlignment, Pairs, Len, SplitLines, Join;
    var A, B := SplitLines(oldText), SplitLines(newText);
    if |A| + |B| > MAX_DIFF_LINES { return None; }
    var pairs := LcsPairs(A, B);
    PairsAligned(A, B);
    var out := EmitPairs(A, B, pairs);
    PlainIsDiff(A, B);
    JoinSplitLines(oldText);
    JoinSplitLines(newText);
    forall d | IsDiff(d, A, B) ensures Changed(d) >= Changed(out) { PlainIsMinimal(A, B, d); }
    return Some(out);
  }
}
