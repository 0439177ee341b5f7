/** When stripping the shared ends leaves the unified diff line for line as it was. The
    source's comment says always; the code does so exactly when the first line of the shared
    tail no longer occurs where the walk over the middles stopped. */
module StrippedDiff {
  import opened Lcs
  import opened LineDiff

  // ----- reading the alignment back off a diff -----

  ghost function PairsOf<T>(d: seq<DiffLine<T>>, ai: nat, bi: nat): seq<Pair> {
    if d == [] then []
    else match d[0].sign
      case Del => PairsOf(d[1..], ai + 1, bi)
      case Add => PairsOf(d[1..], ai, bi + 1)
      case Ctx => [Pair(ai, bi)] + PairsOf(d[1..], ai + 1, bi + 1)
  }

  lemma {:induction false} PairsOfCat<T>(d: seq<DiffLine<T>>, e: seq<DiffLine<T>>, ai: nat, bi: nat)
    ensures PairsOf(d + e, ai, bi) == PairsOf(d, ai, bi) + PairsOf(e, ai + |OldSide(d)|, bi + |NewSide(d)|)
    decreases |d|
  {
    if d == [] { assert d + e == e; } else {
      assert (d + e)[0] == d[0] && (d + e)[1..] == d[1..] + e;
      assert |OldSide(d)| == |OldSide(d[1..])| + (if d[0].sign == Add then 0 else 1);
      assert |NewSide(d)| == |NewSide(d[1..])| + (if d[0].sign == Del then 0 else 1);
      hide OldSide, NewSide;
      PairsOfCat(d[1..], e, if d[0].sign == Add then ai else ai + 1, if d[0].sign == Del then bi else bi + 1);
    }
  }

  lemma {:induction false} PairsOfMark<T>(sign: Sign, s: seq<T>, ai: nat, bi: nat)
    ensures PairsOf(Mark(sign, s), ai, bi) == if sign == Ctx then Diagonal(ai, bi, |s|) else []
    decreases |s|
  {
    if s != [] {
      var d, rest := Mark(sign, s), Mark(sign, s[1..]);
      assert d[0].sign == sign && d[1..] == rest;
      hide Mark;
      PairsOfMark(sign, s[1..], if sign == Add then ai else ai + 1, if sign == Del then bi else bi + 1);
      DiagonalCons(ai, bi, |s|);
      hide Diagonal;
    }
  }

  lemma DiagonalCons(i: nat, j: nat, n: nat)
    requires n > 0
    ensures Diagonal(i, j, n) == [Pair(i, j)] + Diagonal(i + 1, j + 1, n - 1)
  {
  }

  lemma PairsOfEnd<T>(a: seq<T>, b: seq<T>, ai: nat, bi: nat)
    ensures PairsOf(Mark(Del, a) + Mark(Add, b), ai, bi) == []
  {
    hide PairsOf, Mark, OldSide, NewSide;
    PairsOfMark(Del, a, ai, bi);
    PairsOfMark(Add, b, ai + |a|, bi);
    MarkSides(Del, a);
    PairsOfCat(Mark(Del, a), Mark(Add, b), ai, bi);
  }

  lemma PairsOfPiece<T>(a: seq<T>, b: seq<T>, line: T, ai: nat, bi: nat)
    ensures PairsOf(Mark(Del, a) + Mark(Add, b) + [DiffLine(Ctx, line)], ai, bi) == [Pair(ai + |a|, bi + |b|)]
  {
    var l := [DiffLine(Ctx, line)];
    PairsOfEnd(a, b, ai, bi);
    EmitEnd(a, b);
    PairsOfCat(Mark(Del, a) + Mark(Add, b), l, ai, bi);
    assert l[1..] == [];
    assert PairsOf(l, ai + |a|, bi + |b|) == [Pair(ai + |a|, bi + |b|)];
  }

  /** The alignment can be read off the diff it gives, so different alignments give different diffs. */
  lemma {:induction false} PairsOfEmit<T>(a: seq<T>, b: seq<T>, ps: seq<Pair>, ai: nat, bi: nat)
    requires AlignedFrom(ps, a, b, ai, bi)
    ensures PairsOf(Emit(a, b, ps, ai, bi), ai, bi) == ps
    decreases |ps|
  {
    hide Mark, PairsOf, OldSide, NewSide, Changed;
    if ps == [] {
      PairsOfEnd(a[ai..], b[bi..], ai, bi);
    } else {
      var p := ps[0];
      var piece := Mark(Del, a[ai..p.a]) + Mark(Add, b[bi..p.b]) + [DiffLine(Ctx, a[p.a])];
      PairsOfEmit(a, b, ps[1..], p.a + 1, p.b + 1);
      PairsOfPiece(a[ai..p.a], b[bi..p.b], a[p.a], ai, bi);
      EmitPiece(a[ai..p.a], b[bi..p.b], a[p.a]);
      PairsOfCat(piece, Emit(a, b, ps[1..], p.a + 1, p.b + 1), ai, bi);
    }
  }

  // ----- a diff is determined by its two texts and its alignment -----

  /** Between two context lines, deletions come before additions. */
  ghost predicate DeletionsFirst<T>(d: seq<DiffLine<T>>) {
    forall k :: 0 < k < |d| ==> !(d[k - 1].sign == Add && d[k].sign == Del)
  }

  lemma DeletionsFirstCat<T>(d: seq<DiffLine<T>>, e: seq<DiffLine<T>>)
    requires DeletionsFirst(d) && DeletionsFirst(e)
    requires d != [] && e != [] ==> d[|d| - 1].sign != Add || e[0].sign != Del
    ensures DeletionsFirst(d + e)
  {
    forall k | 0 < k < |d + e| ensures !((d + e)[k - 1].sign == Add && (d + e)[k].sign == Del) {
      if k < |d| { assert (d + e)[k - 1] == d[k - 1]; } else if k > |d| { assert (d + e)[k - 1] == e[k - 1 - |d|]; }
    }
  }

  lemma MarkDeletionsFirst<T>(sign: Sign, s: seq<T>)
    ensures DeletionsFirst(Mark(sign, s))
  {
  }

  lemma {:induction false} EmitDeletionsFirst<T>(a: seq<T>, b: seq<T>, ps: seq<Pair>, ai: nat, bi: nat)
    requires AlignedFrom(ps, a, b, ai, bi)
    ensures DeletionsFirst(Emit(a, b, ps, ai, bi))
    decreases |ps|
  {
    hide DeletionsFirst;
    if ps == [] {
      EndDeletionsFirst(a[ai..], b[bi..]);
    } else {
      var p := ps[0];
      PieceDeletionsFirst(a[ai..p.a], b[bi..p.b], a[p.a]);
      EmitDeletionsFirst(a, b, ps[1..], p.a + 1, p.b + 1);
      DeletionsFirstCat(Mark(Del, a[ai..p.a]) + Mark(Add, b[bi..p.b]) + [DiffLine(Ctx, a[p.a])], Emit(a, b, ps[1..], p.a + 1, p.b + 1));
    }
  }

  lemma EndDeletionsFirst<T>(a: seq<T>, b: seq<T>)
    ensures DeletionsFirst(Mark(Del, a) + Mark(Add, b))
  {
    MarkDeletionsFirst(Del, a);
    MarkDeletionsFirst(Add, b);
    DeletionsFirstCat(Mark(Del, a), Mark(Add, b));
  }

  lemma PieceDeletionsFirst<T>(a: seq<T>, b: seq<T>, line: T)
    ensures DeletionsFirst(Mark(Del, a) + Mark(Add, b) + [DiffLine(Ctx, line)])
  {
    EndDeletionsFirst(a, b);
    DeletionsFirstCat(Mark(Del, a) + Mark(Add, b), [DiffLine(Ctx, line)]);
  }

  lemma {:induction false} PairsOfFrom<T>(d: seq<DiffLine<T>>, ai: nat, bi: nat)
    ensures AllFrom(PairsOf(d, ai, bi), ai, bi)
    decreases |d|
  {
    if d != [] {
      PairsOfFrom(d[1..], if d[0].sign == Add then ai else ai + 1, if d[0].sign == Del then bi else bi + 1);
    }
  }

  /** A diff that opens with an addition keeps every old line ahead of its first pair: there is none. */
  lemma {:induction false} OpensWithAdd<T>(d: seq<DiffLine<T>>, ai: nat, bi: nat)
    requires DeletionsFirst(d) && d != [] && d[0].sign == Add
    ensures PairsOf(d, ai, bi) == [] ==> OldSide(d) == []
    ensures PairsOf(d, ai, bi) != [] ==> PairsOf(d, ai, bi)[0].a == ai
    decreases |d|
  {
    var e := d[1..];
    assert OldSide(d) == OldSide(e);
    if e != [] {
      assert e[0] == d[1];
      DeletionsFirstTail(d);
      if e[0].sign == Add {
        OpensWithAdd(e, ai, bi + 1);
      } else {
        assert PairsOf(e, ai, bi + 1)[0] == Pair(ai, bi + 1);
      }
    }
  }

  lemma DeletionsFirstTail<T>(d: seq<DiffLine<T>>)
    requires DeletionsFirst(d) && d != []
    ensures DeletionsFirst(d[1..])
    ensures |d| > 1 ==> !(d[0].sign == Add && d[1].sign == Del)
  {
    assert forall k :: 0 < k < |d[1..]| ==> d[1..][k - 1] == d[k] && d[1..][k] == d[k + 1];
  }

  lemma {:induction false} DiffDetermined<T>(d: seq<DiffLine<T>>, e: seq<DiffLine<T>>, ai: nat, bi: nat)
    requires DeletionsFirst(d) && DeletionsFirst(e)
    requires OldSide(d) == OldSide(e) && NewSide(d) == NewSide(e)
    requires PairsOf(d, ai, bi) == PairsOf(e, ai, bi)
    ensures d == e
    decreases |d|
  {
    if d == [] || e == [] {
      NoSides(d);
      NoSides(e);
    } else {
      DeletionsFirstTail(d);
      DeletionsFirstTail(e);
      SameOpening(d, e, ai, bi);
      SameRest(d, e);
      PairsBehind(d, ai, bi);
      PairsBehind(e, ai, bi);
      DiffDetermined(d[1..], e[1..], if d[0].sign == Add then ai else ai + 1, if d[0].sign == Del then bi else bi + 1);
      assert d == [d[0]] + d[1..] && e == [e[0]] + e[1..];
    }
  }

  lemma PairsBehind<T>(d: seq<DiffLine<T>>, ai: nat, bi: nat)
    requires d != []
    ensures PairsOf(d[1..], if d[0].sign == Add then ai else ai + 1, if d[0].sign == Del then bi else bi + 1)
         == if d[0].sign == Ctx then PairsOf(d, ai, bi)[1..] else PairsOf(d, ai, bi)
  {
  }

  lemma NoSides<T>(d: seq<DiffLine<T>>)
    ensures OldSide(d) == [] && NewSide(d) == [] <==> d == []
  {
  }

  lemma HeadTells<T>(d: seq<DiffLine<T>>, ai: nat, bi: nat)
    requires DeletionsFirst(d) && d != []
    ensures var ps := PairsOf(d, ai, bi);
            match d[0].sign
            case Ctx => ps != [] && ps[0] == Pair(ai, bi)
            case Del => OldSide(d) != [] && (ps != [] ==> ps[0].a > ai)
            case Add => (ps == [] ==> OldSide(d) == []) && (ps != [] ==> ps[0].a == ai && ps[0].b > bi)
  {
    match d[0].sign
    case Ctx =>
    case Del => PairsOfFrom(d[1..], ai + 1, bi);
    case Add =>
      PairsOfFrom(d[1..], ai, bi + 1);
      OpensWithAdd(d, ai, bi);
  }

  lemma SameOpening<T>(d: seq<DiffLine<T>>, e: seq<DiffLine<T>>, ai: nat, bi: nat)
    requires DeletionsFirst(d) && DeletionsFirst(e) && d != [] && e != []
    requires OldSide(d) == OldSide(e) && NewSide(d) == NewSide(e)
    requires PairsOf(d, ai, bi) == PairsOf(e, ai, bi)
    ensures d[0].sign == e[0].sign
  {
    hide PairsOf, OldSide, NewSide, DeletionsFirst;
    HeadTells(d, ai, bi);
    HeadTells(e, ai, bi);
  }

  lemma SameRest<T>(d: seq<DiffLine<T>>, e: seq<DiffLine<T>>)
    requires d != [] && e != [] && d[0].sign == e[0].sign
    requires OldSide(d) == OldSide(e) && NewSide(d) == NewSide(e)
    ensures d[0] == e[0] && OldSide(d[1..]) == OldSide(e[1..]) && NewSide(d[1..]) == NewSide(e[1..])
  {
    if d[0].sign != Add {
      assert OldSide(d)[0] == d[0].text && OldSide(e)[0] == e[0].text;
      assert OldSide(d)[1..] == OldSide(d[1..]) && OldSide(e)[1..] == OldSide(e[1..]);
    } else {
      assert OldSide(d) == OldSide(d[1..]) && OldSide(e) == OldSide(e[1..]);
    }
    if d[0].sign != Del {
      assert NewSide(d)[0] == d[0].text && NewSide(e)[0] == e[0].text;
      assert NewSide(d)[1..] == NewSide(d[1..]) && NewSide(e)[1..] == NewSide(e[1..]);
    } else {
      assert NewSide(d) == NewSide(d[1..]) && NewSide(e) == NewSide(e[1..]);
    }
  }

  // ----- the walk with and without the shared ends -----

  ghost function ShiftUp(ps: seq<Pair>, p: nat): seq<Pair> {
    seq(|ps|, k requires 0 <= k < |ps| => Pair(ps[k].a + p, ps[k].b + p))
  }

  lemma {:induction false} PairsOfShift<T>(d: seq<DiffLine<T>>, ai: nat, bi: nat, p: nat)
    ensures PairsOf(d, ai + p, bi + p) == ShiftUp(PairsOf(d, ai, bi), p)
    decreases |d|
  {
    if d != [] {
      PairsOfShift(d[1..], if d[0].sign == Add then ai else ai + 1, if d[0].sign == Del then bi else bi + 1, p);
    }
  }

  lemma ShiftUpCons(p: Pair, ps: seq<Pair>, n: nat)
    ensures ShiftUp([p] + ps, n) == [Pair(p.a + n, p.b + n)] + ShiftUp(ps, n)
  {
  }

  /** Below a shared head the walk is the walk of what follows, shifted. */
  lemma {:induction false} WalkShift<T>(h: seq<T>, x: seq<T>, y: seq<T>, i: nat, j: nat)
    requires i <= |x| && j <= |y|
    ensures Walk(h + x, h + y, |h| + i, |h| + j) == ShiftUp(Walk(x, y, i, j), |h|)
    decreases |x| - i + |y| - j
  {
    hide Len, ShiftUp;
    if i == |x| || j == |y| {
      ShiftUpNone(|h|);
    } else {
      assert (h + x)[|h| + i] == x[i] && (h + y)[|h| + j] == y[j];
      WalkStep(x, y, i, j);
      WalkStep(h + x, h + y, |h| + i, |h| + j);
      hide Walk;
      if x[i] == y[j] {
        WalkShift(h, x, y, i + 1, j + 1);
        ShiftUpCons(Pair(i, j), Walk(x, y, i + 1, j + 1), |h|);
      } else {
        SlicesBehind(h, x, i);
        SlicesBehind(h, y, j);
        WalkShift(h, x, y, i + 1, j);
        WalkShift(h, x, y, i, j + 1);
      }
    }
  }

  lemma ShiftUpNone(n: nat)
    ensures ShiftUp([], n) == []
  {
  }

  lemma SlicesBehind<T>(h: seq<T>, x: seq<T>, i: nat)
    requires i < |x|
    ensures (h + x)[|h| + i..] == x[i..] && (h + x)[|h| + i + 1..] == x[i + 1..]
  {
  }

  /** Where the walk stops: one side is used up. */
  ghost function WalkEnd<T>(a: seq<T>, b: seq<T>, i: nat, j: nat): (e: Pair)
    requires i <= |a| && j <= |b|
    ensures i <= e.a <= |a| && j <= e.b <= |b| && (e.a == |a| || e.b == |b|)
    decreases |a| - i + |b| - j
  {
    if i == |a| || j == |b| then Pair(i, j)
    else if a[i] == b[j] then WalkEnd(a, b, i + 1, j + 1)
    else if Len(a[i + 1..], b[j..]) >= Len(a[i..], b[j + 1..]) then WalkEnd(a, b, i + 1, j)
    else WalkEnd(a, b, i, j + 1)
  }

  lemma SuffixStep<T>(a: seq<T>, b: seq<T>, s: seq<T>, i: nat, j: nat)
    requires i <= |a| && j <= |b|
    ensures Len((a + s)[i..], (b + s)[j..]) == Len(a[i..], b[j..]) + |s|
  {
    assert (a + s)[i..] == a[i..] + s && (b + s)[j..] == b[j..] + s;
    StripSuffixLen(a[i..], b[j..], s);
  }

  /** A shared tail does not change the walk until one middle is used up. */
  lemma {:induction false} WalkWithTail<T>(a: seq<T>, b: seq<T>, s: seq<T>, i: nat, j: nat)
    requires i <= |a| && j <= |b|
    ensures var e := WalkEnd(a, b, i, j);
            Walk(a + s, b + s, i, j) == Walk(a, b, i, j) + Walk(a + s, b + s, e.a, e.b)
    decreases |a| - i + |b| - j
  {
    hide Len;
    if i == |a| || j == |b| {
      assert Walk(a, b, i, j) == [];
    } else {
      assert (a + s)[i] == a[i] && (b + s)[j] == b[j];
      WalkStep(a, b, i, j);
      WalkStep(a + s, b + s, i, j);
      hide Walk;
      if a[i] == b[j] {
        WalkWithTail(a, b, s, i + 1, j + 1);
      } else {
        SuffixStep(a, b, s, i + 1, j);
        SuffixStep(a, b, s, i, j + 1);
        if Len(a[i + 1..], b[j..]) >= Len(a[i..], b[j + 1..]) {
          WalkWithTail(a, b, s, i + 1, j);
        } else {
          WalkWithTail(a, b, s, i, j + 1);
        }
      }
    }
  }

  // ----- behind the end of the shorter middle -----

  lemma {:induction false} TailWalkB<T>(a: seq<T>, b: seq<T>, s: seq<T>, j: nat)
    requires j <= |b| && s != []
    ensures s[0] !in b[j..] ==> Walk(a + s, b + s, |a|, j) == Diagonal(|a|, |b|, |s|)
    ensures s[0] in b[j..] ==> Walk(a + s, b + s, |a|, j) != [] && Walk(a + s, b + s, |a|, j)[0].b < |b|
    decreases |b| - j
  {
    var x, y := a + s, b + s;
    assert x[|a|] == s[0];
    if j == |b| {
      WholeTail(a, b, s);
    } else {
      assert y[j] == b[j] && b[j..] == [b[j]] + b[j + 1..];
      if b[j] == s[0] {
        assert Walk(x, y, |a|, j)[0] == Pair(|a|, j);
      } else {
        assert x[|a| + 1..] == s[1..] && x[|a|..] == s && y[j + 1..] == b[j + 1..] + s;
        LenAtMostSides(s[1..], y[j..]);
        LenOfSuffix(b[j + 1..], s);
        hide Len;
        TailWalkB(a, b, s, j + 1);
      }
    }
  }

  lemma {:induction false} TailWalkA<T>(a: seq<T>, b: seq<T>, s: seq<T>, i: nat)
    requires i <= |a| && s != []
    ensures s[0] !in a[i..] ==> Walk(a + s, b + s, i, |b|) == Diagonal(|a|, |b|, |s|)
    ensures s[0] in a[i..] ==> Walk(a + s, b + s, i, |b|) != [] && Walk(a + s, b + s, i, |b|)[0].a < |a|
    decreases |a| - i
  {
    var x, y := a + s, b + s;
    assert y[|b|] == s[0];
    if i == |a| {
      WholeTail(a, b, s);
    } else {
      assert x[i] == a[i] && a[i..] == [a[i]] + a[i + 1..];
      if a[i] == s[0] {
        assert Walk(x, y, i, |b|)[0] == Pair(i, |b|);
      } else {
        assert y[|b| + 1..] == s[1..] && y[|b|..] == s && x[i + 1..] == a[i + 1..] + s;
        LenAtMostSides(x[i..], s[1..]);
        LenOfSuffix(a[i + 1..], s);
        hide Len;
        TailWalkA(a, b, s, i + 1);
      }
    }
  }

  lemma WholeTail<T>(a: seq<T>, b: seq<T>, s: seq<T>)
    ensures Walk(a + s, b + s, |a|, |b|) == Diagonal(|a|, |b|, |s|)
  {
    var x, y := a + s, b + s;
    hide *;
    assert |x| - |a| == |s|;
    assert x[|a|..] == s;
    assert y[|b|..] == s;
    EqualToTheEnd(x, y, |a|, |b|);
    assert Walk(x, y, |a|, |b|) == Diagonal(|a|, |b|, |s|);
  }

  lemma EqualToTheEnd<T>(x: seq<T>, y: seq<T>, i: nat, j: nat)
    requires i <= |x| && j <= |y| && x[i..] == y[j..]
    ensures Walk(x, y, i, j) == Diagonal(i, j, |x| - i)
  {
    var n := |x| - i;
    assert n == |x[i..]| == |y[j..]|;
    assert x[i..i + n] == x[i..] && y[j..j + n] == y[j..];
    WalkThroughEqual(x, y, i, j, n);
  }

  lemma {:induction false} WalkEndIs<T>(a: seq<T>, b: seq<T>, i: nat, j: nat)
    requires i <= |a| && j <= |b|
    ensures var ps := Walk(a, b, i, j);
            var p := if ps == [] then Pair(i, j) else Behind(ps);
            WalkEnd(a, b, i, j) == if p.b < |b| then Pair(|a|, p.b) else p
    decreases |a| - i + |b| - j
  {
    hide Len;
    if i < |a| && j < |b| {
      if a[i] == b[j] {
        WalkEndIs(a, b, i + 1, j + 1);
        BehindCons(Pair(i, j), Walk(a, b, i + 1, j + 1));
      } else if Len(a[i + 1..], b[j..]) >= Len(a[i..], b[j + 1..]) {
        WalkEndIs(a, b, i + 1, j);
      } else {
        WalkEndIs(a, b, i, j + 1);
        WalkLength(a, b, i, j + 1);
        assert Len(a[i..], b[j + 1..]) > 0;
      }
    }
  }

  /** Where the texts go on behind the last pair. */
  ghost function Behind(ps: seq<Pair>): Pair {
    if ps == [] then Pair(0, 0) else Pair(ps[|ps| - 1].a + 1, ps[|ps| - 1].b + 1)
  }

  lemma BehindCons(p: Pair, ps: seq<Pair>)
    ensures Behind([p] + ps) == if ps == [] then Pair(p.a + 1, p.b + 1) else Behind(ps)
  {
  }

  lemma BehindInside<T>(a: seq<T>, b: seq<T>)
    ensures Behind(Pairs(a, b)).a <= |a| && Behind(Pairs(a, b)).b <= |b|
  {
    PairsAreAlignment(a, b);
  }

  /** The lines the walk looks through for the tail: the new lines of the middle behind the last
      pair or, if there are none, the old ones. */
  ghost function Unpaired<T>(a: seq<T>, b: seq<T>): seq<T> {
    var p := Behind(Pairs(a, b));
    BehindInside(a, b);
    if p.b < |b| then b[p.b..] else a[p.a..]
  }

  /** The first line of the shared tail does not stand among them. */
  ghost predicate TailUnseen<T>(s: Stripped<T>) {
    s.tail == [] || s.tail[0] !in Unpaired(s.a, s.b)
  }

  lemma TailUnseenIs<T>(s: Stripped<T>)
    ensures var e := WalkEnd(s.a, s.b, 0, 0);
            TailUnseen(s) <==> s.tail == [] || (s.tail[0] !in s.a[e.a..] && s.tail[0] !in s.b[e.b..])
  {
    WalkEndIs(s.a, s.b, 0, 0);
    BehindInside(s.a, s.b);
  }

  lemma TailWalkIff<T>(s: Stripped<T>)
    ensures var e := WalkEnd(s.a, s.b, 0, 0);
            Walk(s.a + s.tail, s.b + s.tail, e.a, e.b) == Diagonal(|s.a|, |s.b|, |s.tail|) <==> TailUnseen(s)
  {
    var e := WalkEnd(s.a, s.b, 0, 0);
    TailUnseenIs(s);
    hide TailUnseen;
    if s.tail == [] {
      assert s.a + s.tail == s.a && s.b + s.tail == s.b;
    } else {
      assert Diagonal(|s.a|, |s.b|, |s.tail|)[0] == Pair(|s.a|, |s.b|);
      if e.a == |s.a| {
        assert s.a[e.a..] == [];
        TailWalkB(s.a, s.b, s.tail, e.b);
      } else {
        assert s.b[e.b..] == [];
        TailWalkA(s.a, s.b, s.tail, e.a);
      }
    }
  }

  // ----- the two diffs, as alignments of the whole texts -----

  lemma PlainPairs<T>(s: Stripped<T>)
    ensures var A, B, e := s.head + s.a + s.tail, s.head + s.b + s.tail, WalkEnd(s.a, s.b, 0, 0);
            Pairs(A, B) == Diagonal(0, 0, |s.head|)
              + ShiftUp(Pairs(s.a, s.b) + Walk(s.a + s.tail, s.b + s.tail, e.a, e.b), |s.head|)
  {
    var A, B := s.head + s.a + s.tail, s.head + s.b + s.tail;
    hide Len, Walk;
    assert A == s.head + (s.a + s.tail) && B == s.head + (s.b + s.tail);
    assert A[0..0 + |s.head|] == s.head == B[0..0 + |s.head|];
    WalkThroughEqual(A, B, 0, 0, |s.head|);
    WalkShift(s.head, s.a + s.tail, s.b + s.tail, 0, 0);
    WalkWithTail(s.a, s.b, s.tail, 0, 0);
  }

  lemma StrippedPairs<T>(s: Stripped<T>)
    ensures PairsOf(Mark(Ctx, s.head) + Plain(s.a, s.b) + Mark(Ctx, s.tail), 0, 0)
         == Diagonal(0, 0, |s.head|) + ShiftUp(Pairs(s.a, s.b) + Diagonal(|s.a|, |s.b|, |s.tail|), |s.head|)
  {
    var d, h := Plain(s.a, s.b), |s.head|;
    hide PairsOf, OldSide, NewSide, Mark, Changed;
    PairsAligned(s.a, s.b);
    PairsOfEmit(s.a, s.b, Pairs(s.a, s.b), 0, 0);
    hide Emit, Pairs;
    PlainIsDiff(s.a, s.b);
    hide Plain;
    PairsOfMark(Ctx, s.head, 0, 0);
    MarkSides(Ctx, s.head);
    PairsOfCat(Mark(Ctx, s.head), d, 0, 0);
    PairsOfShift(d, 0, 0, h);
    SidesCat(Mark(Ctx, s.head), d);
    PairsOfMark(Ctx, s.tail, h + |s.a|, h + |s.b|);
    PairsOfCat(Mark(Ctx, s.head) + d, Mark(Ctx, s.tail), 0, 0);
    ShiftUpTail(Pairs(s.a, s.b), |s.a|, |s.b|, |s.tail|, h);
    hide ShiftUp, Diagonal;
    Associate(Diagonal(0, 0, h), ShiftUp(Pairs(s.a, s.b), h), Diagonal(h + |s.a|, h + |s.b|, |s.tail|));
  }

  lemma Associate(x: seq<Pair>, y: seq<Pair>, z: seq<Pair>)
    ensures x + y + z == x + (y + z)
  {
  }

  lemma ShiftUpTail(ps: seq<Pair>, i: nat, j: nat, n: nat, h: nat)
    ensures ShiftUp(ps + Diagonal(i, j, n), h) == ShiftUp(ps, h) + Diagonal(h + i, h + j, n)
  {
  }

  lemma ShiftUpInjective(p: seq<Pair>, q: seq<Pair>, n: nat)
    requires ShiftUp(p, n) == ShiftUp(q, n)
    ensures p == q
  {
    assert |p| == |ShiftUp(p, n)| == |ShiftUp(q, n)| == |q|;
    forall k | 0 <= k < |p| ensures p[k] == q[k] { assert ShiftUp(p, n)[k] == ShiftUp(q, n)[k]; }
  }

  lemma CancelHead<T>(h: seq<T>, x: seq<T>, y: seq<T>)
    requires h + x == h + y
    ensures x == y
  {
    assert (h + x)[|h|..] == x && (h + y)[|h|..] == y;
  }

  lemma SamePairsIff<T>(s: Stripped<T>)
    ensures (PairsOf(Mark(Ctx, s.head) + Plain(s.a, s.b) + Mark(Ctx, s.tail), 0, 0)
             == Pairs(s.head + s.a + s.tail, s.head + s.b + s.tail)) <==> TailUnseen(s)
  {
    var e, h := WalkEnd(s.a, s.b, 0, 0), |s.head|;
    var x, y := Diagonal(|s.a|, |s.b|, |s.tail|), Walk(s.a + s.tail, s.b + s.tail, e.a, e.b);
    var ps := Pairs(s.a, s.b);
    hide PairsOf, Mark, Plain, Walk, Pairs, Len, TailUnseen, Diagonal, ShiftUp;
    StrippedPairs(s);
    PlainPairs(s);
    TailWalkIff(s);
    if Diagonal(0, 0, h) + ShiftUp(ps + x, h) == Diagonal(0, 0, h) + ShiftUp(ps + y, h) {
      CancelHead(Diagonal(0, 0, h), ShiftUp(ps + x, h), ShiftUp(ps + y, h));
      ShiftUpInjective(ps + x, ps + y, h);
      CancelHead(ps, x, y);
    }
  }

  lemma UnifiedDeletionsFirst<T>(s: Stripped<T>)
    ensures DeletionsFirst(Mark(Ctx, s.head) + Plain(s.a, s.b) + Mark(Ctx, s.tail))
  {
    var h, d, t := Mark(Ctx, s.head), Plain(s.a, s.b), Mark(Ctx, s.tail);
    PairsAligned(s.a, s.b);
    EmitDeletionsFirst(s.a, s.b, Pairs(s.a, s.b), 0, 0);
    MarkDeletionsFirst(Ctx, s.head);
    MarkDeletionsFirst(Ctx, s.tail);
    DeletionsFirstCat(h, d);
    DeletionsFirstCat(h + d, t);
  }

  /** Below the cell cap the stripped diff is the unstripped one, line for line, exactly when
      the shared tail's first line does not stand, in the middles, among the new lines behind the
      last aligned pair (among the old ones if there are no such new lines). */
  lemma StrippingKeepsTheDiffIff<T>(A: seq<T>, B: seq<T>)
    requires !OverCap(Strip(A, B))
    ensures Unified(A, B) == Plain(A, B) <==> TailUnseen(Strip(A, B))
  {
    var s := Strip(A, B);
    hide Mark, Emit, OldSide, NewSide, PairsOf, Strip, DeletionsFirst, TailUnseen, Pairs, AlignedFrom;
    StripRebuilds(A, B);
    SamePairsIff(s);
    PairsAligned(A, B);
    PairsOfEmit(A, B, Pairs(A, B), 0, 0);
    if TailUnseen(s) {
      UnifiedDeletionsFirst(s);
      EmitDeletionsFirst(A, B, Pairs(A, B), 0, 0);
      UnifiedIsDiff(A, B);
      PlainIsDiff(A, B);
      DiffDetermined(Unified(A, B), Plain(A, B), 0, 0);
    }
  }

  /** What can be checked without aligning: a tail whose first line occurs in neither middle. */
  lemma ForeignTailKeepsTheDiff<T>(A: seq<T>, B: seq<T>)
    requires var s := Strip(A, B); !OverCap(s) && (s.tail == [] || (s.tail[0] !in s.a && s.tail[0] !in s.b))
    ensures Unified(A, B) == Plain(A, B)
  {
    var s := Strip(A, B);
    BehindInside(s.a, s.b);
    assert TailUnseen(s);
    hide TailUnseen, Unified, Plain, Strip, OverCap;
    StrippingKeepsTheDiffIff(A, B);
  }

  lemma PairShowsCommonLine<T>(a: seq<T>, b: seq<T>)
    ensures Pairs(a, b) != [] ==> exists x :: x in a && x in b
  {
    PairsAreAlignment(a, b);
    hide Pairs;
    var ps := Pairs(a, b);
    if ps != [] { assert a[ps[0].a] in a && a[ps[0].a] in b; }
  }

  lemma NoCommonLineNoPair<T>(a: seq<T>, b: seq<T>)
    requires forall x :: x in a ==> x !in b
    ensures Unpaired(a, b) == if b != [] then b else a
  {
    PairShowsCommonLine(a, b);
    hide Pairs;
    assert b[0..] == b && a[0..] == a;
  }

  lemma ExampleStripped(A: seq<string>, B: seq<string>)
    requires A == ["a", "x"] && B == ["b", "x", "x"]
    ensures Strip(A, B) == Stripped([], ["a"], ["b", "x"], ["x"])
  {
    assert PrefixFrom(A, B, 0) == 0;
    assert FromEnd(A, 0) == FromEnd(B, 0) && FromEnd(A, 1) != FromEnd(B, 1);
    assert SuffixFrom(A, B, 0, 1) == 1;
    assert SuffixFrom(A, B, 0, 0) == 1;
    assert A[0..1] == ["a"] && B[0..2] == ["b", "x"] && A[1..] == ["x"];
  }

  /** The comment's claim fails: two texts whose stripped and unstripped diffs differ. */
  lemma StrippingCanChangeTheDiff()
    ensures Unified(["a", "x"], ["b", "x", "x"]) != Plain(["a", "x"], ["b", "x", "x"])
    ensures Changed(Unified(["a", "x"], ["b", "x", "x"])) == Changed(Plain(["a", "x"], ["b", "x", "x"]))
  {
    var A, B := ["a", "x"], ["b", "x", "x"];
    hide Strip, Unified, Plain, Changed, Unpaired;
    ExampleStripped(A, B);
    NoCommonLineNoPair(["a"], ["b", "x"]);
    assert ["b", "x"][1] == "x";
    StrippingKeepsTheDiffIff(A, B);
    UnifiedChanges(A, B);
  }
}
