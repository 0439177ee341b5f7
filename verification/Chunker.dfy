/** Content-defined chunking: a 32-bit rolling gear hash cuts a byte string into bounded
    slices. The cuts are those of a non-rolling test on the last fourteen bytes. */
module Chunker {

  const MIN := 2048
  const MAX := 65536
  const AVG := 16384  // AVG_MASK + 1
  const WINDOW := 14  // AVG == 2^WINDOW
  const TWO32 := 0x1_0000_0000

  type Byte = b: int | 0 <= b < 256

  // ----- 32-bit arithmetic as JavaScript does it -----

  function ToUint32(x: int): (r: nat)
    ensures r < TWO32
  {
    x % TWO32
  }

  function ToInt32(x: int): int {
    if ToUint32(x) >= 0x8000_0000 then ToUint32(x) - TWO32 else ToUint32(x)
  }

  lemma ModAdd(x: int, y: int, k: int, m: int)
    requires m > 0 && x == y + k * m
    ensures x % m == y % m
  {
    var q, r := y / m, y % m;
    assert x == (q + k) * m + r;
    ModOf(x, q + k, r, m);
  }

  lemma ModOf(x: int, q: int, r: int, m: int)
    requires m > 0 && x == q * m + r && 0 <= r < m
    ensures x % m == r
  {
    var d := x / m - q;
    assert x == (x / m) * m + x % m;
    assert d * m == r - x % m;
    MultipleApart(d, m);
  }

  lemma MultipleApart(d: int, m: int)
    requires m > 0
    ensures d > 0 ==> d * m >= m
    ensures d < 0 ==> d * m <= -m
  {
  }

  /** Truncating to a signed word and back loses nothing modulo 2^32. */
  lemma Int32Transparent(x: int, y: int)
    ensures ToUint32(ToInt32(x) + y) == (x + y) % TWO32
  {
    var q := x / TWO32;
    if ToUint32(x) >= 0x8000_0000 {
      ModAdd(x + y, ToInt32(x) + y, q + 1, TWO32);
    } else {
      ModAdd(x + y, ToInt32(x) + y, q, TWO32);
    }
  }

  // ----- the gear table -----

  function Imul(x: int, y: int): int { ToInt32(x * y) }

  /** The generator after `n` steps. */
  function GearState(n: nat): (s: nat)
    ensures s < TWO32
  {
    if n == 0 then 0x1234567 else ToUint32(Imul(GearState(n - 1), 1103515245) + 12345)
  }

  function Gear(b: Byte): nat { GearState(b + 1) }

  /** The generator is the linear congruence modulo 2^32. */
  lemma GearIsCongruential(n: nat)
    ensures GearState(n + 1) == (GearState(n) * 1103515245 + 12345) % TWO32
  {
    Int32Transparent(GearState(n) * 1103515245, 12345);
  }

  lemma FirstGear()
    ensures Gear(0) == 265559828
  {
    GearIsCongruential(0);
    assert GearState(0) == 0x1234567;
  }

  lemma NextGear(b: Byte)
    requires b < 255
    ensures Gear(b + 1) == (Gear(b) * 1103515245 + 12345) % 0x1_0000_0000
  {
    GearIsCongruential(b + 1);
  }

  method FillGear() returns (g: array<nat>)
    ensures fresh(g) && g.Length == 256
    ensures forall b :: 0 <= b < 256 ==> g[b] == Gear(b)
    ensures g[0] == 265559828
    ensures forall b :: 0 <= b < 255 ==> g[b + 1] == (g[b] * 1103515245 + 12345) % 0x1_0000_0000
  {
    g := new nat[256](_ => 0);
    var s: nat := 0x1234567;
    for i := 0 to 256
      invariant s == GearState(i)
      invariant forall b :: 0 <= b < i ==> g[b] == Gear(b)
    {
      s := ToUint32(Imul(s, 1103515245) + 12345);
      g[i] := s;
    }
    FirstGear();
    hide Gear, GearState, Imul;
    forall b | 0 <= b < 255 ensures g[b + 1] == (g[b] * 1103515245 + 12345) % 0x1_0000_0000 {
      NextGear(b);
    }
  }

  // ----- the rolling hash and what its low bits see -----

  /** One step: `((hash << 1) + GEAR[b]) >>> 0`. */
  function Roll(h: nat, b: Byte): (r: nat)
    ensures r < TWO32
  {
    ToUint32(ToInt32(2 * h) + Gear(b))
  }

  /** The hash after a chunk has grown to `s`, from a reset. */
  ghost function Hash(s: seq<Byte>): (r: nat)
    ensures r < TWO32
  {
    if s == [] then 0 else Roll(Hash(s[..|s| - 1]), s[|s| - 1])
  }

  /** The same sum without any truncation: each byte's gear value, doubled once per later byte. */
  ghost function Sum(s: seq<Byte>): nat {
    if s == [] then 0 else 2 * Sum(s[..|s| - 1]) + Gear(s[|s| - 1])
  }

  ghost function Pow2(n: nat): nat { if n == 0 then 1 else 2 * Pow2(n - 1) }

  lemma {:induction false} HashIsSum(s: seq<Byte>)
    ensures Hash(s) == Sum(s) % TWO32
  {
    if s != [] {
      var p, b := s[..|s| - 1], s[|s| - 1];
      HashIsSum(p);
      Int32Transparent(2 * Hash(p), Gear(b));
      var k := Sum(p) / TWO32;
      ModAdd(2 * Sum(p) + Gear(b), 2 * Hash(p) + Gear(b), 2 * k, TWO32);
    }
  }

  lemma {:induction false} SumCat(p: seq<Byte>, w: seq<Byte>)
    ensures Sum(p + w) == Pow2(|w|) * Sum(p) + Sum(w)
    decreases |w|
  {
    if w == [] {
      assert p + w == p;
    } else {
      var w', b := w[..|w| - 1], w[|w| - 1];
      var s := p + w;
      assert s[..|s| - 1] == p + w' && s[|s| - 1] == b;
      SumCat(p, w');
      DoubleOut(Pow2(|w'|), Sum(p), Sum(w'));
    }
  }

  lemma DoubleOut(k: nat, x: nat, y: nat)
    ensures 2 * (k * x + y) == 2 * k * x + 2 * y
  {
  }

  /** Fourteen bytes decide the masked bits, whatever came before them in the chunk. */
  ghost predicate IsBoundary(w: seq<Byte>) { Sum(w) % AVG == 0 }

  lemma LowBitsAreWindowed(s: seq<Byte>)
    requires |s| >= WINDOW
    ensures Hash(s) % AVG == 0 <==> IsBoundary(s[|s| - WINDOW..])
  {
    var p, w := s[..|s| - WINDOW], s[|s| - WINDOW..];
    assert s == p + w;
    SumCat(p, w);
    Pow2Window();
    ModAdd(Sum(s), Sum(w), Sum(p), AVG);
    HashIsSum(s);
    ModAdd(Sum(s), Hash(s), (TWO32 / AVG) * (Sum(s) / TWO32), AVG);
  }

  lemma Pow2Window()
    ensures Pow2(WINDOW) == AVG
  {
    assert Pow2(4) == 16;
    assert Pow2(8) == 256 by { assert Pow2(6) == 64; }
    assert Pow2(12) == 4096 by { assert Pow2(10) == 1024; }
  }

  // ----- where a chunk may end -----

  /** A chunk from `start` may end at `e`: long enough, and at a boundary or full. */
  ghost predicate MayCut(x: seq<Byte>, start: nat, e: nat) {
    && start < e <= |x|
    && e - start >= MIN
    && (e - start >= MAX || IsBoundary(x[e - WINDOW..e]))
  }

  /** The rolling test of the source agrees with the windowed one at every position. */
  lemma RollingTestIsWindowed(x: seq<Byte>, start: nat, e: nat)
    requires start < e <= |x|
    ensures MayCut(x, start, e) <==> e - start >= MIN && (Hash(x[start..e]) % AVG == 0 || e - start >= MAX)
  {
    if e - start >= MIN {
      var s := x[start..e];
      LowBitsAreWindowed(s);
      assert s[|s| - WINDOW..] == x[e - WINDOW..e];
    }
  }

  /** The rule in numbers: from 2048 bytes on a chunk ends where the weighted sum of its last 14
      bytes is a multiple of 16384, and at 65536 bytes in any case. */
  lemma CutRule(x: seq<Byte>, start: nat, e: nat)
    requires start < e <= |x|
    ensures MayCut(x, start, e)
       <==> e - start >= 2048 && (e - start >= 65536 || Sum(x[e - 14..e]) % 16384 == 0)
  {
  }

  /** The first allowed end at or after `e`, none if the input runs out first. */
  ghost function NextCut(x: seq<Byte>, start: nat, e: nat): (r: nat)
    requires start < e
    ensures r == 0 || (e <= r <= |x| && MayCut(x, start, r))
    ensures forall k :: e <= k <= |x| && (r == 0 || k < r) ==> !MayCut(x, start, k)
    decreases |x| + 1 - e
  {
    if e > |x| then 0
    else if MayCut(x, start, e) then e
    else NextCut(x, start, e + 1)
  }

  /** All cut positions, each chunk starting where the last one was cut. */
  ghost function Cuts(x: seq<Byte>, start: nat): seq<nat>
    requires start <= |x|
    decreases |x| - start
  {
    var r := NextCut(x, start, start + 1);
    if r == 0 then [] else [r] + Cuts(x, r)
  }

  /** The slices those cuts give from `start`, the remainder included. */
  ghost function Slices(x: seq<Byte>, start: nat): seq<seq<Byte>>
    requires start <= |x|
    decreases |x| - start
  {
    var r := NextCut(x, start, start + 1);
    if r != 0 then [x[start..r]] + Slices(x, r)
    else if start < |x| then [x[start..]]
    else []
  }

  /** `chunk`'s slices; the empty input is one empty slice. */
  ghost function Chunks(x: seq<Byte>): seq<seq<Byte>> {
    if x == [] then [[]] else Slices(x, 0)
  }

  lemma NextCutIsLeast(x: seq<Byte>, start: nat, r: nat)
    requires start < r && MayCut(x, start, r)
    requires forall k :: start < k < r ==> !MayCut(x, start, k)
    ensures NextCut(x, start, start + 1) == r
    ensures Slices(x, start) == [x[start..r]] + Slices(x, r)
  {
  }

  lemma NoNextCut(x: seq<Byte>, start: nat)
    requires start <= |x| && forall k :: start < k <= |x| ==> !MayCut(x, start, k)
    ensures Slices(x, start) == if start < |x| then [x[start..]] else []
  {
  }

  // ----- the scan -----

  /** The boundary scan of `chunk`: one pass, one running hash. */
  method Chunk(x: seq<Byte>, gear: array<nat>) returns (slices: seq<seq<Byte>>)
    requires gear.Length == 256 && forall b :: 0 <= b < 256 ==> gear[b] == Gear(b)
    ensures slices == Chunks(x)
  {
    hide MayCut, Slices, NextCut, Hash, Gear;
    slices := [];
    var start, hash := 0, 0;
    HashOfNone(x, 0);
    for i := 0 to |x|
      invariant 0 <= start <= i && 0 <= hash
      invariant hash == Hash(x[start..i])
      invariant forall k :: start < k <= i ==> !MayCut(x, start, k)
      invariant slices + Slices(x, start) == Slices(x, 0)
      invariant slices == [] ==> start == 0
    {
      HashGrows(x, start, i);
      hash := ToUint32(ToInt32(2 * hash) + gear[x[i]]);
      var len := i - start + 1;
      RollingTestIsWindowed(x, start, i + 1);
      if len >= MIN && (hash % AVG == 0 || len >= MAX) {
        NextCutIsLeast(x, start, i + 1);
        slices := slices + [x[start..i + 1]];
        start := i + 1;
        hash := 0;
        HashOfNone(x, start);
      }
    }
    NoNextCut(x, start);
    if start < |x| || slices == [] {
      slices := slices + [x[start..]];
    }
  }

  lemma HashOfNone(x: seq<Byte>, i: nat)
    requires i <= |x|
    ensures Hash(x[i..i]) == 0
  {
  }

  lemma HashGrows(x: seq<Byte>, start: nat, i: nat)
    requires start <= i < |x|
    ensures Hash(x[start..i + 1]) == Roll(Hash(x[start..i]), x[i])
  {
    var s := x[start..i + 1];
    assert s[..|s| - 1] == x[start..i];
  }

  // ----- partition -----

  ghost function Concat(ss: seq<seq<Byte>>): seq<Byte> {
    if ss == [] then [] else ss[0] + Concat(ss[1..])
  }

  lemma {:induction false} SlicesPartition(x: seq<Byte>, start: nat)
    requires start <= |x|
    ensures Concat(Slices(x, start)) == x[start..]
    decreases |x| - start
  {
    var r := NextCut(x, start, start + 1);
    if r != 0 {
      SlicesPartition(x, r);
      assert x[start..] == x[start..r] + x[r..];
    } else if start < |x| {
      assert [x[start..]][1..] == [];
    }
  }

  /** The slices, in order, are the input. */
  lemma ChunksPartition(x: seq<Byte>)
    ensures Concat(Chunks(x)) == x
  {
    if x == [] {
      assert Chunks(x)[1..] == [];
    } else {
      SlicesPartition(x, 0);
    }
  }

  lemma {:induction false} SliceLengths(x: seq<Byte>, start: nat, k: nat)
    requires start <= |x| && k < |Slices(x, start)|
    ensures 1 <= |Slices(x, start)[k]| <= MAX
    ensures k + 1 < |Slices(x, start)| ==> |Slices(x, start)[k]| >= MIN
    decreases k
  {
    var r := NextCut(x, start, start + 1);
    if start + MAX <= |x| { assert MayCut(x, start, start + MAX); }
    if r != 0 && k > 0 { SliceLengths(x, r, k - 1); }
  }

  /** Every slice is at most 65536 long and every slice but the last at least 2048; none is empty
      unless the input is. */
  lemma ChunkLengths(x: seq<Byte>, k: nat)
    requires k < |Chunks(x)|
    ensures |Chunks(x)[k]| <= 65536
    ensures x != [] ==> |Chunks(x)[k]| >= 1
    ensures k + 1 < |Chunks(x)| ==> |Chunks(x)[k]| >= 2048
  {
    if x != [] { SliceLengths(x, 0, k); }
  }

  // ----- stability -----

  lemma WindowOfPrefix(x: seq<Byte>, y: seq<Byte>, start: nat, e: nat)
    requires start < e <= |x|
    ensures MayCut(x + y, start, e) <==> MayCut(x, start, e)
  {
    if e - start >= MIN { assert (x + y)[e - WINDOW..e] == x[e - WINDOW..e]; }
  }

  /** Appending bytes keeps every cut already made. */
  lemma {:induction false} CutsOfPrefix(x: seq<Byte>, y: seq<Byte>, start: nat)
    requires start <= |x|
    ensures Cuts(x, start) <= Cuts(x + y, start)
    decreases |x| - start
  {
    var r := NextCut(x, start, start + 1);
    if r != 0 {
      forall k | start < k <= r ensures MayCut(x + y, start, k) <==> MayCut(x, start, k) {
        WindowOfPrefix(x, y, start, k);
      }
      NextCutIsLeast(x + y, start, r);
      CutsOfPrefix(x, y, r);
    }
  }

  lemma MayCutBehind(p: seq<Byte>, s: seq<Byte>, start: nat, e: nat)
    ensures MayCut(p + s, |p| + start, |p| + e) <==> MayCut(s, start, e)
  {
    if start < e <= |s| && e - start >= MIN {
      assert (p + s)[|p| + e - WINDOW..|p| + e] == s[e - WINDOW..e];
    }
  }

  lemma {:induction false} NextCutBehind(p: seq<Byte>, s: seq<Byte>, start: nat, e: nat)
    requires start < e
    ensures NextCut(p + s, |p| + start, |p| + e) == (if NextCut(s, start, e) == 0 then 0 else |p| + NextCut(s, start, e))
    decreases |s| + 1 - e
  {
    if e <= |s| {
      MayCutBehind(p, s, start, e);
      if !MayCut(s, start, e) {
        NextCutBehind(p, s, start, e + 1);
        assert |p| + e + 1 == |p| + (e + 1);
      }
    }
  }

  /** From a cut on, the slices depend only on the bytes behind it. */
  lemma {:induction false} SlicesBehind(p: seq<Byte>, s: seq<Byte>, start: nat)
    requires start <= |s|
    ensures Slices(p + s, |p| + start) == Slices(s, start)
    decreases |s| - start
  {
    var r := NextCut(s, start, start + 1);
    NextCutBehind(p, s, start, start + 1);
    assert |p| + start + 1 == |p| + (start + 1);
    if r != 0 {
      SlicesBehind(p, s, r);
      assert (p + s)[|p| + start..|p| + r] == s[start..r];
    } else {
      assert (p + s)[|p| + start..] == s[start..];
    }
  }

  /** The slices up to a cut, then those from it. */
  lemma {:induction false} SlicesSplitAtCut(x: seq<Byte>, start: nat, c: nat)
    requires start <= |x| && c in Cuts(x, start)
    ensures start < c <= |x|
    ensures exists n: nat :: 0 < n <= |Slices(x, start)| && Concat(Slices(x, start)[..n]) == x[start..c] && Slices(x, start)[n..] == Slices(x, c)
    decreases |x| - start
  {
    var r := NextCut(x, start, start + 1);
    var all := Slices(x, start);
    if c == r {
      var first := all[..1];
      assert first == [x[start..r]];
      assert |first[1..]| == 0;
      assert all[1..] == Slices(x, c);
      assert Concat(all[..1]) == x[start..c];
    } else {
      SlicesSplitAtCut(x, r, c);
      var rest := Slices(x, r);
      var n: nat :| 0 < n <= |rest| && Concat(rest[..n]) == x[r..c] && rest[n..] == Slices(x, c);
      assert all[..n + 1] == [x[start..r]] + rest[..n] && all[..n + 1][1..] == rest[..n];
      assert all[n + 1..] == rest[n..];
      assert x[start..c] == x[start..r] + x[r..c];
    }
  }

  /** Two inputs with a common suffix that are both cut where it starts have the same slices
      from there on, and what precedes them is exactly the two differing parts. */
  lemma CommonSuffixSharesChunks(p: seq<Byte>, q: seq<Byte>, s: seq<Byte>)
    requires |p| in Cuts(p + s, 0) && |q| in Cuts(q + s, 0)
    ensures exists n: nat, m: nat :: 0 < n <= |Chunks(p + s)| && 0 < m <= |Chunks(q + s)|
              && Chunks(p + s)[n..] == Chunks(q + s)[m..]
              && Concat(Chunks(p + s)[..n]) == p && Concat(Chunks(q + s)[..m]) == q
  {
    var n := ChunksFromCut(p, s);
    var m := ChunksFromCut(q, s);
  }

  lemma ChunksFromCut(p: seq<Byte>, s: seq<Byte>) returns (n: nat)
    requires |p| in Cuts(p + s, 0)
    ensures 0 < n <= |Chunks(p + s)|
    ensures Chunks(p + s)[n..] == Slices(s, 0) && Concat(Chunks(p + s)[..n]) == p
  {
    var x := p + s;
    assert Chunks(x) == Slices(x, 0);
    hide Slices, Cuts, Concat, Chunks;
    SlicesSplitAtCut(x, 0, |p|);
    n :| 0 < n <= |Slices(x, 0)| && Concat(Slices(x, 0)[..n]) == x[0..|p|] && Slices(x, 0)[n..] == Slices(x, |p|);
    SlicesBehind(p, s, 0);
    assert x[0..|p|] == p;
  }

  // ----- resynchronisation -----

  /** No cut in the MIN - 1 positions before `e`, and at least MIN bytes since the start. */
  ghost predicate QuietBefore(cuts: seq<nat>, start: nat, e: nat) {
    e - start >= MIN && forall k :: 0 <= k < |cuts| ==> (cuts[k] <= e - MIN || e <= cuts[k])
  }

  /** A boundary is cut unless a cut precedes it by less than MIN. */
  lemma {:induction false} BoundaryIsCut(x: seq<Byte>, start: nat, e: nat)
    requires start <= |x| && start + MIN <= e <= |x|
    requires IsBoundary(x[e - WINDOW..e])
    requires QuietBefore(Cuts(x, start), start, e)
    ensures e in Cuts(x, start)
    decreases |x| - start
  {
    var r := NextCut(x, start, start + 1);
    assert MayCut(x, start, e);
    assert r != 0 && r <= e;
    if r != e {
      var cuts := Cuts(x, start);
      assert cuts[0] == r && cuts[1..] == Cuts(x, r);
      assert forall k :: 0 <= k < |cuts[1..]| ==> cuts[1..][k] == cuts[k + 1];
      BoundaryIsCut(x, r, e);
    }
  }

  /** After an edit, the first boundary in the common suffix that neither chunking has cut
      shortly before brings the two chunkings back together. */
  lemma BoundaryResynchronises(p: seq<Byte>, q: seq<Byte>, s: seq<Byte>, e: nat)
    requires MIN <= e <= |s| && IsBoundary(s[e - WINDOW..e])
    requires QuietBefore(Cuts(p + s, 0), 0, |p| + e) && QuietBefore(Cuts(q + s, 0), 0, |q| + e)
    ensures exists n: nat, m: nat :: 0 < n <= |Chunks(p + s)| && 0 < m <= |Chunks(q + s)|
              && Chunks(p + s)[n..] == Chunks(q + s)[m..]
              && Concat(Chunks(p + s)[..n]) == p + s[..e] && Concat(Chunks(q + s)[..m]) == q + s[..e]
  {
    hide Cuts, Slices, Chunks, Concat, IsBoundary, QuietBefore;
    var n := ChunksBehind(p, s, e);
    var m := ChunksBehind(q, s, e);
  }

  /** The chunks behind a boundary inside the suffix `s` depend on `s` only. */
  lemma ChunksBehind(p: seq<Byte>, s: seq<Byte>, e: nat) returns (n: nat)
    requires MIN <= e <= |s| && IsBoundary(s[e - WINDOW..e])
    requires QuietBefore(Cuts(p + s, 0), 0, |p| + e)
    ensures 0 < n <= |Chunks(p + s)|
    ensures Chunks(p + s)[n..] == Slices(s[e..], 0) && Concat(Chunks(p + s)[..n]) == p + s[..e]
  {
    hide Cuts, Slices, Chunks, Concat, IsBoundary, QuietBefore;
    assert (p + s)[|p| + e - WINDOW..|p| + e] == s[e - WINDOW..e];
    BoundaryIsCut(p + s, 0, |p| + e);
    SplitSuffix(p, s, e);
    n := ChunksFromCut(p + s[..e], s[e..]);
  }

  lemma SplitSuffix(p: seq<Byte>, s: seq<Byte>, e: nat)
    requires e <= |s|
    ensures (p + s[..e]) + s[e..] == p + s && |p + s[..e]| == |p| + e
  {
  }
}
