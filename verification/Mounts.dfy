/** The path algebra of mounts: which local paths a mount claims, the translation between local,
    source and mount-relative paths, and the rules that keep the claims of a mount set disjoint.
    `canon` stands for the canonical form of one segment (NFC, then lower case). */
module Mounts {
  import opened Wrappers
  import opened Text

  datatype Direction = Pull | Sync
  datatype Source = Source(owner: string, vaultId: string, path: string)
  datatype Mount = Mount(source: Source, point: string, direction: Direction)

  type Canon = string -> string

  // ----- folders and their segments -----

  predicate IsBare(seg: string) { seg != "" && seg != "." && seg != ".." }

  function Bare(segs: seq<string>): seq<string> {
    if segs == [] then [] else (if IsBare(segs[0]) then [segs[0]] else []) + Bare(segs[1..])
  }

  function NonEmpty(segs: seq<string>): seq<string> {
    if segs == [] then [] else (if segs[0] != "" then [segs[0]] else []) + NonEmpty(segs[1..])
  }

  /** The bare segments joined by "/". */
  function NormFolder(p: string): string { Join(Bare(Split(p, '/')), '/') }

  /** The segments of a folder; they are the bare segments of `p` itself (`SegmentsAreBare`). */
  function Segs(p: string): seq<string> { NonEmpty(Split(NormFolder(p), '/')) }

  /** Segments as a normalised folder has them. */
  predicate AllBare(segs: seq<string>) { forall s :: s in segs ==> IsBare(s) && '/' !in s }

  lemma {:induction false} BareOf(segs: seq<string>)
    requires forall s :: s in segs ==> '/' !in s
    ensures AllBare(Bare(segs))
  {
    if segs != [] { BareOf(segs[1..]); }
  }

  lemma {:induction false} BareKeeps(segs: seq<string>)
    requires AllBare(segs)
    ensures Bare(segs) == NonEmpty(segs) == segs
  {
    if segs != [] { BareKeeps(segs[1..]); }
  }

  /** Joining bare segments loses nothing: they come back as the folder's segments, and the
      joined text is already normal. */
  lemma SegsOfJoined(segs: seq<string>)
    requires AllBare(segs)
    ensures Segs(Join(segs, '/')) == segs
    ensures NormFolder(Join(segs, '/')) == Join(segs, '/')
  {
    if segs == [] {
      assert Split("", '/') == [""];
      assert Bare([""]) == [] && NonEmpty([""]) == [];
    } else {
      SplitJoin(segs, '/');
      BareKeeps(segs);
    }
  }

  lemma SegmentsAreBare(p: string)
    ensures Segs(p) == Bare(Split(p, '/'))
    ensures AllBare(Segs(p))
    ensures NormFolder(p) == Join(Segs(p), '/')
  {
    PiecesHaveNoSeparator(p, '/');
    BareOf(Split(p, '/'));
    SegsOfJoined(Bare(Split(p, '/')));
  }

  /** Normalising twice is normalising once. */
  lemma NormFolderIdempotent(p: string)
    ensures NormFolder(NormFolder(p)) == NormFolder(p)
    ensures Segs(NormFolder(p)) == Segs(p)
  {
    SegmentsAreBare(p);
    SegsOfJoined(Segs(p));
  }

  lemma {:induction false} BareCat(a: seq<string>, b: seq<string>)
    ensures Bare(a + b) == Bare(a) + Bare(b)
    decreases |a|
  {
    if a == [] {
      assert a + b == b;
    } else {
      assert (a + b)[1..] == a[1..] + b;
      BareCat(a[1..], b);
    }
  }

  /** The segments of every path: a slash separates, and a piece without a slash is one segment
      unless it is empty, "." or "..". */
  lemma SegsAcross(a: string, b: string)
    ensures Segs(a + "/" + b) == Segs(a) + Segs(b)
  {
    SegmentsAreBare(a);
    SegmentsAreBare(b);
    SegmentsAreBare(a + "/" + b);
    hide Segs, NormFolder, Split, Bare;
    SplitAcross(a, b, '/');
    BareCat(Split(a, '/'), Split(b, '/'));
  }

  lemma SegsOfPiece(x: string)
    requires '/' !in x
    ensures Segs(x) == if x == "" || x == "." || x == ".." then [] else [x]
  {
    SegmentsAreBare(x);
    SplitOnePiece(x, '/');
    hide Segs, NormFolder, Split;
  }

  // ----- segment-wise, canonical comparison -----

  predicate UnderOrEqual(canon: Canon, p: seq<string>, prefix: seq<string>) {
    |prefix| <= |p| && forall i :: 0 <= i < |prefix| ==> canon(p[i]) == canon(prefix[i])
  }

  predicate SegsEqual(canon: Canon, a: seq<string>, b: seq<string>) {
    |a| == |b| && UnderOrEqual(canon, a, b)
  }

  /** Every segment in canonical form. */
  ghost function Canonical(canon: Canon, segs: seq<string>): seq<string> {
    seq(|segs|, i requires 0 <= i < |segs| => canon(segs[i]))
  }

  /** Segment-wise, canonical, and from the front: one canonical path starts with the other. */
  lemma UnderIffPrefix(canon: Canon, p: seq<string>, prefix: seq<string>)
    ensures UnderOrEqual(canon, p, prefix) <==> Canonical(canon, prefix) <= Canonical(canon, p)
    ensures SegsEqual(canon, p, prefix) <==> Canonical(canon, prefix) == Canonical(canon, p)
  {
    var x, y := Canonical(canon, prefix), Canonical(canon, p);
    if x <= y {
      forall i | 0 <= i < |prefix| ensures canon(p[i]) == canon(prefix[i]) { assert x[i] == y[i]; }
    }
  }

  predicate Overlap(canon: Canon, a: seq<string>, b: seq<string>) {
    UnderOrEqual(canon, a, b) || UnderOrEqual(canon, b, a)
  }

  predicate Claims(canon: Canon, m: Mount, local: string) {
    Segs(m.point) != [] && UnderOrEqual(canon, Segs(local), Segs(m.point))
  }

  /** A mount claims exactly the paths that, canonically, start with its non-empty mount point. */
  lemma ClaimsIff(canon: Canon, m: Mount, local: string)
    ensures Claims(canon, m, local)
       <==> Segs(m.point) != [] && Canonical(canon, Segs(m.point)) <= Canonical(canon, Segs(local))
  {
    UnderIffPrefix(canon, Segs(local), Segs(m.point));
  }

  /** Two mounts have a common local path exactly when their points overlap. */
  lemma SharedClaimIffOverlap(canon: Canon, m: Mount, n: Mount)
    requires Segs(m.point) != [] && Segs(n.point) != []
    ensures (exists p :: Claims(canon, m, p) && Claims(canon, n, p))
        <==> Overlap(canon, Segs(m.point), Segs(n.point))
  {
    if Overlap(canon, Segs(m.point), Segs(n.point)) {
      var p := if |Segs(m.point)| >= |Segs(n.point)| then m.point else n.point;
      assert Claims(canon, m, p) && Claims(canon, n, p);
    } else {
      forall p | Claims(canon, m, p) ensures !Claims(canon, n, p) {
        if Claims(canon, n, p) { ClaimsOverlap(canon, m, n, p); }
      }
    }
  }

  lemma ClaimsOverlap(canon: Canon, m: Mount, n: Mount, p: string)
    requires Claims(canon, m, p) && Claims(canon, n, p)
    ensures Overlap(canon, Segs(m.point), Segs(n.point))
  {
    var a, b, c := Segs(m.point), Segs(n.point), Segs(p);
    if |a| <= |b| {
      forall i | 0 <= i < |a| ensures canon(b[i]) == canon(a[i]) {
        assert canon(c[i]) == canon(a[i]) && canon(c[i]) == canon(b[i]);
      }
    } else {
      forall i | 0 <= i < |b| ensures canon(a[i]) == canon(b[i]) {
        assert canon(c[i]) == canon(a[i]) && canon(c[i]) == canon(b[i]);
      }
    }
  }

  // ----- the rules for a mount set -----

  datatype Fault =
    | NoPoint(i: int)
    | PointInConfig(i: int)
    | SourceInConfig(i: int)
    | SharedPoint(a: int, b: int)
    | Nested(inner: int, outer: int)

  predicate InConfig(canon: Canon, segs: seq<string>) {
    exists k :: 0 <= k < |segs| && canon(segs[k]) == ".obsidian"
  }

  /** What each message of `validateMounts` says about the set. */
  predicate IsFault(canon: Canon, ms: seq<Mount>, f: Fault) {
    match f
    case NoPoint(i) => 0 <= i < |ms| && Segs(ms[i].point) == []
    case PointInConfig(i) => 0 <= i < |ms| && InConfig(canon, Segs(ms[i].point))
    case SourceInConfig(i) =>
      0 <= i < |ms| && Segs(ms[i].point) != [] && InConfig(canon, Segs(ms[i].source.path))
    case SharedPoint(a, b) =>
      0 <= a < b < |ms| && Segs(ms[a].point) != [] && SegsEqual(canon, Segs(ms[a].point), Segs(ms[b].point))
    case Nested(x, y) =>
      && 0 <= x < |ms| && 0 <= y < |ms| && x != y && Segs(ms[y].point) != []
      && |Segs(ms[y].point)| < |Segs(ms[x].point)|
      && UnderOrEqual(canon, Segs(ms[x].point), Segs(ms[y].point))
  }

  /** The faults of one entry by itself, in the order they are reported. */
  function EntryFaults(canon: Canon, ms: seq<Mount>, i: int): seq<Fault>
    requires 0 <= i < |ms|
  {
    if Segs(ms[i].point) == [] then [NoPoint(i)] else
      (if InConfig(canon, Segs(ms[i].point)) then [PointInConfig(i)] else [])
      + (if InConfig(canon, Segs(ms[i].source.path)) then [SourceInConfig(i)] else [])
  }

  /** The faults of the pair a < b; at most one. */
  function PairFaults(canon: Canon, ms: seq<Mount>, a: int, b: int): seq<Fault>
    requires 0 <= a < b < |ms|
  {
    var x, y := Segs(ms[a].point), Segs(ms[b].point);
    if x == [] || y == [] then []
    else if SegsEqual(canon, x, y) then [SharedPoint(a, b)]
    else if UnderOrEqual(canon, x, y) then [Nested(a, b)]
    else if UnderOrEqual(canon, y, x) then [Nested(b, a)]
    else []
  }

  function FirstEntries(canon: Canon, ms: seq<Mount>, n: int): seq<Fault>
    requires 0 <= n <= |ms|
    decreases n
  {
    if n == 0 then [] else FirstEntries(canon, ms, n - 1) + EntryFaults(canon, ms, n - 1)
  }

  /** The pairs (a, b') with b' < b. */
  function RowFaults(canon: Canon, ms: seq<Mount>, a: int, b: int): seq<Fault>
    requires 0 <= a < b <= |ms|
    decreases b
  {
    if b == a + 1 then [] else RowFaults(canon, ms, a, b - 1) + PairFaults(canon, ms, a, b - 1)
  }

  function FirstRows(canon: Canon, ms: seq<Mount>, a: int): seq<Fault>
    requires 0 <= a <= |ms|
    decreases a
  {
    if a == 0 then [] else FirstRows(canon, ms, a - 1) + RowFaults(canon, ms, a - 1, |ms|)
  }

  /** Every message for a mount set, in the order it is reported. */
  function Faults(canon: Canon, ms: seq<Mount>): seq<Fault> {
    FirstEntries(canon, ms, |ms|) + FirstRows(canon, ms, |ms|)
  }

  method ReportEntries(canon: Canon, ms: seq<Mount>) returns (errs: seq<Fault>)
    ensures errs == FirstEntries(canon, ms, |ms|)
  {
    hide EntryFaults;
    errs := [];
    for i := 0 to |ms|
      invariant errs == FirstEntries(canon, ms, i)
    {
      var found := ReportEntry(canon, ms, i);
      errs := errs + found;
    }
  }

  method ReportEntry(canon: Canon, ms: seq<Mount>, i: int) returns (found: seq<Fault>)
    requires 0 <= i < |ms|
    ensures found == EntryFaults(canon, ms, i)
  {
    hide Segs, InConfig;
    if Segs(ms[i].point) == [] { return [NoPoint(i)]; }
    found := [];
    if InConfig(canon, Segs(ms[i].point)) { found := [PointInConfig(i)]; }
    if InConfig(canon, Segs(ms[i].source.path)) { found := found + [SourceInConfig(i)]; }
  }

  /** The inner loop: point `a` against every later point. */
  method ReportRow(canon: Canon, ms: seq<Mount>, a: int) returns (errs: seq<Fault>)
    requires 0 <= a < |ms|
    ensures errs == RowFaults(canon, ms, a, |ms|)
  {
    hide Segs, SegsEqual, UnderOrEqual;
    errs := [];
    for b := a + 1 to |ms|
      invariant errs == RowFaults(canon, ms, a, b)
    {
      var x, y := Segs(ms[a].point), Segs(ms[b].point);
      if x == [] || y == [] { continue; }
      if SegsEqual(canon, x, y) { errs := errs + [SharedPoint(a, b)]; }
      else if UnderOrEqual(canon, x, y) { errs := errs + [Nested(a, b)]; }
      else if UnderOrEqual(canon, y, x) { errs := errs + [Nested(b, a)]; }
    }
  }

  method ValidateMounts(canon: Canon, ms: seq<Mount>) returns (errs: seq<Fault>)
    ensures errs == Faults(canon, ms)
  {
    var entries := ReportEntries(canon, ms);
    var pairs := [];
    for a := 0 to |ms|
      invariant pairs == FirstRows(canon, ms, a)
    {
      var row := ReportRow(canon, ms, a);
      pairs := pairs + row;
    }
    errs := entries + pairs;
  }

  // ----- a message is reported exactly when what it says is so -----

  predicate OfEntry(f: Fault) { f.NoPoint? || f.PointInConfig? || f.SourceInConfig? }

  /** The pair a fault between two entries is about, smaller index first. */
  function PairOf(f: Fault): (int, int)
    requires !OfEntry(f)
  {
    match f
    case SharedPoint(a, b) => (a, b)
    case Nested(x, y) => if x < y then (x, y) else (y, x)
  }

  lemma EntryFaultsAre(canon: Canon, ms: seq<Mount>, i: int, f: Fault)
    requires 0 <= i < |ms|
    ensures f in EntryFaults(canon, ms, i) <==> IsFault(canon, ms, f) && OfEntry(f) && f.i == i
  {
    hide Segs;
    assert Segs(ms[i].point) == [] ==> !InConfig(canon, Segs(ms[i].point));
  }

  lemma PairFaultsAre(canon: Canon, ms: seq<Mount>, a: int, b: int, f: Fault)
    requires 0 <= a < b < |ms|
    ensures f in PairFaults(canon, ms, a, b) <==> IsFault(canon, ms, f) && !OfEntry(f) && PairOf(f) == (a, b)
  {
    hide Segs;
  }

  lemma {:induction false} FirstEntriesAre(canon: Canon, ms: seq<Mount>, n: int, f: Fault)
    requires 0 <= n <= |ms|
    ensures f in FirstEntries(canon, ms, n) <==> IsFault(canon, ms, f) && OfEntry(f) && f.i < n
    decreases n
  {
    hide Segs, InConfig, EntryFaults;
    if n > 0 {
      FirstEntriesAre(canon, ms, n - 1, f);
      EntryFaultsAre(canon, ms, n - 1, f);
    }
  }

  lemma {:induction false} RowFaultsAre(canon: Canon, ms: seq<Mount>, a: int, b: int, f: Fault)
    requires 0 <= a < b <= |ms|
    ensures f in RowFaults(canon, ms, a, b)
       <==> IsFault(canon, ms, f) && !OfEntry(f) && PairOf(f).0 == a && PairOf(f).1 < b
    decreases b
  {
    hide IsFault, PairFaults;
    if b > a + 1 {
      RowFaultsAre(canon, ms, a, b - 1, f);
      PairFaultsAre(canon, ms, a, b - 1, f);
    } else {
      PairIsOrdered(canon, ms, f);
    }
  }

  lemma PairIsOrdered(canon: Canon, ms: seq<Mount>, f: Fault)
    ensures IsFault(canon, ms, f) && !OfEntry(f) ==> 0 <= PairOf(f).0 < PairOf(f).1 < |ms|
  {
    hide Segs;
  }

  lemma {:induction false} FirstRowsAre(canon: Canon, ms: seq<Mount>, a: int, f: Fault)
    requires 0 <= a <= |ms|
    ensures f in FirstRows(canon, ms, a) <==> IsFault(canon, ms, f) && !OfEntry(f) && PairOf(f).0 < a
    decreases a
  {
    hide IsFault, RowFaults;
    PairIsOrdered(canon, ms, f);
    if a > 0 {
      FirstRowsAre(canon, ms, a - 1, f);
      RowFaultsAre(canon, ms, a - 1, |ms|, f);
    }
  }

  /** A message is reported if and only if what it says is so. */
  lemma ReportedIffFault(canon: Canon, ms: seq<Mount>, f: Fault)
    ensures f in Faults(canon, ms) <==> IsFault(canon, ms, f)
  {
    hide IsFault, FirstEntries, FirstRows;
    FirstEntriesAre(canon, ms, |ms|, f);
    FirstRowsAre(canon, ms, |ms|, f);
    EntryIndex(canon, ms, f);
    PairIsOrdered(canon, ms, f);
  }

  lemma EntryIndex(canon: Canon, ms: seq<Mount>, f: Fault)
    ensures IsFault(canon, ms, f) && OfEntry(f) ==> 0 <= f.i < |ms|
  {
    hide Segs;
  }

  // ----- the accepted subset -----

  /** An entry that is acceptable by itself. */
  predicate Sound(canon: Canon, m: Mount) {
    && Segs(m.point) != []
    && !InConfig(canon, Segs(m.point))
    && !InConfig(canon, Segs(m.source.path))
  }

  /** Sound: a mount point, and no segment of it or of the source folder that is, canonically, the
      configuration folder. */
  lemma SoundIff(canon: Canon, m: Mount)
    ensures Sound(canon, m)
       <==> Segs(m.point) != []
            && ".obsidian" !in Canonical(canon, Segs(m.point)) && ".obsidian" !in Canonical(canon, Segs(m.source.path))
  {
    hide Segs;
    InConfigIff(canon, Segs(m.point));
    InConfigIff(canon, Segs(m.source.path));
  }

  lemma InConfigIff(canon: Canon, segs: seq<string>)
    ensures InConfig(canon, segs) <==> ".obsidian" in Canonical(canon, segs)
  {
    if InConfig(canon, segs) {
      var k :| 0 <= k < |segs| && canon(segs[k]) == ".obsidian";
      assert Canonical(canon, segs)[k] == ".obsidian";
    }
  }

  /** Every entry sound, and no two points overlapping. */
  ghost predicate Disjoint(canon: Canon, ms: seq<Mount>) {
    && (forall i :: 0 <= i < |ms| ==> Sound(canon, ms[i]))
    && (forall a, b :: 0 <= a < b < |ms| ==> !Overlap(canon, Segs(ms[a].point), Segs(ms[b].point)))
  }

  lemma NoFaultsIffDisjoint(canon: Canon, ms: seq<Mount>)
    ensures Faults(canon, ms) == [] <==> Disjoint(canon, ms)
  {
    hide Segs, Faults;
    if Faults(canon, ms) == [] {
      forall i | 0 <= i < |ms| ensures Sound(canon, ms[i]) {
        ReportedIffFault(canon, ms, NoPoint(i));
        ReportedIffFault(canon, ms, PointInConfig(i));
        ReportedIffFault(canon, ms, SourceInConfig(i));
      }
      forall a, b | 0 <= a < b < |ms| ensures !Overlap(canon, Segs(ms[a].point), Segs(ms[b].point)) {
        ReportedIffFault(canon, ms, SharedPoint(a, b));
        ReportedIffFault(canon, ms, Nested(a, b));
        ReportedIffFault(canon, ms, Nested(b, a));
        assert Sound(canon, ms[a]) && Sound(canon, ms[b]);
        OverlapIsPairFault(canon, ms, a, b);
      }
    } else if Disjoint(canon, ms) {
      var f := Faults(canon, ms)[0];
      ReportedIffFault(canon, ms, f);
      DisjointHasNoFault(canon, ms, f);
    }
  }

  lemma OverlapIsPairFault(canon: Canon, ms: seq<Mount>, a: int, b: int)
    requires 0 <= a < b < |ms| && Segs(ms[a].point) != [] && Segs(ms[b].point) != []
    ensures Overlap(canon, Segs(ms[a].point), Segs(ms[b].point))
       <==> IsFault(canon, ms, SharedPoint(a, b)) || IsFault(canon, ms, Nested(a, b)) || IsFault(canon, ms, Nested(b, a))
  {
    hide Segs;
    var x, y := Segs(ms[a].point), Segs(ms[b].point);
    if |x| == |y| { assert UnderOrEqual(canon, y, x) ==> UnderOrEqual(canon, x, y); }
  }

  lemma DisjointHasNoFault(canon: Canon, ms: seq<Mount>, f: Fault)
    requires Disjoint(canon, ms)
    ensures !IsFault(canon, ms, f)
  {
    hide Segs, InConfig, UnderOrEqual;
    PairIsOrdered(canon, ms, f);
  }

  /** `m` can join the accepted mounts. */
  predicate Fits(canon: Canon, ok: seq<Mount>, m: Mount) {
    && Sound(canon, m)
    && forall o :: o in ok ==> !Overlap(canon, Segs(m.point), Segs(o.point))
  }

  /** The greedy choice among the first `n`, in order. */
  function AcceptedOf(canon: Canon, ms: seq<Mount>, n: int): (ok: seq<Mount>)
    requires 0 <= n <= |ms|
    decreases n
  {
    if n == 0 then [] else
      var ok := AcceptedOf(canon, ms, n - 1);
      if Fits(canon, ok, ms[n - 1]) then ok + [ms[n - 1]] else ok
  }

  function Accepted(canon: Canon, ms: seq<Mount>): seq<Mount> { AcceptedOf(canon, ms, |ms|) }

  method ValidMounts(canon: Canon, ms: seq<Mount>) returns (ok: seq<Mount>)
    ensures ok == Accepted(canon, ms)
  {
    hide Segs, InConfig, Overlap;
    ok := [];
    for n := 0 to |ms|
      invariant ok == AcceptedOf(canon, ms, n)
    {
      var m := ms[n];
      if Segs(m.point) == [] { continue; }
      if InConfig(canon, Segs(m.point)) { continue; }
      if InConfig(canon, Segs(m.source.path)) { continue; }
      if exists o :: o in ok && Overlap(canon, Segs(m.point), Segs(o.point)) { continue; }
      ok := ok + [m];
    }
  }

  lemma FitsKeepsDisjoint(canon: Canon, ok: seq<Mount>, m: Mount)
    requires Disjoint(canon, ok)
    ensures Fits(canon, ok, m) <==> Disjoint(canon, ok + [m])
  {
    hide Segs, InConfig, UnderOrEqual;
    var all := ok + [m];
    if Disjoint(canon, all) {
      assert Sound(canon, all[|ok|]);
      forall o | o in ok ensures !Overlap(canon, Segs(m.point), Segs(o.point)) {
        var i :| 0 <= i < |ok| && ok[i] == o;
        assert !Overlap(canon, Segs(all[i].point), Segs(all[|ok|].point));
      }
    }
  }

  lemma {:induction false} ChoiceIsDisjoint(canon: Canon, ms: seq<Mount>, n: int)
    requires 0 <= n <= |ms|
    ensures Disjoint(canon, AcceptedOf(canon, ms, n))
    decreases n
  {
    hide Fits, Segs;
    if n > 0 {
      ChoiceIsDisjoint(canon, ms, n - 1);
      FitsKeepsDisjoint(canon, AcceptedOf(canon, ms, n - 1), ms[n - 1]);
    }
  }

  /** The accepted mounts break no rule. */
  lemma AcceptedAreDisjoint(canon: Canon, ms: seq<Mount>)
    ensures Disjoint(canon, Accepted(canon, ms))
    ensures Faults(canon, Accepted(canon, ms)) == []
  {
    hide Faults, Disjoint;
    ChoiceIsDisjoint(canon, ms, |ms|);
    NoFaultsIffDisjoint(canon, Accepted(canon, ms));
  }

  /** No accepted mount has the configuration folder anywhere in its point or its source. */
  lemma AcceptedAvoidConfig(canon: Canon, ms: seq<Mount>, m: Mount)
    requires m in Accepted(canon, ms)
    ensures Segs(m.point) != []
    ensures ".obsidian" !in Canonical(canon, Segs(m.point)) && ".obsidian" !in Canonical(canon, Segs(m.source.path))
  {
    hide Segs, InConfig, Canonical, Accepted, Overlap, Faults;
    AcceptedAreDisjoint(canon, ms);
    SoundIff(canon, m);
  }

  /** `ks` lists, in increasing order, the positions of `ms` that make up `ok`. */
  predicate Selects(ms: seq<Mount>, ks: seq<int>, ok: seq<Mount>) {
    && |ks| == |ok|
    && (forall j :: 0 <= j < |ks| ==> 0 <= ks[j] < |ms| && ok[j] == ms[ks[j]])
    && (forall i, j :: 0 <= i < j < |ks| ==> ks[i] < ks[j])
  }

  /** The positions the greedy choice takes. */
  function Positions(canon: Canon, ms: seq<Mount>, n: int): (ks: seq<int>)
    requires 0 <= n <= |ms|
    ensures forall j :: 0 <= j < |ks| ==> 0 <= ks[j] < n
    decreases n
  {
    if n == 0 then [] else
      var ks := Positions(canon, ms, n - 1);
      if Fits(canon, AcceptedOf(canon, ms, n - 1), ms[n - 1]) then ks + [n - 1] else ks
  }

  /** The accepted mounts are entries of the input, each once and in their order. */
  lemma {:induction false} PositionsSelect(canon: Canon, ms: seq<Mount>, n: int)
    requires 0 <= n <= |ms|
    ensures Selects(ms, Positions(canon, ms, n), AcceptedOf(canon, ms, n))
    decreases n
  {
    hide Fits;
    if n > 0 { PositionsSelect(canon, ms, n - 1); }
  }

  lemma {:induction false} ChoiceIsMaximal(canon: Canon, ms: seq<Mount>, n: int, i: int)
    requires 0 <= i < n <= |ms|
    ensures !Disjoint(canon, AcceptedOf(canon, ms, n) + [ms[i]])
    decreases n
  {
    hide Fits, Disjoint;
    var was := AcceptedOf(canon, ms, n - 1);
    if i < n - 1 {
      ChoiceIsMaximal(canon, ms, n - 1, i);
      GrowthKeepsOut(canon, was, ms[n - 1], ms[i], AcceptedOf(canon, ms, n));
    } else {
      ChoiceIsDisjoint(canon, ms, n - 1);
      LastIsOut(canon, was, ms[i]);
    }
  }

  /** Maximality: no entry of the input could be added to the accepted ones. */
  lemma AcceptedIsMaximal(canon: Canon, ms: seq<Mount>, i: int)
    requires 0 <= i < |ms|
    ensures Faults(canon, Accepted(canon, ms) + [ms[i]]) != []
  {
    hide Faults, Disjoint;
    ChoiceIsMaximal(canon, ms, |ms|, i);
    NoFaultsIffDisjoint(canon, Accepted(canon, ms) + [ms[i]]);
  }

  lemma GrowthKeepsOut(canon: Canon, was: seq<Mount>, n: Mount, m: Mount, now: seq<Mount>)
    requires now == was || now == was + [n]
    requires !Disjoint(canon, was + [m])
    ensures !Disjoint(canon, now + [m])
  {
    hide Disjoint;
    if now == was + [n] && Disjoint(canon, was + [n] + [m]) { StaysOut(canon, was, n, m); }
  }

  lemma LastIsOut(canon: Canon, was: seq<Mount>, m: Mount)
    requires Disjoint(canon, was)
    ensures !Disjoint(canon, (if Fits(canon, was, m) then was + [m] else was) + [m])
  {
    hide Disjoint, Fits;
    FitsKeepsDisjoint(canon, was, m);
    TwiceOverlaps(canon, was, m);
  }

  lemma StaysOut(canon: Canon, ok: seq<Mount>, n: Mount, m: Mount)
    requires Disjoint(canon, ok + [n] + [m])
    ensures Disjoint(canon, ok + [m])
  {
    hide Disjoint, Sound, Overlap;
    PrefixOfDisjoint(canon, ok + [n], m);
    PrefixOfDisjoint(canon, ok, n);
    FitsKeepsDisjoint(canon, ok + [n], m);
    FitsKeepsDisjoint(canon, ok, m);
  }

  lemma TwiceOverlaps(canon: Canon, ok: seq<Mount>, m: Mount)
    ensures !Disjoint(canon, ok + [m] + [m])
  {
    hide Segs, InConfig;
    var all := ok + [m] + [m];
    assert all[|ok|] == all[|ok| + 1] == m;
    assert Overlap(canon, Segs(m.point), Segs(m.point));
  }

  lemma PrefixOfDisjoint(canon: Canon, ok: seq<Mount>, m: Mount)
    requires Disjoint(canon, ok + [m])
    ensures Disjoint(canon, ok)
  {
    hide Segs, InConfig, UnderOrEqual;
    var all := ok + [m];
    assert forall i :: 0 <= i < |ok| ==> all[i] == ok[i];
  }

  lemma {:induction false} DisjointIsKept(canon: Canon, ms: seq<Mount>, n: int)
    requires 0 <= n <= |ms| && Disjoint(canon, ms[..n])
    ensures AcceptedOf(canon, ms, n) == ms[..n]
    decreases n
  {
    hide Fits, Disjoint;
    if n > 0 {
      assert ms[..n] == ms[..n - 1] + [ms[n - 1]];
      PrefixOfDisjoint(canon, ms[..n - 1], ms[n - 1]);
      DisjointIsKept(canon, ms, n - 1);
      FitsKeepsDisjoint(canon, ms[..n - 1], ms[n - 1]);
    }
  }

  /** Nothing is dropped if and only if the whole set breaks no rule. */
  lemma NothingDroppedIffNoFaults(canon: Canon, ms: seq<Mount>)
    ensures Accepted(canon, ms) == ms <==> Faults(canon, ms) == []
  {
    hide Faults, Disjoint;
    NoFaultsIffDisjoint(canon, ms);
    AcceptedAreDisjoint(canon, ms);
    assert ms[..|ms|] == ms;
    if Disjoint(canon, ms) { DisjointIsKept(canon, ms, |ms|); }
  }

  // ----- who owns a local path -----

  predicate PrimaryExcludes(canon: Canon, ms: seq<Mount>, local: string) {
    exists i :: 0 <= i < |ms| && Claims(canon, ms[i], local)
  }

  /** The primary scope leaves out exactly the paths some mount claims. */
  lemma PrimaryExcludesIff(canon: Canon, ms: seq<Mount>, local: string)
    ensures PrimaryExcludes(canon, ms, local)
       <==> exists m :: m in ms && Segs(m.point) != [] && Canonical(canon, Segs(m.point)) <= Canonical(canon, Segs(local))
  {
    hide Segs, Claims, Canonical;
    forall m ensures Claims(canon, m, local)
        <==> Segs(m.point) != [] && Canonical(canon, Segs(m.point)) <= Canonical(canon, Segs(local)) {
      ClaimsIff(canon, m, local);
    }
    if m :| m in ms && Claims(canon, m, local) {
      var i :| 0 <= i < |ms| && ms[i] == m;
    }
  }

  /** Among mounts that break no rule, no local path belongs to two. */
  lemma ClaimedByOneMount(canon: Canon, ms: seq<Mount>, a: int, b: int, local: string)
    requires Faults(canon, ms) == []
    requires 0 <= a < |ms| && 0 <= b < |ms|
    requires Claims(canon, ms[a], local) && Claims(canon, ms[b], local)
    ensures a == b
  {
    hide Segs, InConfig, UnderOrEqual, Faults;
    NoFaultsIffDisjoint(canon, ms);
    if a != b {
      ClaimsOverlap(canon, ms[a], ms[b], local);
      ClaimsOverlap(canon, ms[b], ms[a], local);
    }
  }

  /** The mount to force a full pass for: the first that claims the path, unless the event is the
      echo of the mount's own write. */
  function NudgeTarget(canon: Canon, ms: seq<Mount>, local: string, isSelfEcho: string -> bool): Option<Mount> {
    if ms == [] then None
    else if !Claims(canon, ms[0], local) then NudgeTarget(canon, ms[1..], local, isSelfEcho)
    else if isSelfEcho(local) then None
    else Some(ms[0])
  }

  /** For mounts that break no rule the target does not depend on the order of the set: it is the
      claiming mount, and a path outside every mount never nudges. */
  lemma {:induction false} NudgeFindsTheClaimant(canon: Canon, ms: seq<Mount>, a: int, local: string, isSelfEcho: string -> bool)
    requires Disjoint(canon, ms)
    ensures !PrimaryExcludes(canon, ms, local) ==> NudgeTarget(canon, ms, local, isSelfEcho) == None
    ensures 0 <= a < |ms| && Claims(canon, ms[a], local)
        ==> NudgeTarget(canon, ms, local, isSelfEcho) == if isSelfEcho(local) then None else Some(ms[a])
    decreases |ms|
  {
    hide Segs, InConfig, UnderOrEqual, Sound;
    if ms == [] { return; }
    if !Claims(canon, ms[0], local) {
      assert Disjoint(canon, ms[1..]);
      NudgeFindsTheClaimant(canon, ms[1..], a - 1, local, isSelfEcho);
    } else if 0 < a < |ms| && Claims(canon, ms[a], local) {
      ClaimsOverlap(canon, ms[0], ms[a], local);
    }
  }

  // ----- translation between local, source and mount-relative paths -----

  /** The mount-relative part of a local path, in the path's own spelling. */
  function RelFromLocal(canon: Canon, m: Mount, local: string): Option<string> {
    var mp, p := Segs(m.point), Segs(local);
    if mp == [] then None
    else if UnderOrEqual(canon, p, mp) then Some(Join(p[|mp|..], '/'))
    else None
  }

  function RelFromSource(canon: Canon, m: Mount, path: string): Option<string> {
    var sp, p := Segs(m.source.path), Segs(path);
    if sp == [] then Some(Join(p, '/'))
    else if UnderOrEqual(canon, p, sp) then Some(Join(p[|sp|..], '/'))
    else None
  }

  /** A mount-relative path under a folder, which may be the root. */
  function Under(folder: string, rel: string): string {
    var f, r := NormFolder(folder), NormFolder(rel);
    if r == "" then f else if f == "" then r else f + "/" + r
  }

  function LocalFromRel(m: Mount, rel: string): string { Under(m.point, rel) }

  function SourceFromRel(m: Mount, rel: string): string { Under(m.source.path, rel) }

  lemma {:induction false} JoinConcat(a: seq<string>, b: seq<string>)
    requires a != [] && b != []
    ensures Join(a + b, '/') == Join(a, '/') + "/" + Join(b, '/')
  {
    if |a| > 1 {
      JoinConcat(a[1..], b);
      assert (a + b)[1..] == a[1..] + b;
    } else {
      assert (a + b)[1..] == b;
    }
  }

  lemma JoinOfBare(a: seq<string>)
    requires AllBare(a)
    ensures Join(a, '/') == "" <==> a == []
  {
    if |a| > 0 { assert IsBare(a[0]); }
  }

  /** The segments of a path built under a folder. */
  lemma SegsOfUnder(folder: string, rel: string)
    ensures Segs(Under(folder, rel)) == Segs(folder) + Segs(rel)
    ensures Under(folder, rel) == Join(Segs(folder) + Segs(rel), '/')
  {
    var f, r := Segs(folder), Segs(rel);
    SegmentsAreBare(folder);
    SegmentsAreBare(rel);
    JoinOfBare(f);
    JoinOfBare(r);
    if f != [] && r != [] { JoinConcat(f, r); }
    assert r == [] ==> f + r == f;
    assert f == [] ==> f + r == r;
    SegsOfJoined(f + r);
  }

  /** Outward and back: the mount-relative path, normalised. */
  lemma RelOfLocal(canon: Canon, m: Mount, rel: string)
    requires Segs(m.point) != []
    ensures RelFromLocal(canon, m, LocalFromRel(m, rel)) == Some(NormFolder(rel))
  {
    SegsOfUnder(m.point, rel);
    SegmentsAreBare(rel);
    hide Segs, NormFolder, Under;
    assert (Segs(m.point) + Segs(rel))[|Segs(m.point)|..] == Segs(rel);
  }

  lemma RelOfSource(canon: Canon, m: Mount, rel: string)
    ensures RelFromSource(canon, m, SourceFromRel(m, rel)) == Some(NormFolder(rel))
  {
    SegsOfUnder(m.source.path, rel);
    SegmentsAreBare(rel);
    hide Segs, NormFolder, Under;
    assert (Segs(m.source.path) + Segs(rel))[|Segs(m.source.path)|..] == Segs(rel);
  }

  /** Inward and back: the same path up to canonical form, and the very path, normalised,
      exactly when it spells the folder as the mount does. */
  lemma LocalOfRel(canon: Canon, m: Mount, local: string, rel: string)
    requires RelFromLocal(canon, m, local) == Some(rel)
    ensures Canonical(canon, Segs(LocalFromRel(m, rel))) == Canonical(canon, Segs(local))
    ensures LocalFromRel(m, rel) == NormFolder(local) <==> Segs(m.point) <= Segs(local)
  {
    BackUnder(canon, m.point, local);
  }

  lemma SourceOfRel(canon: Canon, m: Mount, path: string, rel: string)
    requires RelFromSource(canon, m, path) == Some(rel)
    ensures Canonical(canon, Segs(SourceFromRel(m, rel))) == Canonical(canon, Segs(path))
    ensures SourceFromRel(m, rel) == NormFolder(path) <==> Segs(m.source.path) <= Segs(path)
  {
    assert Segs(m.source.path) == [] ==> Segs(path)[0..] == Segs(path);
    BackUnder(canon, m.source.path, path);
  }

  /** Bare segments are told apart by their joined text. */
  lemma JoinInjective(a: seq<string>, b: seq<string>)
    requires AllBare(a) && AllBare(b) && Join(a, '/') == Join(b, '/')
    ensures a == b
  {
    SegsOfJoined(a);
    SegsOfJoined(b);
  }

  /** The segments of a path rebuilt under a folder from what is behind the folder. */
  lemma SegsOfBack(folder: string, path: string)
    requires |Segs(folder)| <= |Segs(path)|
    ensures var rest := Segs(path)[|Segs(folder)|..];
      var back := Under(folder, Join(rest, '/'));
      && AllBare(Segs(folder) + rest) && AllBare(Segs(path))
      && Segs(back) == Segs(folder) + rest
      && back == Join(Segs(folder) + rest, '/')
      && NormFolder(path) == Join(Segs(path), '/')
  {
    SegmentsAreBare(path);
    SegmentsAreBare(folder);
    hide Segs, NormFolder, Under, Join;
    var rest := Segs(path)[|Segs(folder)|..];
    SegsOfJoined(rest);
    SegsOfUnder(folder, Join(rest, '/'));
  }

  lemma SwappedHead(f: seq<string>, p: seq<string>)
    requires |f| <= |p|
    ensures f + p[|f|..] == p <==> f <= p
  {
    assert p == p[..|f|] + p[|f|..];
    assert (f + p[|f|..])[..|f|] == f;
  }

  lemma SwappedHeadIsEqual(canon: Canon, f: seq<string>, p: seq<string>)
    requires UnderOrEqual(canon, p, f)
    ensures SegsEqual(canon, f + p[|f|..], p)
  {
  }

  lemma BackUnder(canon: Canon, folder: string, path: string)
    requires UnderOrEqual(canon, Segs(path), Segs(folder))
    ensures var back := Under(folder, Join(Segs(path)[|Segs(folder)|..], '/'));
      && Canonical(canon, Segs(back)) == Canonical(canon, Segs(path))
      && (back == NormFolder(path) <==> Segs(folder) <= Segs(path))
  {
    hide Segs, NormFolder, Under, Join, AllBare;
    var f, p := Segs(folder), Segs(path);
    SegsOfBack(folder, path);
    SwappedHead(f, p);
    SwappedHeadIsEqual(canon, f, p);
    UnderIffPrefix(canon, f + p[|f|..], p);
    if Join(f + p[|f|..], '/') == Join(p, '/') { JoinInjective(f + p[|f|..], p); }
  }

  /** A source path is translated exactly when, canonically, it starts with the source folder. */
  lemma RelIffUnderSource(canon: Canon, m: Mount, path: string)
    ensures RelFromSource(canon, m, path).Some?
       <==> Canonical(canon, Segs(m.source.path)) <= Canonical(canon, Segs(path))
  {
    hide Segs;
    UnderIffPrefix(canon, Segs(path), Segs(m.source.path));
  }

  /** A path is translated exactly when the mount claims it. */
  lemma RelIffClaimed(canon: Canon, m: Mount, local: string)
    ensures RelFromLocal(canon, m, local).Some? <==> Claims(canon, m, local)
  {
  }

  lemma RelIsNormal(canon: Canon, m: Mount, path: string, rel: string)
    requires RelFromSource(canon, m, path) == Some(rel) || RelFromLocal(canon, m, path) == Some(rel)
    ensures NormFolder(rel) == rel
  {
    SegmentsAreBare(path);
    hide Segs, NormFolder;
    if RelFromSource(canon, m, path) == Some(rel) {
      assert Segs(m.source.path) == [] ==> Segs(path)[0..] == Segs(path);
      SegsOfJoined(Segs(path)[|Segs(m.source.path)|..]);
    } else {
      SegsOfJoined(Segs(path)[|Segs(m.point)|..]);
    }
  }

  /** A source path carried to the local side and back is the same source path up to
      canonical form; the mount claims the place where it was put. */
  lemma SourceThroughLocal(canon: Canon, m: Mount, path: string, rel: string)
    requires Segs(m.point) != []
    requires RelFromSource(canon, m, path) == Some(rel)
    ensures Claims(canon, m, LocalFromRel(m, rel))
    ensures RelFromLocal(canon, m, LocalFromRel(m, rel)) == Some(rel)
    ensures Canonical(canon, Segs(SourceFromRel(m, rel))) == Canonical(canon, Segs(path))
  {
    hide Segs, NormFolder, Under;
    RelOfLocal(canon, m, rel);
    RelIffClaimed(canon, m, LocalFromRel(m, rel));
    RelIsNormal(canon, m, path, rel);
    SourceOfRel(canon, m, path, rel);
  }
}
