/** The rewrite-loop breaker: per path, how often the content came back to a value (or a
    shape) seen within the window, and whether the next push is held. */
module FlipGuard {
  import opened Wrappers

  /** One observation of a path's content. */
  datatype Obs = Obs(hash: string, shape: Option<string>, at: int)

  datatype Entry = Entry(hashes: seq<Obs>, last: Option<string>, flips: seq<int>, released: Option<string>)

  datatype Verdict = Verdict(hold: bool, flips: nat)

  const FRESH := Entry([], None, [], None)

  // ----- one record -----

  function KeepObs(s: seq<Obs>, cutoff: int): seq<Obs> {
    if s == [] then [] else (if s[0].at >= cutoff then [s[0]] else []) + KeepObs(s[1..], cutoff)
  }

  function KeepFlips(s: seq<int>, cutoff: int): (r: seq<int>)
    ensures |r| <= |s|
  {
    if s == [] then [] else (if s[0] >= cutoff then [s[0]] else []) + KeepFlips(s[1..], cutoff)
  }

  /** An exact return, or the same shape with only timestamps moved. */
  predicate Matches(o: Obs, r: Obs) {
    o.hash == r.hash || (r.shape.Some? && o.shape == r.shape)
  }

  predicate Returning(s: seq<Obs>, r: Obs) { exists k :: 0 <= k < |s| && Matches(s[k], r) }

  /** The entry after both window filters. */
  function Aged(e: Entry, cutoff: int): Entry {
    e.(hashes := KeepObs(e.hashes, cutoff), flips := KeepFlips(e.flips, cutoff))
  }

  /** The flips left once `r` has been looked at. */
  function FlipsAfter(e: Entry, r: Obs): seq<int> {
    if e.last == Some(r.hash) then e.flips
    else if Returning(e.hashes, r) then e.flips + [r.at]
    else if e.last.Some? && |e.flips| > 0 then []
    else e.flips
  }

  function Observe(e: Entry, r: Obs): Entry {
    var flips := FlipsAfter(e, r);
    Entry(if e.last == Some(r.hash) then e.hashes else e.hashes + [r], Some(r.hash), flips,
          if |flips| == 0 then None else e.released)
  }

  /** The entry `record` leaves behind. */
  function Recorded(e: Entry, r: Obs, windowMs: nat): Entry { Observe(Aged(e, r.at - windowMs), r) }

  predicate Holds(e: Entry, limit: nat, hash: string) { |e.flips| >= limit && e.released != Some(hash) }

  /** Does `held` list a path with this entry at `now`? */
  predicate HeldAt(e: Entry, limit: nat, windowMs: nat, now: int) {
    |KeepFlips(e.flips, now - windowMs)| >= limit && e.released != e.last
  }

  class FlipGuard {
    var seen: map<string, Entry>
    const limit: nat
    const windowMs: nat

    constructor (limit: nat := 6, windowMs: nat := 600_000)
      ensures seen == map[] && this.limit == limit && this.windowMs == windowMs
    {
      seen, this.limit, this.windowMs := map[], limit, windowMs;
    }

    function Get(path: string): Entry
      reads this
    {
      if path in seen then seen[path] else FRESH
    }

    method Record(path: string, hash: string, now: int, shape: Option<string>) returns (v: Verdict)
      modifies this
      ensures seen == old(seen)[path := Recorded(old(Get(path)), Obs(hash, shape, now), windowMs)]
      ensures path in old(seen) ==> seen[path] == Recorded(old(seen)[path], Obs(hash, shape, now), windowMs)
      ensures path !in old(seen) ==> seen[path] == Recorded(Entry([], None, [], None), Obs(hash, shape, now), windowMs)
      ensures v.flips == |seen[path].flips| && v.hold == Holds(seen[path], limit, hash)
      ensures v.hold == HeldAt(seen[path], limit, windowMs, now)
    {
      var e := Get(path);
      var cutoff := now - windowMs;
      e := e.(hashes := KeepObs(e.hashes, cutoff));
      e := e.(flips := KeepFlips(e.flips, cutoff));
      ghost var aged := e;
      if e.last != Some(hash) {
        var returning := Returning(e.hashes, Obs(hash, shape, now));
        if returning {
          e := e.(flips := e.flips + [now]);
        } else if e.last.Some? && |e.flips| > 0 {
          e := e.(flips := []);
        }
        e := e.(hashes := e.hashes + [Obs(hash, shape, now)]);
        e := e.(last := Some(hash));
      }
      if |e.flips| == 0 { e := e.(released := None); }
      assert e == Observe(aged, Obs(hash, shape, now));
      seen := seen[path := e];
      v := Verdict(|e.flips| >= limit && e.released != Some(hash), |e.flips|);
      VerdictIsHeld(old(Get(path)), Obs(hash, shape, now), limit, windowMs);
    }

    method Release(path: string)
      modifies this
      ensures seen == if path in old(seen) && old(seen)[path].last.Some?
                      then old(seen)[path := old(seen)[path].(released := old(seen)[path].last)] else old(seen)
    {
      if path in seen && seen[path].last.Some? {
        seen := seen[path := seen[path].(released := seen[path].last)];
      }
    }

    /** The held paths; the source returns them sorted. */
    method Held(now: int) returns (out: set<string>)
      ensures forall p :: p in out <==> p in seen && |FlipsFrom(seen[p].flips, now - windowMs)| >= limit && seen[p].released != seen[p].last
    {
      forall p | p in seen ensures HeldAt(seen[p], limit, windowMs, now)
          <==> |FlipsFrom(seen[p].flips, now - windowMs)| >= limit && seen[p].released != seen[p].last {
        KeptFlipsCount(seen[p].flips, now - windowMs);
      }
      out := {};
      var todo := seen.Keys;
      while todo != {}
        invariant todo <= seen.Keys
        invariant forall p :: p in out <==> p in seen && p !in todo && HeldAt(seen[p], limit, windowMs, now)
        decreases |todo|
      {
        var p :| p in todo;
        if HeldAt(seen[p], limit, windowMs, now) { out := out + {p}; }
        todo := todo - {p};
      }
    }
  }

  // ----- the verdict and the held list agree -----

  /** The flips at or after a time, by position. */
  ghost function FlipsFrom(s: seq<int>, cutoff: int): set<nat> {
    set k | 0 <= k < |s| && s[k] >= cutoff
  }

  /** Ageing keeps as many flips as the window has. */
  lemma {:induction false} KeptFlipsCount(s: seq<int>, cutoff: int)
    ensures |KeepFlips(s, cutoff)| == |FlipsFrom(s, cutoff)|
    decreases |s|
  {
    if s != [] {
      var n := |s| - 1;
      KeptFlipsCount(s[..n], cutoff);
      KeepFlipsSnoc(s[..n], s[n], cutoff);
      assert s == s[..n] + [s[n]];
      hide KeepFlips;
      if s[n] >= cutoff {
        assert FlipsFrom(s, cutoff) == FlipsFrom(s[..n], cutoff) + {n};
      } else {
        assert FlipsFrom(s, cutoff) == FlipsFrom(s[..n], cutoff);
      }
    }
  }

  lemma {:induction false} KeepFlipsTwice(s: seq<int>, cutoff: int)
    ensures KeepFlips(KeepFlips(s, cutoff), cutoff) == KeepFlips(s, cutoff)
  {
    if s != [] {
      KeepFlipsTwice(s[1..], cutoff);
      if s[0] >= cutoff {
        assert KeepFlips(s, cutoff)[1..] == KeepFlips(s[1..], cutoff);
      } else {
        assert KeepFlips(s, cutoff) == KeepFlips(s[1..], cutoff);
      }
    }
  }

  lemma {:induction false} KeepFlipsSnoc(s: seq<int>, x: int, cutoff: int)
    ensures KeepFlips(s + [x], cutoff) == KeepFlips(s, cutoff) + (if x >= cutoff then [x] else [])
  {
    var t := s + [x];
    if s == [] {
      assert t[0] == x && t[1..] == [];
      assert KeepFlips(t, cutoff) == (if x >= cutoff then [x] else []);
    } else {
      assert t[0] == s[0] && t[1..] == s[1..] + [x];
      KeepFlipsSnoc(s[1..], x, cutoff);
      var h := if s[0] >= cutoff then [s[0]] else [];
      assert KeepFlips(t, cutoff) == h + KeepFlips(s[1..] + [x], cutoff);
      assert KeepFlips(s, cutoff) == h + KeepFlips(s[1..], cutoff);
    }
  }

  /** Right after `record` the path is in `held(now)` exactly when the verdict was to hold. */
  lemma VerdictIsHeld(e: Entry, r: Obs, limit: nat, windowMs: nat)
    ensures HeldAt(Recorded(e, r, windowMs), limit, windowMs, r.at) <==> Holds(Recorded(e, r, windowMs), limit, r.hash)
  {
    var aged := KeepFlips(e.flips, r.at - windowMs);
    KeepFlipsTwice(e.flips, r.at - windowMs);
    KeepFlipsSnoc(aged, r.at, r.at - windowMs);
  }

  // ----- runs -----

  /** The entry after a run of records on one path. */
  ghost function After(e: Entry, rs: seq<Obs>, windowMs: nat): Entry
    decreases |rs|
  {
    if rs == [] then e else After(Recorded(e, rs[0], windowMs), rs[1..], windowMs)
  }

  /** How many records of the run bring other content than the last and are let through. */
  ghost function Passed(e: Entry, rs: seq<Obs>, limit: nat, windowMs: nat): nat
    decreases |rs|
  {
    if rs == [] then 0
    else
      var e' := Recorded(e, rs[0], windowMs);
      (if e.last != Some(rs[0].hash) && !Holds(e', limit, rs[0].hash) then 1 else 0) + Passed(e', rs[1..], limit, windowMs)
  }

  /** What a writer's contents are told apart by: the exact hash, or the shape. */
  datatype Class = ByHash | ByShape

  ghost function Key(c: Class, o: Obs): Option<string> {
    match c
    case ByHash => Some(o.hash)
    case ByShape => o.shape
  }

  /** Every record of the run lies within one window from `t0` on, none is exempt by a
      release, and (for shapes) every record carries one. */
  ghost predicate LoopRun(c: Class, rs: seq<Obs>, t0: int, windowMs: nat, released: Option<string>) {
    forall k :: 0 <= k < |rs| ==> t0 <= rs[k].at <= t0 + windowMs && released != Some(rs[k].hash) && (c == ByShape ==> rs[k].shape.Some?)
  }

  ghost function Keys(c: Class, rs: seq<Obs>): set<Option<string>> {
    set k | 0 <= k < |rs| :: Key(c, rs[k])
  }

  /** Keys observed since `t0`: these cannot expire within the window. */
  ghost function SeenSince(c: Class, s: seq<Obs>, t0: int): set<Option<string>> {
    set k | 0 <= k < |s| && s[k].at >= t0 :: Key(c, s[k])
  }

  ghost function FlipsSince(s: seq<int>, t0: int): nat { |KeepFlips(s, t0)| }

  // ----- what one record does to the account -----

  lemma {:induction false} KeepObsKeeps(s: seq<Obs>, cutoff: int, o: Obs)
    ensures o in KeepObs(s, cutoff) <==> o in s && o.at >= cutoff
  {
    if s != [] { KeepObsKeeps(s[1..], cutoff, o); }
  }

  lemma {:induction false} KeepFlipsLater(s: seq<int>, cutoff: int, t0: int)
    requires cutoff <= t0
    ensures KeepFlips(KeepFlips(s, cutoff), t0) == KeepFlips(s, t0)
  {
    if s != [] {
      KeepFlipsLater(s[1..], cutoff, t0);
      if s[0] >= cutoff { assert KeepFlips(s, cutoff)[1..] == KeepFlips(s[1..], cutoff); }
      else { assert KeepFlips(s, cutoff) == KeepFlips(s[1..], cutoff); }
    }
  }

  /** No observation of the current window is forgotten, and other content is remembered. */
  lemma SeenGrows(c: Class, e: Entry, r: Obs, t0: int, windowMs: nat)
    requires t0 <= r.at <= t0 + windowMs
    ensures SeenSince(c, e.hashes, t0) <= SeenSince(c, Recorded(e, r, windowMs).hashes, t0)
    ensures e.last != Some(r.hash) ==> Key(c, r) in SeenSince(c, Recorded(e, r, windowMs).hashes, t0)
  {
    var h' := Recorded(e, r, windowMs).hashes;
    forall o | o in e.hashes && o.at >= t0 ensures o in h' {
      KeepObsKeeps(e.hashes, r.at - windowMs, o);
    }
    forall x | x in SeenSince(c, e.hashes, t0) ensures x in SeenSince(c, h', t0) {
      var k :| 0 <= k < |e.hashes| && e.hashes[k].at >= t0 && Key(c, e.hashes[k]) == x;
      var o := e.hashes[k];
      assert o in h';
    }
    if e.last != Some(r.hash) { assert h'[|h'| - 1] == r; }
  }

  /** Content that does not return is new to the window. */
  lemma NotReturningIsNew(c: Class, e: Entry, r: Obs, t0: int, windowMs: nat)
    requires t0 <= r.at <= t0 + windowMs && (c == ByShape ==> r.shape.Some?)
    requires !Returning(Aged(e, r.at - windowMs).hashes, r)
    ensures Key(c, r) !in SeenSince(c, e.hashes, t0)
  {
    var kept := Aged(e, r.at - windowMs).hashes;
    forall k | 0 <= k < |e.hashes| && e.hashes[k].at >= t0 ensures Key(c, e.hashes[k]) != Key(c, r) {
      var o := e.hashes[k];
      KeepObsKeeps(e.hashes, r.at - windowMs, o);
      assert o in kept;
      assert !Matches(o, r);
    }
  }

  lemma {:induction false} KeepFlipsAtMost(s: seq<int>, cutoff: int)
    ensures |KeepFlips(s, cutoff)| <= |s|
  {
    if s != [] { KeepFlipsAtMost(s[1..], cutoff); }
  }

  /** How the flips of the window move: up by one on a return, to none or nowhere otherwise. */
  lemma FlipsMove(e: Entry, r: Obs, t0: int, windowMs: nat)
    requires t0 <= r.at <= t0 + windowMs
    ensures var g, g' := FlipsSince(e.flips, t0), FlipsSince(Recorded(e, r, windowMs).flips, t0);
            && g' <= |Recorded(e, r, windowMs).flips|
            && (e.last == Some(r.hash) ==> g' == g)
            && (e.last != Some(r.hash) && Returning(Aged(e, r.at - windowMs).hashes, r) ==> g' == g + 1)
  {
    var cutoff := r.at - windowMs;
    KeepFlipsLater(e.flips, cutoff, t0);
    KeepFlipsSnoc(KeepFlips(e.flips, cutoff), r.at, t0);
    KeepFlipsAtMost(Recorded(e, r, windowMs).flips, t0);
  }

  // ----- the bound -----

  /** Passes left before the flips counted so far reach the limit. */
  ghost function Slack(limit: nat, flips: nat): nat { if flips + 1 >= limit then 0 else limit - 1 - flips }

  ghost function New(c: Class, e: Entry, rs: seq<Obs>, t0: int): set<Option<string>> {
    Keys(c, rs) - SeenSince(c, e.hashes, t0)
  }

  ghost function Account(c: Class, e: Entry, rs: seq<Obs>, limit: nat, t0: int): nat {
    limit * |New(c, e, rs, t0)| + Slack(limit, FlipsSince(e.flips, t0))
  }

  lemma KeysTail(c: Class, rs: seq<Obs>)
    requires rs != []
    ensures Keys(c, rs[1..]) <= Keys(c, rs) && Key(c, rs[0]) in Keys(c, rs)
  {
    forall x | x in Keys(c, rs[1..]) ensures x in Keys(c, rs) {
      var k :| 0 <= k < |rs[1..]| && Key(c, rs[1..][k]) == x;
      assert Key(c, rs[k + 1]) == x;
    }
  }

  lemma NewNeverGrows(c: Class, e: Entry, rs: seq<Obs>, t0: int, windowMs: nat)
    requires rs != [] && t0 <= rs[0].at <= t0 + windowMs
    ensures |New(c, Recorded(e, rs[0], windowMs), rs[1..], t0)| <= |New(c, e, rs, t0)|
  {
    var h' := Recorded(e, rs[0], windowMs).hashes;
    hide Keys, SeenSince, Recorded;
    SeenGrows(c, e, rs[0], t0, windowMs);
    KeysTail(c, rs);
    SubsetSize(Keys(c, rs[1..]) - SeenSince(c, h', t0), Keys(c, rs) - SeenSince(c, e.hashes, t0));
  }

  lemma NewShrinks(c: Class, e: Entry, rs: seq<Obs>, t0: int, windowMs: nat)
    requires rs != [] && t0 <= rs[0].at <= t0 + windowMs && (c == ByShape ==> rs[0].shape.Some?)
    requires e.last != Some(rs[0].hash) && !Returning(Aged(e, rs[0].at - windowMs).hashes, rs[0])
    ensures |New(c, Recorded(e, rs[0], windowMs), rs[1..], t0)| < |New(c, e, rs, t0)|
  {
    var h' := Recorded(e, rs[0], windowMs).hashes;
    hide Keys, SeenSince, Recorded, Returning, Aged, Key;
    SeenGrows(c, e, rs[0], t0, windowMs);
    KeysTail(c, rs);
    NotReturningIsNew(c, e, rs[0], t0, windowMs);
    DifferenceShrinks(Keys(c, rs[1..]), Keys(c, rs), SeenSince(c, h', t0), SeenSince(c, e.hashes, t0), Key(c, rs[0]));
  }

  lemma DifferenceShrinks<T>(k': set<T>, k: set<T>, s': set<T>, s: set<T>, x: T)
    requires k' <= k && s <= s' && x in k && x !in s && x in s'
    ensures |k' - s'| < |k - s|
  {
    SubsetSize(k' - s', (k - s) - {x});
  }

  lemma {:induction false} SubsetSize<T>(a: set<T>, b: set<T>)
    requires a <= b
    ensures |a| <= |b|
    decreases b
  {
    if a != {} {
      var x :| x in a;
      SubsetSize(a - {x}, b - {x});
    }
  }

  lemma Payment(limit: nat, n: nat, n': nat, g: nat, g': nat, flips: nat, changed: bool, returning: bool, passed: nat)
    requires n' <= n && (changed && !returning ==> n' < n)
    requires g' <= flips && (!changed ==> g' == g) && (changed && returning ==> g' == g + 1)
    requires passed <= 1 && (passed == 1 ==> changed && flips < limit)
    ensures passed + limit * n' + Slack(limit, g') <= limit * n + Slack(limit, g)
    ensures changed && !returning ==> passed + limit * n' + Slack(limit, g') <= limit * n
  {
    MulMono(limit, n', n);
    if n' < n { MulMono(limit, n' + 1, n); }
  }

  ghost function PassedOne(e: Entry, r: Obs, limit: nat, windowMs: nat): nat {
    if e.last != Some(r.hash) && !Holds(Recorded(e, r, windowMs), limit, r.hash) then 1 else 0
  }

  /** Each record pays for its pass out of the account. */
  lemma AccountPays(c: Class, e: Entry, rs: seq<Obs>, limit: nat, t0: int, windowMs: nat)
    requires rs != [] && LoopRun(c, rs, t0, windowMs, e.released)
    ensures var e', passed := Recorded(e, rs[0], windowMs), PassedOne(e, rs[0], limit, windowMs);
            && passed + Account(c, e', rs[1..], limit, t0) <= Account(c, e, rs, limit, t0)
            && (e.last != Some(rs[0].hash) && !Returning(Aged(e, rs[0].at - windowMs).hashes, rs[0]) ==>
                  passed + Account(c, e', rs[1..], limit, t0) <= limit * |New(c, e, rs, t0)|)
  {
    var r, e' := rs[0], Recorded(e, rs[0], windowMs);
    assert t0 <= r.at <= t0 + windowMs && e.released != Some(r.hash) && (c == ByShape ==> r.shape.Some?);
    hide New, Recorded, FlipsSince, Returning, Aged, Slack, LoopRun;
    NewNeverGrows(c, e, rs, t0, windowMs);
    FlipsMove(e, r, t0, windowMs);
    ReleasedShrinks(e, r, windowMs);
    if e.last != Some(r.hash) && !Returning(Aged(e, r.at - windowMs).hashes, r) { NewShrinks(c, e, rs, t0, windowMs); }
    Payment(limit, |New(c, e, rs, t0)|, |New(c, e', rs[1..], t0)|, FlipsSince(e.flips, t0), FlipsSince(e'.flips, t0),
            |e'.flips|, e.last != Some(r.hash), Returning(Aged(e, r.at - windowMs).hashes, r), PassedOne(e, r, limit, windowMs));
  }

  lemma ReleasedShrinks(e: Entry, r: Obs, windowMs: nat)
    ensures Recorded(e, r, windowMs).released == None || Recorded(e, r, windowMs).released == e.released
  {
  }

  lemma MulMono(k: nat, m: nat, n: nat)
    requires m <= n
    ensures k * m <= k * n
    ensures k * (m + 1) == k * m + k
  {
  }

  /** From any state, one window of a loop passes at most `limit` other contents per key the
      window has not seen, plus what the flips already counted leave. */
  lemma {:induction false} LoopBounded(c: Class, e: Entry, rs: seq<Obs>, limit: nat, t0: int, windowMs: nat)
    requires LoopRun(c, rs, t0, windowMs, e.released)
    ensures Passed(e, rs, limit, windowMs) <= Account(c, e, rs, limit, t0)
    decreases |rs|
  {
    if rs != [] {
      AccountPays(c, e, rs, limit, t0, windowMs);
      ReleasedShrinks(e, rs[0], windowMs);
      LoopBounded(c, Recorded(e, rs[0], windowMs), rs[1..], limit, t0, windowMs);
    }
  }

  /** On a fresh path a loop among k hashes (or k shapes) passes at most k times the limit. */
  lemma FreshLoopBounded(c: Class, rs: seq<Obs>, limit: nat, t0: int, windowMs: nat)
    requires LoopRun(c, rs, t0, windowMs, None)
    ensures Passed(FRESH, rs, limit, windowMs) <= limit * |Keys(c, rs)|
  {
    if rs != [] {
      AccountPays(c, FRESH, rs, limit, t0, windowMs);
      ReleasedShrinks(FRESH, rs[0], windowMs);
      LoopBounded(c, Recorded(FRESH, rs[0], windowMs), rs[1..], limit, t0, windowMs);
      assert New(c, FRESH, rs, t0) == Keys(c, rs);
    }
  }

  /** A stamper that writes a never-seen hash every time, but always the same shape, passes at
      most `limit` times per window. */
  lemma StamperBounded(rs: seq<Obs>, shape: string, limit: nat, t0: int, windowMs: nat)
    requires forall k :: 0 <= k < |rs| ==> t0 <= rs[k].at <= t0 + windowMs && rs[k].shape == Some(shape)
    ensures Passed(FRESH, rs, limit, windowMs) <= limit
  {
    FreshLoopBounded(ByShape, rs, limit, t0, windowMs);
    SubsetSize(Keys(ByShape, rs), {Some(shape)});
    MulMono(limit, |Keys(ByShape, rs)|, 1);
  }

  // ----- repeats -----

  lemma {:induction false} KeepObsLater(s: seq<Obs>, cutoff: int, t0: int)
    requires cutoff <= t0
    ensures KeepObs(KeepObs(s, cutoff), t0) == KeepObs(s, t0)
  {
    if s != [] {
      KeepObsLater(s[1..], cutoff, t0);
      if s[0].at >= cutoff { assert KeepObs(s, cutoff)[1..] == KeepObs(s[1..], cutoff); }
      else { assert KeepObs(s, cutoff) == KeepObs(s[1..], cutoff); }
    }
  }

  lemma RepeatOnlyAges(e: Entry, r: Obs, windowMs: nat)
    requires e.last == Some(r.hash)
    ensures var e', cutoff := Recorded(e, r, windowMs), r.at - windowMs;
            e'.last == e.last && e'.flips == KeepFlips(e.flips, cutoff) && e'.hashes == KeepObs(e.hashes, cutoff)
  {
  }

  /** However often the last content is asked about again, as time goes on, nothing happens but
      ageing: no flip and no observation is added. */
  lemma {:induction false} RepeatsOnlyAge(e: Entry, rs: seq<Obs>, windowMs: nat)
    requires rs != [] && forall k :: 0 <= k < |rs| ==> e.last == Some(rs[k].hash)
    requires forall j, k :: 0 <= j <= k < |rs| ==> rs[j].at <= rs[k].at
    ensures var e', cutoff := After(e, rs, windowMs), rs[|rs| - 1].at - windowMs;
            && e'.last == e.last
            && e'.flips == KeepFlips(e.flips, cutoff)
            && e'.hashes == KeepObs(e.hashes, cutoff)
    decreases |rs|
  {
    var e1 := Recorded(e, rs[0], windowMs);
    RepeatOnlyAges(e, rs[0], windowMs);
    hide Recorded;
    if |rs| > 1 {
      var rest := rs[1..];
      assert forall k :: 0 <= k < |rest| ==> rest[k] == rs[k + 1];
      RepeatsOnlyAge(e1, rest, windowMs);
      KeepFlipsLater(e.flips, rs[0].at - windowMs, rs[|rs| - 1].at - windowMs);
      KeepObsLater(e.hashes, rs[0].at - windowMs, rs[|rs| - 1].at - windowMs);
    } else {
      assert rs[1..] == [];
    }
  }

  // ----- what a flip is, said on the run of records -----

  /** The same content, or the same shape where both have one. */
  predicate SameContent(o: Obs, r: Obs) {
    o.hash == r.hash || (o.shape.Some? && r.shape.Some? && o.shape.value == r.shape.value)
  }

  /** The record brings other content than the one before it. */
  predicate Changing(rs: seq<Obs>, k: int)
    requires 0 <= k < |rs|
  {
    k == 0 || rs[k].hash != rs[k - 1].hash
  }

  /** Some earlier change, still in the window, brought the content or the shape of record k. */
  predicate ReturnsAt(rs: seq<Obs>, k: int, windowMs: nat)
    requires 0 <= k < |rs|
  {
    exists j :: 0 <= j < k && Changing(rs, j) && rs[j].at >= rs[k].at - windowMs && SameContent(rs[j], rs[k])
  }

  predicate InOrder(rs: seq<Obs>) { forall j, k :: 0 <= j <= k < |rs| ==> rs[j].at <= rs[k].at }

  lemma {:induction false} AfterSnoc(e: Entry, rs: seq<Obs>, r: Obs, windowMs: nat)
    ensures After(e, rs + [r], windowMs) == Recorded(After(e, rs, windowMs), r, windowMs)
    decreases |rs|
  {
    hide Recorded;
    if rs == [] {
      assert [r][1..] == [] && [] + [r] == [r];
      assert After(e, [r], windowMs) == After(Recorded(e, r, windowMs), [], windowMs);
    } else {
      assert (rs + [r])[1..] == rs[1..] + [r];
      AfterSnoc(Recorded(e, rs[0], windowMs), rs[1..], r, windowMs);
    }
  }

  /** Observation `o` was made by a change among the first n records, at or after `cutoff`. */
  ghost predicate MadeBy(rs: seq<Obs>, n: int, o: Obs, cutoff: int)
    requires 0 <= n <= |rs|
  {
    o.at >= cutoff && exists j :: 0 <= j < n && Changing(rs, j) && rs[j] == o
  }

  /** From `cutoff` on the entry remembers exactly the changes among the first n records. */
  ghost predicate Remembers(rs: seq<Obs>, n: int, e: Entry, cutoff: int)
    requires 0 <= n <= |rs|
  {
    forall o :: (o in e.hashes && o.at >= cutoff) <==> MadeBy(rs, n, o, cutoff)
  }

  /** What one record does, field by field. */
  lemma RecordedIs(e: Entry, r: Obs, windowMs: nat)
    ensures var e', aged := Recorded(e, r, windowMs), KeepObs(e.hashes, r.at - windowMs);
            var kept := KeepFlips(e.flips, r.at - windowMs);
            && e'.last == Some(r.hash)
            && e'.hashes == (if e.last == Some(r.hash) then aged else aged + [r])
            && e'.flips == (if e.last == Some(r.hash) then kept
                            else if Returning(aged, r) then kept + [r.at]
                            else if e.last.Some? then [] else kept)
            && (e.released == None ==> e'.released == None)
  {
    hide KeepObs, KeepFlips, Returning;
  }

  lemma RememberedStep(e: Entry, r: Obs, windowMs: nat, o: Obs)
    ensures o in Recorded(e, r, windowMs).hashes
       <==> (o in e.hashes && o.at >= r.at - windowMs) || (e.last != Some(r.hash) && o == r)
  {
    RecordedIs(e, r, windowMs);
    KeepObsKeeps(e.hashes, r.at - windowMs, o);
    hide KeepObs, KeepFlips, Returning, Recorded;
  }

  lemma RememberOneMore(rs: seq<Obs>, k: int, e: Entry, windowMs: nat)
    requires 0 <= k < |rs| && Remembers(rs, k, e, rs[k].at - windowMs)
    requires e.last == Some(rs[k].hash) <==> !Changing(rs, k)
    ensures Remembers(rs, k + 1, Recorded(e, rs[k], windowMs), rs[k].at - windowMs)
  {
    var cutoff := rs[k].at - windowMs;
    forall o ensures (o in Recorded(e, rs[k], windowMs).hashes && o.at >= cutoff) <==> MadeBy(rs, k + 1, o, cutoff) {
      RememberedStep(e, rs[k], windowMs, o);
      MadeByOneMore(rs, k + 1, o, cutoff);
    }
  }

  lemma RememberLater(rs: seq<Obs>, n: int, e: Entry, cutoff: int, later: int)
    requires 0 <= n <= |rs| && cutoff <= later && Remembers(rs, n, e, cutoff)
    ensures Remembers(rs, n, e, later)
  {
    forall o ensures (o in e.hashes && o.at >= later) <==> MadeBy(rs, n, o, later) {
      MadeByLater(rs, n, o, cutoff, later);
    }
  }

  /** The entry record k of a fresh path meets. */
  ghost predicate Meets(rs: seq<Obs>, k: int, e: Entry, windowMs: nat)
    requires 0 <= k < |rs|
  {
    && (e.last == Some(rs[k].hash) <==> !Changing(rs, k))
    && (e.last.None? ==> e.flips == [])
    && Remembers(rs, k, e, rs[k].at - windowMs)
  }

  lemma MeetsNext(rs: seq<Obs>, k: int, e: Entry, windowMs: nat)
    requires 0 <= k && k + 1 < |rs| && Meets(rs, k, e, windowMs) && rs[k].at <= rs[k + 1].at
    ensures Meets(rs, k + 1, Recorded(e, rs[k], windowMs), windowMs)
  {
    RecordedIs(e, rs[k], windowMs);
    hide Recorded, Remembers, Returning, KeepObs, KeepFlips;
    RememberOneMore(rs, k, e, windowMs);
    RememberLater(rs, k + 1, Recorded(e, rs[k], windowMs), rs[k].at - windowMs, rs[k + 1].at - windowMs);
  }

  /** What a fresh path remembers when record k comes, in the order of time. */
  lemma {:induction false} RememberedBefore(rs: seq<Obs>, k: int, windowMs: nat)
    requires 0 <= k < |rs| && InOrder(rs)
    ensures Meets(rs, k, After(FRESH, rs[..k], windowMs), windowMs)
    decreases k
  {
    if k == 0 {
      assert rs[..0] == [];
    } else {
      assert rs[k - 1].at <= rs[k].at;
      assert rs[..k] == rs[..k - 1] + [rs[k - 1]];
      hide After, InOrder, Recorded, Meets;
      AfterSnoc(FRESH, rs[..k - 1], rs[k - 1], windowMs);
      RememberedBefore(rs, k - 1, windowMs);
      MeetsNext(rs, k - 1, After(FRESH, rs[..k - 1], windowMs), windowMs);
    }
  }

  lemma MadeByLater(rs: seq<Obs>, n: int, o: Obs, cutoff: int, later: int)
    requires 0 <= n <= |rs| && cutoff <= later
    ensures MadeBy(rs, n, o, later) <==> MadeBy(rs, n, o, cutoff) && o.at >= later
  {
  }

  lemma MadeByOneMore(rs: seq<Obs>, n: int, o: Obs, cutoff: int)
    requires 1 <= n <= |rs|
    ensures MadeBy(rs, n, o, cutoff)
       <==> MadeBy(rs, n - 1, o, cutoff) || (o.at >= cutoff && Changing(rs, n - 1) && rs[n - 1] == o)
  {
  }

  /** A repeat keeps the flips, a return adds one, other content forgets them. */
  function FlipRule(changing: bool, returning: bool, kept: seq<int>, at: int): seq<int> {
    if !changing then kept else if returning then kept + [at] else []
  }

  lemma FlipsFollowRule(e: Entry, r: Obs, windowMs: nat)
    requires e.last.None? ==> e.flips == []
    ensures Recorded(e, r, windowMs).flips
         == FlipRule(e.last != Some(r.hash), Returning(KeepObs(e.hashes, r.at - windowMs), r), KeepFlips(e.flips, r.at - windowMs), r.at)
  {
    hide Returning, KeepObs;
  }

  /** On a fresh path, in the order of time: a record that repeats the content before it adds no
      flip; one that brings back content or shape of a change still in the window adds exactly one;
      any other forgets all flips. Before that the flips out of the window are dropped. */
  lemma FlipsOnRun(rs: seq<Obs>, k: int, windowMs: nat)
    requires 0 <= k < |rs| && InOrder(rs)
    ensures After(FRESH, rs[..k + 1], windowMs).flips
         == FlipRule(Changing(rs, k), ReturnsAt(rs, k, windowMs),
                     KeepFlips(After(FRESH, rs[..k], windowMs).flips, rs[k].at - windowMs), rs[k].at)
  {
    hide FlipRule, After, InOrder, Changing, Recorded, Remembers, KeepObs, KeepFlips, Returning, ReturnsAt;
    var e := After(FRESH, rs[..k], windowMs);
    AfterSnoc(FRESH, rs[..k], rs[k], windowMs);
    assert rs[..k] + [rs[k]] == rs[..k + 1];
    RememberedBefore(rs, k, windowMs);
    FlipsFollowRule(e, rs[k], windowMs);
    ReturningSeen(rs, k, e, windowMs);
    ReturnFound(rs, k, e, windowMs);
  }

  lemma ReturningSeen(rs: seq<Obs>, k: int, e: Entry, windowMs: nat)
    requires 0 <= k < |rs| && Remembers(rs, k, e, rs[k].at - windowMs)
    ensures Returning(KeepObs(e.hashes, rs[k].at - windowMs), rs[k]) ==> ReturnsAt(rs, k, windowMs)
  {
    var aged := KeepObs(e.hashes, rs[k].at - windowMs);
    if Returning(aged, rs[k]) {
      var i :| 0 <= i < |aged| && Matches(aged[i], rs[k]);
      KeepObsKeeps(e.hashes, rs[k].at - windowMs, aged[i]);
      assert MadeBy(rs, k, aged[i], rs[k].at - windowMs);
      hide KeepObs, Remembers;
      var j :| 0 <= j < k && Changing(rs, j) && rs[j] == aged[i];
      assert SameContent(rs[j], rs[k]);
    }
  }

  lemma ReturnMatches(aged: seq<Obs>, o: Obs, r: Obs)
    requires o in aged && SameContent(o, r)
    ensures Returning(aged, r)
  {
    var i :| 0 <= i < |aged| && aged[i] == o;
    assert Matches(aged[i], r);
  }

  lemma ChangeIsKept(rs: seq<Obs>, k: int, j: int, e: Entry, windowMs: nat)
    requires 0 <= j < k < |rs| && Remembers(rs, k, e, rs[k].at - windowMs)
    requires Changing(rs, j) && rs[j].at >= rs[k].at - windowMs
    ensures rs[j] in KeepObs(e.hashes, rs[k].at - windowMs)
  {
    hide Changing;
    assert MadeBy(rs, k, rs[j], rs[k].at - windowMs);
    KeepObsKeeps(e.hashes, rs[k].at - windowMs, rs[j]);
  }

  lemma ReturnFound(rs: seq<Obs>, k: int, e: Entry, windowMs: nat)
    requires 0 <= k < |rs| && Remembers(rs, k, e, rs[k].at - windowMs)
    ensures ReturnsAt(rs, k, windowMs) ==> Returning(KeepObs(e.hashes, rs[k].at - windowMs), rs[k])
  {
    hide KeepObs, Remembers, Returning, SameContent, Changing;
    if ReturnsAt(rs, k, windowMs) {
      var j :| 0 <= j < k && Changing(rs, j) && rs[j].at >= rs[k].at - windowMs && SameContent(rs[j], rs[k]);
      ChangeIsKept(rs, k, j, e, windowMs);
      ReturnMatches(KeepObs(e.hashes, rs[k].at - windowMs), rs[j], rs[k]);
    }
  }

  /** Nothing flipped, and everything remembered is among the first n records. */
  ghost predicate Unheld(rs: seq<Obs>, n: int, e: Entry)
    requires 0 <= n <= |rs|
  {
    e.flips == [] && forall o :: o in e.hashes ==> o in rs[..n]
  }

  lemma DifferentRecord(rs: seq<Obs>, k: int, e: Entry, windowMs: nat)
    requires 0 <= k < |rs| && Unheld(rs, k, e)
    requires forall j, k :: 0 <= j < k < |rs| ==> !SameContent(rs[j], rs[k])
    ensures Unheld(rs, k + 1, Recorded(e, rs[k], windowMs))
  {
    forall o | o in Recorded(e, rs[k], windowMs).hashes ensures o in rs[..k + 1] {
      RememberedStep(e, rs[k], windowMs, o);
    }
    NothingReturns(rs, k, KeepObs(e.hashes, rs[k].at - windowMs), e.hashes, rs[k].at - windowMs);
    RecordedIs(e, rs[k], windowMs);
    hide Recorded, Returning, KeepObs, SameContent;
  }

  lemma {:induction false} DifferentRun(rs: seq<Obs>, n: int, windowMs: nat)
    requires 0 <= n <= |rs|
    requires forall j, k :: 0 <= j < k < |rs| ==> !SameContent(rs[j], rs[k])
    ensures Unheld(rs, n, After(FRESH, rs[..n], windowMs))
    decreases n
  {
    hide Recorded, SameContent;
    if n == 0 {
      assert rs[..0] == [];
    } else {
      assert rs[..n] == rs[..n - 1] + [rs[n - 1]];
      AfterSnoc(FRESH, rs[..n - 1], rs[n - 1], windowMs);
      hide After, Unheld;
      DifferentRun(rs, n - 1, windowMs);
      DifferentRecord(rs, n - 1, After(FRESH, rs[..n - 1], windowMs), windowMs);
    }
  }

  /** Ordinary editing, whatever the clock: contents that differ from one another, in shape as well
      where they have one, are never a flip and never held. */
  lemma DifferentContentsPass(rs: seq<Obs>, n: int, limit: nat, windowMs: nat, hash: string)
    requires 0 <= n <= |rs| && limit >= 1
    requires forall j, k :: 0 <= j < k < |rs| ==> !SameContent(rs[j], rs[k])
    ensures After(FRESH, rs[..n], windowMs).flips == [] && !Holds(After(FRESH, rs[..n], windowMs), limit, hash)
  {
    DifferentRun(rs, n, windowMs);
    hide After, SameContent;
  }

  lemma NothingReturns(rs: seq<Obs>, k: int, aged: seq<Obs>, hashes: seq<Obs>, cutoff: int)
    requires 0 <= k < |rs| && aged == KeepObs(hashes, cutoff) && forall o :: o in hashes ==> o in rs[..k]
    requires forall j, k :: 0 <= j < k < |rs| ==> !SameContent(rs[j], rs[k])
    ensures !Returning(aged, rs[k])
  {
    forall i | 0 <= i < |aged| ensures !Matches(aged[i], rs[k]) {
      KeepObsKeeps(hashes, cutoff, aged[i]);
      var j :| 0 <= j < k && rs[..k][j] == aged[i];
      assert !SameContent(rs[j], rs[k]);
    }
  }

  // ----- how long a release stands -----

  /** Does the loop settle at this record: is no flip left once it has been looked at? Either a
      repeat finds them all aged out, or content arrives that does not return. */
  predicate Settling(e: Entry, r: Obs, windowMs: nat) {
    var aged := Aged(e, r.at - windowMs);
    if aged.last == Some(r.hash) then aged.flips == []
    else !Returning(aged.hashes, r) && (aged.last.Some? || aged.flips == [])
  }

  /** Some record of the run settles the loop, each judged by the entry it meets. */
  ghost predicate Settles(e: Entry, rs: seq<Obs>, windowMs: nat)
    decreases |rs|
  {
    rs != [] && (Settling(e, rs[0], windowMs) || Settles(Recorded(e, rs[0], windowMs), rs[1..], windowMs))
  }

  lemma RecordedRelease(e: Entry, r: Obs, windowMs: nat)
    ensures Recorded(e, r, windowMs).released == if Settling(e, r, windowMs) then None else e.released
  {
  }

  lemma {:induction false} NoReleaseByItself(e: Entry, rs: seq<Obs>, windowMs: nat)
    requires e.released == None
    ensures After(e, rs, windowMs).released == None
    decreases |rs|
  {
    hide Recorded, Settling;
    if rs != [] {
      RecordedRelease(e, rs[0], windowMs);
      NoReleaseByItself(Recorded(e, rs[0], windowMs), rs[1..], windowMs);
    }
  }

  /** Over every run, whatever the clock, the shapes and the order: a release is still in force
      at the end if and only if no record settled the loop. */
  lemma {:induction false} ReleaseStandsIff(e: Entry, rs: seq<Obs>, windowMs: nat)
    requires e.released.Some?
    ensures After(e, rs, windowMs).released == e.released <==> !Settles(e, rs, windowMs)
    ensures Settles(e, rs, windowMs) ==> After(e, rs, windowMs).released == None
    decreases |rs|
  {
    hide Recorded, Settling;
    if rs != [] {
      RecordedRelease(e, rs[0], windowMs);
      if Settling(e, rs[0], windowMs) {
        NoReleaseByItself(Recorded(e, rs[0], windowMs), rs[1..], windowMs);
      } else {
        ReleaseStandsIff(Recorded(e, rs[0], windowMs), rs[1..], windowMs);
      }
    }
  }

  /** When the released content arrives again at the end of a run it is held if and only if the
      loop settled meanwhile and has since flipped up to the limit again; short of that it
      passes, however many flips lie between. Other content is held at the limit as ever. */
  lemma ReleasedContentHeldIff(e: Entry, rs: seq<Obs>, limit: nat, windowMs: nat, hash: string)
    requires e.released.Some?
    ensures var e' := After(e, rs, windowMs);
            Holds(e', limit, hash) <==> |e'.flips| >= limit && (hash == e.released.value ==> Settles(e, rs, windowMs))
  {
    ReleaseStandsIff(e, rs, windowMs);
    hide Settles, After;
  }

  // ----- a loop that is caught, released, and goes on -----

  /** Nothing was observed before time 0: within the first window nothing ages out. */
  ghost predicate Young(e: Entry) {
    && (forall k :: 0 <= k < |e.hashes| ==> e.hashes[k].at >= 0)
    && (forall k :: 0 <= k < |e.flips| ==> e.flips[k] >= 0)
  }

  lemma {:induction false} KeepAllObs(s: seq<Obs>, cutoff: int)
    requires forall k :: 0 <= k < |s| ==> s[k].at >= cutoff
    ensures KeepObs(s, cutoff) == s
  {
    if s != [] { KeepAllObs(s[1..], cutoff); }
  }

  lemma {:induction false} KeepAllFlips(s: seq<int>, cutoff: int)
    requires forall k :: 0 <= k < |s| ==> s[k] >= cutoff
    ensures KeepFlips(s, cutoff) == s
  {
    if s != [] { KeepAllFlips(s[1..], cutoff); }
  }

  function Side(a: string, b: string, i: nat): string { if i % 2 == 0 then a else b }

  /** Two writers alternating: the contents a, b, a, b, ... from the i-th on, one a millisecond. */
  ghost function Bounce(a: string, b: string, i: nat, n: nat): seq<Obs>
    decreases n
  {
    if n == 0 then [] else [Obs(Side(a, b, i), None, i)] + Bounce(a, b, i + 1, n - 1)
  }

  /** The entry in the middle of such a loop, after i records, i at least 2. */
  ghost predicate Bouncing(e: Entry, a: string, b: string, i: nat) {
    && Young(e) && a != b && i >= 2
    && e.last == Some(Side(a, b, i - 1))
    && |e.flips| == i - 2
    && Seen(e, a) && Seen(e, b)
  }

  ghost predicate Seen(e: Entry, hash: string) { exists k :: 0 <= k < |e.hashes| && e.hashes[k].hash == hash }

  lemma YoungKeepsAll(e: Entry, cutoff: int)
    requires Young(e) && cutoff <= 0
    ensures Aged(e, cutoff) == e
  {
    KeepAllObs(e.hashes, cutoff);
    KeepAllFlips(e.flips, cutoff);
  }

  /** A return within the window: one flip more, one observation more, the release untouched. */
  lemma ReturnIsFlip(e: Entry, r: Obs, windowMs: nat)
    requires Aged(e, r.at - windowMs) == e && e.last != Some(r.hash) && Seen(e, r.hash)
    ensures Recorded(e, r, windowMs) == Entry(e.hashes + [r], Some(r.hash), e.flips + [r.at], e.released)
    ensures !Settling(e, r, windowMs)
  {
    hide Aged;
    var k :| 0 <= k < |e.hashes| && e.hashes[k].hash == r.hash;
    assert Matches(e.hashes[k], r);
  }

  lemma SeenStays(e: Entry, hashes: seq<Obs>, hash: string)
    requires Seen(e, hash) && e.hashes <= hashes
    ensures Seen(e.(hashes := hashes), hash)
  {
    var k :| 0 <= k < |e.hashes| && e.hashes[k].hash == hash;
    assert hashes[k].hash == hash;
  }

  lemma BounceStep(e: Entry, a: string, b: string, i: nat, windowMs: nat)
    requires Bouncing(e, a, b, i) && i <= windowMs
    ensures var r := Obs(Side(a, b, i), None, i);
            && Bouncing(Recorded(e, r, windowMs), a, b, i + 1)
            && Recorded(e, r, windowMs).released == e.released
            && !Settling(e, r, windowMs)
  {
    var r := Obs(Side(a, b, i), None, i);
    YoungKeepsAll(e, i - windowMs);
    ReturnIsFlip(e, r, windowMs);
    SeenStays(e, e.hashes + [r], a);
    SeenStays(e, e.hashes + [r], b);
    hide Recorded, Settling, Aged;
  }

  lemma {:induction false} BounceNeverSettles(e: Entry, a: string, b: string, i: nat, n: nat, windowMs: nat)
    requires Bouncing(e, a, b, i) && i + n <= windowMs + 1
    ensures Bouncing(After(e, Bounce(a, b, i, n), windowMs), a, b, i + n)
    ensures !Settles(e, Bounce(a, b, i, n), windowMs)
    decreases n
  {
    hide Recorded, Settling, Bouncing;
    if n > 0 {
      BounceStep(e, a, b, i, windowMs);
      var r := Obs(Side(a, b, i), None, i);
      assert Bounce(a, b, i, n)[0] == r && Bounce(a, b, i, n)[1..] == Bounce(a, b, i + 1, n - 1);
      BounceNeverSettles(Recorded(e, r, windowMs), a, b, i + 1, n - 1, windowMs);
    }
  }

  function SecondEntry(a: string, b: string): Entry {
    Entry([Obs(a, None, 0), Obs(b, None, 1)], Some(b), [], None)
  }

  /** The first two records of the loop on a fresh path. */
  lemma BounceBegins(a: string, b: string, n: nat, windowMs: nat)
    requires a != b && n >= 2 && windowMs >= 1
    ensures Bouncing(SecondEntry(a, b), a, b, 2)
    ensures After(FRESH, Bounce(a, b, 0, n), windowMs) == After(SecondEntry(a, b), Bounce(a, b, 2, n - 2), windowMs)
  {
    var r0, r1, rest := Obs(a, None, 0), Obs(b, None, 1), Bounce(a, b, 2, n - 2);
    var e1, e2 := Entry([r0], Some(a), [], None), SecondEntry(a, b);
    FirstTwo(r0, r1, windowMs);
    assert Bounce(a, b, 1, n - 1) == [r1] + rest && Bounce(a, b, 0, n) == [r0] + ([r1] + rest);
    hide Recorded, Bounce;
    assert ([r1] + rest)[1..] == rest && ([r0] + ([r1] + rest))[1..] == [r1] + rest;
    assert After(e1, [r1] + rest, windowMs) == After(e2, rest, windowMs);
    assert e2.hashes[0].hash == a && e2.hashes[1].hash == b;
  }

  lemma FirstTwo(r0: Obs, r1: Obs, windowMs: nat)
    requires r0.at == 0 && r1.at == 1 && r0.hash != r1.hash && r1.shape == None && windowMs >= 1
    ensures Recorded(FRESH, r0, windowMs) == Entry([r0], Some(r0.hash), [], None)
    ensures Recorded(Entry([r0], Some(r0.hash), [], None), r1, windowMs) == Entry([r0, r1], Some(r1.hash), [], None)
  {
    var e1 := Entry([r0], Some(r0.hash), [], None);
    YoungKeepsAll(FRESH, 0 - windowMs);
    YoungKeepsAll(e1, 1 - windowMs);
    hide Aged;
    assert !Returning([r0], r1);
    assert [r0] + [r1] == [r0, r1];
  }

  /** The released side's next round: the other content is held, the released content passes. */
  lemma ReleasedRound(e: Entry, a: string, b: string, i: nat, limit: nat, windowMs: nat)
    requires Bouncing(e, a, b, i) && i + 1 <= windowMs
    requires 1 <= limit <= i - 2 && e.released == e.last
    ensures var r, r' := Obs(Side(a, b, i), None, i), Obs(Side(a, b, i + 1), None, i + 1);
            var e1 := Recorded(e, r, windowMs);
            var e2 := Recorded(e1, r', windowMs);
            && PassedOne(e, r, limit, windowMs) == 0 && PassedOne(e1, r', limit, windowMs) == 1
            && Bouncing(e2, a, b, i + 2) && e2.released == e2.last
  {
    var r, r' := Obs(Side(a, b, i), None, i), Obs(Side(a, b, i + 1), None, i + 1);
    BounceStep(e, a, b, i, windowMs);
    BounceStep(Recorded(e, r, windowMs), a, b, i + 1, windowMs);
    hide Recorded, Seen, Young;
  }

  lemma TwoOfBounce(a: string, b: string, i: nat, n: nat)
    requires n >= 2
    ensures Bounce(a, b, i, n)
         == [Obs(Side(a, b, i), None, i)] + ([Obs(Side(a, b, i + 1), None, i + 1)] + Bounce(a, b, i + 2, n - 2))
  {
    hide Side;
  }

  /** Once released, every second record of the loop passes. */
  lemma {:induction false} EverySecondPasses(e: Entry, a: string, b: string, i: nat, n: nat, limit: nat, windowMs: nat)
    requires Bouncing(e, a, b, i) && i + 2 * n <= windowMs + 1
    requires 1 <= limit <= i - 2 && e.released == e.last
    ensures Passed(e, Bounce(a, b, i, 2 * n), limit, windowMs) == n
    decreases n
  {
    hide Recorded, Bouncing, PassedOne, Side;
    if n > 0 {
      var r, r' := Obs(Side(a, b, i), None, i), Obs(Side(a, b, i + 1), None, i + 1);
      var e2 := Recorded(Recorded(e, r, windowMs), r', windowMs);
      var rest := Bounce(a, b, i + 2, 2 * (n - 1));
      ReleasedRound(e, a, b, i, limit, windowMs);
      TwoOfBounce(a, b, i, 2 * n);
      hide Bounce;
      TwoRecords(e, r, r', rest, limit, windowMs);
      hide Passed;
      EverySecondPasses(e2, a, b, i + 2, n - 1, limit, windowMs);
    }
  }

  lemma TwoRecords(e: Entry, r: Obs, r': Obs, rest: seq<Obs>, limit: nat, windowMs: nat)
    ensures var e1 := Recorded(e, r, windowMs);
            Passed(e, [r] + ([r'] + rest), limit, windowMs)
            == PassedOne(e, r, limit, windowMs) + PassedOne(e1, r', limit, windowMs) + Passed(Recorded(e1, r', windowMs), rest, limit, windowMs)
  {
    assert ([r] + ([r'] + rest))[1..] == [r'] + rest && ([r'] + rest)[1..] == rest;
  }

  /** The override is not one-shot: on a fresh path the loop of two contents is caught after
      limit + 2 records; one release, and it goes on for as many rounds as the window has room
      for, the released content passing in each of them and the release still in force. */
  lemma ReleasedLoopGoesOn(a: string, b: string, limit: nat, windowMs: nat, n: nat)
    requires a != b && limit >= 1 && limit + 2 + 2 * n <= windowMs + 1
    ensures var e := After(FRESH, Bounce(a, b, 0, limit + 2), windowMs);
            var released, loop := e.(released := e.last), Bounce(a, b, limit + 2, 2 * n);
            && e.last.Some? && Holds(e, limit, e.last.value)
            && After(released, loop, windowMs).released == e.last
            && Passed(released, loop, limit, windowMs) == n
  {
    hide After, Bounce, Passed, Settles, Side;
    BounceBegins(a, b, limit + 2, windowMs);
    BounceNeverSettles(SecondEntry(a, b), a, b, 2, limit, windowMs);
    BounceKeepsRelease(SecondEntry(a, b), a, b, 2, limit, windowMs);
    var e := After(FRESH, Bounce(a, b, 0, limit + 2), windowMs);
    ReleaseKeepsBouncing(e, a, b, limit + 2);
    BounceKeepsRelease(e.(released := e.last), a, b, limit + 2, 2 * n, windowMs);
    EverySecondPasses(e.(released := e.last), a, b, limit + 2, n, limit, windowMs);
  }

  lemma ReleaseKeepsBouncing(e: Entry, a: string, b: string, i: nat)
    requires Bouncing(e, a, b, i)
    ensures Bouncing(e.(released := e.last), a, b, i) && e.last.Some? && |e.flips| == i - 2
  {
    SeenStays(e, e.hashes, a);
    assert forall x :: Seen(e, x) <==> Seen(e.(released := e.last), x);
  }

  lemma BounceKeepsRelease(e: Entry, a: string, b: string, i: nat, n: nat, windowMs: nat)
    requires Bouncing(e, a, b, i) && i + n <= windowMs + 1
    ensures After(e, Bounce(a, b, i, n), windowMs).released == e.released
  {
    hide After, Settles, Bounce, Bouncing;
    BounceNeverSettles(e, a, b, i, n, windowMs);
    if e.released.Some? {
      ReleaseStandsIff(e, Bounce(a, b, i, n), windowMs);
    } else {
      NoReleaseByItself(e, Bounce(a, b, i, n), windowMs);
    }
  }
}
