/** When two path strings name one file: the identity key, the index of first spellings and the
    groups of clashing spellings. NFC and lower-casing are two fixed functions. */
module PathIdentity {
  import opened Wrappers

  datatype PathFs = PathFs(caseInsensitive: bool, normInsensitive: bool)

  datatype Unicode = Unicode(nfc: string -> string, lower: string -> string)

  function IdentityKey(u: Unicode, path: string, fs: PathFs): string {
    var n := if fs.normInsensitive then u.nfc(path) else path;
    if fs.caseInsensitive then u.lower(n) else n
  }

  /** Which spellings are one file under each of the four rule sets: with neither insensitivity only
      the same string; with one, those that fold alike; with both, those whose composed forms fold
      alike, so that a decomposed accent folds as the composed one does. */
  lemma SameFileRules(u: Unicode, a: string, b: string)
    ensures IdentityKey(u, a, PathFs(false, false)) == IdentityKey(u, b, PathFs(false, false)) <==> a == b
    ensures IdentityKey(u, a, PathFs(true, false)) == IdentityKey(u, b, PathFs(true, false)) <==> u.lower(a) == u.lower(b)
    ensures IdentityKey(u, a, PathFs(false, true)) == IdentityKey(u, b, PathFs(false, true)) <==> u.nfc(a) == u.nfc(b)
    ensures IdentityKey(u, a, PathFs(true, true)) == IdentityKey(u, b, PathFs(true, true)) <==> u.lower(u.nfc(a)) == u.lower(u.nfc(b))
  {
  }

  // ----- the first spelling -----

  /** The first of `keys` whose identity key is `f`. */
  function First(u: Unicode, keys: seq<string>, fs: PathFs, f: string): (r: Option<string>)
    decreases |keys|
  {
    if keys == [] then None
    else if IdentityKey(u, keys[0], fs) == f then Some(keys[0])
    else First(u, keys[1..], fs, f)
  }

  /** The key of that identity with none before it. */
  lemma {:induction false} FirstIsFirst(u: Unicode, keys: seq<string>, fs: PathFs, f: string, i: int)
    requires 0 <= i < |keys| && IdentityKey(u, keys[i], fs) == f
    requires forall j :: 0 <= j < i ==> IdentityKey(u, keys[j], fs) != f
    ensures First(u, keys, fs, f) == Some(keys[i])
    decreases |keys|
  {
    hide IdentityKey;
    if i > 0 {
      assert keys[1..][i - 1] == keys[i];
      assert forall j :: 0 <= j < i - 1 ==> keys[1..][j] == keys[j + 1];
      FirstIsFirst(u, keys[1..], fs, f, i - 1);
    }
  }

  /** Nothing is found exactly when no key has that identity. */
  lemma {:induction false} FirstIsOne(u: Unicode, keys: seq<string>, fs: PathFs, f: string)
    ensures var r := First(u, keys, fs, f);
      if r.Some? then r.value in keys && IdentityKey(u, r.value, fs) == f
      else forall k :: k in keys ==> IdentityKey(u, k, fs) != f
    decreases |keys|
  {
    hide IdentityKey;
    if keys != [] { FirstIsOne(u, keys[1..], fs, f); }
  }

  lemma {:induction false} FirstOfExtended(u: Unicode, keys: seq<string>, k: string, fs: PathFs, f: string)
    ensures First(u, keys + [k], fs, f)
         == if First(u, keys, fs, f).Some? then First(u, keys, fs, f)
            else if IdentityKey(u, k, fs) == f then Some(k) else None
    decreases |keys|
  {
    if keys != [] {
      assert (keys + [k])[1..] == keys[1..] + [k];
      FirstOfExtended(u, keys[1..], k, fs, f);
    }
  }

  /** `m` maps each identity key to its first spelling. */
  ghost predicate Indexes(u: Unicode, m: map<string, string>, keys: seq<string>, fs: PathFs) {
    forall f :: Lookup(m, f) == First(u, keys, fs, f)
  }

  function Lookup(m: map<string, string>, f: string): Option<string> {
    if f in m then Some(m[f]) else None
  }

  lemma IndexGrows(u: Unicode, m: map<string, string>, keys: seq<string>, k: string, fs: PathFs)
    requires Indexes(u, m, keys, fs)
    ensures var f := IdentityKey(u, k, fs);
      Indexes(u, if f in m then m else m[f := k], keys + [k], fs)
  {
    hide First, IdentityKey;
    var f := IdentityKey(u, k, fs);
    var m' := if f in m then m else m[f := k];
    forall g ensures Lookup(m', g) == First(u, keys + [k], fs, g) {
      FirstOfExtended(u, keys, k, fs, g);
      assert Lookup(m, g) == First(u, keys, fs, g);
      assert Lookup(m, f) == First(u, keys, fs, f);
    }
  }

  method IdentityIndex(u: Unicode, keys: seq<string>, fs: PathFs) returns (m: map<string, string>)
    ensures Indexes(u, m, keys, fs)
  {
    hide Indexes, IdentityKey;
    m := map[];
    EmptyIndex(u, fs);
    for n := 0 to |keys|
      invariant Indexes(u, m, keys[..n], fs)
    {
      IndexGrows(u, m, keys[..n], keys[n], fs);
      assert keys[..n + 1] == keys[..n] + [keys[n]];
      var f := IdentityKey(u, keys[n], fs);
      if f !in m { m := m[f := keys[n]]; }
    }
    assert keys[..|keys|] == keys;
  }

  lemma EmptyIndex(u: Unicode, fs: PathFs)
    ensures Indexes(u, map[], [], fs)
  {
    assert forall f :: Lookup(map[], f) == None;
  }

  // ----- groups of clashing spellings -----

  /** The distinct spellings of one file, in order. */
  function Spellings(u: Unicode, keys: seq<string>, fs: PathFs, f: string): (r: seq<string>)
    decreases |keys|
  {
    if keys == [] then [] else
      var k, r := keys[|keys| - 1], Spellings(u, keys[..|keys| - 1], fs, f);
      if IdentityKey(u, k, fs) == f && k !in r then r + [k] else r
  }

  /** The identity keys, in order of their first spelling. */
  function Ids(u: Unicode, keys: seq<string>, fs: PathFs): (r: seq<string>)
    decreases |keys|
  {
    if keys == [] then [] else
      var f, r := IdentityKey(u, keys[|keys| - 1], fs), Ids(u, keys[..|keys| - 1], fs);
      if f !in r then r + [f] else r
  }

  function Clashing(u: Unicode, keys: seq<string>, fs: PathFs, ids: seq<string>): seq<seq<string>>
    decreases |ids|
  {
    if ids == [] then [] else
      var g := Spellings(u, keys, fs, ids[|ids| - 1]);
      Clashing(u, keys, fs, ids[..|ids| - 1]) + (if |g| > 1 then [g] else [])
  }

  function Groups(u: Unicode, keys: seq<string>, fs: PathFs): seq<seq<string>> {
    if !fs.caseInsensitive && !fs.normInsensitive then [] else Clashing(u, keys, fs, Ids(u, keys, fs))
  }

  lemma {:induction false} SpellingsAre(u: Unicode, keys: seq<string>, fs: PathFs, f: string, k: string)
    ensures k in Spellings(u, keys, fs, f) <==> k in keys && IdentityKey(u, k, fs) == f
    decreases |keys|
  {
    if keys != [] {
      SpellingsAre(u, keys[..|keys| - 1], fs, f, k);
      assert keys == keys[..|keys| - 1] + [keys[|keys| - 1]];
    }
  }

  lemma {:induction false} IdsAre(u: Unicode, keys: seq<string>, fs: PathFs, k: string)
    requires k in keys
    ensures IdentityKey(u, k, fs) in Ids(u, keys, fs)
    decreases |keys|
  {
    if k != keys[|keys| - 1] {
      assert k in keys[..|keys| - 1];
      IdsAre(u, keys[..|keys| - 1], fs, k);
    }
  }

  /** `spelt` holds the spellings of every identity key among `keys`, and no empty list. */
  ghost predicate Gathers(u: Unicode, spelt: map<string, seq<string>>, keys: seq<string>, fs: PathFs) {
    forall f :: Spellings(u, keys, fs, f) == if f in spelt then spelt[f] else []
  }

  lemma GatherOne(u: Unicode, spelt: map<string, seq<string>>, keys: seq<string>, k: string, fs: PathFs)
    requires Gathers(u, spelt, keys, fs)
    ensures var f := IdentityKey(u, k, fs);
      var g := if f in spelt then spelt[f] else [];
      Gathers(u, spelt[f := if k in g then g else g + [k]], keys + [k], fs)
  {
    hide IdentityKey;
    assert (keys + [k])[..|keys|] == keys;
  }

  method Gather(u: Unicode, keys: seq<string>, fs: PathFs) returns (order: seq<string>, spelt: map<string, seq<string>>)
    ensures order == Ids(u, keys, fs)
    ensures forall f :: f in spelt <==> f in order
    ensures Gathers(u, spelt, keys, fs)
  {
    hide Gathers, IdentityKey;
    order, spelt := [], map[];
    assert Gathers(u, spelt, [], fs) by { NothingGathered(u, fs); }
    for n := 0 to |keys|
      invariant order == Ids(u, keys[..n], fs)
      invariant forall f :: f in spelt <==> f in order
      invariant Gathers(u, spelt, keys[..n], fs)
    {
      GatherOne(u, spelt, keys[..n], keys[n], fs);
      assert keys[..n + 1] == keys[..n] + [keys[n]];
      assert keys[..n + 1][..n] == keys[..n];
      var f := IdentityKey(u, keys[n], fs);
      if f !in spelt {
        assert [] + [keys[n]] == [keys[n]];
        order, spelt := order + [f], spelt[f := [keys[n]]];
      } else if keys[n] !in spelt[f] {
        spelt := spelt[f := spelt[f] + [keys[n]]];
      } else {
        assert spelt[f := spelt[f]] == spelt;
      }
    }
    assert keys[..|keys|] == keys;
  }

  lemma NothingGathered(u: Unicode, fs: PathFs)
    ensures Gathers(u, map[], [], fs)
  {
  }

  method KeepClashing(u: Unicode, keys: seq<string>, fs: PathFs, order: seq<string>, spelt: map<string, seq<string>>)
    returns (groups: seq<seq<string>>)
    requires forall n :: 0 <= n < |order| ==> order[n] in spelt && spelt[order[n]] == Spellings(u, keys, fs, order[n])
    ensures groups == Clashing(u, keys, fs, order)
  {
    hide Spellings;
    groups := [];
    for n := 0 to |order|
      invariant groups == Clashing(u, keys, fs, order[..n])
    {
      assert order[..n + 1][..n] == order[..n];
      if |spelt[order[n]]| > 1 { groups := groups + [spelt[order[n]]]; }
    }
    assert order[..|order|] == order;
  }

  method IdentityGroups(u: Unicode, keys: seq<string>, fs: PathFs) returns (groups: seq<seq<string>>)
    ensures groups == Groups(u, keys, fs)
  {
    if !fs.caseInsensitive && !fs.normInsensitive { return []; }
    hide Ids, Spellings, IdentityKey, Clashing;
    var order, spelt := Gather(u, keys, fs);
    assert forall n :: 0 <= n < |order| ==> order[n] in spelt;
    groups := KeepClashing(u, keys, fs, order, spelt);
  }

  // ----- no group, no ambiguity -----

  lemma {:induction false} NoClash(u: Unicode, keys: seq<string>, fs: PathFs, ids: seq<string>, f: string)
    requires f in ids && Clashing(u, keys, fs, ids) == []
    ensures |Spellings(u, keys, fs, f)| <= 1
    decreases |ids|
  {
    hide Spellings;
    var n := |ids| - 1;
    if f != ids[n] {
      assert ids == ids[..n] + [ids[n]];
      NoClash(u, keys, fs, ids[..n], f);
    }
  }

  lemma {:induction false} SomeClash(u: Unicode, keys: seq<string>, fs: PathFs, ids: seq<string>) returns (f: string)
    requires Clashing(u, keys, fs, ids) != []
    ensures |Spellings(u, keys, fs, f)| > 1
    decreases |ids|
  {
    hide Spellings;
    f := ids[|ids| - 1];
    if |Spellings(u, keys, fs, f)| <= 1 { f := SomeClash(u, keys, fs, ids[..|ids| - 1]); }
  }

  lemma {:induction false} FirstTwoDiffer(u: Unicode, keys: seq<string>, fs: PathFs, f: string)
    ensures var g := Spellings(u, keys, fs, f); |g| > 1 ==> g[0] != g[1]
    decreases |keys|
  {
    if keys != [] { FirstTwoDiffer(u, keys[..|keys| - 1], fs, f); }
  }

  /** No two different keys are one file. */
  ghost predicate Unambiguous(u: Unicode, keys: seq<string>, fs: PathFs) {
    forall k, l :: k in keys && l in keys && IdentityKey(u, k, fs) == IdentityKey(u, l, fs) ==> k == l
  }

  lemma OneSpelling(u: Unicode, keys: seq<string>, fs: PathFs, k: string, l: string)
    requires Groups(u, keys, fs) == []
    requires k in keys && l in keys && IdentityKey(u, k, fs) == IdentityKey(u, l, fs)
    ensures k == l
  {
    if !fs.caseInsensitive && !fs.normInsensitive { return; }
    assert Clashing(u, keys, fs, Ids(u, keys, fs)) == [];
    hide IdentityKey, Spellings, Ids, Clashing, Groups;
    var f := IdentityKey(u, k, fs);
    IdsAre(u, keys, fs, k);
    NoClash(u, keys, fs, Ids(u, keys, fs), f);
    SpellingsAre(u, keys, fs, f, k);
    SpellingsAre(u, keys, fs, f, l);
  }

  lemma TwoSpellings(u: Unicode, keys: seq<string>, fs: PathFs)
    requires Groups(u, keys, fs) != []
    ensures !Unambiguous(u, keys, fs)
  {
    hide IdentityKey, Spellings, Ids;
    var f := SomeClash(u, keys, fs, Ids(u, keys, fs));
    var g := Spellings(u, keys, fs, f);
    FirstTwoDiffer(u, keys, fs, f);
    SpellingsAre(u, keys, fs, f, g[0]);
    SpellingsAre(u, keys, fs, f, g[1]);
  }

  /** No group is reported exactly when no two different keys are one file. */
  lemma NoGroupIff(u: Unicode, keys: seq<string>, fs: PathFs)
    ensures Groups(u, keys, fs) == [] <==> Unambiguous(u, keys, fs)
  {
    hide IdentityKey, Groups;
    if Groups(u, keys, fs) == [] {
      forall k, l | k in keys && l in keys && IdentityKey(u, k, fs) == IdentityKey(u, l, fs) ensures k == l {
        OneSpelling(u, keys, fs, k, l);
      }
    } else {
      TwoSpellings(u, keys, fs);
    }
  }
}
