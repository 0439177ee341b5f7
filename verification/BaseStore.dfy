/** The per-file base: an insertion-ordered map from paths to entries, with a memoised index of
    identity keys. Entries are objects: a stamp is seen by everyone who holds the entry. */
module BaseStore {
  import opened Wrappers
  import opened PathIdentity

  class BaseEntry {
    var hash: string
    var text: Option<string>
    var size: Option<int>
    var mtime: Option<int>

    constructor (hash: string, text: Option<string>, size: Option<int>, mtime: Option<int>)
      ensures this.hash == hash && this.text == text && this.size == size && this.mtime == mtime
    {
      this.hash, this.text, this.size, this.mtime := hash, text, size, mtime;
    }
  }

  /** The same hash, text and stamp. */
  predicate SameFields(a: BaseEntry, b: BaseEntry)
    reads a, b
  {
    a.hash == b.hash && a.text == b.text && a.size == b.size && a.mtime == b.mtime
  }

  predicate Distinct(keys: seq<string>) { forall i, j :: 0 <= i < j < |keys| ==> keys[i] != keys[j] }

  /** `keys` without `k`, in the same order. */
  function Without(keys: seq<string>, k: string): (r: seq<string>)
    ensures forall x :: x in r <==> x in keys && x != k
    decreases |keys|
  {
    if keys == [] then []
    else (if keys[0] == k then [] else [keys[0]]) + Without(keys[1..], k)
  }

  lemma {:induction false} WithoutKeepsDistinct(keys: seq<string>, k: string)
    requires Distinct(keys)
    ensures Distinct(Without(keys, k))
    decreases |keys|
  {
    if keys != [] {
      WithoutKeepsDistinct(keys[1..], k);
      var rest := Without(keys[1..], k);
      assert keys[0] !in keys[1..];
      assert Without(keys, k) == if keys[0] == k then rest else [keys[0]] + rest;
    }
  }

  /** Only the key goes; what stood before and behind it keeps its order. */
  lemma {:induction false} WithoutCutsOut(a: seq<string>, k: string, b: seq<string>)
    requires k !in a && k !in b
    ensures Without(a + [k] + b, k) == a + b
    decreases |a|
  {
    if a == [] {
      assert (a + [k] + b)[1..] == b && a + b == b;
      NothingToDrop(b, k);
    } else {
      assert (a + [k] + b)[1..] == a[1..] + [k] + b;
      WithoutCutsOut(a[1..], k, b);
      assert a + b == [a[0]] + (a[1..] + b);
    }
  }

  lemma WithoutIsCut(keys: seq<string>, k: string)
    requires Distinct(keys) && k in keys
    ensures exists i :: 0 <= i < |keys| && keys[i] == k && Without(keys, k) == keys[..i] + keys[i + 1..]
  {
    var i :| 0 <= i < |keys| && keys[i] == k;
    assert keys == keys[..i] + [k] + keys[i + 1..];
    WithoutCutsOut(keys[..i], k, keys[i + 1..]);
  }

  class BaseStore {
    const u: Unicode
    var keys: seq<string>
    var m: map<string, BaseEntry>
    var fold: Option<map<string, string>>
    var foldFs: Option<PathFs>

    /** The order lists the map's keys once each, and a memoised index is the one that would be
        computed now, for the rules it was computed under. */
    ghost predicate Valid()
      reads this
    {
      && Distinct(keys)
      && (forall k :: k in m <==> k in keys)
      && (fold.Some? ==> foldFs.Some? && Indexes(u, fold.value, keys, foldFs.value))
    }

    constructor (u: Unicode, initial: seq<(string, BaseEntry)>)
      requires forall i, j :: 0 <= i < j < |initial| ==> initial[i].0 != initial[j].0
      ensures Valid() && this.u == u
      ensures |keys| == |initial| && forall i :: 0 <= i < |keys| ==> keys[i] == initial[i].0
      ensures forall i :: 0 <= i < |keys| ==> fresh(m[keys[i]]) && SameFields(m[keys[i]], initial[i].1)
    {
      this.u := u;
      keys, m, fold, foldFs := [], map[], None, None;
      new;
      for n := 0 to |initial|
        invariant fold == None && this.u == u
        invariant |keys| == n && forall i :: 0 <= i < n ==> keys[i] == initial[i].0
        invariant forall k :: k in m <==> k in keys
        invariant forall i :: 0 <= i < n ==> fresh(m[keys[i]]) && SameFields(m[keys[i]], initial[i].1)
      {
        var e := initial[n].1;
        var clean := new BaseEntry(e.hash, e.text, e.size, e.mtime);
        keys, m := keys + [initial[n].0], m[initial[n].0 := clean];
      }
    }

    method Set(path: string, entry: BaseEntry)
      requires Valid()
      modifies this
      ensures Valid()
      ensures m == old(m)[path := entry]
      ensures keys == if path in old(m) then old(keys) else old(keys) + [path]
    {
      if path !in m { fold := None; keys := keys + [path]; }
      m := m[path := entry];
    }

    method Delete(path: string)
      requires Valid()
      modifies this
      ensures Valid()
      ensures m == old(m) - {path}
      ensures path !in old(m) ==> keys == old(keys)
      ensures path in old(m) ==> exists i :: 0 <= i < |old(keys)| && old(keys)[i] == path && keys == old(keys)[..i] + old(keys)[i + 1..]
      ensures keys == Without(old(keys), path)
    {
      WithoutKeepsDistinct(keys, path);
      if path in m {
        WithoutIsCut(keys, path);
        m, keys := m - {path}, Without(keys, path);
        fold := None;
      } else {
        NothingToDrop(keys, path);
      }
    }

    /** The first key, in insertion order, that is the same file as `path` under `fs`, whatever
        the memo was computed for. */
    method FoldSibling(path: string, fs: PathFs) returns (r: Option<string>)
      requires Valid()
      modifies this`fold, this`foldFs
      ensures Valid()
      ensures r == First(u, keys, fs, IdentityKey(u, path, fs))
    {
      if fold.None? || foldFs != Some(fs) {
        var index := IdentityIndex(u, keys, fs);
        fold, foldFs := Some(index), Some(fs);
      }
      r := Lookup(fold.value, IdentityKey(u, path, fs));
    }

    method StampStat(path: string, size: int, mtime: int)
      requires Valid()
      modifies if path in m then {m[path]} else {}
      ensures Valid()
      ensures path in m ==> m[path].size == Some(size) && m[path].mtime == Some(mtime)
      ensures path in m ==> m[path].hash == old(m[path].hash) && m[path].text == old(m[path].text)
    {
      if path in m {
        m[path].size, m[path].mtime := Some(size), Some(mtime);
      }
    }
  }

  lemma {:induction false} NothingToDrop(keys: seq<string>, k: string)
    requires k !in keys
    ensures Without(keys, k) == keys
    decreases |keys|
  {
    if keys != [] { NothingToDrop(keys[1..], k); }
  }

  // ----- what the sibling lookup means for the store -----

  /** Looking a stored key up gives the key itself. */
  ghost predicate FindsItself(u: Unicode, keys: seq<string>, fs: PathFs, k: string) {
    First(u, keys, fs, IdentityKey(u, k, fs)) == Some(k)
  }

  /** Every stored key finds itself exactly when no clashing group is reported for the store. */
  lemma SiblingsAgreeIffNoGroup(u: Unicode, keys: seq<string>, fs: PathFs)
    ensures (forall k :: k in keys ==> FindsItself(u, keys, fs, k)) <==> Groups(u, keys, fs) == []
  {
    hide First, IdentityKey, Groups;
    NoGroupIff(u, keys, fs);
    if Groups(u, keys, fs) == [] {
      forall k | k in keys ensures FindsItself(u, keys, fs, k) {
        FirstIsOne(u, keys, fs, IdentityKey(u, k, fs));
      }
    } else {
      var k, l :| k in keys && l in keys && IdentityKey(u, k, fs) == IdentityKey(u, l, fs) && k != l;
      assert !(FindsItself(u, keys, fs, k) && FindsItself(u, keys, fs, l));
    }
  }

  /** A key deleted and set again stands behind every other spelling of its file. */
  lemma ResetKeyYields(u: Unicode, keys: seq<string>, fs: PathFs, k: string, other: string)
    requires other in keys && other != k && IdentityKey(u, other, fs) == IdentityKey(u, k, fs)
    ensures var r := First(u, Without(keys, k) + [k], fs, IdentityKey(u, k, fs));
      r.Some? && r.value != k && r.value in keys
  {
    hide First, IdentityKey;
    var f := IdentityKey(u, k, fs);
    FirstOfExtended(u, Without(keys, k), k, fs, f);
    FirstIsOne(u, Without(keys, k), fs, f);
  }
}
