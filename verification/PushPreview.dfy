/** The network-free convergence check of the push and pull buttons: the stamps of the last
    synced base against a fresh local walk. */
module PushPreview {
  import opened Wrappers

  datatype Based = Based(path: string, size: Option<int>, mtime: Option<int>)
  datatype Local = Local(size: int, mtime: int)

  /** The file is there and carries exactly the stamp of its base. */
  predicate Agrees(b: Based, local: map<string, Local>) {
    b.path in local && b.size == Some(local[b.path].size) && b.mtime == Some(local[b.path].mtime)
  }

  method StampsConverged(base: seq<Based>, local: map<string, Local>) returns (ok: bool)
    ensures ok <==> |base| == |local| && forall i :: 0 <= i < |base| ==> Agrees(base[i], local)
  {
    if |base| != |local| { return false; }
    for i := 0 to |base|
      invariant forall j :: 0 <= j < i ==> Agrees(base[j], local)
    {
      var b := base[i];
      if b.path !in local { return false; }
      if b.size.None? || b.mtime.None? { return false; }
      if local[b.path].size != b.size.value || local[b.path].mtime != b.mtime.value { return false; }
    }
    return true;
  }

  predicate DistinctPaths(base: seq<Based>) {
    forall i, j :: 0 <= i < j < |base| ==> base[i].path != base[j].path
  }

  /** The paths of the base. */
  function Paths(base: seq<Based>): set<string>
    decreases |base|
  {
    if base == [] then {} else Paths(base[..|base| - 1]) + {base[|base| - 1].path}
  }

  lemma {:induction false} PathsAre(base: seq<Based>, p: string)
    ensures p in Paths(base) <==> exists i :: 0 <= i < |base| && base[i].path == p
    decreases |base|
  {
    if base != [] { PathsAre(base[..|base| - 1], p); }
  }

  lemma {:induction false} CountPaths(base: seq<Based>)
    ensures |Paths(base)| <= |base|
    ensures DistinctPaths(base) ==> |Paths(base)| == |base|
    decreases |base|
  {
    if base != [] {
      CountPaths(base[..|base| - 1]);
      PathsAre(base[..|base| - 1], base[|base| - 1].path);
    }
  }

  lemma SameSizeSameSet(a: set<string>, b: set<string>)
    requires a <= b && |a| == |b|
    ensures a == b
  {
    assert b == a + (b - a);
    assert |b - a| == 0;
  }

  /** With each path listed once, counting files is enough: the check passes exactly when base and
      folder have the same files and every stamp agrees. */
  lemma ConvergedIffSame(base: seq<Based>, local: map<string, Local>)
    requires DistinctPaths(base)
    ensures (|base| == |local| && forall i :: 0 <= i < |base| ==> Agrees(base[i], local))
       <==> (Paths(base) == local.Keys && forall i :: 0 <= i < |base| ==> Agrees(base[i], local))
  {
    CountPaths(base);
    assert |local.Keys| == |local|;
    if |base| == |local| && forall i :: 0 <= i < |base| ==> Agrees(base[i], local) {
      forall p | p in Paths(base) ensures p in local.Keys { PathsAre(base, p); }
      SameSizeSameSet(Paths(base), local.Keys);
    }
  }
}
