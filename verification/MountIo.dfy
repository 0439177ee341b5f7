/** The local side of a mount: the listing re-keyed to mount-relative paths, and the on-disk
    spelling of the mount point that the first listing teaches. */
module MountIo {
  import opened Wrappers
  import opened Text
  import opened Mounts

  datatype Stat = Stat(mtime: int, size: int)
  datatype File = File(path: string, stat: Stat)

  /** Notes and attachments, never the configuration tree; `lower` folds letter case. */
  predicate IsDataPath(lower: Canon, rel: string) {
    var segs := NonEmpty(Split(rel, '/'));
    segs != [] && lower(segs[0]) != ".obsidian"
  }

  /** The mount-relative key a listed path gets, if it gets one. */
  function Key(canon: Canon, lower: Canon, m: Mount, path: string): Option<string> {
    var rel := RelFromLocal(canon, m, path);
    if rel.Some? && rel.value != "" && IsDataPath(lower, rel.value) then rel else None
  }

  function DropTrailingSlashes(s: string): (r: string)
    ensures r <= s && (forall i :: |r| <= i < |s| ==> s[i] == '/')
    ensures r != "" ==> r[|r| - 1] != '/'
  {
    if s != "" && s[|s| - 1] == '/' then DropTrailingSlashes(s[..|s| - 1]) else s
  }

  /** The spelling of the mount point a listed path shows. */
  function Shown(path: string, rel: string): Option<string> {
    if |path| > |rel| then Some(DropTrailingSlashes(path[..|path| - |rel|])) else None
  }

  /** The listing of the first `n` files; a later file replaces an earlier one with its key. */
  function Listed(canon: Canon, lower: Canon, m: Mount, files: seq<File>, n: int): map<string, Stat>
    requires 0 <= n <= |files|
    decreases n
  {
    if n == 0 then map[] else
      var out := Listed(canon, lower, m, files, n - 1);
      var key := Key(canon, lower, m, files[n - 1].path);
      if key.Some? then out[key.value := files[n - 1].stat] else out
  }

  /** What is known of the spelling after `n` files; once known it is never learned again. */
  function Learned(canon: Canon, lower: Canon, m: Mount, known: Option<string>, files: seq<File>, n: int): Option<string>
    requires 0 <= n <= |files|
    decreases n
  {
    if n == 0 then known else
      var r := Learned(canon, lower, m, known, files, n - 1);
      var key := Key(canon, lower, m, files[n - 1].path);
      if r.None? && key.Some? then Shown(files[n - 1].path, key.value) else r
  }

  /** The mount as it is spelled on disk; an empty spelling counts as not known. */
  function OnDisk(m: Mount, known: Option<string>): Mount {
    if known.Some? && known.value != "" then m.(point := known.value) else m
  }

  class MountedIo {
    const mount: Mount
    const canon: Canon
    const lower: Canon
    var realMountPoint: Option<string>

    constructor (mount: Mount, canon: Canon, lower: Canon)
      ensures this.mount == mount && this.canon == canon && this.lower == lower && realMountPoint == None
    {
      this.mount, this.canon, this.lower := mount, canon, lower;
      realMountPoint := None;
    }

    /** The local path that reads and writes of `rel` go to. */
    function Local(rel: string): string
      reads this
    {
      LocalFromRel(OnDisk(mount, realMountPoint), rel)
    }

    method List(files: seq<File>) returns (out: map<string, Stat>)
      modifies this`realMountPoint
      ensures out == Listed(canon, lower, mount, files, |files|)
      ensures realMountPoint == Learned(canon, lower, mount, old(realMountPoint), files, |files|)
    {
      hide RelFromLocal, IsDataPath, DropTrailingSlashes;
      out := map[];
      for n := 0 to |files|
        invariant out == Listed(canon, lower, mount, files, n)
        invariant realMountPoint == Learned(canon, lower, mount, old(realMountPoint), files, n)
      {
        var p := files[n].path;
        var rel := RelFromLocal(canon, mount, p);
        if rel.None? || rel.value == "" || !IsDataPath(lower, rel.value) { continue; }
        out := out[rel.value := files[n].stat];
        if realMountPoint.None? && |p| > |rel.value| {
          realMountPoint := Some(DropTrailingSlashes(p[..|p| - |rel.value|]));
        }
      }
    }
  }

  // ----- the listing -----

  /** A file gets a key exactly when the mount claims it, it is not the mount point itself, and the
      first segment behind the point is not the configuration folder in any letter case. */
  lemma KeyIff(canon: Canon, lower: Canon, m: Mount, path: string, rel: string)
    ensures Key(canon, lower, m, path) == Some(rel)
       <==> Claims(canon, m, path) && |Segs(path)| > |Segs(m.point)|
            && rel == Join(Segs(path)[|Segs(m.point)|..], '/') && lower(Segs(path)[|Segs(m.point)|]) != ".obsidian"
  {
    SegmentsAreBare(path);
    RelIffClaimed(canon, m, path);
    if Claims(canon, m, path) {
      var rest := Segs(path)[|Segs(m.point)|..];
      JoinOfBare(rest);
      if rest != [] {
        SplitJoin(rest, '/');
        BareKeeps(rest);
      }
    }
  }

  /** A key is listed exactly when some file of the mount has it, with the last such file's stat. */
  lemma {:induction false} ListedIff(canon: Canon, lower: Canon, m: Mount, files: seq<File>, n: int, rel: string)
    requires 0 <= n <= |files|
    ensures rel in Listed(canon, lower, m, files, n)
       <==> exists i :: 0 <= i < n && Key(canon, lower, m, files[i].path) == Some(rel)
    decreases n
  {
    hide Key;
    if n > 0 { ListedIff(canon, lower, m, files, n - 1, rel); }
  }

  lemma {:induction false} LastOneCounts(canon: Canon, lower: Canon, m: Mount, files: seq<File>, n: int, i: int)
    requires 0 <= i < n <= |files|
    requires Key(canon, lower, m, files[i].path).Some?
    requires forall j :: i < j < n ==> Key(canon, lower, m, files[j].path) != Key(canon, lower, m, files[i].path)
    ensures var rel := Key(canon, lower, m, files[i].path).value;
      rel in Listed(canon, lower, m, files, n) && Listed(canon, lower, m, files, n)[rel] == files[i].stat
    decreases n
  {
    hide Key;
    if i < n - 1 { LastOneCounts(canon, lower, m, files, n - 1, i); }
  }

  // ----- the learned spelling -----

  lemma {:induction false} NoSlashAtTheEnd(a: seq<string>)
    requires AllBare(a) && a != []
    ensures Join(a, '/') != "" && Join(a, '/')[|Join(a, '/')| - 1] != '/'
  {
    if |a| > 1 {
      NoSlashAtTheEnd(a[1..]);
    } else {
      assert a[0] in a && a[0] != "";
      assert a[0][|a[0]| - 1] in a[0];
    }
  }

  lemma TrimsTo(head: string, rel: string)
    requires head != "" && head[|head| - 1] != '/'
    ensures Shown(head + "/" + rel, rel) == Some(head)
  {
    assert (head + "/" + rel)[..|head| + 1] == head + "/";
    assert (head + "/")[..|head|] == head;
    assert DropTrailingSlashes(head) == head;
  }

  /** A claimed path in normal form shows its own first segments. */
  lemma ShownIsThePrefix(canon: Canon, m: Mount, path: string, rel: string)
    requires NormFolder(path) == path
    requires RelFromLocal(canon, m, path) == Some(rel) && rel != ""
    ensures |Segs(m.point)| < |Segs(path)|
    ensures Shown(path, rel) == Some(Join(Segs(path)[..|Segs(m.point)|], '/'))
  {
    var k, p := |Segs(m.point)|, Segs(path);
    SegmentsAreBare(path);
    hide Segs, NormFolder, Shown;
    assert p == p[..k] + p[k..];
    assert p[k..] != [];
    JoinConcat(p[..k], p[k..]);
    NoSlashAtTheEnd(p[..k]);
    TrimsTo(Join(p[..k], '/'), rel);
  }

  /** The first file of the mount teaches the spelling. */
  lemma {:induction false} FirstFileTeaches(canon: Canon, lower: Canon, m: Mount, files: seq<File>, i: int, n: int)
    requires 0 <= i < n <= |files|
    requires Key(canon, lower, m, files[i].path).Some?
    requires forall j :: 0 <= j < i ==> Key(canon, lower, m, files[j].path) == None
    requires NormFolder(files[i].path) == files[i].path
    ensures Learned(canon, lower, m, None, files, n)
         == Some(Join(Segs(files[i].path)[..|Segs(m.point)|], '/'))
    decreases n
  {
    hide Segs, NormFolder, RelFromLocal, Shown;
    if i < n - 1 {
      FirstFileTeaches(canon, lower, m, files, i, n - 1);
    } else {
      NothingLearned(canon, lower, m, files, i);
      ShownIsThePrefix(canon, m, files[i].path, Key(canon, lower, m, files[i].path).value);
    }
  }

  lemma {:induction false} NothingLearned(canon: Canon, lower: Canon, m: Mount, files: seq<File>, n: int)
    requires 0 <= n <= |files|
    requires forall j :: 0 <= j < n ==> Key(canon, lower, m, files[j].path) == None
    ensures Learned(canon, lower, m, None, files, n) == None
    decreases n
  {
    hide Key;
    if n > 0 { NothingLearned(canon, lower, m, files, n - 1); }
  }

  /** Putting a key under a spelled-out mount point, segment by segment. */
  lemma PutUnder(head: seq<string>, tail: seq<string>)
    requires AllBare(head) && AllBare(tail)
    ensures Under(Join(head, '/'), Join(tail, '/')) == Join(head + tail, '/')
  {
    SegsOfJoined(head);
    SegsOfJoined(tail);
    SegsOfUnder(Join(head, '/'), Join(tail, '/'));
  }

  lemma SameTailSamePathIff(head: seq<string>, p: seq<string>)
    requires AllBare(head) && AllBare(p) && |head| <= |p|
    ensures Join(head + p[|head|..], '/') == Join(p, '/') <==> p[..|head|] == head
  {
    SwappedHead(head, p);
    if Join(head + p[|head|..], '/') == Join(p, '/') { JoinInjective(head + p[|head|..], p); }
  }

  /** With the spelling learned from `first`, reads and writes of a listed file's key reach that
      very file if and only if it spells the mount point as `first` does. */
  lemma ReachesTheFileIff(canon: Canon, m: Mount, first: string, path: string, rel: string)
    requires NormFolder(path) == path
    requires Claims(canon, m, first) && RelFromLocal(canon, m, path) == Some(rel)
    ensures var k := |Segs(m.point)|;
      var learned := Some(Join(Segs(first)[..k], '/'));
      LocalFromRel(OnDisk(m, learned), rel) == path <==> Segs(path)[..k] == Segs(first)[..k]
  {
    var k := |Segs(m.point)|;
    var head, tail := Segs(first)[..k], Segs(path)[k..];
    SegmentsAreBare(first);
    SegmentsAreBare(path);
    hide Segs, NormFolder, Under;
    JoinOfBare(head);
    PutUnder(head, tail);
    SameTailSamePathIff(head, Segs(path));
  }

  /** Listing twice teaches what one listing of everything would have taught. */
  lemma {:induction false} LearnedAcross(canon: Canon, lower: Canon, m: Mount, known: Option<string>, earlier: seq<File>, files: seq<File>, n: int)
    requires 0 <= n <= |files|
    ensures Learned(canon, lower, m, known, earlier + files, |earlier| + n)
         == Learned(canon, lower, m, Learned(canon, lower, m, known, earlier, |earlier|), files, n)
    decreases n
  {
    hide Key, Shown;
    if n > 0 {
      LearnedAcross(canon, lower, m, known, earlier, files, n - 1);
      assert (earlier + files)[|earlier| + n - 1] == files[n - 1];
    } else {
      LearnedFromFront(canon, lower, m, known, earlier, files, |earlier|);
    }
  }

  lemma {:induction false} LearnedFromFront(canon: Canon, lower: Canon, m: Mount, known: Option<string>, earlier: seq<File>, files: seq<File>, n: int)
    requires 0 <= n <= |earlier|
    ensures Learned(canon, lower, m, known, earlier + files, n) == Learned(canon, lower, m, known, earlier, n)
    decreases n
  {
    hide Key, Shown;
    if n > 0 {
      LearnedFromFront(canon, lower, m, known, earlier, files, n - 1);
      assert (earlier + files)[n - 1] == earlier[n - 1];
    }
  }

  /** File `i` gets a key, file `first` is the first that does, and both paths are normal. */
  ghost predicate TaughtBy(canon: Canon, lower: Canon, m: Mount, files: seq<File>, first: int, i: int) {
    && 0 <= first <= i < |files|
    && Key(canon, lower, m, files[first].path).Some? && Key(canon, lower, m, files[i].path).Some?
    && (forall j :: 0 <= j < first ==> Key(canon, lower, m, files[j].path) == None)
    && NormFolder(files[first].path) == files[first].path && NormFolder(files[i].path) == files[i].path
  }

  /** With that spelling known, reads and writes of the key listed for `path` reach that file. */
  predicate LeadsBack(canon: Canon, lower: Canon, m: Mount, known: Option<string>, path: string) {
    var key := Key(canon, lower, m, path);
    key.Some? && LocalFromRel(OnDisk(m, known), key.value) == path
  }

  /** Both paths spell the mount point the same way. */
  predicate SpeltAlike(m: Mount, p: string, q: string) {
    var k := |Segs(m.point)|;
    k <= |Segs(p)| && k <= |Segs(q)| && Segs(p)[..k] == Segs(q)[..k]
  }

  /** After a first listing the keys it returned lead back to the files they were listed for,
      for exactly the files spelled like the first of them. */
  lemma ListedThenReadIff(canon: Canon, lower: Canon, m: Mount, files: seq<File>, first: int, i: int)
    requires 0 <= first < |files| && 0 <= i < |files| && TaughtBy(canon, lower, m, files, first, i)
    ensures LeadsBack(canon, lower, m, Learned(canon, lower, m, None, files, |files|), files[i].path)
       <==> SpeltAlike(m, files[i].path, files[first].path)
  {
    hide Segs, NormFolder, IsDataPath, OnDisk, LocalFromRel;
    FirstFileTeaches(canon, lower, m, files, first, |files|);
    RelIffClaimed(canon, m, files[first].path);
    ReachesTheFileIff(canon, m, files[first].path, files[i].path, Key(canon, lower, m, files[i].path).value);
  }

  /** The same after any number of listings, `earlier` being all they returned before the last:
      the spelling is learned once, and a folder re-spelled later is not followed. */
  lemma LaterListedThenReadIff(canon: Canon, lower: Canon, m: Mount, earlier: seq<File>, files: seq<File>, all: seq<File>, first: int, i: int)
    requires all == earlier + files && 0 <= i < |files| && 0 <= first < |all|
    requires TaughtBy(canon, lower, m, all, first, |earlier| + i)
    ensures var known := Learned(canon, lower, m, None, earlier, |earlier|);
      LeadsBack(canon, lower, m, Learned(canon, lower, m, known, files, |files|), files[i].path)
      <==> SpeltAlike(m, files[i].path, all[first].path)
  {
    hide Learned, LeadsBack, SpeltAlike, TaughtBy;
    LearnedAcross(canon, lower, m, None, earlier, files, |files|);
    assert all[|earlier| + i] == files[i] && |all| == |earlier| + |files|;
    ListedThenReadIff(canon, lower, m, all, first, |earlier| + i);
  }

  /** A letter-case folding, as far as one folder needs it. */
  function FoldW(s: string): string { if s == "w" then "W" else s }

  lemma TwoSpelledFiles(m: Mount, files: seq<File>)
    requires m.point == "W" && |files| == 2 && files[0].path == "W/a" && files[1].path == "w/b"
    ensures TaughtBy(FoldW, FoldW, m, files, 0, 1)
    ensures Key(FoldW, FoldW, m, "w/b") == Some("b") && !SpeltAlike(m, "w/b", "W/a")
  {
    OneLevel("W");
    TwoLevels("W", "a");
    TwoLevels("w", "b");
    hide Segs, NormFolder, Key, SpeltAlike;
    assert "W" + "/" + "a" == "W/a" && "w" + "/" + "b" == "w/b";
    KeyBelowW(m, "W", "a");
    KeyBelowW(m, "w", "b");
    OtherSpelling(m, "w", "b", "W", "a");
  }

  /** The two spellings on a case-sensitive disk: both files are listed, and the key of the
      second does not lead back to it. */
  lemma SecondSpellingIsLost(m: Mount)
    requires m.point == "W"
    ensures var files := [File("W/a", Stat(0, 0)), File("w/b", Stat(0, 0))];
      && Key(FoldW, FoldW, m, "w/b") == Some("b")
      && !LeadsBack(FoldW, FoldW, m, Learned(FoldW, FoldW, m, None, files, |files|), "w/b")
  {
    hide Segs, NormFolder, Learned, Key, LeadsBack, SpeltAlike, TaughtBy;
    var files := [File("W/a", Stat(0, 0)), File("w/b", Stat(0, 0))];
    TwoSpelledFiles(m, files);
    ListedThenReadIff(FoldW, FoldW, m, files, 0, 1);
  }

  lemma OtherSpelling(m: Mount, x: string, y: string, x': string, y': string)
    requires |Segs(m.point)| == 1 && x != x'
    requires Segs(x + "/" + y) == [x, y] && Segs(x' + "/" + y') == [x', y']
    ensures !SpeltAlike(m, x + "/" + y, x' + "/" + y')
  {
    hide Segs;
    assert [x, y][..1][0] == x && [x', y'][..1][0] == x';
  }

  lemma OneLevel(x: string)
    requires IsBare(x) && '/' !in x
    ensures Segs(x) == [x] && NormFolder(x) == x
  {
    SegsOfJoined([x]);
  }

  lemma TwoLevels(x: string, y: string)
    requires IsBare(x) && IsBare(y) && '/' !in x && '/' !in y
    ensures Segs(x + "/" + y) == [x, y] && NormFolder(x + "/" + y) == x + "/" + y
  {
    assert [x, y][1..] == [y];
    assert Join([x, y], '/') == x + "/" + y;
    SegsOfJoined([x, y]);
  }

  lemma KeyBelowW(m: Mount, x: string, y: string)
    requires Segs(m.point) == ["W"] && FoldW(x) == "W" && Segs(x + "/" + y) == [x, y]
    requires IsBare(y) && '/' !in y && y != ".obsidian" && y != "w"
    ensures Key(FoldW, FoldW, m, x + "/" + y) == Some(y)
  {
    assert [x, y][1..] == [y];
    SplitOnePiece(y, '/');
  }

  /** Two different files with one key spell the mount point differently. */
  lemma OneSpellingOneFile(canon: Canon, m: Mount, p: string, q: string)
    requires NormFolder(p) == p && NormFolder(q) == q
    requires RelFromLocal(canon, m, p).Some? && RelFromLocal(canon, m, p) == RelFromLocal(canon, m, q)
    ensures p == q <==> Segs(p)[..|Segs(m.point)|] == Segs(q)[..|Segs(m.point)|]
  {
    var k := |Segs(m.point)|;
    SegmentsAreBare(p);
    SegmentsAreBare(q);
    hide Segs, NormFolder;
    JoinInjective(Segs(p)[k..], Segs(q)[k..]);
    assert Segs(p) == Segs(p)[..k] + Segs(p)[k..];
    assert Segs(q) == Segs(q)[..k] + Segs(q)[k..];
  }
}
