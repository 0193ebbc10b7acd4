/**
 * `cleanup_empty_folders`: a bottom-up walk of a directory tree that removes each
 * subdirectory it finds empty once that subdirectory's own subdirectories have been
 * dealt with. The root itself is never removed.
 */
module Janitor {
  import opened Wrappers

  /** A directory: the names of its files and its subdirectories in listing order. */
  datatype Dir = Dir(files: set<string>, subdirs: seq<Entry>)
  datatype Entry = Entry(name: string, dir: Dir)

  /** A directory's position below the root, as the names along the way. */
  type Path = seq<string>

  /** What `os.listdir` shows as empty: no files and no subdirectories. */
  predicate IsEmpty(d: Dir)
  {
    d.files == {} && d.subdirs == []
  }

  /** No file anywhere in the subtree of `d`. */
  predicate NoFiles(d: Dir)
    decreases d
  {
    d.files == {} && forall i :: 0 <= i < |d.subdirs| ==> NoFiles(d.subdirs[i].dir)
  }

  /** Sibling names are distinct, at every level, as in any file system. */
  predicate UniqueNames(d: Dir)
    decreases d
  {
    (forall i, j :: 0 <= i < j < |d.subdirs| ==> d.subdirs[i].name != d.subdirs[j].name) &&
    forall i :: 0 <= i < |d.subdirs| ==> UniqueNames(d.subdirs[i].dir)
  }

  /**
   * The first `n` subdirectories of `d` as the parent's pass leaves them: each cleaned
   * in turn, and dropped when it is then empty.
   */
  function PrunedPrefix(d: Dir, n: nat): seq<Entry>
    requires n <= |d.subdirs|
    decreases d, n
  {
    if n == 0 then []
    else
      var e := d.subdirs[n - 1];
      var c := Pruned(e.dir);
      PrunedPrefix(d, n - 1) + if IsEmpty(c) then [] else [Entry(e.name, c)]
  }

  /** The tree after the walk. */
  function Pruned(d: Dir): Dir
    decreases d, |d.subdirs| + 1
  {
    Dir(d.files, PrunedPrefix(d, |d.subdirs|))
  }

  /** The paths removed while walking the subtrees of the first `n` subdirectories of `d`, found at `at`. */
  function RemovedBelow(d: Dir, at: Path, n: nat): seq<Path>
    requires n <= |d.subdirs|
    decreases d, n
  {
    if n == 0 then []
    else
      var e := d.subdirs[n - 1];
      RemovedBelow(d, at, n - 1) + Removed(e.dir, at + [e.name])
  }

  /** The paths removed by the parent's own pass over its first `n` subdirectories. */
  function EmptyChildren(d: Dir, at: Path, n: nat): seq<Path>
    requires n <= |d.subdirs|
  {
    if n == 0 then []
    else
      var e := d.subdirs[n - 1];
      EmptyChildren(d, at, n - 1) + if IsEmpty(Pruned(e.dir)) then [at + [e.name]] else []
  }

  /** Every `rmdir` of the walk of `d`, found at `at`, in the order they happen. */
  function Removed(d: Dir, at: Path): seq<Path>
    decreases d, |d.subdirs| + 1
  {
    RemovedBelow(d, at, |d.subdirs|) + EmptyChildren(d, at, |d.subdirs|)
  }

  /**
   * The walk below the directory `d`, found at `at`: first each subdirectory's own walk,
   * in listing order, then the pass over the subdirectories, removing those now empty.
   */
  method Walk(d: Dir, at: Path) returns (result: Dir, removed: seq<Path>)
    ensures result == Pruned(d)
    ensures removed == Removed(d, at)
    decreases d
  {
    var cleaned: seq<Entry> := [];
    removed := [];
    for i := 0 to |d.subdirs|
      invariant |cleaned| == i
      invariant forall j :: 0 <= j < i ==> cleaned[j] == Entry(d.subdirs[j].name, Pruned(d.subdirs[j].dir))
      invariant removed == RemovedBelow(d, at, i)
    {
      var e := d.subdirs[i];
      var r, below := Walk(e.dir, at + [e.name]);
      cleaned := cleaned + [Entry(e.name, r)];
      removed := removed + below;
    }
    var kept: seq<Entry> := [];
    for i := 0 to |cleaned|
      invariant kept == PrunedPrefix(d, i)
      invariant removed == RemovedBelow(d, at, |d.subdirs|) + EmptyChildren(d, at, i)
    {
      if IsEmpty(cleaned[i].dir) {
        removed := removed + [at + [cleaned[i].name]];
      } else {
        kept := kept + [cleaned[i]];
      }
    }
    result := Dir(d.files, kept);
  }

  /** A subdirectory is empty after its own walk exactly when its subtree holds no file. */
  lemma {:induction false} EmptyIffNoFiles(d: Dir)
    ensures IsEmpty(Pruned(d)) <==> NoFiles(d)
    decreases d, |d.subdirs| + 1
  {
    PrunedPrefixEmpty(d, |d.subdirs|);
  }

  lemma {:induction false} PrunedPrefixEmpty(d: Dir, n: nat)
    requires n <= |d.subdirs|
    ensures PrunedPrefix(d, n) == [] <==> forall j :: 0 <= j < n ==> NoFiles(d.subdirs[j].dir)
    decreases d, n
  {
    if n > 0 {
      PrunedPrefixEmpty(d, n - 1);
      EmptyIffNoFiles(d.subdirs[n - 1].dir);
    }
  }

  /** `p` names a directory strictly inside the one at `q`. */
  predicate StrictlyBelow(p: Path, q: Path)
  {
    |q| < |p| && p[..|q|] == q
  }

  /** A path removed below the first `n` subdirectories was removed inside one of their walks. */
  lemma {:induction false} RemovedBelowOrigin(d: Dir, at: Path, n: nat, p: Path) returns (j: nat)
    requires n <= |d.subdirs| && p in RemovedBelow(d, at, n)
    ensures j < n && p in Removed(d.subdirs[j].dir, at + [d.subdirs[j].name])
  {
    if p in RemovedBelow(d, at, n - 1) {
      j := RemovedBelowOrigin(d, at, n - 1, p);
    } else {
      j := n - 1;
    }
  }

  lemma {:induction false} RemovedBelowIncludes(d: Dir, at: Path, n: nat, j: nat, p: Path)
    requires j < n <= |d.subdirs| && p in Removed(d.subdirs[j].dir, at + [d.subdirs[j].name])
    ensures p in RemovedBelow(d, at, n)
  {
    if j < n - 1 {
      RemovedBelowIncludes(d, at, n - 1, j, p);
    }
  }

  /** A path removed by the parent's own pass is one of its subdirectories, found empty. */
  lemma {:induction false} EmptyChildOrigin(d: Dir, at: Path, n: nat, p: Path) returns (j: nat)
    requires n <= |d.subdirs| && p in EmptyChildren(d, at, n)
    ensures j < n && IsEmpty(Pruned(d.subdirs[j].dir)) && p == at + [d.subdirs[j].name]
  {
    if p in EmptyChildren(d, at, n - 1) {
      j := EmptyChildOrigin(d, at, n - 1, p);
    } else {
      j := n - 1;
    }
  }

  lemma {:induction false} EmptyChildIncluded(d: Dir, at: Path, n: nat, j: nat)
    requires j < n <= |d.subdirs| && IsEmpty(Pruned(d.subdirs[j].dir))
    ensures at + [d.subdirs[j].name] in EmptyChildren(d, at, n)
  {
    if j < n - 1 {
      EmptyChildIncluded(d, at, n - 1, j);
    }
  }

  /** Every directory the walk removes lies strictly below where the walk started: the root stays. */
  lemma {:induction false} RemovedStrictlyBelow(d: Dir, at: Path)
    ensures forall p :: p in Removed(d, at) ==> StrictlyBelow(p, at)
    decreases d
  {
    forall p | p in Removed(d, at)
      ensures StrictlyBelow(p, at)
    {
      if p in RemovedBelow(d, at, |d.subdirs|) {
        var j := RemovedBelowOrigin(d, at, |d.subdirs|, p);
        RemovedStrictlyBelow(d.subdirs[j].dir, at + [d.subdirs[j].name]);
        assert p[..|at|] == p[..|at| + 1][..|at|];
      } else {
        var j := EmptyChildOrigin(d, at, |d.subdirs|, p);
      }
    }
  }

  /** No removal is followed by the removal of a directory beneath it. */
  predicate DeepestFirst(r: seq<Path>)
  {
    forall i, j :: 0 <= i < j < |r| ==> !StrictlyBelow(r[j], r[i])
  }

  lemma {:induction false} DeepestFirstAppend(s: seq<Path>, t: seq<Path>)
    requires DeepestFirst(s) && DeepestFirst(t)
    requires forall x, y :: x in s && y in t ==> !StrictlyBelow(y, x)
    ensures DeepestFirst(s + t)
  {
    forall i, j | 0 <= i < j < |s + t|
      ensures !StrictlyBelow((s + t)[j], (s + t)[i])
    {
      if i < |s| && j >= |s| {
        assert (s + t)[i] in s && (s + t)[j] in t;
      }
    }
  }

  lemma {:induction false} EmptyChildrenShape(d: Dir, at: Path, n: nat)
    requires n <= |d.subdirs|
    ensures forall p :: p in EmptyChildren(d, at, n) ==> |p| == |at| + 1
    ensures DeepestFirst(EmptyChildren(d, at, n))
  {
    forall p | p in EmptyChildren(d, at, n)
      ensures |p| == |at| + 1
    {
      var j := EmptyChildOrigin(d, at, n, p);
    }
  }

  /** What the walks of the first `n` subdirectories remove lies below one of those `n`, at least two levels down. */
  lemma {:induction false} RemovedBelowShape(d: Dir, at: Path, n: nat, p: Path)
    requires n <= |d.subdirs| && p in RemovedBelow(d, at, n)
    ensures |p| >= |at| + 2 && p[..|at|] == at
    ensures exists j :: 0 <= j < n && p[|at|] == d.subdirs[j].name
  {
    var j := RemovedBelowOrigin(d, at, n, p);
    RemovedStrictlyBelow(d.subdirs[j].dir, at + [d.subdirs[j].name]);
    assert p[..|at| + 1] == at + [d.subdirs[j].name];
    assert p[..|at|] == p[..|at| + 1][..|at|];
    assert p[|at|] == p[..|at| + 1][|at|];
  }

  lemma {:induction false} RemovedBelowDeepestFirst(d: Dir, at: Path, n: nat)
    requires n <= |d.subdirs| && UniqueNames(d)
    ensures DeepestFirst(RemovedBelow(d, at, n))
    decreases d, n
  {
    if n > 0 {
      var e := d.subdirs[n - 1];
      RemovedBelowDeepestFirst(d, at, n - 1);
      RemovedDeepestFirst(e.dir, at + [e.name]);
      RemovedStrictlyBelow(e.dir, at + [e.name]);
      forall x, y | x in RemovedBelow(d, at, n - 1) && y in Removed(e.dir, at + [e.name])
        ensures !StrictlyBelow(y, x)
      {
        RemovedBelowShape(d, at, n - 1, x);
        assert y[..|at| + 1] == at + [e.name];
        assert x[|at|] != y[|at|];
        assert |y| > |x| ==> y[..|x|][|at|] == y[|at|];
      }
      DeepestFirstAppend(RemovedBelow(d, at, n - 1), Removed(e.dir, at + [e.name]));
    }
  }

  /** The walk removes every directory only after each removed directory beneath it. */
  lemma {:induction false} RemovedDeepestFirst(d: Dir, at: Path)
    requires UniqueNames(d)
    ensures DeepestFirst(Removed(d, at))
    decreases d, |d.subdirs| + 1
  {
    RemovedBelowDeepestFirst(d, at, |d.subdirs|);
    EmptyChildrenShape(d, at, |d.subdirs|);
    forall x, y | x in RemovedBelow(d, at, |d.subdirs|) && y in EmptyChildren(d, at, |d.subdirs|)
      ensures !StrictlyBelow(y, x)
    {
      RemovedBelowShape(d, at, |d.subdirs|, x);
    }
    DeepestFirstAppend(RemovedBelow(d, at, |d.subdirs|), EmptyChildren(d, at, |d.subdirs|));
  }

  /** The position of the first entry called `n`, or -1. */
  function ChildIndex(es: seq<Entry>, n: string): (k: int)
    ensures -1 <= k < |es|
    ensures k >= 0 ==> es[k].name == n && forall j :: 0 <= j < k ==> es[j].name != n
    ensures k < 0 ==> forall j :: 0 <= j < |es| ==> es[j].name != n
  {
    if es == [] then -1
    else
      var k := ChildIndex(es[..|es| - 1], n);
      if k >= 0 then k else if es[|es| - 1].name == n then |es| - 1 else -1
  }

  /** The directory reached from `d` by following the names in `rel`, if there is one. */
  function Lookup(d: Dir, rel: Path): Option<Dir>
    decreases |rel|
  {
    if rel == [] then Some(d)
    else
      var k := ChildIndex(d.subdirs, rel[0]);
      if k < 0 then None else Lookup(d.subdirs[k].dir, rel[1..])
  }

  lemma {:induction false} ChildIndexUnique(d: Dir, j: nat)
    requires UniqueNames(d) && j < |d.subdirs|
    ensures ChildIndex(d.subdirs, d.subdirs[j].name) == j
  {
  }

  /** Following one name into the j-th subdirectory. */
  lemma {:induction false} LookupStep(d: Dir, j: nat, rel: Path)
    requires UniqueNames(d) && j < |d.subdirs| && rel != [] && rel[0] == d.subdirs[j].name
    ensures Lookup(d, rel) == Lookup(d.subdirs[j].dir, rel[1..])
  {
    ChildIndexUnique(d, j);
  }

  /** The path of a directory strictly below `at` whose subtree holds no file. */
  predicate FilelessAt(d: Dir, at: Path, p: Path)
  {
    StrictlyBelow(p, at) && Lookup(d, p[|at|..]).Some? && NoFiles(Lookup(d, p[|at|..]).value)
  }

  /** A path removed inside the j-th subdirectory's walk. */
  lemma {:induction false} RemovedInsideFileless(d: Dir, at: Path, j: nat, p: Path)
    requires UniqueNames(d) && j < |d.subdirs|
    requires p in Removed(d.subdirs[j].dir, at + [d.subdirs[j].name])
    ensures FilelessAt(d, at, p)
    decreases d, 0
  {
    var e := d.subdirs[j];
    RemovedAreFileless(e.dir, at + [e.name], p);
    assert p[..|at|] == p[..|at| + 1][..|at|];
    assert p[|at|..][0] == p[..|at| + 1][|at|] == e.name;
    assert p[|at|..][1..] == p[|at| + 1..];
    LookupStep(d, j, p[|at|..]);
  }

  /** A subdirectory removed by the parent's own pass. */
  lemma {:induction false} EmptyChildFileless(d: Dir, at: Path, j: nat)
    requires UniqueNames(d) && j < |d.subdirs| && IsEmpty(Pruned(d.subdirs[j].dir))
    ensures FilelessAt(d, at, at + [d.subdirs[j].name])
  {
    var p := at + [d.subdirs[j].name];
    EmptyIffNoFiles(d.subdirs[j].dir);
    assert p[|at|..] == [d.subdirs[j].name];
    LookupStep(d, j, p[|at|..]);
  }

  lemma {:induction false} RemovedAreFileless(d: Dir, at: Path, p: Path)
    requires UniqueNames(d)
    ensures p in Removed(d, at) ==> FilelessAt(d, at, p)
    decreases d, 1
  {
    if p in RemovedBelow(d, at, |d.subdirs|) {
      var j := RemovedBelowOrigin(d, at, |d.subdirs|, p);
      RemovedInsideFileless(d, at, j, p);
    } else if p in EmptyChildren(d, at, |d.subdirs|) {
      var j := EmptyChildOrigin(d, at, |d.subdirs|, p);
      EmptyChildFileless(d, at, j);
    }
  }

  lemma {:induction false} FilelessAreRemoved(d: Dir, at: Path, p: Path)
    requires UniqueNames(d)
    ensures FilelessAt(d, at, p) ==> p in Removed(d, at)
    decreases d
  {
    if FilelessAt(d, at, p) {
      var rel := p[|at|..];
      var k := ChildIndex(d.subdirs, rel[0]);
      var e := d.subdirs[k];
      LookupStep(d, k, rel);
      if rel[1..] == [] {
        EmptyIffNoFiles(e.dir);
        assert p == at + [e.name];
        EmptyChildIncluded(d, at, |d.subdirs|, k);
      } else {
        assert p[..|at| + 1] == at + [e.name];
        assert p[|at| + 1..] == rel[1..];
        FilelessAreRemoved(e.dir, at + [e.name], p);
        RemovedBelowIncludes(d, at, |d.subdirs|, k, p);
      }
    }
  }

  /**
   * With unique names, the walk removes exactly the directories strictly below its
   * starting point whose subtree holds no file.
   */
  lemma {:induction false} RemovedExactly(d: Dir, at: Path, p: Path)
    requires UniqueNames(d)
    ensures p in Removed(d, at) <==> FilelessAt(d, at, p)
  {
    RemovedAreFileless(d, at, p);
    FilelessAreRemoved(d, at, p);
  }

  /** Every subdirectory left by the parent's pass is one of its cleaned subdirectories. */
  lemma {:induction false} KeptOrigin(d: Dir, n: nat, e: Entry) returns (j: nat)
    requires n <= |d.subdirs| && e in PrunedPrefix(d, n)
    ensures j < n && !IsEmpty(Pruned(d.subdirs[j].dir)) && e == Entry(d.subdirs[j].name, Pruned(d.subdirs[j].dir))
  {
    if e in PrunedPrefix(d, n - 1) {
      j := KeptOrigin(d, n - 1, e);
    } else {
      j := n - 1;
    }
  }

  lemma {:induction false} KeptIncluded(d: Dir, n: nat, j: nat)
    requires j < n <= |d.subdirs| && !IsEmpty(Pruned(d.subdirs[j].dir))
    ensures Entry(d.subdirs[j].name, Pruned(d.subdirs[j].dir)) in PrunedPrefix(d, n)
  {
    if j < n - 1 {
      KeptIncluded(d, n - 1, j);
    }
  }

  lemma {:induction false} NoFilesInherited(c: Dir, rel: Path)
    ensures NoFiles(c) && Lookup(c, rel).Some? ==> NoFiles(Lookup(c, rel).value)
    decreases |rel|
  {
    if rel != [] {
      var k := ChildIndex(c.subdirs, rel[0]);
      if k >= 0 {
        NoFilesInherited(c.subdirs[k].dir, rel[1..]);
      }
    }
  }

  /**
   * With unique names, every directory that is the root or holds a file somewhere in its
   * subtree is still reached by the same path, with its own files.
   */
  lemma {:induction false} PrunedKeeps(d: Dir, rel: Path)
    requires UniqueNames(d) && Lookup(d, rel).Some?
    requires rel == [] || !NoFiles(Lookup(d, rel).value)
    ensures Lookup(Pruned(d), rel) == Some(Pruned(Lookup(d, rel).value))
    ensures Pruned(Lookup(d, rel).value).files == Lookup(d, rel).value.files
    decreases |rel|
  {
    if rel != [] {
      var k := ChildIndex(d.subdirs, rel[0]);
      var c := d.subdirs[k].dir;
      NoFilesInherited(c, rel[1..]);
      EmptyIffNoFiles(c);
      KeptIncluded(d, |d.subdirs|, k);
      var ps := Pruned(d).subdirs;
      var k' := ChildIndex(ps, rel[0]);
      assert ps[k'] in ps;
      var i := KeptOrigin(d, |d.subdirs|, ps[k']);
      assert i == k;
      PrunedKeeps(c, rel[1..]);
    }
  }

  /** No subdirectory is left whose subtree holds no file. */
  predicate Clean(d: Dir)
    decreases d
  {
    forall i :: 0 <= i < |d.subdirs| ==> !NoFiles(d.subdirs[i].dir) && Clean(d.subdirs[i].dir)
  }

  lemma {:induction false} FilesSurvive(c: Dir)
    ensures !NoFiles(c) ==> !NoFiles(Pruned(c))
    decreases c
  {
    if c.files == {} && !NoFiles(c) {
      var j :| 0 <= j < |c.subdirs| && !NoFiles(c.subdirs[j].dir);
      var e := c.subdirs[j];
      FilesSurvive(e.dir);
      EmptyIffNoFiles(e.dir);
      KeptIncluded(c, |c.subdirs|, j);
      var ps := Pruned(c).subdirs;
      var i :| 0 <= i < |ps| && ps[i] == Entry(e.name, Pruned(e.dir));
    }
  }

  /** After the walk no empty folder remains anywhere below the root. */
  lemma {:induction false} PrunedIsClean(d: Dir)
    ensures Clean(Pruned(d))
    decreases d
  {
    var ps := Pruned(d).subdirs;
    forall i | 0 <= i < |ps|
      ensures !NoFiles(ps[i].dir) && Clean(ps[i].dir)
    {
      assert ps[i] in ps;
      var j := KeptOrigin(d, |d.subdirs|, ps[i]);
      EmptyIffNoFiles(d.subdirs[j].dir);
      FilesSurvive(d.subdirs[j].dir);
      PrunedIsClean(d.subdirs[j].dir);
    }
  }

  lemma {:induction false} CleanPrefixFixed(d: Dir, n: nat)
    requires n <= |d.subdirs| && Clean(d)
    ensures PrunedPrefix(d, n) == d.subdirs[..n]
    decreases d, n
  {
    if n > 0 {
      var c := d.subdirs[n - 1].dir;
      CleanPrefixFixed(d, n - 1);
      CleanFixed(c);
      EmptyIffNoFiles(c);
      assert d.subdirs[..n] == d.subdirs[..n - 1] + [d.subdirs[n - 1]];
    }
  }

  lemma {:induction false} CleanFixed(d: Dir)
    requires Clean(d)
    ensures Pruned(d) == d
    decreases d, |d.subdirs| + 1
  {
    CleanPrefixFixed(d, |d.subdirs|);
    assert d.subdirs[..|d.subdirs|] == d.subdirs;
  }

  /** Cleaning up twice leaves the same tree as cleaning up once. */
  lemma {:induction false} CleanupIdempotent(d: Dir)
    ensures Pruned(Pruned(d)) == Pruned(d)
  {
    PrunedIsClean(d);
    CleanFixed(Pruned(d));
  }

  /** The directory tree under the path given to `cleanup_empty_folders`. */
  class FileTree {
    var root: Dir

    constructor (d: Dir)
      ensures root == d
    {
      root := d;
    }

    /** Remove every empty subdirectory, deepest first; the result lists the removals in order. */
    method CleanupEmptyFolders() returns (removed: seq<Path>)
      modifies this
      ensures root == Pruned(old(root))
      ensures removed == Removed(old(root), [])
    {
      var r;
      r, removed := Walk(root, []);
      root := r;
    }
  }
}
