/**
 * The upward search for a project root shared by utils/get_path.py,
 * code/run_git_log.py and utils/dirmanage.py: the nearest of the start
 * directory and its ancestors that has a `.git` directory child.
 */
module RootSearch {
  import opened Wrappers
  import opened FileSystems

  /** FileNotFoundError: no candidate carries the marker. */
  datatype SearchError = RootNotFound

  /** Where the search begins: the start itself, or its parent when it is a file. */
  function SearchStart(t: Tree, start: Path): (d: Path)
    ensures d <= start
    ensures IsFile(t, start) ==> d == Parent(start)
    ensures !IsFile(t, start) ==> d == start
  {
    if IsFile(t, start) then Parent(start) else start
  }

  /** `[d, *d.parents]`: the directory and all its ancestors, nearest first. */
  function Candidates(d: Path): (c: seq<Path>)
    ensures |c| == |d| + 1
    ensures forall i | 0 <= i < |c| :: c[i] == d[..|d| - i]
    decreases |d|
  {
    if d == [] then [[]] else [d] + Candidates(Parent(d))
  }

  /**
   * The nearest candidate of `d` with a `.git` directory, if any.  The
   * ancestors of `d` are its prefixes `d[..k]`; a longer one is nearer.
   */
  function NearestRoot(t: Tree, d: Path): (r: Option<Path>)
    ensures r.Some? ==> r.value <= d && HasGit(t, r.value)
    ensures r.Some? ==> forall k | |r.value| < k <= |d| :: !HasGit(t, d[..k])
    ensures r.None? <==> forall k | 0 <= k <= |d| :: !HasGit(t, d[..k])
    decreases |d|
  {
    if HasGit(t, d) then (assert d[..|d|] == d; Some(d))
    else if d == [] then None
    else
      var up := NearestRoot(t, Parent(d));
      assert forall k | 0 <= k < |d| :: Parent(d)[..k] == d[..k];
      assert d[..|d|] == d;
      up
  }

  /** The three properties of NearestRoot determine it. */
  lemma {:induction false} NearestRootUnique(t: Tree, d: Path, r: Path)
    requires r <= d && HasGit(t, r)
    requires forall k | |r| < k <= |d| :: !HasGit(t, d[..k])
    ensures NearestRoot(t, d) == Some(r)
  {
    var n := NearestRoot(t, d);
    assert r == d[..|r|];
    assert n.Some?;
    assert n.value == d[..|n.value|];
  }

  /** `find_project_root(start)` as a value: the nearest root, or FileNotFoundError. */
  function FindRoot(t: Tree, start: Path): (r: Result<Path, SearchError>)
    ensures r.Ok? ==> r.value <= SearchStart(t, start) <= start && HasGit(t, r.value)
    ensures r.Ok? ==> forall k | |r.value| < k <= |SearchStart(t, start)| :: !HasGit(t, SearchStart(t, start)[..k])
    ensures r.Err? <==> forall k | 0 <= k <= |SearchStart(t, start)| :: !HasGit(t, SearchStart(t, start)[..k])
  {
    match NearestRoot(t, SearchStart(t, start))
    case Some(root) => Ok(root)
    case None => Err(RootNotFound)
  }

  /**
   * Only a directory added at `root/.git` or at a path no longer than
   * `root` plus one segment can be new: adding such directories (and no
   * files) leaves the search's answer `root` unchanged.
   */
  lemma {:induction false} FindRootStable(t: Tree, t': Tree, start: Path, root: Path, bound: Path)
    requires FindRoot(t, start) == Ok(root)
    requires |bound| <= |root| + 1
    requires forall q | q in t :: q in t' && t'[q] == t[q]
    requires forall q | q in t' && q !in t :: q <= bound && t'[q] == Dir
    ensures FindRoot(t', start) == Ok(root)
  {
    var d := SearchStart(t, start);
    assert SearchStart(t', start) == d by {
      assert IsFile(t', start) == IsFile(t, start);
    }
    assert HasGit(t', root);
    forall k | |root| < k <= |d| ensures !HasGit(t', d[..k]) {
      assert !HasGit(t, d[..k]);
    }
    NearestRootUnique(t', d, root);
  }
}
