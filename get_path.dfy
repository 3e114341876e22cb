/** utils/get_path.py: the standalone project-root search with an explicit start. */
module GetPath {
  import opened Wrappers
  import opened FileSystems
  import opened RootSearch

  /**
   * Walks `[start, *start.parents]` (from the parent when `start` is a
   * file) and returns the first path with a `.git` directory, exactly as
   * enumerated; FileNotFoundError when none has one.
   */
  method FindProjectRoot(t: Tree, start: Path) returns (r: Result<Path, SearchError>)
    ensures r.Ok? ==> r.value <= SearchStart(t, start) && HasGit(t, r.value)
    ensures r.Ok? ==> forall k | |r.value| < k <= |SearchStart(t, start)| :: !HasGit(t, SearchStart(t, start)[..k])
    ensures r.Err? <==> forall k | 0 <= k <= |SearchStart(t, start)| :: !HasGit(t, SearchStart(t, start)[..k])
    ensures r == FindRoot(t, start)
  {
    var d := start;
    if IsFile(t, d) {
      d := Parent(d);
    }
    var candidates := Candidates(d);
    for i := 0 to |candidates|
      invariant forall j | 0 <= j < i :: !HasGit(t, candidates[j])
    {
      var path := candidates[i];
      if HasGit(t, path) {
        forall k | |path| < k <= |d| ensures !HasGit(t, d[..k]) {
          assert d[..k] == candidates[|d| - k];
        }
        NearestRootUnique(t, d, path);
        return Ok(path);
      }
    }
    forall k | 0 <= k <= |d| ensures !HasGit(t, d[..k]) {
      assert d[..k] == candidates[|d| - k];
    }
    return Err(RootNotFound);
  }
}
