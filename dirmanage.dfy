/**
 * utils/dirmanage.py: `DirManager`, which finds the project root and
 * creates directories relative to it, remembering the three paths it has
 * computed.  The location the Python code takes from `__file__` is passed
 * in as `start`.
 */
module DirManage {
  import opened Wrappers
  import opened FileSystems
  import opened RootSearch
  import GetPath

  /**
   * The substrings a directory name may not contain, in the order they are
   * checked.  The second is backslash followed by the digit zero (a raw
   * string in the source), not a NUL character.
   */
  const InvalidChars: seq<string> := ["/", "\\0", "..", " "]

  /** The name of the directory created directly under the root by SetupParentdir. */
  const OutDirname := "out"

  /** ValueError raised by validate_dirname. */
  datatype NameError =
    | EmptyName
    | ForbiddenSubstring(name: string, found: string)

  /** What the DirManager methods raise. */
  datatype Error =
    | RootMissing                                      // FileNotFoundError from the search
    | InvalidName(reason: NameError)                   // ValueError
    | NoRootYet                                        // TypeError: `None / "out"`
    | CreationFailed(target: Path, cause: MkdirError)  // RuntimeError from the mkdir failure

  predicate OccursAt(s: string, sub: string, i: nat) {
    i + |sub| <= |s| && s[i..i + |sub|] == sub
  }

  /** Python's `sub in s` for strings. */
  predicate Contains(s: string, sub: string) {
    exists i: nat | i <= |s| :: OccursAt(s, sub, i)
  }

  /** An occurrence of `sub` puts its first character in `s`. */
  lemma ContainsFirstChar(s: string, sub: string)
    requires |sub| > 0 && Contains(s, sub)
    ensures sub[0] in s
  {
    var i: nat :| i <= |s| && OccursAt(s, sub, i);
    assert s[i] == s[i..i + |sub|][0];
  }

  /** The index of the first of `subs` that occurs in `name`, if any. */
  function FirstContained(name: string, subs: seq<string>): (r: Option<nat>)
    ensures r.Some? ==> r.value < |subs| && Contains(name, subs[r.value])
    ensures r.Some? ==> forall j | 0 <= j < r.value :: !Contains(name, subs[j])
    ensures r.None? <==> forall j | 0 <= j < |subs| :: !Contains(name, subs[j])
    decreases |subs|
  {
    if subs == [] then None
    else if Contains(name, subs[0]) then Some(0)
    else
      match FirstContained(name, subs[1..])
      case Some(k) => Some(k + 1)
      case None => None
  }

  /**
   * validate_dirname: a pass-through check.  The name comes back unchanged
   * when it is non-empty and contains none of InvalidChars; otherwise the
   * error names the first forbidden substring in list order.
   */
  function ValidateDirname(name: string): (r: Result<string, NameError>)
    ensures r.Ok? <==> name != [] && forall j | 0 <= j < |InvalidChars| :: !Contains(name, InvalidChars[j])
    ensures r.Ok? ==> r.value == name
    ensures name == [] ==> r == Err(EmptyName)
    ensures r.Err? && name != [] ==>
      exists k | 0 <= k < |InvalidChars| ::
        && r.error == ForbiddenSubstring(name, InvalidChars[k])
        && Contains(name, InvalidChars[k])
        && forall j | 0 <= j < k :: !Contains(name, InvalidChars[j])
  {
    if name == [] then Err(EmptyName)
    else
      match FirstContained(name, InvalidChars)
      case Some(k) => Err(ForbiddenSubstring(name, InvalidChars[k]))
      case None => Ok(name)
  }

  /**
   * A non-empty name with no `/`, no backslash, no `.` and no space passes:
   * each forbidden entry would put its first character in the name.
   */
  lemma NoForbiddenCharsPasses(name: string)
    requires name != []
    requires '/' !in name && '\\' !in name && '.' !in name && ' ' !in name
    ensures ValidateDirname(name) == Ok(name)
  {
    forall j | 0 <= j < |InvalidChars| ensures !Contains(name, InvalidChars[j]) {
      if Contains(name, InvalidChars[j]) {
        ContainsFirstChar(name, InvalidChars[j]);
      }
    }
  }

  /** A NUL character is not one of the checked substrings: a name holding one passes. */
  lemma NulCharacterPasses()
    ensures ValidateDirname("a\0b") == Ok("a\0b")
  {
    var name := "a\0b";
    assert name == ['a', '\0', 'b'];
    NoForbiddenCharsPasses(name);
  }

  /** The two characters backslash and zero are what the second entry rejects. */
  lemma BackslashZeroRejected()
    ensures ValidateDirname("a\\0b") == Err(ForbiddenSubstring("a\\0b", "\\0"))
  {
    var name := "a\\0b";
    assert !Contains(name, "/") by {
      if Contains(name, "/") {
        ContainsFirstChar(name, "/");
      }
    }
    assert OccursAt(name, "\\0", 1);
  }

  /** The order of InvalidChars, not the position in the name, decides what is reported. */
  lemma ReportsFirstInListOrder()
    ensures ValidateDirname("a b/c") == Err(ForbiddenSubstring("a b/c", "/"))
  {
    assert OccursAt("a b/c", "/", 3);
  }

  /**
   * A name with a slash is refused before any directory is created: with a
   * root found the error is the validation error, and without one it is
   * the missing root.
   */
  lemma SlashNameCreatesNothing(t: Tree, start: Path, name: string)
    requires '/' in name
    ensures EnsureSpec(t, start, name).result.Err?
    ensures EnsureSpec(t, start, name).nodes == t
    ensures FindRoot(t, start).Ok? ==> EnsureSpec(t, start, name).result.error.InvalidName?
  {
    var i :| 0 <= i < |name| && name[i] == '/';
    assert OccursAt(name, "/", i);
  }


  /** A valid name is a single path component: joining it adds at most one segment. */
  lemma ValidNameJoin(root: Path, name: string)
    requires ValidateDirname(name).Ok?
    ensures Join(root, name) == root + [name] || (name == "." && Join(root, name) == root)
  {
    assert !Contains(name, "/");
    if '/' in name {
      var i :| 0 <= i < |name| && name[i] == '/';
      assert OccursAt(name, "/", i);
    }
  }

  /** Everything ensure_parentdir_from_dirname determines: the refreshed root, its result, the filesystem after. */
  datatype EnsureOutcome = EnsureOutcome(root: Option<Path>, result: Result<Path, Error>, nodes: Tree)

  /**
   * ensure_parentdir_from_dirname as a value: search the root, validate the
   * name, then `mkdir(parents=True, exist_ok=True)` on `root / name`.
   */
  function EnsureSpec(t: Tree, start: Path, name: string): (o: EnsureOutcome)
    ensures o.root.Some? <==> FindRoot(t, start).Ok?
    ensures o.root.Some? ==> o.root.value == FindRoot(t, start).value
    ensures o.result.Ok? ==> o.root.Some? && ValidateDirname(name).Ok?
    ensures o.result.Ok? ==> o.result.value == Join(o.root.value, name) && IsDir(o.nodes, o.result.value)
    ensures o.result.Ok? ==> o.result.value == o.root.value + [name] || (name == "." && o.result.value == o.root.value)
    ensures o.root.None? ==> o.result == Err(RootMissing)
    ensures o.root.Some? && ValidateDirname(name).Err? ==> o.result == Err(InvalidName(ValidateDirname(name).error))
    ensures o.result.Err? && o.result.error.CreationFailed? ==>
      o.root.Some? && ValidateDirname(name).Ok? && o.result.error.target == Join(o.root.value, name)
    ensures o.result.Err? && !o.result.error.CreationFailed? ==> o.nodes == t
    ensures forall q | q in t :: q in o.nodes && o.nodes[q] == t[q]
    ensures forall q | q in o.nodes && q !in t :: o.root.Some? && IsDir(o.nodes, q) && |q| <= |o.root.value| + 1
    ensures forall q | q in o.nodes && q !in t :: q <= Join(o.root.value, name)
  {
    match FindRoot(t, start)
    case Err(_) => EnsureOutcome(None, Err(RootMissing), t)
    case Ok(root) =>
      match ValidateDirname(name)
      case Err(e) => EnsureOutcome(Some(root), Err(InvalidName(e)), t)
      case Ok(valid) =>
        var child := Join(root, valid);
        ValidNameJoin(root, valid);
        var (t', err) := MakeDir(t, child, true, true);
        if err.Some? then EnsureOutcome(Some(root), Err(CreationFailed(child, err.value)), t')
        else EnsureOutcome(Some(root), Ok(child), t')
  }

  /** The three outcomes of EnsureSpec, one per step at which the call stops. */
  lemma EnsureSpecSteps(t: Tree, start: Path, name: string)
    ensures FindRoot(t, start).Err? ==> EnsureSpec(t, start, name) == EnsureOutcome(None, Err(RootMissing), t)
    ensures FindRoot(t, start).Ok? && ValidateDirname(name).Err? ==>
      EnsureSpec(t, start, name) == EnsureOutcome(Some(FindRoot(t, start).value), Err(InvalidName(ValidateDirname(name).error)), t)
    ensures FindRoot(t, start).Ok? && ValidateDirname(name).Ok? ==>
      var root := FindRoot(t, start).value;
      var child := Join(root, name);
      var (t', err) := MakeDir(t, child, true, true);
      EnsureSpec(t, start, name) ==
        if err.Some? then EnsureOutcome(Some(root), Err(CreationFailed(child, err.value)), t')
        else EnsureOutcome(Some(root), Ok(child), t')
  {
  }

  /**
   * With a root found and a valid name, creation succeeds whenever `/`
   * exists, `<root>/<name>` has no NUL byte and neither it nor any of its
   * ancestors is a file.
   */
  lemma EnsureSucceeds(t: Tree, start: Path, name: string)
    requires FindRoot(t, start).Ok? && ValidateDirname(name).Ok? && [] in t
    requires !HasNul(FindRoot(t, start).value + [name])
    requires forall k | 0 <= k <= |FindRoot(t, start).value| + 1 :: !IsFile(t, (FindRoot(t, start).value + [name])[..k])
    ensures EnsureSpec(t, start, name).result == Ok(Join(FindRoot(t, start).value, name))
  {
    var root := FindRoot(t, start).value;
    var full := root + [name];
    var child := Join(root, name);
    ValidNameJoin(root, name);
    if child != full {
      assert child == full[..|root|];
      assert forall k | 0 <= k <= |child| :: child[..k] == full[..k];
      assert forall i | 0 <= i < |child| :: child[i] == full[i];
    }
    MakeDirCreates(t, child);
  }

  /**
   * Calling ensure_parentdir_from_dirname again with the same name and start
   * after a success succeeds, yields the same directory and root, and leaves
   * the filesystem as it is.
   */
  lemma {:induction false} EnsureIdempotent(t: Tree, start: Path, name: string)
    requires EnsureSpec(t, start, name).result.Ok?
    ensures var first := EnsureSpec(t, start, name);
            var second := EnsureSpec(first.nodes, start, name);
            second == first
  {
    var first := EnsureSpec(t, start, name);
    var root := first.root.value;
    var child := first.result.value;
    FindRootStable(t, first.nodes, start, root, child);
    MakeDirExisting(first.nodes, child, true);
  }

  /** "build-out" passes validation. */
  lemma BuildOutIsValid()
    ensures ValidateDirname("build-out") == Ok("build-out")
  {
    var name := "build-out";
    assert name == ['b', 'u', 'i', 'l', 'd', '-', 'o', 'u', 't'];
    NoForbiddenCharsPasses(name);
  }

  /** The filesystem of the end-to-end scenario: `/tmp/proj` holding `.git`. */
  predicate IsScenarioTree(t: Tree) {
    t == map[[] := Dir, ["tmp"] := Dir, ["tmp", "proj"] := Dir, ["tmp", "proj", ".git"] := Dir]
  }

  lemma ScenarioRoot(t: Tree)
    requires IsScenarioTree(t)
    ensures FindRoot(t, ["tmp", "proj"]) == Ok(["tmp", "proj"])
  {
    var root: Path := ["tmp", "proj"];
    assert root + [GitMarker] == ["tmp", "proj", ".git"];
    assert HasGit(t, root) && !IsFile(t, root);
  }

  lemma ScenarioMkdir(t: Tree)
    requires IsScenarioTree(t)
    ensures MakeDir(t, ["tmp", "proj", "build-out"], true, true) == (t[["tmp", "proj", "build-out"] := Dir], None)
  {
    var child: Path := ["tmp", "proj", "build-out"];
    assert !HasNul(child) by {
      forall i | 0 <= i < |child| ensures '\0' !in child[i] { }
    }
    assert child[..0] == [] && child[..1] == ["tmp"] && child[..2] == ["tmp", "proj"];
    assert child !in t;
    assert MkdirOnce(t, child) == Ok(t[child := Dir]);
  }

  /**
   * With `/tmp/proj/.git` present, ensuring "build-out" from `/tmp/proj`
   * creates `/tmp/proj/build-out` and reports it.
   */
  lemma BuildOutScenario(t: Tree)
    requires IsScenarioTree(t)
    ensures var o := EnsureSpec(t, ["tmp", "proj"], "build-out");
            && o.root == Some(["tmp", "proj"])
            && o.result == Ok(["tmp", "proj", "build-out"])
            && o.nodes == t[["tmp", "proj", "build-out"] := Dir]
  {
    ScenarioRoot(t);
    BuildOutIsValid();
    assert Join(["tmp", "proj"], "build-out") == ["tmp", "proj", "build-out"];
    ScenarioMkdir(t);
  }

  class DirManager {
    var rootdir: Option<Path>
    var parentdir: Option<Path>
    var childdir: Option<Path>

    constructor ()
      ensures rootdir == None && parentdir == None && childdir == None
    {
      rootdir, parentdir, childdir := None, None, None;
    }

    /**
     * find_project_root: on success the nearest root is stored in `rootdir`
     * (resolving it again changes nothing for a canonical path); on
     * FileNotFoundError `rootdir` keeps its old value.
     */
    method FindProjectRoot(fs: FileSystem, start: Path) returns (r: Result<Path, Error>)
      modifies this`rootdir
      ensures r.Ok? <==> FindRoot(fs.nodes, start).Ok?
      ensures r.Ok? ==> r.value == FindRoot(fs.nodes, start).value && rootdir == Some(r.value)
      ensures r.Err? ==> r.error == RootMissing && rootdir == old(rootdir)
    {
      var found := GetPath.FindProjectRoot(fs.nodes, start);
      match found
      case Ok(path) =>
        rootdir := Some(path);
        r := Ok(path);
      case Err(_) =>
        r := Err(RootMissing);
    }

    /**
     * setup_parentdir: `parentdir` becomes `rootdir / "out"` before the
     * `mkdir(exist_ok=True)` is attempted, so it is set even when creation
     * fails; a failure is reported as CreationFailed.  Without a root the
     * path cannot be formed and nothing changes.
     */
    method SetupParentdir(fs: FileSystem) returns (r: Result<(), Error>)
      modifies this`parentdir, fs
      ensures rootdir.None? ==> r == Err(NoRootYet) && parentdir == old(parentdir) && fs.nodes == old(fs.nodes)
      ensures rootdir.Some? ==>
        var out := rootdir.value + [OutDirname];
        var (t', err) := MakeDir(old(fs.nodes), out, false, true);
        && parentdir == Some(out)
        && fs.nodes == t'
        && r == (if err.None? then Ok(()) else Err(CreationFailed(out, err.value)))
    {
      if rootdir.None? {
        return Err(NoRootYet);
      }
      parentdir := Some(Join(rootdir.value, OutDirname));
      var err := fs.Mkdir(parentdir.value, false, true);
      if err.Some? {
        return Err(CreationFailed(parentdir.value, err.value));
      }
      return Ok(());
    }

    /**
     * ensure_parentdir_from_dirname: refreshes `rootdir` by a new search,
     * then validates the name, then creates `root / name` (not under
     * `out`); `childdir` is set only on success and `parentdir` never.
     */
    method EnsureParentdirFromDirname(fs: FileSystem, start: Path, name: string) returns (r: Result<(), Error>)
      modifies this`rootdir, this`childdir, fs
      ensures var o := EnsureSpec(old(fs.nodes), start, name);
        && rootdir == (if o.root.Some? then o.root else old(rootdir))
        && childdir == (if o.result.Ok? then Some(o.result.value) else old(childdir))
        && parentdir == old(parentdir)
        && fs.nodes == o.nodes
        && r == (if o.result.Ok? then Ok(()) else Err(o.result.error))
    {
      ghost var t0 := fs.nodes;
      var root := FindProjectRoot(fs, start);
      if root.Err? {
        EnsureSpecSteps(t0, start, name);
        return Err(root.error);
      }
      var valid := ValidateDirname(name);
      if valid.Err? {
        EnsureSpecSteps(t0, start, name);
        return Err(InvalidName(valid.error));
      }
      var child := Join(root.value, valid.value);
      var err := fs.Mkdir(child, true, true);
      EnsureSpecSteps(t0, start, name);
      if err.Some? {
        return Err(CreationFailed(child, err.value));
      }
      childdir := Some(child);
      return Ok(());
    }
  }
}
