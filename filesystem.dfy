/**
 * An abstract POSIX filesystem as the scripts see it through pathlib.
 * A path is absolute and canonical (symlinks already resolved): the
 * sequence of its segments, `[]` being `/`.  The filesystem maps every
 * existing path to the kind of entry found there.
 */
module FileSystems {
  import opened Wrappers

  type Path = seq<string>

  datatype Node = Dir | File

  type Tree = map<Path, Node>

  /** The version-control marker directory. */
  const GitMarker := ".git"

  /** pathlib's `p.parent`; the parent of `/` is `/` itself. */
  function Parent(p: Path): (q: Path)
    ensures q <= p
    ensures q == p <==> p == []
  {
    if p == [] then [] else p[..|p| - 1]
  }

  predicate IsDir(t: Tree, p: Path) {
    p in t && t[p] == Dir
  }

  predicate IsFile(t: Tree, p: Path) {
    p in t && t[p] == File
  }

  /** `(p / ".git").is_dir()` */
  predicate HasGit(t: Tree, p: Path) {
    IsDir(t, p + [GitMarker])
  }

  // ---- pathlib's `/` operator with a string operand ----

  /** A piece between two slashes survives unless it is empty or ".". */
  function Keep(piece: string): seq<string> {
    if piece == "" || piece == "." then [] else [piece]
  }

  /** The components of `piece + s`, split at '/', empty and "." pieces dropped. */
  function ComponentsFrom(s: string, piece: string): (r: seq<string>)
    requires '/' !in piece
    ensures forall c | c in r :: c != "" && c != "." && '/' !in c
    decreases |s|
  {
    if s == [] then Keep(piece)
    else if s[0] == '/' then Keep(piece) + ComponentsFrom(s[1..], "")
    else ComponentsFrom(s[1..], piece + [s[0]])
  }

  function Components(s: string): seq<string> {
    ComponentsFrom(s, "")
  }

  /** `p / s`: an absolute `s` replaces `p`, otherwise its components are appended. */
  function Join(p: Path, s: string): (r: Path)
    ensures '/' !in s ==> r == p + Keep(s)
  {
    SingleComponent(s);
    if |s| > 0 && s[0] == '/' then Components(s) else p + Components(s)
  }

  lemma {:induction false} SingleComponentFrom(s: string, piece: string)
    requires '/' !in piece && '/' !in s
    ensures ComponentsFrom(s, piece) == Keep(piece + s)
    decreases |s|
  {
    if s == [] {
      assert piece + s == piece;
    } else {
      SingleComponentFrom(s[1..], piece + [s[0]]);
      assert (piece + [s[0]]) + s[1..] == piece + s;
    }
  }

  lemma SingleComponent(s: string)
    ensures '/' !in s ==> Components(s) == Keep(s)
  {
    if '/' !in s {
      SingleComponentFrom(s, "");
      assert "" + s == s;
    }
  }

  // ---- directory creation ----

  /** What `os.mkdir` or pathlib's `mkdir` can raise. */
  datatype MkdirError =
    | EmbeddedNul(path: Path)     // ValueError raised before the system call
    | FileExists(path: Path)      // EEXIST
    | NotADirectory(path: Path)   // ENOTDIR: an ancestor is a file
    | FileNotFound(path: Path)    // ENOENT: the parent is missing

  predicate HasNul(p: Path) {
    exists i | 0 <= i < |p| :: '\0' in p[i]
  }

  /** One `os.mkdir(p)`. */
  function MkdirOnce(t: Tree, p: Path): Result<Tree, MkdirError> {
    if HasNul(p) then Err(EmbeddedNul(p))
    else if p in t then Err(FileExists(p))
    else if exists k | 0 <= k < |p| :: IsFile(t, p[..k]) then Err(NotADirectory(p))
    else if Parent(p) !in t then Err(FileNotFound(p))
    else Ok(t[p := Dir])
  }

  /**
   * pathlib's `p.mkdir(parents=parents, exist_ok=existOk)`: try `os.mkdir`;
   * on ENOENT, when `parents` holds and `p` is not `/`, create the parent
   * (with `exist_ok=True`) and try once more without `parents`; on any other
   * OSError, succeed only when `existOk` holds and `p` is a directory.  The
   * ValueError for an embedded NUL is not an OSError and always propagates.
   * The first component of the result is the filesystem afterwards (parents
   * created before a later failure stay created).
   */
  function MakeDir(t: Tree, p: Path, parents: bool, existOk: bool): (r: (Tree, Option<MkdirError>))
    ensures forall q | q in t :: q in r.0 && r.0[q] == t[q]
    ensures forall q | q in r.0 && q !in t :: q <= p && r.0[q] == Dir
    ensures r.1.None? ==> IsDir(r.0, p) && !HasNul(p)
    ensures r.1.Some? && !parents ==> r.0 == t
    decreases |p|, if parents then 1 else 0
  {
    match MkdirOnce(t, p)
    case Ok(t1) => (t1, None)
    case Err(e) =>
      if e.EmbeddedNul? then (t, Some(e))
      else if e.FileNotFound? then
        if !parents || p == [] then (t, Some(e))
        else
          var (t1, e1) := MakeDir(t, Parent(p), true, true);
          if e1.Some? then (t1, e1) else MakeDir(t1, p, false, existOk)
      else if existOk && IsDir(t, p) then (t, None)
      else (t, Some(e))
  }

  /** `mkdir(exist_ok=True)` on an existing directory changes nothing and succeeds. */
  lemma MakeDirExisting(t: Tree, p: Path, parents: bool)
    requires IsDir(t, p) && !HasNul(p)
    ensures MakeDir(t, p, parents, true) == (t, None)
  {
  }

  /**
   * `mkdir(parents=True, exist_ok=True)` succeeds whenever `/` exists, the
   * path has no NUL byte and neither it nor any of its ancestors is a file.
   */
  lemma {:induction false} MakeDirCreates(t: Tree, p: Path)
    requires !HasNul(p) && [] in t
    requires forall k | 0 <= k <= |p| :: !IsFile(t, p[..k])
    ensures MakeDir(t, p, true, true).1.None?
    decreases |p|
  {
    assert p[..|p|] == p;
    if p in t || MkdirOnce(t, p).Ok? {
      return;
    }
    assert p != [] && Parent(p) !in t;
    var q := Parent(p);
    assert forall k | 0 <= k <= |q| :: q[..k] == p[..k];
    assert !HasNul(q) by {
      assert forall i | 0 <= i < |q| :: q[i] == p[i];
    }
    MakeDirCreates(t, q);
    var (t1, e1) := MakeDir(t, q, true, true);
    assert forall k | 0 <= k < |p| :: !IsFile(t1, p[..k]);
    assert MkdirOnce(t1, p).Ok? || IsDir(t1, p);
  }

  /** Without `parents`, mkdir under an existing directory adds exactly the new directory. */
  lemma CreatesUnderDir(t: Tree, p: Path, existOk: bool)
    requires !HasNul(p) && p !in t && p != [] && IsDir(t, Parent(p))
    requires forall k | 0 <= k < |p| :: !IsFile(t, p[..k])
    ensures MakeDir(t, p, false, existOk) == (t[p := Dir], None)
  {
  }

  /** mkdir on a path that is a file fails, whatever the flags. */
  lemma FileInTheWay(t: Tree, p: Path, parents: bool, existOk: bool)
    requires IsFile(t, p)
    ensures MakeDir(t, p, parents, existOk).1.Some?
  {
  }

  /** The filesystem the scripts run against; only `Mkdir` changes it here. */
  class FileSystem {
    var nodes: Tree

    constructor (initial: Tree)
      ensures nodes == initial
    {
      nodes := initial;
    }

    method Mkdir(p: Path, parents: bool, existOk: bool) returns (err: Option<MkdirError>)
      modifies this
      ensures (nodes, err) == MakeDir(old(nodes), p, parents, existOk)
    {
      var r := MakeDir(nodes, p, parents, existOk);
      nodes, err := r.0, r.1;
    }
  }
}
