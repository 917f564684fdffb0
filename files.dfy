/** The file system as a map from absolute paths to nodes, with the
    operations of Go's `os` package the dependency manager uses. */
module Files {
  import opened Paths
  import opened Outcomes
  import Strings

  newtype byte = x: int | 0 <= x < 256

  datatype Node = File(data: seq<byte>) | Directory

  type FS = map<Path, Node>

  predicate IsFileAt(fs: FS, p: Path) {
    p in fs && fs[p].File?
  }

  predicate IsDirAt(fs: FS, p: Path) {
    p in fs && fs[p].Directory?
  }

  /** The ancestors of `p`, `p` included. */
  function Prefixes(p: Path): (r: set<Path>)
    ensures forall q :: q in r <==> IsPrefix(q, p)
  {
    var r := set i | 0 <= i <= |p| :: p[..i];
    assert forall q :: IsPrefix(q, p) ==> q == p[..|q|];
    r
  }

  /** `os.MkdirAll` fails when the path or one of its ancestors is a file. */
  predicate CanMkdirAll(fs: FS, p: Path) {
    forall q :: q in Prefixes(p) ==> !IsFileAt(fs, q)
  }

  /** `os.MkdirAll` on success: every missing ancestor becomes a directory. */
  function MkdirAll(fs: FS, p: Path): (r: FS)
    ensures forall q :: IsPrefix(q, p) ==> q in r
    ensures forall k :: k in fs ==> k in r && r[k] == fs[k]
    ensures forall k :: k in r && k !in fs ==> IsPrefix(k, p) && r[k] == Directory
  {
    fs + map q | q in Prefixes(p) && q !in fs :: Directory
  }

  /** `os.RemoveAll`: drops `p` and everything below it. */
  function RemoveAll(fs: FS, p: Path): (r: FS)
    ensures forall k :: k in r <==> k in fs && !IsPrefix(p, k)
    ensures forall k :: k in r ==> r[k] == fs[k]
  {
    map k | k in fs && !IsPrefix(p, k) :: fs[k]
  }

  /** `os.WriteFile` fails unless the parent is a directory and `p` is not. */
  predicate CanWrite(fs: FS, p: Path) {
    |p| > 0 && IsDirAt(fs, p[..|p| - 1]) && !IsDirAt(fs, p)
  }

  /** The names of the entries directly inside `p`. */
  function Children(fs: FS, p: Path): (names: set<string>)
    ensures forall c :: c in names <==> p + [c] in fs
  {
    var names := set k | k in fs && |k| == |p| + 1 && k[..|p|] == p :: k[|p|];
    assert forall c :: p + [c] in fs ==> (p + [c])[..|p|] == p && (p + [c])[|p|] == c;
    assert forall k :: k in fs && |k| == |p| + 1 && k[..|p|] == p ==> k == p + [k[|p|]];
    names
  }

  /** `os.ReadDir`: the entry names of `p` sorted by name. */
  function ReadDir(fs: FS, p: Path): (names: seq<string>)
    ensures forall c :: c in names <==> p + [c] in fs
    ensures |names| == |Children(fs, p)|
  {
    Strings.SortedNames(Children(fs, p))
  }

  /** The path a string names, relative strings being resolved against the
      working directory `cwd`; the empty string names nothing, as `os.Stat("")`
      fails in Go. */
  function Locate(cwd: Path, s: string): (r: Option<Path>)
    ensures s == "" <==> r.None?
  {
    if s == "" then None
    else Some(Resolve(if IsAbs(s) then [] else cwd, Strings.Split(s, '/')))
  }

  /** The text of a clean path followed by `/` and a component names the
      child, wherever the working directory is. */
  lemma LocateChild(cwd: Path, p: Path, c: string)
    requires IsClean(p) && IsComponent(c)
    ensures Locate(cwd, ToString(p) + "/" + c) == Some(p + [c])
  {
    ResolveChild(p, c);
  }

  /** A clean path's text names that path. */
  lemma LocateToString(cwd: Path, p: Path)
    requires IsClean(p)
    ensures Locate(cwd, ToString(p)) == Some(p)
  {
    ResolveToString(p);
  }
}
