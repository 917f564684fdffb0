/** Absolute file-system paths as lists of components, with the lexical
    resolution Go's `filepath.Join` and `filepath.Clean` perform. */
module Paths {
  import Strings

  /** An absolute path, `/a/b` being `["a", "b"]` and `/` being `[]`. */
  type Path = seq<string>

  /** A component of a cleaned path: not empty, not `.` or `..`, no `/`. */
  predicate IsComponent(c: string) {
    c != "" && c != "." && c != ".." && '/' !in c
  }

  predicate IsClean(p: Path) {
    forall c :: c in p ==> IsComponent(c)
  }

  /** `p` is `q` or one of its ancestors. */
  predicate IsPrefix(p: Path, q: Path) {
    |p| <= |q| && q[..|p|] == p
  }

  /** Resolves the `/`-free pieces `parts` against `base` the way
      `filepath.Clean` reads them: empty pieces and `.` are dropped, `..`
      drops the last component and stops at the root. */
  function Resolve(base: Path, parts: seq<string>): (r: Path)
    requires forall c :: c in parts ==> '/' !in c
    ensures IsClean(base) ==> IsClean(r)
    decreases |parts|
  {
    if parts == [] then base
    else if parts[0] == "" || parts[0] == "." then Resolve(base, parts[1..])
    else if parts[0] == ".." then Resolve(if base == [] then [] else base[..|base| - 1], parts[1..])
    else Resolve(base + [parts[0]], parts[1..])
  }

  /** `filepath.Join(base, rel)` for an absolute `base`. An absolute `rel`
      is appended too, as Go does. */
  function Join(base: Path, rel: string): Path {
    Resolve(base, Strings.Split(rel, '/'))
  }

  /** The text of a path: `/` followed by the components separated by `/`. */
  function ToString(p: Path): (s: string)
    ensures |s| > 0 && s[0] == '/'
  {
    "/" + Strings.Join(p, "/")
  }

  /** The last component, `/` for the root: what `os.Stat(p).Name()` gives. */
  function Base(p: Path): string {
    if p == [] then "/" else p[|p| - 1]
  }

  lemma PrefixTransitive(p: Path, q: Path, r: Path)
    requires IsPrefix(p, q) && IsPrefix(q, r)
    ensures IsPrefix(p, r)
  {
    assert r[..|p|] == r[..|q|][..|p|];
  }

  /** Transitivity, stated for all paths. */
  lemma PrefixChain(p: Path, q: Path, r: Path)
    ensures IsPrefix(p, q) && IsPrefix(q, r) ==> IsPrefix(p, r)
  {
    if IsPrefix(p, q) && IsPrefix(q, r) {
      PrefixTransitive(p, q, r);
    }
  }

  /** An ancestor agrees with the path on its own components. */
  lemma PrefixAt(p: Path, q: Path, i: int)
    ensures IsPrefix(p, q) && 0 <= i < |p| ==> q[i] == p[i]
  {
  }

  /** The ancestors of `q + [c]` are those of `q` and `q + [c]` itself. */
  lemma PrefixSnoc(p: Path, q: Path, c: string)
    ensures IsPrefix(p, q + [c]) <==> IsPrefix(p, q) || p == q + [c]
  {
    if |p| <= |q| {
      assert (q + [c])[..|p|] == q[..|p|];
    }
  }

  /** Two ancestors of one path are ancestors one of the other. */
  lemma PrefixesComparable(p: Path, q: Path, r: Path)
    requires IsPrefix(p, r) && IsPrefix(q, r)
    ensures IsPrefix(p, q) || IsPrefix(q, p)
  {
    if |p| <= |q| {
      assert q[..|p|] == r[..|q|][..|p|];
    } else {
      assert p[..|q|] == r[..|p|][..|q|];
    }
  }

  /** Comparability, stated for all paths. */
  lemma PrefixesComparableAll(p: Path, q: Path, r: Path)
    ensures IsPrefix(p, r) && IsPrefix(q, r) ==> IsPrefix(p, q) || IsPrefix(q, p)
  {
    if IsPrefix(p, r) && IsPrefix(q, r) {
      PrefixesComparable(p, q, r);
    }
  }

  /** Resolving two runs of pieces one after the other. */
  lemma {:induction false} ResolveConcat(base: Path, xs: seq<string>, ys: seq<string>)
    requires forall c :: c in xs ==> '/' !in c
    requires forall c :: c in ys ==> '/' !in c
    ensures Resolve(base, xs + ys) == Resolve(Resolve(base, xs), ys)
    decreases |xs|
  {
    if xs == [] {
      assert xs + ys == ys;
    } else {
      assert (xs + ys)[0] == xs[0];
      assert (xs + ys)[1..] == xs[1..] + ys;
      assert forall c :: c in xs[1..] ==> c in xs;
      var next := if xs[0] == "" || xs[0] == "." then base
                  else if xs[0] == ".." then (if base == [] then [] else base[..|base| - 1])
                  else base + [xs[0]];
      ResolveConcat(next, xs[1..], ys);
    }
  }

  /** The text of a clean path followed by `/` and a component names the
      child. */
  lemma ResolveChild(p: Path, c: string)
    requires IsClean(p) && IsComponent(c)
    ensures Resolve([], Strings.Split(ToString(p) + "/" + c, '/')) == p + [c]
  {
    var s := ToString(p);
    assert s + "/" + c == s + ['/'] + c;
    Strings.SplitConcat(s, c, '/');
    Strings.SplitNoSeparator(c, '/');
    assert Strings.Split(s + "/" + c, '/') == Strings.Split(s, '/') + [c];
    ResolveConcat([], Strings.Split(s, '/'), [c]);
    ResolveToString(p);
    assert IsClean([c]);
    ResolveAppend(p, [c]);
  }

  /** `filepath.IsAbs` on Unix. */
  predicate IsAbs(s: string) {
    |s| > 0 && s[0] == '/'
  }

  /** Appending one clean component is all `Join` does with it. */
  lemma JoinComponent(base: Path, c: string)
    requires IsComponent(c)
    ensures Join(base, c) == base + [c]
  {
    Strings.SplitNoSeparator(c, '/');
    ResolveAppend(base, [c]);
  }

  lemma {:induction false} ResolveAppend(base: Path, parts: seq<string>)
    requires IsClean(parts)
    ensures Resolve(base, parts) == base + parts
    decreases |parts|
  {
    if parts != [] {
      assert parts[0] in parts && IsComponent(parts[0]);
      assert forall c :: c in parts[1..] ==> c in parts;
      ResolveAppend(base + [parts[0]], parts[1..]);
      assert base + [parts[0]] + parts[1..] == base + parts;
    }
  }

  lemma {:induction false} ResolveSkip(base: Path, parts: seq<string>)
    requires forall c :: c in parts ==> c == ""
    ensures Resolve(base, parts) == base
    decreases |parts|
  {
    if parts != [] {
      assert parts[0] in parts;
      assert forall c :: c in parts[1..] ==> c in parts;
      ResolveSkip(base, parts[1..]);
    }
  }

  /** Splitting a joined list of separator-free pieces gives back the pieces. */
  lemma {:induction false} SplitJoin(parts: seq<string>, sep: char)
    requires |parts| >= 1
    requires forall c :: c in parts ==> sep !in c
    ensures Strings.Split(Strings.Join(parts, [sep]), sep) == parts
    decreases |parts|
  {
    if |parts| == 1 {
      Strings.SplitNoSeparator(parts[0], sep);
    } else {
      SplitJoin(parts[1..], sep);
      Strings.SplitAfterPiece(parts[0], Strings.Join(parts[1..], [sep]), sep);
      assert Strings.Join(parts, [sep]) == parts[0] + [sep] + Strings.Join(parts[1..], [sep]);
      assert [parts[0]] + parts[1..] == parts;
    }
  }

  /** The text of a clean path splits into an empty piece and the components. */
  lemma SplitToString(p: Path)
    requires IsClean(p)
    ensures p == [] ==> Strings.Split(ToString(p), '/') == ["", ""]
    ensures p != [] ==> Strings.Split(ToString(p), '/') == [""] + p
  {
    if p == [] {
      assert ToString(p) == [] + ['/'] + "";
      Strings.SplitAfterPiece("", "", '/');
    } else {
      SplitJoin(p, '/');
      assert ToString(p) == "" + ['/'] + Strings.Join(p, "/");
      Strings.SplitAfterPiece("", Strings.Join(p, "/"), '/');
    }
  }

  /** Reading the text of a clean path back gives the same path. */
  lemma ResolveToString(p: Path)
    requires IsClean(p)
    ensures Resolve([], Strings.Split(ToString(p), '/')) == p
  {
    SplitToString(p);
    var parts := Strings.Split(ToString(p), '/');
    if p == [] {
      ResolveSkip([], parts);
    } else {
      assert parts[1..] == p;
      ResolveAppend([], p);
    }
  }
}
