/** The helpers of `utils/utils.go`: membership, path text helpers, the
    existing-paths filter, directory creation and the recursive copy. */
module Utils {
  import opened Paths
  import opened Outcomes
  import opened Files
  import opened Worlds
  import Strings

  /** `contains` and `Contains`: a scan for an equal element. */
  method Contains<T(==)>(xs: seq<T>, x: T) returns (b: bool)
    ensures b <==> x in xs
  {
    for i := 0 to |xs|
      invariant x !in xs[..i]
    {
      if xs[i] == x {
        return true;
      }
      assert xs[..i + 1] == xs[..i] + [xs[i]];
    }
    assert xs[..|xs|] == xs;
    return false;
  }

  // ----- GetParentDir -----

  /** `GetParentDir`: the text before the last `/`. */
  function GetParentDir(path: string): string {
    var parts := Strings.Split(path, '/');
    Strings.Join(parts[..|parts| - 1], "/")
  }

  /** GetParentDir drops the last `/`-separated piece, and gives "" when
      there is no `/`. */
  lemma GetParentDirDropsLast(path: string)
    ensures '/' !in path ==> GetParentDir(path) == ""
    ensures '/' in path ==>
      var last := Strings.Split(path, '/')[Strings.Count(path, '/')];
      '/' !in last && path == GetParentDir(path) + "/" + last
  {
    var parts := Strings.Split(path, '/');
    Strings.CountZero(path, '/');
    Strings.JoinSplit(path, '/');
    if '/' in path {
      Strings.JoinSnoc(parts, "/");
    }
  }

  /** On the text of a clean path GetParentDir names the parent directory;
      a path of one component, or the root, gives "". */
  lemma GetParentDirOfPath(p: Path)
    requires IsClean(p)
    ensures |p| >= 2 ==> GetParentDir(ToString(p)) == ToString(p[..|p| - 1])
    ensures |p| <= 1 ==> GetParentDir(ToString(p)) == ""
  {
    SplitToString(p);
    if |p| >= 2 {
      var parts := [""] + p;
      assert parts[..|parts| - 1] == [""] + p[..|p| - 1];
      assert Strings.Join([""] + p[..|p| - 1], "/") == "" + "/" + Strings.Join(p[..|p| - 1], "/");
    }
  }

  // ----- NormalizeFilePath -----

  /** `NormalizeFilePath`: a `file:/...` URL becomes the path it names:
      `file://host/p` gives `/host/p` and `file:/p` gives `p`; any other
      text is kept. */
  function NormalizeFilePath(path: string): (r: string)
    ensures !Strings.HasPrefix(path, "file:/") ==> r == path
  {
    if Strings.HasPrefix(path, "file:/") then
      var rest := path[5..];
      if Strings.HasPrefix(rest, "//") then
        var authority := rest[2..];
        var host := Strings.Before(authority, '/');
        var urlPath := authority[|host|..];
        if host != "" then "/" + host + urlPath else Strings.TrimPrefix(urlPath, "/")
      else Strings.TrimPrefix(rest, "/")
    else path
  }

  /** `file://host/p` names `/host/p`. */
  lemma NormalizeHost(host: string, p: string)
    requires host != "" && '/' !in host
    requires p == "" || p[0] == '/'
    ensures NormalizeFilePath("file://" + host + p) == "/" + host + p
  {
    var path := "file://" + host + p;
    assert Strings.HasPrefix(path, "file:/");
    var authority := path[7..];
    assert path[5..][2..] == authority == host + p;
    Strings.BeforeConcat(host, p, '/');
    assert authority[|host|..] == p;
  }

  /** `file:/p` names `p`, the leading `/` dropped: relative to the root dir. */
  lemma NormalizeRootless(p: string)
    requires p == "" || p[0] != '/'
    ensures NormalizeFilePath("file:/" + p) == p
  {
    var path := "file:/" + p;
    assert path[5..] == "/" + p;
    assert Strings.HasPrefix(path, "file:/");
    assert !Strings.HasPrefix("/" + p, "//");
  }

  /** `file:///p` has an empty host and names `p`. */
  lemma NormalizeEmptyHost(p: string)
    requires p == "" || p[0] != '/'
    ensures NormalizeFilePath("file:///" + p) == p
  {
    var path := "file:///" + p;
    assert path[5..] == "///" + p;
    assert Strings.HasPrefix(path, "file:/");
    assert path[5..][2..] == "/" + p;
  }

  // ----- FilterExistingFiles -----

  /** The paths of `dirs` that exist in `fs`, in their order. */
  function Existing(fs: FS, dirs: seq<Path>): (r: seq<Path>)
    ensures forall p :: p in r <==> p in dirs && p in fs
    ensures |r| <= |dirs|
  {
    if dirs == [] then []
    else
      var rest := Existing(fs, dirs[1..]);
      assert forall p :: p in dirs <==> p == dirs[0] || p in dirs[1..];
      (if dirs[0] in fs then [dirs[0]] else []) + rest
  }

  /** Filtering a concatenation filters each part: the filter keeps the
      order of what it keeps. */
  lemma {:induction false} ExistingAppend(fs: FS, a: seq<Path>, b: seq<Path>)
    ensures Existing(fs, a + b) == Existing(fs, a) + Existing(fs, b)
    decreases |a|
  {
    if a == [] {
      assert a + b == b;
    } else {
      assert (a + b)[1..] == a[1..] + b;
      ExistingAppend(fs, a[1..], b);
    }
  }

  /** Filtering twice keeps what filtering once kept. */
  lemma {:induction false} ExistingIdempotent(fs: FS, dirs: seq<Path>)
    ensures Existing(fs, Existing(fs, dirs)) == Existing(fs, dirs)
    decreases |dirs|
  {
    if dirs != [] {
      var rest := Existing(fs, dirs[1..]);
      ExistingIdempotent(fs, dirs[1..]);
      if dirs[0] in fs {
        assert Existing(fs, dirs) == [dirs[0]] + rest;
        ExistingAppend(fs, [dirs[0]], rest);
        assert [dirs[0]][1..] == [];
      } else {
        assert Existing(fs, dirs) == rest;
      }
    }
  }

  /** One more path, kept when it exists. */
  lemma ExistingStep(fs: FS, dirs: seq<Path>, i: nat)
    requires i < |dirs|
    ensures Existing(fs, dirs[..i + 1]) == Existing(fs, dirs[..i]) + (if dirs[i] in fs then [dirs[i]] else [])
  {
    assert dirs[..i + 1] == dirs[..i] + [dirs[i]];
    ExistingAppend(fs, dirs[..i], [dirs[i]]);
  }

  /** `FilterExistingFiles`. */
  method FilterExistingFiles(w: World, dirs: seq<Path>) returns (result: seq<Path>)
    ensures result == Existing(w.fs, dirs)
  {
    result := [];
    for i := 0 to |dirs|
      invariant result == Existing(w.fs, dirs[..i])
    {
      ExistingStep(w.fs, dirs, i);
      if dirs[i] in w.fs {
        result := result + [dirs[i]];
      }
    }
    assert dirs[..|dirs|] == dirs;
  }

  // ----- MakeDir -----

  /** `MakeDir`: an existing directory is kept, an existing file is an
      error, anything else is created with its ancestors. */
  function MakeDirStep(st: State, p: Path): (r: Done)
    ensures IsDirAt(st.fs, p) ==> r == Done(st, Pass)
    ensures IsFileAt(st.fs, p) ==> r == Done(st, Fail(NotADirectory(p)))
    ensures p !in st.fs ==> r == MkdirAllStep(st, p)
    ensures r.outcome.Pass? ==> IsDirAt(r.st.fs, p)
  {
    if p in st.fs then
      if st.fs[p].Directory? then Done(st, Pass) else Done(st, Fail(NotADirectory(p)))
    else MkdirAllStep(st, p)
  }

  method MakeDir(w: World, p: Path) returns (o: Outcome)
    modifies w
    ensures Done(w.Now(), o) == MakeDirStep(old(w.Now()), p)
  {
    if p in w.fs {
      if w.fs[p].Directory? {
        o := Pass;
      } else {
        o := Fail(NotADirectory(p));
      }
    } else {
      o := w.MkdirAll(p);
    }
  }

  // ----- CopyAll -----

  /** The entries of `fs` at or below `p`. */
  function Below(fs: FS, p: Path): set<Path> {
    set k | k in fs && IsPrefix(p, k)
  }

  lemma BelowShrinks(fs: FS, p: Path, c: string)
    requires p in fs
    ensures Below(fs, p + [c]) < Below(fs, p)
  {
    assert p in Below(fs, p);
    forall k | k in Below(fs, p + [c])
      ensures k in Below(fs, p)
    {
      PrefixTransitive(p, p + [c], k);
    }
  }

  /** No component of the relative path `q` is an excluded name. */
  predicate NoneExcluded(q: Path, exclude: seq<string>) {
    forall c :: c in q ==> c !in exclude
  }

  /** `k` is an entry the copy of `src` reads: below `src` and reached
      without passing an excluded name. */
  predicate InRegion(src: Path, exclude: seq<string>, k: Path) {
    IsPrefix(src, k) && NoneExcluded(k[|src|..], exclude)
  }

  /** The copy does not write into what it reads: the destination is not
      an ancestor of the source, and lies inside the source only behind an
      excluded name. */
  predicate CopyDisjoint(src: Path, dst: Path, exclude: seq<string>) {
    !IsPrefix(dst, src) &&
    (IsPrefix(src, dst) ==> |src| < |dst| && dst[|src|] in exclude)
  }

  /** `fs` holds what `snap` holds wherever the copy of `src` reads. */
  ghost predicate Agree(fs: FS, snap: FS, src: Path, exclude: seq<string>) {
    forall k :: InRegion(src, exclude, k) ==>
      (k in fs <==> k in snap) && (k in fs ==> fs[k] == snap[k])
  }

  ghost predicate Changed(before: FS, after: FS, k: Path) {
    k in after && (k !in before || after[k] != before[k])
  }

  predicate IsEmptyFile(node: Node) {
    node.File? && node.data == []
  }

  /** `node` at `dst + q` is the copy of `src + q`. */
  ghost predicate Image(snap: FS, src: Path, exclude: seq<string>, ignoreEmpty: bool, q: Path, node: Node) {
    src + q in snap && NoneExcluded(q, exclude) && node == snap[src + q] &&
    !(ignoreEmpty && IsEmptyFile(node))
  }

  /** What copying `src` to `dst` may leave at `k`: a directory on the way
      to `dst`, the copy of a file source at `dst/<name>`, or the copy of an
      entry `src + q` of a directory source at `dst + q`. */
  ghost predicate Made(snap: FS, src: Path, dst: Path, exclude: seq<string>, ignoreEmpty: bool, k: Path, node: Node) {
    (IsPrefix(k, dst) && node == Directory) ||
    (src in snap && snap[src].File? && k == dst + [Base(src)] && node == snap[src] &&
     !(ignoreEmpty && IsEmptyFile(node))) ||
    (src in snap && snap[src].Directory? && IsPrefix(dst, k) && |dst| < |k| &&
     Image(snap, src, exclude, ignoreEmpty, k[|dst|..], node))
  }

  /** Every entry the copy changed or added is one it may make. */
  ghost predicate OnlyMade(snap: FS, before: FS, after: FS, src: Path, dst: Path, exclude: seq<string>, ignoreEmpty: bool) {
    forall k :: Changed(before, after, k) ==> Made(snap, src, dst, exclude, ignoreEmpty, k, after[k])
  }

  /** The same for copying the children `names` of `src` into `dst`: each
      change is on the way to `dst` or below `dst/<one of names>`. */
  ghost predicate EntriesOnlyMade(snap: FS, before: FS, after: FS, src: Path, dst: Path, names: seq<string>,
                                  exclude: seq<string>, ignoreEmpty: bool) {
    forall k :: Changed(before, after, k) ==>
      (IsPrefix(k, dst) && after[k] == Directory) ||
      (IsPrefix(dst, k) && |dst| < |k| && k[|dst|] in names &&
       Image(snap, src, exclude, ignoreEmpty, k[|dst|..], after[k]))
  }

  /** `to` in `fs` is a full copy of `from` in `snap`: a directory with every
      non-excluded child copied, or the same bytes (an empty file may be
      skipped when `ignoreEmpty`). */
  ghost predicate Mirrored(snap: FS, fs: FS, from: Path, to: Path, exclude: seq<string>, ignoreEmpty: bool)
    decreases Below(snap, from)
  {
    from in snap &&
    if snap[from].Directory? then
      IsDirAt(fs, to) &&
      forall c :: c in Children(snap, from) && c !in exclude ==>
        (BelowShrinks(snap, from, c); Mirrored(snap, fs, from + [c], to + [c], exclude, ignoreEmpty))
    else
      (ignoreEmpty && IsEmptyFile(snap[from])) || (to in fs && fs[to] == snap[from])
  }

  /** Where the copy of `src` lands: `dst` for a directory, `dst/<name>` for a file. */
  function Target(snap: FS, src: Path, dst: Path): Path {
    if src in snap && snap[src].File? then dst + [Base(src)] else dst
  }

  /** `CopyAll(src, dst, exclude, ignoreEmpty)` reading the source from the
      snapshot `snap`, starting in state `st`. */
  function Copy(snap: FS, st: State, src: Path, dst: Path, exclude: seq<string>, ignoreEmpty: bool): (r: Done)
    ensures src !in snap ==> r == Done(st, Fail(CopySourceMissing(ToString(src))))
    ensures r.outcome.Pass? ==> src in snap
    decreases Below(snap, src), 1
  {
    if src !in snap then Done(st, Fail(CopySourceMissing(ToString(src))))
    else
      var made := MkdirAllStep(st, dst);
      if made.outcome.Fail? then made
      else if snap[src].Directory? then
        CopyEntries(snap, made.st, src, dst, Strings.Without(ReadDir(snap, src), exclude), exclude, ignoreEmpty)
      else
        var read := State(made.st.fs, made.st.effects + [ReadFrom(src)]);
        var data := snap[src].data;
        if ignoreEmpty && data == [] then Done(read, Pass)
        else WriteFileStep(read, dst + [Base(src)], data)
  }

  /** The copy of the entry `c` of the directory `src`: a directory goes to
      `dst/c`, a file into `dst`. */
  function ChildCopy(snap: FS, st: State, src: Path, dst: Path, c: string, exclude: seq<string>, ignoreEmpty: bool): (r: Done)
    requires src in snap
    ensures r.outcome.Pass? ==> src + [c] in snap
    decreases Below(snap, src), 0, 0
  {
    var child := src + [c];
    BelowShrinks(snap, src, c);
    Copy(snap, st, child, ChildTarget(snap, src, dst, c), exclude, ignoreEmpty)
  }

  /** Where the entry `c` of `src` is copied to. */
  function ChildTarget(snap: FS, src: Path, dst: Path, c: string): Path {
    if IsDirAt(snap, src + [c]) then dst + [c] else dst
  }

  /** `names` are entries of `src` the copy does not skip. */
  predicate EntriesOk(snap: FS, src: Path, names: seq<string>, exclude: seq<string>) {
    forall c :: c in names ==> c !in exclude && src + [c] in snap
  }

  /** The loop over the children of a directory source. */
  function CopyEntries(snap: FS, st: State, src: Path, dst: Path, names: seq<string>,
                       exclude: seq<string>, ignoreEmpty: bool): (r: Done)
    requires src in snap
    ensures r.outcome.Fail? ==> names != []
    decreases Below(snap, src), 0, |names|
  {
    if names == [] then Done(st, Pass)
    else
      var d := ChildCopy(snap, st, src, dst, names[0], exclude, ignoreEmpty);
      if d.outcome.Fail? then d
      else CopyEntries(snap, d.st, src, dst, names[1..], exclude, ignoreEmpty)
  }

  /** `after` adds to `before`: the trace is extended, no entry disappears
      and no directory stops being one. */
  ghost predicate Grows(before: State, after: State) {
    before.effects <= after.effects &&
    (forall k :: k in before.fs ==> k in after.fs) &&
    (forall k :: IsDirAt(before.fs, k) ==> IsDirAt(after.fs, k))
  }

  /** The copy only adds, and a copy that succeeds leaves the destination
      directory in place. */
  lemma {:induction false} CopyGrows(snap: FS, st: State, src: Path, dst: Path, exclude: seq<string>, ignoreEmpty: bool)
    ensures Grows(st, Copy(snap, st, src, dst, exclude, ignoreEmpty).st)
    ensures Copy(snap, st, src, dst, exclude, ignoreEmpty).outcome.Pass? ==>
      IsDirAt(Copy(snap, st, src, dst, exclude, ignoreEmpty).st.fs, dst)
    decreases Below(snap, src), 1
  {
    if src in snap {
      var made := MkdirAllStep(st, dst);
      if made.outcome.Pass? && snap[src].Directory? {
        EntriesGrow(snap, made.st, src, dst, Strings.Without(ReadDir(snap, src), exclude), exclude, ignoreEmpty);
      }
    }
  }

  lemma {:induction false} EntriesGrow(snap: FS, st: State, src: Path, dst: Path, names: seq<string>,
                                       exclude: seq<string>, ignoreEmpty: bool)
    requires src in snap
    ensures Grows(st, CopyEntries(snap, st, src, dst, names, exclude, ignoreEmpty).st)
    decreases Below(snap, src), 0, |names|
  {
    if names != [] {
      BelowShrinks(snap, src, names[0]);
      CopyGrows(snap, st, src + [names[0]], ChildTarget(snap, src, dst, names[0]), exclude, ignoreEmpty);
      var d := ChildCopy(snap, st, src, dst, names[0], exclude, ignoreEmpty);
      EntriesGrow(snap, d.st, src, dst, names[1..], exclude, ignoreEmpty);
    }
  }

  /** The copy wipes nothing and runs no program. */
  lemma {:induction false} CopyQuiet(snap: FS, st: State, src: Path, dst: Path, exclude: seq<string>, ignoreEmpty: bool)
    ensures Quiet(st, Copy(snap, st, src, dst, exclude, ignoreEmpty).st)
    decreases Below(snap, src), 1
  {
    if src in snap {
      var made := MkdirAllStep(st, dst);
      if made.outcome.Pass? && snap[src].Directory? {
        EntriesQuiet(snap, made.st, src, dst, Strings.Without(ReadDir(snap, src), exclude), exclude, ignoreEmpty);
        QuietTrans(st, made.st, Copy(snap, st, src, dst, exclude, ignoreEmpty).st);
      }
    }
  }

  lemma {:induction false} EntriesQuiet(snap: FS, st: State, src: Path, dst: Path, names: seq<string>,
                                         exclude: seq<string>, ignoreEmpty: bool)
    requires src in snap
    ensures Quiet(st, CopyEntries(snap, st, src, dst, names, exclude, ignoreEmpty).st)
    decreases Below(snap, src), 0, |names|
  {
    if names != [] {
      BelowShrinks(snap, src, names[0]);
      CopyQuiet(snap, st, src + [names[0]], ChildTarget(snap, src, dst, names[0]), exclude, ignoreEmpty);
      var d := ChildCopy(snap, st, src, dst, names[0], exclude, ignoreEmpty);
      if d.outcome.Pass? {
        EntriesQuiet(snap, d.st, src, dst, names[1..], exclude, ignoreEmpty);
        QuietTrans(st, d.st, CopyEntries(snap, st, src, dst, names, exclude, ignoreEmpty).st);
      }
    }
  }

  /** The first turn of the loop over the children. */
  lemma EntriesCons(snap: FS, st: State, src: Path, dst: Path, c: string, rest: seq<string>,
                    exclude: seq<string>, ignoreEmpty: bool)
    requires src in snap
    ensures ChildCopy(snap, st, src, dst, c, exclude, ignoreEmpty).outcome.Fail? ==>
      CopyEntries(snap, st, src, dst, [c] + rest, exclude, ignoreEmpty) == ChildCopy(snap, st, src, dst, c, exclude, ignoreEmpty)
    ensures ChildCopy(snap, st, src, dst, c, exclude, ignoreEmpty).outcome.Pass? ==>
      CopyEntries(snap, st, src, dst, [c] + rest, exclude, ignoreEmpty)
      == CopyEntries(snap, ChildCopy(snap, st, src, dst, c, exclude, ignoreEmpty).st, src, dst, rest, exclude, ignoreEmpty)
  {
    assert ([c] + rest)[1..] == rest;
  }

  /** Each child's changes, seen from its parent. */
  lemma LiftChild(snap: FS, before: FS, after: FS, src: Path, dst: Path, names: seq<string>,
                  exclude: seq<string>, ignoreEmpty: bool)
    requires src in snap && names != []
    requires names[0] !in exclude && src + [names[0]] in snap
    requires OnlyMade(snap, before, after, src + [names[0]],
                      ChildTarget(snap, src, dst, names[0]), exclude, ignoreEmpty)
    ensures EntriesOnlyMade(snap, before, after, src, dst, names, exclude, ignoreEmpty)
  {
    var c := names[0];
    var child := src + [c];
    var childDst := ChildTarget(snap, src, dst, c);
    forall k | Changed(before, after, k)
      ensures (IsPrefix(k, dst) && after[k] == Directory) ||
              (IsPrefix(dst, k) && |dst| < |k| && k[|dst|] in names &&
               Image(snap, src, exclude, ignoreEmpty, k[|dst|..], after[k]))
    {
      assert Made(snap, child, childDst, exclude, ignoreEmpty, k, after[k]);
      if IsPrefix(k, childDst) && after[k] == Directory {
        if snap[child].Directory? && |k| == |dst| + 1 {
          assert k == dst + [c];
          assert k[|dst|..] == [c];
          assert Image(snap, src, exclude, ignoreEmpty, k[|dst|..], after[k]);
        } else if snap[child].Directory? {
          assert k == childDst[..|k|] && k == dst[..|k|];
        }
      } else if snap[child].File? {
        assert k == dst + [c] && k[|dst|..] == [c];
      } else {
        var q := k[|childDst|..];
        assert k[|dst|..] == [c] + q;
        assert src + k[|dst|..] == child + q;
        PrefixTransitive(dst, childDst, k);
      }
    }
  }

  /** The copy changes only what it may make. */
  lemma {:induction false} CopyOnlyMakes(snap: FS, st: State, src: Path, dst: Path, exclude: seq<string>, ignoreEmpty: bool)
    ensures OnlyMade(snap, st.fs, Copy(snap, st, src, dst, exclude, ignoreEmpty).st.fs, src, dst, exclude, ignoreEmpty)
    decreases Below(snap, src), 1
  {
    var r := Copy(snap, st, src, dst, exclude, ignoreEmpty);
    if src in snap {
      var made := MkdirAllStep(st, dst);
      if made.outcome.Pass? {
        if snap[src].Directory? {
          var names := Strings.Without(ReadDir(snap, src), exclude);
          EntriesOnlyMake(snap, made.st, src, dst, names, exclude, ignoreEmpty);
          forall k | Changed(st.fs, r.st.fs, k)
            ensures Made(snap, src, dst, exclude, ignoreEmpty, k, r.st.fs[k])
          {
            if !Changed(made.st.fs, r.st.fs, k) {
              assert Changed(st.fs, made.st.fs, k);
            }
          }
        }
      }
    }
  }

  lemma {:induction false} EntriesOnlyMake(snap: FS, st: State, src: Path, dst: Path, names: seq<string>,
                                           exclude: seq<string>, ignoreEmpty: bool)
    requires src in snap && EntriesOk(snap, src, names, exclude)
    ensures EntriesOnlyMade(snap, st.fs, CopyEntries(snap, st, src, dst, names, exclude, ignoreEmpty).st.fs,
                            src, dst, names, exclude, ignoreEmpty)
    decreases Below(snap, src), 0, |names|
  {
    if names != [] {
      var child := src + [names[0]];
      var childDst := ChildTarget(snap, src, dst, names[0]);
      BelowShrinks(snap, src, names[0]);
      var d := Copy(snap, st, child, childDst, exclude, ignoreEmpty);
      CopyOnlyMakes(snap, st, child, childDst, exclude, ignoreEmpty);
      LiftChild(snap, st.fs, d.st.fs, src, dst, names, exclude, ignoreEmpty);
      if d.outcome.Pass? {
        var r := CopyEntries(snap, d.st, src, dst, names[1..], exclude, ignoreEmpty);
        EntriesOnlyMake(snap, d.st, src, dst, names[1..], exclude, ignoreEmpty);
        forall k | Changed(st.fs, r.st.fs, k)
          ensures (IsPrefix(k, dst) && r.st.fs[k] == Directory) ||
                  (IsPrefix(dst, k) && |dst| < |k| && k[|dst|] in names &&
                   Image(snap, src, exclude, ignoreEmpty, k[|dst|..], r.st.fs[k]))
        {
          if !Changed(d.st.fs, r.st.fs, k) {
            assert Changed(st.fs, d.st.fs, k);
          }
        }
      }
    }
  }

  /** Copying the children `names` leaves alone what lies below another child. */
  lemma Untouched(snap: FS, before: FS, after: FS, src: Path, dst: Path, names: seq<string>,
                  exclude: seq<string>, ignoreEmpty: bool, c: string, k: Path)
    requires EntriesOnlyMade(snap, before, after, src, dst, names, exclude, ignoreEmpty)
    requires c !in names && IsPrefix(dst + [c], k)
    ensures !Changed(before, after, k)
  {
    assert |k| > |dst| && k[|dst|] == c;
    assert !IsPrefix(k, dst);
  }

  /** A full copy stays full while nothing at or below its target changes. */
  lemma {:induction false} MirroredFrame(snap: FS, fs1: FS, fs2: FS, from: Path, to: Path,
                                         exclude: seq<string>, ignoreEmpty: bool)
    requires Mirrored(snap, fs1, from, to, exclude, ignoreEmpty)
    requires forall k :: IsPrefix(to, k) ==> (k in fs1 <==> k in fs2) && (k in fs1 ==> fs1[k] == fs2[k])
    ensures Mirrored(snap, fs2, from, to, exclude, ignoreEmpty)
    decreases Below(snap, from)
  {
    assert IsPrefix(to, to);
    if snap[from].Directory? {
      forall c | c in Children(snap, from) && c !in exclude
        ensures Mirrored(snap, fs2, from + [c], to + [c], exclude, ignoreEmpty)
      {
        BelowShrinks(snap, from, c);
        forall k | IsPrefix(to + [c], k) ensures IsPrefix(to, k) {
          PrefixTransitive(to, to + [c], k);
        }
        MirroredFrame(snap, fs1, fs2, from + [c], to + [c], exclude, ignoreEmpty);
      }
    }
  }

  /** A copy that succeeds leaves a full copy of the source at its target. */
  lemma {:induction false} CopyMirrors(snap: FS, st: State, src: Path, dst: Path, exclude: seq<string>, ignoreEmpty: bool)
    requires Copy(snap, st, src, dst, exclude, ignoreEmpty).outcome.Pass?
    ensures Mirrored(snap, Copy(snap, st, src, dst, exclude, ignoreEmpty).st.fs, src, Target(snap, src, dst), exclude, ignoreEmpty)
    decreases Below(snap, src), 1
  {
    var r := Copy(snap, st, src, dst, exclude, ignoreEmpty);
    var made := MkdirAllStep(st, dst);
    if snap[src].Directory? {
      var names := Strings.Without(ReadDir(snap, src), exclude);
      EntriesMirror(snap, made.st, src, dst, names, exclude, ignoreEmpty);
      CopyGrows(snap, st, src, dst, exclude, ignoreEmpty);
      forall c | c in Children(snap, src) && c !in exclude
        ensures Mirrored(snap, r.st.fs, src + [c], dst + [c], exclude, ignoreEmpty)
      {
        assert c in names;
      }
    }
  }

  lemma {:induction false} EntriesMirror(snap: FS, st: State, src: Path, dst: Path, names: seq<string>,
                                         exclude: seq<string>, ignoreEmpty: bool)
    requires src in snap && EntriesOk(snap, src, names, exclude)
    requires Strings.Distinct(names)
    requires CopyEntries(snap, st, src, dst, names, exclude, ignoreEmpty).outcome.Pass?
    ensures forall c :: c in names ==>
      Mirrored(snap, CopyEntries(snap, st, src, dst, names, exclude, ignoreEmpty).st.fs, src + [c], dst + [c], exclude, ignoreEmpty)
    decreases Below(snap, src), 0, |names|
  {
    if names != [] {
      var c := names[0];
      var child := src + [c];
      var childDst := ChildTarget(snap, src, dst, c);
      BelowShrinks(snap, src, c);
      var d := Copy(snap, st, child, childDst, exclude, ignoreEmpty);
      var rest := names[1..];
      var r := CopyEntries(snap, d.st, src, dst, rest, exclude, ignoreEmpty);
      CopyMirrors(snap, st, child, childDst, exclude, ignoreEmpty);
      assert Target(snap, child, childDst) == dst + [c];
      assert Strings.Distinct(rest) by {
        forall i, j | 0 <= i < j < |rest| ensures rest[i] != rest[j] {
          assert rest[i] == names[i + 1] && rest[j] == names[j + 1];
        }
      }
      EntriesMirror(snap, d.st, src, dst, rest, exclude, ignoreEmpty);
      EntriesOnlyMake(snap, d.st, src, dst, rest, exclude, ignoreEmpty);
      EntriesGrow(snap, d.st, src, dst, rest, exclude, ignoreEmpty);
      assert c !in rest by {
        forall j | 0 <= j < |rest| ensures rest[j] != c {
          assert rest[j] == names[j + 1];
        }
      }
      forall k | IsPrefix(dst + [c], k)
        ensures (k in d.st.fs <==> k in r.st.fs) && (k in d.st.fs ==> d.st.fs[k] == r.st.fs[k])
      {
        Untouched(snap, d.st.fs, r.st.fs, src, dst, rest, exclude, ignoreEmpty, c, k);
      }
      MirroredFrame(snap, d.st.fs, r.st.fs, child, dst + [c], exclude, ignoreEmpty);
    }
  }

  // ----- CopyAll as the program runs it -----

  /** The child of a copy that keeps to itself keeps to itself. */
  lemma ChildDisjoint(src: Path, dst: Path, exclude: seq<string>, c: string)
    requires CopyDisjoint(src, dst, exclude) && c !in exclude
    ensures CopyDisjoint(src + [c], dst + [c], exclude)
    ensures CopyDisjoint(src + [c], dst, exclude)
  {
    PrefixSnoc(dst + [c], src, c);
    PrefixSnoc(dst, src, c);
    PrefixSnoc(src + [c], dst, c);
    PrefixSnoc(dst, dst, c);
    PrefixSnoc(src, src, c);
    PrefixChain(dst, dst + [c], src);
    PrefixChain(src, src + [c], dst);
    PrefixAt(src + [c], dst, |src|);
  }

  /** What agrees with the snapshot on a directory agrees on its
      non-excluded children. */
  lemma AgreeChild(fs: FS, snap: FS, src: Path, exclude: seq<string>, c: string)
    requires Agree(fs, snap, src, exclude) && c !in exclude
    ensures Agree(fs, snap, src + [c], exclude)
  {
    forall k | InRegion(src + [c], exclude, k)
      ensures InRegion(src, exclude, k)
    {
      assert k[|src|..] == [c] + k[|src + [c]|..];
    }
  }

  /** Changes on the way to `dst` or below it do not reach what the copy of
      `src` reads, as long as `src` itself is kept. */
  lemma AgreeKept(snap: FS, before: FS, after: FS, src: Path, dst: Path, exclude: seq<string>)
    requires Agree(before, snap, src, exclude) && CopyDisjoint(src, dst, exclude)
    requires src in before && src in after && after[src] == before[src]
    requires forall k :: k in before ==> k in after
    requires forall k :: Changed(before, after, k) ==> IsPrefix(k, dst) || (IsPrefix(dst, k) && |dst| < |k|)
    ensures Agree(after, snap, src, exclude)
  {
    forall k | InRegion(src, exclude, k)
      ensures !Changed(before, after, k)
    {
      if k != src {
        assert |k| == |src| ==> k == src;
        assert k[|src|..][0] == k[|src|];
        PrefixChain(src, k, dst);
        PrefixesComparableAll(src, dst, k);
        PrefixAt(k, dst, |src|);
        PrefixAt(dst, k, |src|);
      }
    }
  }

  /** The region a directory's listing comes from agrees with the snapshot,
      so the listing without the excluded names is the snapshot's. */
  lemma ListingAgrees(fs: FS, snap: FS, src: Path, exclude: seq<string>)
    requires Agree(fs, snap, src, exclude)
    ensures Strings.Without(ReadDir(fs, src), exclude) == Strings.Without(ReadDir(snap, src), exclude)
  {
    Strings.WithoutSorted(Children(fs, src), exclude);
    Strings.WithoutSorted(Children(snap, src), exclude);
    forall c | c !in exclude ensures (src + [c] in fs <==> src + [c] in snap) {
      assert (src + [c])[|src|..] == [c];
      assert InRegion(src, exclude, src + [c]);
    }
    assert Strings.Kept(Children(fs, src), exclude) == Strings.Kept(Children(snap, src), exclude);
  }

  /** `CopyAll`: copies `src` into the directory `dstDir`. A file lands as
      `dstDir/<name>`, a directory's entries land in `dstDir` itself; entries
      named in `exclude` are skipped at every level, and empty files too when
      `ignoreEmptyFiles`. The destination must not lie inside what is read. */
  method CopyAll(w: World, src: Path, dstDir: Path, exclude: seq<string>, ignoreEmptyFiles: bool) returns (o: Outcome)
    requires CopyDisjoint(src, dstDir, exclude)
    modifies w
    ensures Done(w.Now(), o) == Copy(old(w.fs), old(w.Now()), src, dstDir, exclude, ignoreEmptyFiles)
  {
    o := CopyFrom(w, src, dstDir, exclude, ignoreEmptyFiles, w.fs);
  }

  method CopyFrom(w: World, src: Path, dst: Path, exclude: seq<string>, ignoreEmpty: bool, ghost snap: FS)
    returns (o: Outcome)
    requires Agree(w.fs, snap, src, exclude) && CopyDisjoint(src, dst, exclude)
    modifies w
    ensures Done(w.Now(), o) == Copy(snap, old(w.Now()), src, dst, exclude, ignoreEmpty)
    decreases Below(snap, src), 3
  {
    assert InRegion(src, exclude, src) by {
      assert src[|src|..] == [];
    }
    if src !in w.fs {
      o := Fail(CopySourceMissing(ToString(src)));
      return;
    }
    ghost var st0 := w.Now();
    o := w.MkdirAll(dst);
    if o.Fail? {
      return;
    }
    AgreeKept(snap, st0.fs, w.fs, src, dst, exclude);
    if w.fs[src].Directory? {
      o := CopyChildren(w, src, dst, exclude, ignoreEmpty, snap);
    } else {
      var read := w.ReadFile(src);
      var data := read.value;
      if ignoreEmpty && |data| == 0 {
        o := Pass;
        return;
      }
      o := w.WriteFile(dst + [Base(src)], data);
    }
  }

  /** `os.ReadDir` on a directory that agrees with the snapshot. */
  method ListDir(w: World, src: Path, exclude: seq<string>, ghost snap: FS) returns (names: seq<string>)
    requires Agree(w.fs, snap, src, exclude)
    ensures Strings.Without(names, exclude) == Strings.Without(ReadDir(snap, src), exclude)
  {
    names := ReadDir(w.fs, src);
    ListingAgrees(w.fs, snap, src, exclude);
  }

  /** The loop of `CopyAll` over a directory's listing. */
  method CopyChildren(w: World, src: Path, dst: Path, exclude: seq<string>, ignoreEmpty: bool, ghost snap: FS)
    returns (o: Outcome)
    requires Agree(w.fs, snap, src, exclude) && CopyDisjoint(src, dst, exclude)
    requires IsDirAt(w.fs, src) && src in snap
    modifies w
    ensures Done(w.Now(), o)
         == CopyEntries(snap, old(w.Now()), src, dst, Strings.Without(ReadDir(snap, src), exclude), exclude, ignoreEmpty)
    decreases Below(snap, src), 2
  {
    var names := ListDir(w, src, exclude, snap);
    ghost var all := Strings.Without(names, exclude);
    assert names[0..] == names;
    var i := 0;
    while i < |names|
      invariant 0 <= i <= |names|
      invariant Agree(w.fs, snap, src, exclude) && IsDirAt(w.fs, src)
      invariant CopyEntries(snap, old(w.Now()), src, dst, all, exclude, ignoreEmpty)
             == CopyEntries(snap, w.Now(), src, dst, Strings.Without(names[i..], exclude), exclude, ignoreEmpty)
      decreases |names| - i
    {
      o := CopyNext(w, src, dst, names[i..], exclude, ignoreEmpty, snap);
      if o.Fail? {
        return;
      }
      assert names[i..][1..] == names[i + 1..];
      i := i + 1;
    }
    assert names[|names|..] == [];
    o := Pass;
  }

  /** One turn of the loop: the first of `names` is skipped when excluded
      and copied otherwise. */
  method CopyNext(w: World, src: Path, dst: Path, names: seq<string>, exclude: seq<string>, ignoreEmpty: bool, ghost snap: FS)
    returns (o: Outcome)
    requires names != []
    requires Agree(w.fs, snap, src, exclude) && CopyDisjoint(src, dst, exclude)
    requires IsDirAt(w.fs, src) && src in snap
    modifies w
    ensures o.Fail? ==> Done(w.Now(), o) == CopyEntries(snap, old(w.Now()), src, dst, Strings.Without(names, exclude), exclude, ignoreEmpty)
    ensures o.Pass? ==>
      CopyEntries(snap, old(w.Now()), src, dst, Strings.Without(names, exclude), exclude, ignoreEmpty)
      == CopyEntries(snap, w.Now(), src, dst, Strings.Without(names[1..], exclude), exclude, ignoreEmpty)
    ensures o.Pass? ==> Agree(w.fs, snap, src, exclude) && IsDirAt(w.fs, src)
    decreases Below(snap, src), 1
  {
    var c := names[0];
    assert names == [c] + names[1..];
    Strings.WithoutCons(c, names[1..], exclude);
    var skip := Contains(exclude, c);
    if skip {
      o := Pass;
    } else {
      o := CopyChild(w, src, dst, c, Strings.Without(names[1..], exclude), exclude, ignoreEmpty, snap);
    }
  }

  /** One turn of the loop: copies the entry `c` of `src`. */
  method CopyChild(w: World, src: Path, dst: Path, c: string, ghost rest: seq<string>,
                   exclude: seq<string>, ignoreEmpty: bool, ghost snap: FS)
    returns (o: Outcome)
    requires Agree(w.fs, snap, src, exclude) && CopyDisjoint(src, dst, exclude)
    requires IsDirAt(w.fs, src) && src in snap && c !in exclude
    modifies w
    ensures o.Fail? ==> CopyEntries(snap, old(w.Now()), src, dst, [c] + rest, exclude, ignoreEmpty) == Done(w.Now(), o)
    ensures o.Pass? ==>
      CopyEntries(snap, old(w.Now()), src, dst, [c] + rest, exclude, ignoreEmpty)
      == CopyEntries(snap, w.Now(), src, dst, rest, exclude, ignoreEmpty)
    ensures o.Pass? ==> Agree(w.fs, snap, src, exclude) && IsDirAt(w.fs, src)
    decreases Below(snap, src), 0
  {
    ghost var before := w.Now();
    EntriesCons(snap, before, src, dst, c, rest, exclude, ignoreEmpty);
    var child := src + [c];
    AgreeChild(w.fs, snap, src, exclude, c);
    ChildDisjoint(src, dst, exclude, c);
    assert InRegion(child, exclude, child) by {
      assert child[|child|..] == [];
    }
    assert InRegion(src, exclude, src) by {
      assert src[|src|..] == [];
    }
    var childDst := if child in w.fs && w.fs[child].Directory? then dst + [c] else dst;
    BelowShrinks(snap, src, c);
    o := CopyFrom(w, child, childDst, exclude, ignoreEmpty, snap);
    CopyGrows(snap, before, child, childDst, exclude, ignoreEmpty);
    if o.Pass? {
      CopyOnlyMakes(snap, before, child, childDst, exclude, ignoreEmpty);
      LiftChild(snap, before.fs, w.fs, src, dst, [c], exclude, ignoreEmpty);
      AgreeKept(snap, before.fs, w.fs, src, dst, exclude);
    }
  }
}
