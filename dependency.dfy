/** `proj/dependency.go`: a dependency of a project, the namespace it is
    mounted under, the directory it is installed in, and the recursive
    update and load of a dependency and its own dependencies. */
module Dependencies {
  import opened Paths
  import opened Outcomes
  import opened Files
  import opened Worlds
  import opened Manifests
  import Strings
  import Utils
  import OpaCli
  import Locations

  /** A dependency: its manifest entry, the key it was declared under, the
      manifest read from its installed copy, the dependency that declared
      it, and the directory it was installed in. */
  datatype Dependency = Dependency(
    info: DependencyInfo,
    name: string,
    project: Option<Project>,
    parent: Option<Dependency>,
    dirPath: Path)

  /** The dependency a manifest entry describes before anything is known
      about it. */
  function FromDeclared(decl: Declared): (d: Dependency)
    ensures d.info == decl.info && d.name == decl.name
    ensures d.project.None? && d.parent.None?
  {
    Dependency(decl.info, decl.name, None, None, [])
  }

  /** The entry `decl` of `parent`'s manifest, linked to `parent`. */
  function Child(parent: Dependency, decl: Declared): (d: Dependency)
    ensures d.info == decl.info && d.name == decl.name && d.parent == Some(parent)
  {
    FromDeclared(decl).(parent := Some(parent))
  }

  // ----- Namespaces -----

  /** `fullNamespace`: the dependency's namespace below that of the
      dependency that declared it, when that one has a namespace of its own.
      A dependency with a namespace always has a full namespace ending in
      it. */
  function FullNamespace(d: Dependency): (ns: string)
    ensures d.info.namespace != "" ==> ns != ""
    decreases d
  {
    if d.parent.Some? && d.parent.value.info.namespace != "" then
      var parentNamespace := FullNamespace(d.parent.value);
      if parentNamespace != "" then
        if d.info.namespace == "" then parentNamespace
        else parentNamespace + "." + d.info.namespace
      else d.info.namespace
    else d.info.namespace
  }

  /** A dependency with a namespace has a full namespace ending in it. */
  lemma FullNamespaceEndsWith(d: Dependency)
    requires d.info.namespace != ""
    ensures Strings.HasSuffix(FullNamespace(d), d.info.namespace)
  {
    if d.parent.Some? && d.parent.value.info.namespace != "" {
      var parentNamespace := FullNamespace(d.parent.value);
      if parentNamespace != "" {
        assert (parentNamespace + "." + d.info.namespace)[|parentNamespace| + 1..] == d.info.namespace;
      }
    }
  }

  /** How full namespaces compose: a dependency without a parent, or whose
      parent has no namespace of its own, keeps its own namespace (the
      grandparents are not consulted); below a parent with a namespace it is
      mounted under the parent's full namespace. */
  lemma FullNamespaceRules(d: Dependency)
    ensures d.parent.None? ==> FullNamespace(d) == d.info.namespace
    ensures d.parent.Some? && d.parent.value.info.namespace == "" ==> FullNamespace(d) == d.info.namespace
    ensures d.parent.Some? && d.parent.value.info.namespace != "" ==>
      FullNamespace(d) == FullNamespace(d.parent.value) + (if d.info.namespace == "" then "" else "." + d.info.namespace)
  {
  }

  /** The namespaces the transitive update test expects: `no_deps` below
      `foo` is `foo.no_deps`, and below a dependency declared with
      `namespace: false` it stays `no_deps`. */
  lemma TransitiveNamespaces(fooLocation: string, bazLocation: string, location: string)
    ensures var noDeps := Declared(DependencyInfo(location, "no_deps"), "no_deps");
      FullNamespace(Child(FromDeclared(Declared(DependencyInfo(fooLocation, "foo"), "foo")), noDeps)) == "foo.no_deps" &&
      FullNamespace(Child(FromDeclared(Declared(DependencyInfo(bazLocation, ""), "baz")), noDeps)) == "no_deps"
  {
    var noDeps := Declared(DependencyInfo(location, "no_deps"), "no_deps");
    var foo := FromDeclared(Declared(DependencyInfo(fooLocation, "foo"), "foo"));
    assert FullNamespace(foo) == "foo";
    assert "foo" + "." + "no_deps" == "foo.no_deps";
    FullNamespaceRules(Child(foo, noDeps));
  }

  // ----- Directories -----

  /** `DepId`: the digest of `namespace:location`. */
  function DepId(env: Env, namespace: string, location: string): Digest {
    env.sha256(namespace + ":" + location)
  }

  /** `Dependency.dir`: the directory below `rootDir` named by the digest of
      the full namespace and the location, one level below `rootDir`. */
  function Dir(env: Env, rootDir: Path, d: Dependency): (p: Path)
    ensures p == rootDir + [DepId(env, FullNamespace(d), d.info.location)]
    ensures IsClean(rootDir) ==> IsClean(p)
  {
    var id := DepId(env, FullNamespace(d), d.info.location);
    DigestIsComponent(id);
    JoinComponent(rootDir, id);
    Join(rootDir, id)
  }

  /** Two dependencies with the same full namespace and location share a
      directory, whatever else differs. */
  lemma DirIdentity(env: Env, rootDir: Path, a: Dependency, b: Dependency)
    requires FullNamespace(a) == FullNamespace(b) && a.info.location == b.info.location
    ensures Dir(env, rootDir, a) == Dir(env, rootDir, b)
  {
  }

  /** Each directory of `dirs` joined below `base`, in order. */
  function JoinAll(base: Path, dirs: seq<string>): (r: seq<Path>)
    ensures |r| == |dirs|
    ensures forall i :: 0 <= i < |dirs| ==> r[i] == Join(base, dirs[i])
  {
    if dirs == [] then [] else [Join(base, dirs[0])] + JoinAll(base, dirs[1..])
  }

  /** The source directories the manifest declares, none without one. */
  function DeclaredSourceDirs(d: Dependency): seq<string> {
    if d.project.Some? then d.project.value.sourceDirs else []
  }

  /** The test directories the manifest declares, none without one. */
  function DeclaredTestDirs(d: Dependency): seq<string> {
    if d.project.Some? then d.project.value.testDirs else []
  }

  /** `SourceDirs`: the declared source directories, in order, below the
      dependency's directory, or that directory alone when none is
      declared; never empty. */
  function SourceDirs(d: Dependency): (r: seq<Path>)
    ensures |r| >= 1
    ensures DeclaredSourceDirs(d) != [] ==>
      |r| == |DeclaredSourceDirs(d)| &&
      forall i :: 0 <= i < |r| ==> r[i] == Join(d.dirPath, DeclaredSourceDirs(d)[i])
    ensures DeclaredSourceDirs(d) == [] ==> r == [d.dirPath]
  {
    if DeclaredSourceDirs(d) != [] then JoinAll(d.dirPath, DeclaredSourceDirs(d)) else [d.dirPath]
  }

  /** `TestDirs`: the declared test directories, in order, below the
      dependency's directory; empty when none is declared. */
  function TestDirs(d: Dependency): (r: seq<Path>)
    ensures |r| == |DeclaredTestDirs(d)|
    ensures forall i :: 0 <= i < |r| ==> r[i] == Join(d.dirPath, DeclaredTestDirs(d)[i])
  {
    JoinAll(d.dirPath, DeclaredTestDirs(d))
  }

  /** The texts of paths, in order. */
  function Texts(ps: seq<Path>): (r: seq<string>)
    ensures |r| == |ps|
    ensures forall i :: 0 <= i < |ps| ==> r[i] == ToString(ps[i])
  {
    if ps == [] then [] else [ToString(ps[0])] + Texts(ps[1..])
  }

  // ----- Update -----

  /** The source and test directories of `d` present in `fs`. */
  function RefactorDirs(fs: FS, d: Dependency): seq<Path> {
    Utils.Existing(fs, SourceDirs(d) + TestDirs(d))
  }

  /** The `opa` invocation that moves the package `data` to
      `data.<namespace>` in the directories `dirs`. */
  function RefactorOpa(env: Env, dirs: seq<Path>): OpaCli.Opa {
    OpaCli.NewOpa(env, Texts(dirs))
  }

  /** The one program run by the refactoring over `dirs`. */
  function RefactorRun(env: Env, dirs: seq<Path>, namespace: string): Effect {
    var o := RefactorOpa(env, dirs);
    Ran(o.location, OpaCli.RefactorArgs(o, "data", "data." + namespace))
  }

  /** The namespace refactoring at the end of `Update`: it runs exactly when
      the dependency has a full namespace and one of its source or test
      directories exists, over the existing ones in order; otherwise nothing
      happens. A failure is reported against the dependency's own
      namespace. */
  function RefactorStep(env: Env, st: State, d: Dependency): (r: Done)
    ensures FullNamespace(d) == "" || RefactorDirs(st.fs, d) == [] ==> r == Done(st, Pass)
    ensures FullNamespace(d) != "" && RefactorDirs(st.fs, d) != [] ==>
      var o := RefactorOpa(env, RefactorDirs(st.fs, d));
      var ran := OpaCli.RefactorStep(env, st, o, "data", "data." + FullNamespace(d));
      r.st.effects == st.effects + [RefactorRun(env, RefactorDirs(st.fs, d), FullNamespace(d))] &&
      r.st == ran.st &&
      (r.outcome.Pass? <==> ran.outcome.Pass?) &&
      (r.outcome.Fail? ==> r.outcome.error == RefactorFailed(d.info.namespace, ran.outcome.error))
  {
    var namespace := FullNamespace(d);
    var dirs := RefactorDirs(st.fs, d);
    if namespace == "" || dirs == [] then Done(st, Pass)
    else
      var o := RefactorOpa(env, dirs);
      var ran := OpaCli.RefactorStep(env, st, o, "data", "data." + namespace);
      if ran.outcome.Fail? then Done(ran.st, Fail(RefactorFailed(d.info.namespace, ran.outcome.error))) else ran
  }

  /** The refactoring has directories to work on exactly when a source or
      test directory exists; the fallback to the dependency's directory in
      the code is never taken, as `SourceDirs` is never empty. */
  lemma RefactorDirsMeaning(fs: FS, d: Dependency)
    ensures RefactorDirs(fs, d) != [] <==> exists p :: p in SourceDirs(d) + TestDirs(d) && p in fs
    ensures forall p :: p in RefactorDirs(fs, d) <==> p in SourceDirs(d) + TestDirs(d) && p in fs
  {
    var dirs := RefactorDirs(fs, d);
    if dirs != [] {
      assert dirs[0] in dirs;
    }
  }

  /** The fetch in `Update`: only `git+` locations are cloned, only `file:`
      locations copied; anything else is refused. */
  function FetchStep(env: Env, st: State, location: string, rootDir: Path, target: Path): (r: Done)
    ensures Strings.HasPrefix(location, "git+") ==> r == Locations.GitCloneStep(env, st, location, target)
    ensures !Strings.HasPrefix(location, "git+") && Strings.HasPrefix(location, "file:") ==>
      r == Locations.LocalCopyStep(env, st, location, rootDir, target)
    ensures !Strings.HasPrefix(location, "git+") && !Strings.HasPrefix(location, "file:") ==>
      r == Done(st, Fail(UnsupportedLocation(location)))
  {
    if Strings.HasPrefix(location, "git+") then Locations.GitCloneStep(env, st, location, target)
    else if Strings.HasPrefix(location, "file:") then Locations.LocalCopyStep(env, st, location, rootDir, target)
    else Done(st, Fail(UnsupportedLocation(location)))
  }

  /** A `git:` location is a git location to `Location`, but `Update`
      refuses it. */
  lemma GitColonRefused(env: Env, st: State, location: string, rootDir: Path, target: Path)
    requires Strings.HasPrefix(location, "git:")
    ensures Locations.IsGit(location)
    ensures FetchStep(env, st, location, rootDir, target) == Done(st, Fail(UnsupportedLocation(location)))
  {
    assert location[..4] == "git:";
  }

  /** The text of the manifest path in `target`. */
  function ManifestText(target: Path): string {
    ToString(target) + "/opa.project"
  }

  /** The manifest in the directory `target` is the file `opa.project` in it. */
  lemma ManifestInTarget(cwd: Path, target: Path)
    requires IsClean(target)
    ensures ManifestPath(cwd, ManifestText(target)) == target + ["opa.project"]
  {
    var s := ManifestText(target);
    assert s[|s| - 11..] == "opa.project";
    assert Strings.HasSuffix(s, "opa.project");
    assert NormalizeProjectPath(s) == s;
    assert s == ToString(target) + "/" + "opa.project";
    assert IsComponent("opa.project");
    LocateChild(cwd, target, "opa.project");
  }

  /** `Update(rootDir, depsRootDir)` from state `st`: the target directory
      is wiped and created (twice, as the code does); the location is
      fetched into it; the manifest found there, if any, is read; the
      dependencies it declares are updated into the same `depsRootDir`,
      each linked to this dependency; finally the namespace is
      refactored. `fuel` bounds the depth of the recursion. */
  function UpdateStep(env: Env, st: State, d: Dependency, rootDir: Path, depsRootDir: Path, fuel: nat): Done
    decreases fuel, 4
  {
    var target := Dir(env, depsRootDir, d);
    var made := MkdirAllStep(RemoveAllStep(st, target), target);
    if made.outcome.Fail? then made
    else
      var again := MkdirAllStep(made.st, target);
      if again.outcome.Fail? then again
      else FetchedStep(env, again.st, d, target, rootDir, depsRootDir, fuel)
  }

  /** The fetch into the prepared `target`, and what follows it. */
  function FetchedStep(env: Env, st: State, d: Dependency, target: Path, rootDir: Path, depsRootDir: Path, fuel: nat): Done
    decreases fuel, 3
  {
    var fetched := FetchStep(env, st, d.info.location, rootDir, target);
    if fetched.outcome.Fail? then fetched
    else ManifestStep(env, fetched.st, d, target, rootDir, depsRootDir, fuel)
  }

  /** The manifest in the fetched `target`, if there is one, is read; the
      dependency is placed at `target`. */
  function ManifestStep(env: Env, st: State, d: Dependency, target: Path, rootDir: Path, depsRootDir: Path, fuel: nat): Done
    decreases fuel, 2
  {
    if ManifestPath(env.cwd, ManifestText(target)) in st.fs then
      var read := ReadProjectStep(env, st, ManifestText(target), false);
      match read.result
      case Err(e) => Done(read.st, Fail(e))
      case Ok(p) => TransitiveStep(env, read.st, d.(project := Some(p), dirPath := target), rootDir, depsRootDir, fuel)
    else TransitiveStep(env, st, d.(dirPath := target), rootDir, depsRootDir, fuel)
  }

  /** What `Update` does once the manifest is known: `updateTransitive`,
      then the refactoring. */
  function TransitiveStep(env: Env, st: State, d: Dependency, rootDir: Path, depsRootDir: Path, fuel: nat): Done
    decreases fuel, 1
  {
    var children :=
      if d.project.Some? then UpdateChildren(env, st, d, env.order(d.project.value.dependencies.Keys), rootDir, depsRootDir, fuel)
      else Done(st, Pass);
    if children.outcome.Fail? then Done(children.st, Fail(TransitiveFailed(d.info.namespace, children.outcome.error)))
    else RefactorStep(env, children.st, d)
  }

  /** The loop of `updateTransitive` over the keys `keys` of the manifest
      of `parent`: each entry, linked to `parent`, is updated into
      `depsRootDir`; the first failure ends the loop. */
  function UpdateChildren(env: Env, st: State, parent: Dependency, keys: seq<string>,
                          rootDir: Path, depsRootDir: Path, fuel: nat): Done
    requires parent.project.Some? && forall k :: k in keys ==> k in parent.project.value.dependencies
    decreases fuel, 0, |keys|
  {
    if keys == [] then Done(st, Pass)
    else
      var prev := UpdateChildren(env, st, parent, keys[..|keys| - 1], rootDir, depsRootDir, fuel);
      if prev.outcome.Fail? then prev
      else ChildStep(env, prev.st, parent, parent.project.value.dependencies[keys[|keys| - 1]], rootDir, depsRootDir, fuel)
  }

  /** One turn of that loop: the entry `decl`, linked to `parent`, is
      updated, unless the depth bound is reached. */
  function ChildStep(env: Env, st: State, parent: Dependency, decl: Declared, rootDir: Path, depsRootDir: Path, fuel: nat): Done
    decreases fuel, 0, 0
  {
    if fuel == 0 then Done(st, Fail(DepthExhausted))
    else UpdateStep(env, st, Child(parent, decl), rootDir, depsRootDir, fuel - 1)
  }

  // ----- What an update wipes -----

  /** Reading a manifest and refactoring wipe nothing; fetching wipes
      nothing and runs no program either. */
  lemma ReadNoWipes(env: Env, st: State, path: string)
    ensures NoWipes(st, ReadProjectStep(env, st, path, false).st)
  {
  }

  lemma FetchQuiet(env: Env, st: State, location: string, rootDir: Path, target: Path)
    ensures Quiet(st, FetchStep(env, st, location, rootDir, target).st)
  {
    var r := FetchStep(env, st, location, rootDir, target);
    if Strings.HasPrefix(location, "git+") {
      if Locations.ParseGitUrl(location).Ok? {
        Locations.GitCloneTrace(env, st, location, target);
      }
    } else if Strings.HasPrefix(location, "file:") {
      var source := Locations.LocalSource(env, st.fs, location, rootDir);
      if source.Ok? && source.value.Some? && source.value.value in st.fs &&
         Utils.CopyDisjoint(source.value.value, target, [".opa"]) {
        Utils.CopyQuiet(st.fs, st, source.value.value, target, [".opa"], true);
      }
    }
  }

  lemma RefactorNoWipes(env: Env, st: State, d: Dependency)
    ensures NoWipes(st, RefactorStep(env, st, d).st)
  {
  }

  /** The wipe of the target directory and a `MkdirAll` of it. */
  lemma PrepareWipesBelow(st: State, depsRootDir: Path, id: string)
    ensures WipesBelow(st, MkdirAllStep(RemoveAllStep(st, depsRootDir + [id]), depsRootDir + [id]).st, depsRootDir)
  {
    var target := depsRootDir + [id];
    assert target[..|depsRootDir|] == depsRootDir;
    var r := MkdirAllStep(RemoveAllStep(st, target), target).st;
    assert r.effects == st.effects + [Removed(target), MadeDirs(target)];
  }

  /** Every directory an update wipes, at any depth of the recursion, lies
      directly below `depsRootDir`: all transitive dependencies are
      installed side by side. */
  lemma {:induction false} UpdateWipesBelow(env: Env, st: State, d: Dependency, rootDir: Path, depsRootDir: Path, fuel: nat)
    ensures WipesBelow(st, UpdateStep(env, st, d, rootDir, depsRootDir, fuel).st, depsRootDir)
    decreases fuel, 4
  {
    var target := Dir(env, depsRootDir, d);
    var made := MkdirAllStep(RemoveAllStep(st, target), target);
    PrepareWipesBelow(st, depsRootDir, DepId(env, FullNamespace(d), d.info.location));
    if made.outcome.Pass? {
      var again := MkdirAllStep(made.st, target);
      NoWipesBelow(made.st, again.st, depsRootDir);
      WipesBelowTrans(st, made.st, again.st, depsRootDir);
      if again.outcome.Pass? {
        FetchedWipesBelow(env, again.st, d, target, rootDir, depsRootDir, fuel);
        WipesBelowTrans(st, again.st, FetchedStep(env, again.st, d, target, rootDir, depsRootDir, fuel).st, depsRootDir);
      }
    }
  }

  lemma {:induction false} FetchedWipesBelow(env: Env, st: State, d: Dependency, target: Path, rootDir: Path, depsRootDir: Path, fuel: nat)
    ensures WipesBelow(st, FetchedStep(env, st, d, target, rootDir, depsRootDir, fuel).st, depsRootDir)
    decreases fuel, 3
  {
    var fetched := FetchStep(env, st, d.info.location, rootDir, target);
    FetchQuiet(env, st, d.info.location, rootDir, target);
    NoWipesBelow(st, fetched.st, depsRootDir);
    if fetched.outcome.Pass? {
      ManifestWipesBelow(env, fetched.st, d, target, rootDir, depsRootDir, fuel);
      WipesBelowTrans(st, fetched.st, ManifestStep(env, fetched.st, d, target, rootDir, depsRootDir, fuel).st, depsRootDir);
    }
  }

  lemma {:induction false} ManifestWipesBelow(env: Env, st: State, d: Dependency, target: Path, rootDir: Path, depsRootDir: Path, fuel: nat)
    ensures WipesBelow(st, ManifestStep(env, st, d, target, rootDir, depsRootDir, fuel).st, depsRootDir)
    decreases fuel, 2
  {
    if ManifestPath(env.cwd, ManifestText(target)) in st.fs {
      var read := ReadProjectStep(env, st, ManifestText(target), false);
      ReadNoWipes(env, st, ManifestText(target));
      NoWipesBelow(st, read.st, depsRootDir);
      if read.result.Ok? {
        var next := d.(project := Some(read.result.value), dirPath := target);
        TransitiveWipesBelow(env, read.st, next, rootDir, depsRootDir, fuel);
        WipesBelowTrans(st, read.st, TransitiveStep(env, read.st, next, rootDir, depsRootDir, fuel).st, depsRootDir);
      }
    } else {
      TransitiveWipesBelow(env, st, d.(dirPath := target), rootDir, depsRootDir, fuel);
    }
  }

  lemma {:induction false} TransitiveWipesBelow(env: Env, st: State, d: Dependency, rootDir: Path, depsRootDir: Path, fuel: nat)
    ensures WipesBelow(st, TransitiveStep(env, st, d, rootDir, depsRootDir, fuel).st, depsRootDir)
    decreases fuel, 1
  {
    var children :=
      if d.project.Some? then UpdateChildren(env, st, d, env.order(d.project.value.dependencies.Keys), rootDir, depsRootDir, fuel)
      else Done(st, Pass);
    if d.project.Some? {
      ChildrenWipesBelow(env, st, d, env.order(d.project.value.dependencies.Keys), rootDir, depsRootDir, fuel);
    }
    if children.outcome.Pass? {
      RefactorNoWipes(env, children.st, d);
      NoWipesBelow(children.st, RefactorStep(env, children.st, d).st, depsRootDir);
      WipesBelowTrans(st, children.st, RefactorStep(env, children.st, d).st, depsRootDir);
    }
  }

  lemma {:induction false} ChildrenWipesBelow(env: Env, st: State, parent: Dependency, keys: seq<string>,
                                              rootDir: Path, depsRootDir: Path, fuel: nat)
    requires parent.project.Some? && forall k :: k in keys ==> k in parent.project.value.dependencies
    ensures WipesBelow(st, UpdateChildren(env, st, parent, keys, rootDir, depsRootDir, fuel).st, depsRootDir)
    decreases fuel, 0, |keys|
  {
    if keys != [] {
      var prev := UpdateChildren(env, st, parent, keys[..|keys| - 1], rootDir, depsRootDir, fuel);
      ChildrenWipesBelow(env, st, parent, keys[..|keys| - 1], rootDir, depsRootDir, fuel);
      if prev.outcome.Pass? {
        var decl := parent.project.value.dependencies[keys[|keys| - 1]];
        ChildWipesBelow(env, prev.st, parent, decl, rootDir, depsRootDir, fuel);
        WipesBelowTrans(st, prev.st, ChildStep(env, prev.st, parent, decl, rootDir, depsRootDir, fuel).st, depsRootDir);
      }
    }
  }

  lemma {:induction false} ChildWipesBelow(env: Env, st: State, parent: Dependency, decl: Declared,
                                           rootDir: Path, depsRootDir: Path, fuel: nat)
    ensures WipesBelow(st, ChildStep(env, st, parent, decl, rootDir, depsRootDir, fuel).st, depsRootDir)
    decreases fuel, 0, 0
  {
    if fuel > 0 {
      var f := fuel - 1;
      UpdateWipesBelow(env, st, Child(parent, decl), rootDir, depsRootDir, f);
      ChildStepUpdates(env, st, parent, decl, rootDir, depsRootDir, fuel, f);
    }
  }

  /** `Update` starts by wiping and creating its target. */
  lemma UpdateBegins(env: Env, st: State, d: Dependency, rootDir: Path, depsRootDir: Path, fuel: nat)
    ensures st.effects + [Removed(Dir(env, depsRootDir, d)), MadeDirs(Dir(env, depsRootDir, d))]
      <= UpdateStep(env, st, d, rootDir, depsRootDir, fuel).st.effects
    ensures Removed(Dir(env, depsRootDir, d)) in UpdateStep(env, st, d, rootDir, depsRootDir, fuel).st.effects
  {
    var target := Dir(env, depsRootDir, d);
    var made := MkdirAllStep(RemoveAllStep(st, target), target);
    if made.outcome.Pass? {
      var again := MkdirAllStep(made.st, target);
      if again.outcome.Pass? {
        FetchedWipesBelow(env, again.st, d, target, rootDir, depsRootDir, fuel);
        PrefixOfPrefix(made.st.effects, again.st.effects, FetchedStep(env, again.st, d, target, rootDir, depsRootDir, fuel).st.effects);
      }
    }
    PrefixMember(st.effects, Removed(target), MadeDirs(target), UpdateStep(env, st, d, rootDir, depsRootDir, fuel).st.effects);
  }

  lemma PrefixOfPrefix<T>(a: seq<T>, b: seq<T>, c: seq<T>)
    requires a <= b && b <= c
    ensures a <= c
  {
    assert c[..|a|] == c[..|b|][..|a|];
  }

  /** A location that is neither `git+` nor `file:` fails right after the
      target is prepared, before anything is fetched. */
  lemma UnsupportedFailsEarly(env: Env, st: State, d: Dependency, rootDir: Path, depsRootDir: Path, fuel: nat)
    requires !Strings.HasPrefix(d.info.location, "git+") && !Strings.HasPrefix(d.info.location, "file:")
    ensures var r := UpdateStep(env, st, d, rootDir, depsRootDir, fuel);
      var target := Dir(env, depsRootDir, d);
      r.outcome.Fail? &&
      (r.st.effects == st.effects + [Removed(target), MadeDirs(target)] ||
       r.st.effects == st.effects + [Removed(target), MadeDirs(target), MadeDirs(target)])
  {
  }

  /** A turn of the loop that succeeds has wiped the child's directory. */
  lemma ChildInstalled(env: Env, st: State, parent: Dependency, decl: Declared, rootDir: Path, depsRootDir: Path, fuel: nat)
    ensures ChildStep(env, st, parent, decl, rootDir, depsRootDir, fuel).outcome.Pass? ==>
      Removed(Dir(env, depsRootDir, Child(parent, decl))) in ChildStep(env, st, parent, decl, rootDir, depsRootDir, fuel).st.effects
  {
    if fuel > 0 {
      var f := fuel - 1;
      UpdateBegins(env, st, Child(parent, decl), rootDir, depsRootDir, f);
      ChildStepUpdates(env, st, parent, decl, rootDir, depsRootDir, fuel, f);
    }
  }

  /** With fuel left, a turn of the loop is the update of the child. */
  lemma ChildStepUpdates(env: Env, st: State, parent: Dependency, decl: Declared, rootDir: Path, depsRootDir: Path, fuel: nat, f: nat)
    requires fuel == f + 1
    ensures ChildStep(env, st, parent, decl, rootDir, depsRootDir, fuel) == UpdateStep(env, st, Child(parent, decl), rootDir, depsRootDir, f)
  {
  }

  lemma PrefixMember<T>(a: seq<T>, x: T, y: T, c: seq<T>)
    requires a + [x, y] <= c
    ensures x in c
  {
    assert c[|a|] == (a + [x, y])[|a|];
  }

  lemma PrefixKeeps<T>(a: seq<T>, b: seq<T>, x: T)
    requires a <= b && x in a
    ensures x in b
  {
    var i :| 0 <= i < |a| && a[i] == x;
    assert b[i] == x;
  }

  /** An update of the children of `parent` that succeeds has wiped, hence
      installed, each of them directly below `depsRootDir`, in the directory
      named by its full namespace below `parent` and its location. */
  lemma {:induction false} ChildrenInstalled(env: Env, st: State, parent: Dependency, keys: seq<string>,
                                             rootDir: Path, depsRootDir: Path, fuel: nat)
    requires parent.project.Some? && forall k :: k in keys ==> k in parent.project.value.dependencies
    ensures UpdateChildren(env, st, parent, keys, rootDir, depsRootDir, fuel).outcome.Pass? ==>
      forall k :: k in keys ==>
        Removed(Dir(env, depsRootDir, Child(parent, parent.project.value.dependencies[k])))
          in UpdateChildren(env, st, parent, keys, rootDir, depsRootDir, fuel).st.effects
    decreases |keys|
  {
    var r := UpdateChildren(env, st, parent, keys, rootDir, depsRootDir, fuel);
    if keys != [] && r.outcome.Pass? {
      var init := keys[..|keys| - 1];
      var last := keys[|keys| - 1];
      var prev := UpdateChildren(env, st, parent, init, rootDir, depsRootDir, fuel);
      ChildrenInstalled(env, st, parent, init, rootDir, depsRootDir, fuel);
      ChildInstalled(env, prev.st, parent, parent.project.value.dependencies[last], rootDir, depsRootDir, fuel);
      ChildWipesBelow(env, prev.st, parent, parent.project.value.dependencies[last], rootDir, depsRootDir, fuel);
      forall k | k in keys
        ensures Removed(Dir(env, depsRootDir, Child(parent, parent.project.value.dependencies[k]))) in r.st.effects
      {
        if k != last {
          assert k in init;
          PrefixKeeps(prev.st.effects, r.st.effects, Removed(Dir(env, depsRootDir, Child(parent, parent.project.value.dependencies[k]))));
        }
      }
    }
  }

  /** After a successful update of a dependency whose manifest is known,
      every dependency it declares was installed directly below
      `depsRootDir`, named by its full namespace under this dependency
      and its location. */
  lemma TransitiveInstalled(env: Env, st: State, d: Dependency, rootDir: Path, depsRootDir: Path, fuel: nat)
    requires d.project.Some?
    ensures TransitiveStep(env, st, d, rootDir, depsRootDir, fuel).outcome.Pass? ==>
      forall k :: k in d.project.value.dependencies ==>
        var decl := d.project.value.dependencies[k];
        Removed(depsRootDir + [DepId(env, FullNamespace(Child(d, decl)), decl.info.location)])
          in TransitiveStep(env, st, d, rootDir, depsRootDir, fuel).st.effects
  {
    var keys := env.order(d.project.value.dependencies.Keys);
    var children := UpdateChildren(env, st, d, keys, rootDir, depsRootDir, fuel);
    ChildrenInstalled(env, st, d, keys, rootDir, depsRootDir, fuel);
    if children.outcome.Pass? {
      RefactorNoWipes(env, children.st, d);
      var r := TransitiveStep(env, st, d, rootDir, depsRootDir, fuel);
      assert children.st.effects <= r.st.effects;
      forall k | k in d.project.value.dependencies
        ensures Removed(Dir(env, depsRootDir, Child(d, d.project.value.dependencies[k]))) in r.st.effects
      {
        assert k in keys;
      }
    }
  }

  // ----- The order of an update -----

  /** `children` is what the loop over the dependencies declared by `d`
      adds to the trace: nothing when there are none, and otherwise it
      starts with the wipe of the directory of the first one visited. */
  predicate ChildrenTrace(env: Env, d: Dependency, depsRootDir: Path, children: seq<Effect>) {
    if d.project.None? || env.order(d.project.value.dependencies.Keys) == [] then children == []
    else
      var first := env.order(d.project.value.dependencies.Keys)[0];
      first in d.project.value.dependencies && children != [] &&
      children[0] == Removed(Dir(env, depsRootDir, Child(d, d.project.value.dependencies[first])))
  }

  /** `refactor` is what the refactoring of `d` adds to the trace: nothing,
      or one `opa refactor` over `dirs`, some of the source and test
      directories of `d`, into its full namespace. */
  predicate RefactorTrace(env: Env, d: Dependency, dirs: seq<Path>, refactor: seq<Effect>) {
    refactor == [] ||
    (FullNamespace(d) != "" && dirs != [] && (forall p :: p in dirs ==> p in SourceDirs(d) + TestDirs(d)) &&
     refactor == [RefactorRun(env, dirs, FullNamespace(d))])
  }

  /** A successful update acts in the order of the code: the target is
      wiped and created twice; the location is fetched into it, which
      wipes nothing and runs no program; the manifest found there, if
      any, is read; the declared dependencies are updated, the first of
      them beginning with the wipe of its own directory; and the
      refactoring, when it runs, is the very last action. */
  lemma UpdateOrder(env: Env, st: State, d: Dependency, rootDir: Path, depsRootDir: Path, fuel: nat)
    returns (placed: Dependency, fetch: seq<Effect>, manifest: seq<Effect>, children: seq<Effect>,
             refactor: seq<Effect>, dirs: seq<Path>)
    requires UpdateStep(env, st, d, rootDir, depsRootDir, fuel).outcome.Pass?
    ensures var t := Dir(env, depsRootDir, d);
      UpdateStep(env, st, d, rootDir, depsRootDir, fuel).st.effects
        == st.effects + [Removed(t), MadeDirs(t), MadeDirs(t)] + fetch + manifest + children + refactor
    ensures forall e :: e in fetch ==> !e.Removed? && !e.Ran?
    ensures placed.info == d.info && placed.name == d.name && placed.parent == d.parent
    ensures placed.dirPath == Dir(env, depsRootDir, d)
    ensures manifest == [] ==> placed.project == d.project
    ensures manifest != [] ==>
      manifest == [ReadFrom(ManifestPath(env.cwd, ManifestText(Dir(env, depsRootDir, d))))] && placed.project.Some?
    ensures ChildrenTrace(env, placed, depsRootDir, children)
    ensures RefactorTrace(env, placed, dirs, refactor)
  {
    var t := Dir(env, depsRootDir, d);
    var made := MkdirAllStep(RemoveAllStep(st, t), t);
    var again := MkdirAllStep(made.st, t);
    assert again.st.effects == st.effects + [Removed(t), MadeDirs(t), MadeDirs(t)];
    placed, fetch, manifest, children, refactor, dirs := FetchedOrder(env, again.st, d, t, rootDir, depsRootDir, fuel);
  }

  lemma FetchedOrder(env: Env, st: State, d: Dependency, target: Path, rootDir: Path, depsRootDir: Path, fuel: nat)
    returns (placed: Dependency, fetch: seq<Effect>, manifest: seq<Effect>, children: seq<Effect>,
             refactor: seq<Effect>, dirs: seq<Path>)
    requires FetchedStep(env, st, d, target, rootDir, depsRootDir, fuel).outcome.Pass?
    ensures FetchedStep(env, st, d, target, rootDir, depsRootDir, fuel).st.effects
      == st.effects + fetch + manifest + children + refactor
    ensures forall e :: e in fetch ==> !e.Removed? && !e.Ran?
    ensures placed.info == d.info && placed.name == d.name && placed.parent == d.parent && placed.dirPath == target
    ensures manifest == [] ==> placed.project == d.project
    ensures manifest != [] ==> manifest == [ReadFrom(ManifestPath(env.cwd, ManifestText(target)))] && placed.project.Some?
    ensures ChildrenTrace(env, placed, depsRootDir, children)
    ensures RefactorTrace(env, placed, dirs, refactor)
  {
    var fetched := FetchStep(env, st, d.info.location, rootDir, target);
    FetchQuiet(env, st, d.info.location, rootDir, target);
    fetch := fetched.st.effects[|st.effects|..];
    assert fetched.st.effects == st.effects + fetch;
    forall e | e in fetch ensures !e.Removed? && !e.Ran? {
      var i :| 0 <= i < |fetch| && fetch[i] == e;
      assert e == fetched.st.effects[|st.effects| + i];
    }
    placed, manifest, children, refactor, dirs := ManifestOrder(env, fetched.st, d, target, rootDir, depsRootDir, fuel);
  }

  lemma ManifestOrder(env: Env, st: State, d: Dependency, target: Path, rootDir: Path, depsRootDir: Path, fuel: nat)
    returns (placed: Dependency, manifest: seq<Effect>, children: seq<Effect>, refactor: seq<Effect>, dirs: seq<Path>)
    requires ManifestStep(env, st, d, target, rootDir, depsRootDir, fuel).outcome.Pass?
    ensures ManifestStep(env, st, d, target, rootDir, depsRootDir, fuel).st.effects
      == st.effects + manifest + children + refactor
    ensures placed.info == d.info && placed.name == d.name && placed.parent == d.parent && placed.dirPath == target
    ensures manifest == [] ==> placed.project == d.project
    ensures manifest != [] ==> manifest == [ReadFrom(ManifestPath(env.cwd, ManifestText(target)))] && placed.project.Some?
    ensures ChildrenTrace(env, placed, depsRootDir, children)
    ensures RefactorTrace(env, placed, dirs, refactor)
  {
    if ManifestPath(env.cwd, ManifestText(target)) in st.fs {
      var read := ReadProjectStep(env, st, ManifestText(target), false);
      assert read.st.effects == st.effects + [ReadFrom(ManifestPath(env.cwd, ManifestText(target)))];
      assert read.result.Ok?;
      placed := d.(project := Some(read.result.value), dirPath := target);
      assert ManifestStep(env, st, d, target, rootDir, depsRootDir, fuel) == TransitiveStep(env, read.st, placed, rootDir, depsRootDir, fuel);
      manifest := [ReadFrom(ManifestPath(env.cwd, ManifestText(target)))];
      children, refactor, dirs := TransitiveOrder(env, read.st, placed, rootDir, depsRootDir, fuel);
    } else {
      placed := d.(dirPath := target);
      assert ManifestStep(env, st, d, target, rootDir, depsRootDir, fuel) == TransitiveStep(env, st, placed, rootDir, depsRootDir, fuel);
      manifest := [];
      children, refactor, dirs := TransitiveOrder(env, st, placed, rootDir, depsRootDir, fuel);
      assert st.effects + manifest == st.effects;
    }
  }

  lemma TransitiveOrder(env: Env, st: State, d: Dependency, rootDir: Path, depsRootDir: Path, fuel: nat)
    returns (children: seq<Effect>, refactor: seq<Effect>, dirs: seq<Path>)
    requires TransitiveStep(env, st, d, rootDir, depsRootDir, fuel).outcome.Pass?
    ensures TransitiveStep(env, st, d, rootDir, depsRootDir, fuel).st.effects == st.effects + children + refactor
    ensures ChildrenTrace(env, d, depsRootDir, children)
    ensures RefactorTrace(env, d, dirs, refactor)
  {
    var updated :=
      if d.project.Some? then UpdateChildren(env, st, d, env.order(d.project.value.dependencies.Keys), rootDir, depsRootDir, fuel)
      else Done(st, Pass);
    assert updated.outcome.Pass? && TransitiveStep(env, st, d, rootDir, depsRootDir, fuel) == RefactorStep(env, updated.st, d);
    children := ChildrenOrder(env, st, d, rootDir, depsRootDir, fuel);
    refactor, dirs := RefactorOrder(env, updated.st, d);
  }

  /** The loop over the children of `d`, as part of an update. */
  lemma ChildrenOrder(env: Env, st: State, d: Dependency, rootDir: Path, depsRootDir: Path, fuel: nat)
    returns (children: seq<Effect>)
    requires d.project.Some? ==>
      UpdateChildren(env, st, d, env.order(d.project.value.dependencies.Keys), rootDir, depsRootDir, fuel).outcome.Pass?
    ensures d.project.Some? ==>
      UpdateChildren(env, st, d, env.order(d.project.value.dependencies.Keys), rootDir, depsRootDir, fuel).st.effects
        == st.effects + children
    ensures ChildrenTrace(env, d, depsRootDir, children)
  {
    if d.project.Some? {
      var keys := env.order(d.project.value.dependencies.Keys);
      var updated := UpdateChildren(env, st, d, keys, rootDir, depsRootDir, fuel);
      ChildrenWipesBelow(env, st, d, keys, rootDir, depsRootDir, fuel);
      if keys != [] {
        ChildrenBegin(env, st, d, keys, rootDir, depsRootDir, fuel);
      }
      children := updated.st.effects[|st.effects|..];
      assert updated.st.effects == st.effects + children;
    } else {
      children := [];
    }
  }

  /** The refactoring of `d` adds nothing or its one run to the trace. */
  lemma RefactorOrder(env: Env, st: State, d: Dependency) returns (refactor: seq<Effect>, dirs: seq<Path>)
    ensures RefactorStep(env, st, d).st.effects == st.effects + refactor
    ensures RefactorTrace(env, d, dirs, refactor)
  {
    dirs := RefactorDirs(st.fs, d);
    RefactorDirsMeaning(st.fs, d);
    var done := RefactorStep(env, st, d);
    refactor := done.st.effects[|st.effects|..];
    assert done.st.effects == st.effects + refactor;
  }

  /** A successful loop over a non-empty list of keys begins with the wipe
      of the directory of the first child. */
  lemma {:induction false} ChildrenBegin(env: Env, st: State, parent: Dependency, keys: seq<string>,
                                         rootDir: Path, depsRootDir: Path, fuel: nat)
    requires parent.project.Some? && forall k :: k in keys ==> k in parent.project.value.dependencies
    requires keys != [] && UpdateChildren(env, st, parent, keys, rootDir, depsRootDir, fuel).outcome.Pass?
    ensures var e := UpdateChildren(env, st, parent, keys, rootDir, depsRootDir, fuel).st.effects;
      |e| > |st.effects| &&
      e[|st.effects|] == Removed(Dir(env, depsRootDir, Child(parent, parent.project.value.dependencies[keys[0]])))
    decreases |keys|
  {
    var init := keys[..|keys| - 1];
    var prev := UpdateChildren(env, st, parent, init, rootDir, depsRootDir, fuel);
    var decl := parent.project.value.dependencies[keys[|keys| - 1]];
    var e := UpdateChildren(env, st, parent, keys, rootDir, depsRootDir, fuel).st.effects;
    assert prev.outcome.Pass? && e == ChildStep(env, prev.st, parent, decl, rootDir, depsRootDir, fuel).st.effects;
    if init == [] {
      assert keys[0] == keys[|keys| - 1];
      ChildBegins(env, st, parent, decl, rootDir, depsRootDir, fuel);
    } else {
      ChildrenBegin(env, st, parent, init, rootDir, depsRootDir, fuel);
      ChildWipesBelow(env, prev.st, parent, decl, rootDir, depsRootDir, fuel);
      assert init[0] == keys[0];
      assert e[|st.effects|] == prev.st.effects[|st.effects|];
    }
  }

  /** A successful turn of the loop begins with the wipe of the child's
      directory. */
  lemma ChildBegins(env: Env, st: State, parent: Dependency, decl: Declared, rootDir: Path, depsRootDir: Path, fuel: nat)
    requires ChildStep(env, st, parent, decl, rootDir, depsRootDir, fuel).outcome.Pass?
    ensures var e := ChildStep(env, st, parent, decl, rootDir, depsRootDir, fuel).st.effects;
      |e| > |st.effects| && e[|st.effects|] == Removed(Dir(env, depsRootDir, Child(parent, decl)))
  {
    var f := fuel - 1;
    var t := Dir(env, depsRootDir, Child(parent, decl));
    ChildStepUpdates(env, st, parent, decl, rootDir, depsRootDir, fuel, f);
    UpdateBegins(env, st, Child(parent, decl), rootDir, depsRootDir, f);
    var e := ChildStep(env, st, parent, decl, rootDir, depsRootDir, fuel).st.effects;
    assert e[|st.effects|] == (st.effects + [Removed(t), MadeDirs(t)])[|st.effects|];
  }

  // ----- Load -----

  /** A loaded dependency and the loaded dependencies of its manifest, by
      key. */
  datatype Tree = Tree(dep: Dependency, children: map<string, Tree>)

  /** `Load(rootDir, targetDir)` from state `st`: the dependency's
      directory is computed below `targetDir`, its manifest read if there is
      one, and the dependencies it declares loaded below the dependency's
      own directory. */
  function LoadStep(env: Env, st: State, d: Dependency, rootDir: Path, targetDir: Path, fuel: nat): Got<Tree>
    decreases fuel, 2
  {
    var target := Dir(env, targetDir, d);
    var placed := d.(dirPath := target);
    if ManifestPath(env.cwd, ManifestText(target)) in st.fs then
      var read := ReadProjectStep(env, st, ManifestText(target), false);
      match read.result
      case Err(e) => Got(read.st, Err(e))
      case Ok(p) => LoadTransitiveStep(env, read.st, placed.(project := Some(p)), rootDir, target, fuel)
    else LoadTransitiveStep(env, st, placed, rootDir, target, fuel)
  }

  /** `loadTransitive`. */
  function LoadTransitiveStep(env: Env, st: State, d: Dependency, rootDir: Path, targetDir: Path, fuel: nat): (r: Got<Tree>)
    ensures r.result.Ok? ==> r.result.value.dep == d
    decreases fuel, 1
  {
    if d.project.None? then Got(st, Ok(Tree(d, map[])))
    else
      var loaded := LoadChildren(env, st, d, env.order(d.project.value.dependencies.Keys), rootDir, targetDir, fuel);
      match loaded.result
      case Err(e) => Got(loaded.st, Err(TransitiveFailed(d.info.namespace, e)))
      case Ok(children) => Got(loaded.st, Ok(Tree(d, children)))
  }

  /** The loop of `loadTransitive` over the keys `keys` of the manifest of
      `parent`: each entry is loaded below `targetDir` and then linked to
      `parent`. */
  function LoadChildren(env: Env, st: State, parent: Dependency, keys: seq<string>,
                        rootDir: Path, targetDir: Path, fuel: nat): Got<map<string, Tree>>
    requires parent.project.Some? && forall k :: k in keys ==> k in parent.project.value.dependencies
    decreases fuel, 0, |keys|
  {
    if keys == [] then Got(st, Ok(map[]))
    else
      var prev := LoadChildren(env, st, parent, keys[..|keys| - 1], rootDir, targetDir, fuel);
      if prev.result.Err? then prev
      else
        var key := keys[|keys| - 1];
        var loaded := LoadChildStep(env, prev.st, parent, parent.project.value.dependencies[key], rootDir, targetDir, fuel);
        match loaded.result
        case Err(e) => Got(loaded.st, Err(e))
        case Ok(t) => Got(loaded.st, Ok(prev.result.value[key := t]))
  }

  /** One turn of that loop: the entry `decl` is loaded and then linked to
      `parent`, unless the depth bound is reached. */
  function LoadChildStep(env: Env, st: State, parent: Dependency, decl: Declared, rootDir: Path, targetDir: Path, fuel: nat): Got<Tree>
    decreases fuel, 0, 0
  {
    if fuel == 0 then Got(st, Err(DepthExhausted))
    else
      var loaded := LoadStep(env, st, FromDeclared(decl), rootDir, targetDir, fuel - 1);
      match loaded.result
      case Err(e) => Got(loaded.st, Err(e))
      case Ok(t) => Got(loaded.st, Ok(Tree(t.dep.(parent := Some(parent)), t.children)))
  }


  /** With fuel left, a turn of the load loop loads the entry and links it. */
  lemma LoadChildStepLoads(env: Env, st: State, parent: Dependency, decl: Declared, rootDir: Path, targetDir: Path, fuel: nat, f: nat)
    requires fuel == f + 1
    ensures var loaded := LoadStep(env, st, FromDeclared(decl), rootDir, targetDir, f);
      LoadChildStep(env, st, parent, decl, rootDir, targetDir, fuel) ==
        match loaded.result
        case Err(e) => Got(loaded.st, Err(e))
        case Ok(t) => Got(loaded.st, Ok(Tree(t.dep.(parent := Some(parent)), t.children)))
  {
  }

  /** A loaded dependency is placed in its directory below `targetDir` and
      keeps its entry, its key and its parent link. */
  lemma LoadPlaces(env: Env, st: State, d: Dependency, rootDir: Path, targetDir: Path, fuel: nat)
    ensures var r := LoadStep(env, st, d, rootDir, targetDir, fuel);
      r.result.Ok? ==>
        var t := r.result.value.dep;
        t.dirPath == Dir(env, targetDir, d) && t.info == d.info && t.name == d.name && t.parent == d.parent
  {
  }

  /** A turn of the load loop that succeeds gives the entry, linked to
      `parent`, placed below `targetDir` in the directory named by its own
      namespace: the link is made after the directory is chosen. */
  lemma LoadChildPlaces(env: Env, st: State, parent: Dependency, decl: Declared, rootDir: Path, targetDir: Path, fuel: nat)
    ensures var r := LoadChildStep(env, st, parent, decl, rootDir, targetDir, fuel);
      r.result.Ok? ==>
        var c := r.result.value.dep;
        c.parent == Some(parent) && c.info == decl.info && c.name == decl.name &&
        c.dirPath == targetDir + [DepId(env, decl.info.namespace, decl.info.location)]
  {
    if fuel > 0 {
      var f := fuel - 1;
      LoadPlaces(env, st, FromDeclared(decl), rootDir, targetDir, f);
      LoadChildStepLoads(env, st, parent, decl, rootDir, targetDir, fuel, f);
      FullNamespaceRules(FromDeclared(decl));
    }
  }

  /** The load loop over `keys` that succeeds gives one loaded child per
      key, each placed as `LoadChildPlaces` says. */
  lemma {:induction false} LoadChildrenLayout(env: Env, st: State, parent: Dependency, keys: seq<string>,
                                              rootDir: Path, targetDir: Path, fuel: nat)
    requires parent.project.Some? && forall k :: k in keys ==> k in parent.project.value.dependencies
    ensures var r := LoadChildren(env, st, parent, keys, rootDir, targetDir, fuel);
      r.result.Ok? ==>
        (forall k :: k in r.result.value <==> k in keys) &&
        forall k :: k in r.result.value ==>
          var decl := parent.project.value.dependencies[k];
          var c := r.result.value[k].dep;
          c.parent == Some(parent) && c.info == decl.info && c.name == decl.name &&
          c.dirPath == targetDir + [DepId(env, decl.info.namespace, decl.info.location)]
    decreases |keys|
  {
    if keys != [] {
      var init := keys[..|keys| - 1];
      var key := keys[|keys| - 1];
      assert forall k :: k in keys <==> k in init || k == key;
      LoadChildrenLayout(env, st, parent, init, rootDir, targetDir, fuel);
      var prev := LoadChildren(env, st, parent, init, rootDir, targetDir, fuel);
      if prev.result.Ok? {
        LoadChildPlaces(env, prev.st, parent, parent.project.value.dependencies[key], rootDir, targetDir, fuel);
      }
    }
  }

  /** `Load` nests: a loaded dependency lies in its directory below
      `targetDir`, and each dependency its manifest declares was loaded
      into the directory below that one named by its own namespace and
      location, and linked to it afterwards. */
  lemma LoadLayout(env: Env, st: State, d: Dependency, rootDir: Path, targetDir: Path, fuel: nat)
    ensures var r := LoadStep(env, st, d, rootDir, targetDir, fuel);
      r.result.Ok? ==>
        var t := r.result.value;
        t.dep.dirPath == Dir(env, targetDir, d) && t.dep.info == d.info &&
        (t.dep.project.None? ==> t.children == map[]) &&
        (t.dep.project.Some? ==>
          t.children.Keys == t.dep.project.value.dependencies.Keys &&
          forall k :: k in t.children ==>
            var decl := t.dep.project.value.dependencies[k];
            t.children[k].dep.parent == Some(t.dep) &&
            t.children[k].dep.info == decl.info &&
            t.children[k].dep.dirPath == t.dep.dirPath + [DepId(env, decl.info.namespace, decl.info.location)])
  {
    LoadPlaces(env, st, d, rootDir, targetDir, fuel);
    var r := LoadStep(env, st, d, rootDir, targetDir, fuel);
    if r.result.Ok? && r.result.value.dep.project.Some? {
      var target := Dir(env, targetDir, d);
      var placed := r.result.value.dep;
      var before := if ManifestPath(env.cwd, ManifestText(target)) in st.fs
        then ReadProjectStep(env, st, ManifestText(target), false).st else st;
      assert r == LoadTransitiveStep(env, before, placed, rootDir, target, fuel);
      var keys := env.order(placed.project.value.dependencies.Keys);
      LoadChildrenLayout(env, before, placed, keys, rootDir, target, fuel);
    }
  }

  // ----- Update and load as the program runs them -----

  /** Once the update loop has failed, visiting more keys keeps the failure. */
  lemma {:induction false} UpdateChildrenFailed(env: Env, st: State, parent: Dependency, keys: seq<string>,
                                                rootDir: Path, depsRootDir: Path, fuel: nat, i: nat)
    requires parent.project.Some? && forall k :: k in keys ==> k in parent.project.value.dependencies
    requires i <= |keys|
    ensures UpdateChildren(env, st, parent, keys[..i], rootDir, depsRootDir, fuel).outcome.Fail? ==>
      UpdateChildren(env, st, parent, keys, rootDir, depsRootDir, fuel) == UpdateChildren(env, st, parent, keys[..i], rootDir, depsRootDir, fuel)
    decreases |keys| - i
  {
    if i < |keys| {
      var init := keys[..|keys| - 1];
      assert init[..i] == keys[..i];
      UpdateChildrenFailed(env, st, parent, init, rootDir, depsRootDir, fuel, i);
    } else {
      assert keys[..i] == keys;
    }
  }

  /** Once the load loop has failed, visiting more keys keeps the failure. */
  lemma {:induction false} LoadChildrenFailed(env: Env, st: State, parent: Dependency, keys: seq<string>,
                                              rootDir: Path, targetDir: Path, fuel: nat, i: nat)
    requires parent.project.Some? && forall k :: k in keys ==> k in parent.project.value.dependencies
    requires i <= |keys|
    ensures LoadChildren(env, st, parent, keys[..i], rootDir, targetDir, fuel).result.Err? ==>
      LoadChildren(env, st, parent, keys, rootDir, targetDir, fuel) == LoadChildren(env, st, parent, keys[..i], rootDir, targetDir, fuel)
    decreases |keys| - i
  {
    if i < |keys| {
      var init := keys[..|keys| - 1];
      assert init[..i] == keys[..i];
      LoadChildrenFailed(env, st, parent, init, rootDir, targetDir, fuel, i);
    } else {
      assert keys[..i] == keys;
    }
  }

  /** The fetch of `Update`. */
  method Fetch(w: World, location: string, rootDir: Path, target: Path) returns (o: Outcome)
    modifies w
    ensures Done(w.Now(), o) == FetchStep(w.env, old(w.Now()), location, rootDir, target)
  {
    if Strings.HasPrefix(location, "git+") {
      o := Locations.CloneGit(w, location, target);
    } else if Strings.HasPrefix(location, "file:") {
      o := Locations.CloneLocal(w, location, rootDir, target);
    } else {
      o := Fail(UnsupportedLocation(location));
    }
  }

  /** The namespace refactoring of `Update`. */
  method Refactor(w: World, d: Dependency) returns (o: Outcome)
    modifies w
    ensures Done(w.Now(), o) == RefactorStep(w.env, old(w.Now()), d)
  {
    o := Pass;
    var namespace := FullNamespace(d);
    if namespace != "" {
      var dirs := Utils.FilterExistingFiles(w, SourceDirs(d) + TestDirs(d));
      if |dirs| > 0 {
        o := OpaCli.Refactor(w, RefactorOpa(w.env, dirs), "data", "data." + namespace);
        if o.Fail? {
          o := Fail(RefactorFailed(d.info.namespace, o.error));
        }
      }
    }
  }

  /** One more key of the update loop. */
  lemma UpdateChildrenSnoc(env: Env, st: State, parent: Dependency, keys: seq<string>,
                           rootDir: Path, depsRootDir: Path, fuel: nat, i: nat)
    requires parent.project.Some? && forall k :: k in keys ==> k in parent.project.value.dependencies
    requires i < |keys|
    ensures var prev := UpdateChildren(env, st, parent, keys[..i], rootDir, depsRootDir, fuel);
      UpdateChildren(env, st, parent, keys[..i + 1], rootDir, depsRootDir, fuel) ==
        if prev.outcome.Fail? then prev
        else ChildStep(env, prev.st, parent, parent.project.value.dependencies[keys[i]], rootDir, depsRootDir, fuel)
  {
    assert keys[..i + 1][..i] == keys[..i];
  }

  /** One more key of the load loop. */
  lemma LoadChildrenSnoc(env: Env, st: State, parent: Dependency, keys: seq<string>,
                         rootDir: Path, targetDir: Path, fuel: nat, i: nat)
    requires parent.project.Some? && forall k :: k in keys ==> k in parent.project.value.dependencies
    requires i < |keys|
    ensures var prev := LoadChildren(env, st, parent, keys[..i], rootDir, targetDir, fuel);
      var loaded := LoadChildStep(env, prev.st, parent, parent.project.value.dependencies[keys[i]], rootDir, targetDir, fuel);
      LoadChildren(env, st, parent, keys[..i + 1], rootDir, targetDir, fuel) ==
        if prev.result.Err? then prev
        else if loaded.result.Err? then Got(loaded.st, Err(loaded.result.error))
        else Got(loaded.st, Ok(prev.result.value[keys[i] := loaded.result.value]))
  {
    assert keys[..i + 1][..i] == keys[..i];
  }

  /** `Dependency.Update`: the target directory is wiped and made again. */
  method Update(w: World, d: Dependency, rootDir: Path, depsRootDir: Path, fuel: nat) returns (o: Outcome)
    modifies w
    ensures Done(w.Now(), o) == UpdateStep(w.env, old(w.Now()), d, rootDir, depsRootDir, fuel)
    decreases fuel, 4
  {
    var target := Dir(w.env, depsRootDir, d);
    w.RemoveAll(target);
    o := w.MkdirAll(target);
    if o.Fail? {
      return;
    }
    o := w.MkdirAll(target);
    if o.Fail? {
      return;
    }
    o := Fetched(w, d, target, rootDir, depsRootDir, fuel);
  }

  /** The rest of `Update` once `target` exists: the fetch. */
  method Fetched(w: World, d: Dependency, target: Path, rootDir: Path, depsRootDir: Path, fuel: nat) returns (o: Outcome)
    modifies w
    ensures Done(w.Now(), o) == FetchedStep(w.env, old(w.Now()), d, target, rootDir, depsRootDir, fuel)
    decreases fuel, 3
  {
    o := Fetch(w, d.info.location, rootDir, target);
    if o.Pass? {
      o := ReadManifest(w, d, target, rootDir, depsRootDir, fuel);
    }
  }

  /** The rest of `Update` once the files are in `target`: its manifest, if any, is read. */
  method ReadManifest(w: World, d: Dependency, target: Path, rootDir: Path, depsRootDir: Path, fuel: nat) returns (o: Outcome)
    modifies w
    ensures Done(w.Now(), o) == ManifestStep(w.env, old(w.Now()), d, target, rootDir, depsRootDir, fuel)
    decreases fuel, 2
  {
    var dep := d.(dirPath := target);
    if ManifestPath(w.env.cwd, ManifestText(target)) in w.fs {
      var project := ReadProjectFromFile(w, ManifestText(target), false);
      if project.Err? {
        return Fail(project.error);
      }
      dep := d.(project := Some(project.value), dirPath := target);
    }
    o := UpdateTransitive(w, dep, rootDir, depsRootDir, fuel);
  }

  /** `updateTransitive`, followed by the refactoring that ends `Update`. */
  method UpdateTransitive(w: World, d: Dependency, rootDir: Path, depsRootDir: Path, fuel: nat) returns (o: Outcome)
    modifies w
    ensures Done(w.Now(), o) == TransitiveStep(w.env, old(w.Now()), d, rootDir, depsRootDir, fuel)
    decreases fuel, 1
  {
    if d.project.Some? {
      var deps := d.project.value.dependencies;
      var keys := w.env.order(deps.Keys);
      ghost var st := w.Now();
      for i := 0 to |keys|
        invariant Done(w.Now(), Pass) == UpdateChildren(w.env, st, d, keys[..i], rootDir, depsRootDir, fuel)
      {
        UpdateChildrenSnoc(w.env, st, d, keys, rootDir, depsRootDir, fuel, i);
        o := UpdateChild(w, d, deps[keys[i]], rootDir, depsRootDir, fuel);
        if o.Fail? {
          UpdateChildrenFailed(w.env, st, d, keys, rootDir, depsRootDir, fuel, i + 1);
          return Fail(TransitiveFailed(d.info.namespace, o.error));
        }
      }
      assert keys[..|keys|] == keys;
    }
    o := Refactor(w, d);
  }

  /** One turn of the loop of `updateTransitive`. */
  method UpdateChild(w: World, parent: Dependency, decl: Declared, rootDir: Path, depsRootDir: Path, fuel: nat) returns (o: Outcome)
    modifies w
    ensures Done(w.Now(), o) == ChildStep(w.env, old(w.Now()), parent, decl, rootDir, depsRootDir, fuel)
    decreases fuel, 0, 0
  {
    if fuel == 0 {
      o := Fail(DepthExhausted);
    } else {
      var f := fuel - 1;
      ChildStepUpdates(w.env, w.Now(), parent, decl, rootDir, depsRootDir, fuel, f);
      o := Update(w, Child(parent, decl), rootDir, depsRootDir, f);
    }
  }

  /** `Dependency.Load`. */
  method Load(w: World, d: Dependency, rootDir: Path, targetDir: Path, fuel: nat) returns (r: Result<Tree>)
    modifies w
    ensures Got(w.Now(), r) == LoadStep(w.env, old(w.Now()), d, rootDir, targetDir, fuel)
    decreases fuel, 2
  {
    var target := Dir(w.env, targetDir, d);
    var dep := d.(dirPath := target);
    if ManifestPath(w.env.cwd, ManifestText(target)) in w.fs {
      var project := ReadProjectFromFile(w, ManifestText(target), false);
      if project.Err? {
        return Err(project.error);
      }
      dep := dep.(project := Some(project.value));
    }
    r := LoadTransitive(w, dep, rootDir, target, fuel);
  }

  /** `loadTransitive`. */
  method LoadTransitive(w: World, d: Dependency, rootDir: Path, targetDir: Path, fuel: nat) returns (r: Result<Tree>)
    modifies w
    ensures Got(w.Now(), r) == LoadTransitiveStep(w.env, old(w.Now()), d, rootDir, targetDir, fuel)
    decreases fuel, 1
  {
    if d.project.None? {
      return Ok(Tree(d, map[]));
    }
    var deps := d.project.value.dependencies;
    var keys := w.env.order(deps.Keys);
    ghost var st := w.Now();
    var children := map[];
    for i := 0 to |keys|
      invariant Got(w.Now(), Ok(children)) == LoadChildren(w.env, st, d, keys[..i], rootDir, targetDir, fuel)
    {
      LoadChildrenSnoc(w.env, st, d, keys, rootDir, targetDir, fuel, i);
      var loaded := LoadChild(w, d, deps[keys[i]], rootDir, targetDir, fuel);
      if loaded.Err? {
        LoadChildrenFailed(w.env, st, d, keys, rootDir, targetDir, fuel, i + 1);
        return Err(TransitiveFailed(d.info.namespace, loaded.error));
      }
      children := children[keys[i] := loaded.value];
    }
    assert keys[..|keys|] == keys;
    r := Ok(Tree(d, children));
  }

  /** One turn of the loop of `loadTransitive`. */
  method LoadChild(w: World, parent: Dependency, decl: Declared, rootDir: Path, targetDir: Path, fuel: nat) returns (r: Result<Tree>)
    modifies w
    ensures Got(w.Now(), r) == LoadChildStep(w.env, old(w.Now()), parent, decl, rootDir, targetDir, fuel)
    decreases fuel, 0, 0
  {
    if fuel == 0 {
      r := Err(DepthExhausted);
    } else {
      var f := fuel - 1;
      LoadChildStepLoads(w.env, w.Now(), parent, decl, rootDir, targetDir, fuel, f);
      r := Load(w, FromDeclared(decl), rootDir, targetDir, f);
      if r.Ok? {
        r := Ok(Tree(r.value.dep.(parent := Some(parent)), r.value.children));
      }
    }
  }
}
