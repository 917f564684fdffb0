/** The older project layer kept beside the current dependency engine: a
    loaded project holds its dependencies keyed by name, each installed in
    `<manifest dir>/.opa/dependencies/<name>`, and aggregates their data
    locations and a printed tree. */
module LegacyProjects {
  import opened Paths
  import opened Outcomes
  import opened Files
  import opened Worlds
  import M = Manifests
  import Strings
  import Utils

  /** A dependency entry: what the manifest declares, the project found in
      its directory once loaded, and that directory. */
  datatype Dependency = Dependency(info: M.DependencyInfo, name: string, project: Option<Manifest>, dirPath: Path)

  /** A project as a value: the manifest fields this layer uses and its
      dependency entries. */
  datatype Manifest = Manifest(
    name: string,
    version: string,
    sourceDir: string,
    dependencies: map<string, Dependency>,
    filePath: Path)

  /** The directory of a dependency not placed yet; Go leaves it empty. */
  const Unplaced: Path := []

  /** The project a decoded manifest describes, no dependency placed yet. */
  function OfManifest(p: M.Project): (m: Manifest)
    ensures m.dependencies.Keys == p.dependencies.Keys
    ensures forall k :: k in m.dependencies ==> m.dependencies[k].project.None?
    ensures m.filePath == p.filePath
  {
    Manifest(p.name, p.version, p.source,
      map k | k in p.dependencies :: Dependency(p.dependencies[k].info, p.dependencies[k].name, None, Unplaced),
      p.filePath)
  }

  /** `filepath.Dir` of a manifest path: the directory holding it. */
  function ProjectDir(filePath: Path): Path {
    if filePath == [] then [] else filePath[..|filePath| - 1]
  }

  /** `dependenciesDir`: the directory `.opa/dependencies` below `root`. */
  function DependenciesDir(root: Path): Path {
    root + [".opa", "dependencies"]
  }

  /** `dependenciesDir` is `filepath.Join(root, ".opa", "dependencies")`. */
  lemma DependenciesDirJoin(root: Path)
    ensures DependenciesDir(root) == Join(Join(root, ".opa"), "dependencies")
    ensures IsClean(root) ==> IsClean(DependenciesDir(root))
  {
    DotOpaComponents();
    JoinComponent(root, ".opa");
    JoinComponent(root + [".opa"], "dependencies");
  }

  lemma DotOpaComponents()
    ensures IsComponent(".opa") && IsComponent("dependencies")
  {
    assert ".opa"[0] == '.' && ".opa"[1] == 'o';
  }

  /** `Dependency.SourceDir`: the declared source directory of the
      dependency's project under its directory, or the directory itself. */
  function SourceDir(d: Dependency): Path {
    if d.project.Some? && d.project.value.sourceDir != "" then Join(d.dirPath, d.project.value.sourceDir)
    else d.dirPath
  }

  // ----- SetDependency -----

  /** The entries after `SetDependency(name, info)`: `name` maps to a fresh
      entry named `name`, every other entry is kept. */
  function WithDependency(deps: map<string, Dependency>, name: string, info: M.DependencyInfo): (r: map<string, Dependency>)
    ensures r.Keys == deps.Keys + {name}
    ensures r[name].info == info && r[name].name == name && r[name].project.None?
    ensures forall k :: k in deps && k != name ==> r[k] == deps[k]
  {
    deps[name := Dependency(info, name, None, Unplaced)]
  }

  // ----- Load -----

  /** The entries as loading left them, and how loading ended. */
  datatype Loaded = Loaded(done: Done, dependencies: map<string, Dependency>)

  /** `Project.Load` on `m`, from state `st`: every entry, in the order the
      map is visited, is placed and loaded; the first failure ends the loop
      and keeps the entries updated before it. */
  function LoadStep(env: Env, st: State, m: Manifest, fuel: nat): (r: Loaded)
    ensures r.dependencies.Keys == m.dependencies.Keys
    decreases fuel, 2
  {
    LoadEntries(env, st, m, DependenciesDir(ProjectDir(m.filePath)), env.order(m.dependencies.Keys), fuel)
  }

  /** The loop of `Project.Load` over the keys `keys`. */
  function LoadEntries(env: Env, st: State, m: Manifest, depRootDir: Path, keys: seq<string>, fuel: nat): (r: Loaded)
    requires forall k :: k in keys ==> k in m.dependencies
    ensures r.dependencies.Keys == m.dependencies.Keys
    decreases fuel, 1, |keys|
  {
    if keys == [] then Loaded(Done(st, Pass), m.dependencies)
    else
      var prev := LoadEntries(env, st, m, depRootDir, keys[..|keys| - 1], fuel);
      if prev.done.outcome.Fail? then prev
      else
        var key := keys[|keys| - 1];
        var entry := LoadEntryStep(env, prev.done.st, m.dependencies[key], depRootDir, key, fuel);
        if entry.done.outcome.Fail? then Loaded(entry.done, prev.dependencies)
        else Loaded(entry.done, prev.dependencies[key := entry.dependency])
  }

  /** Every entry of `a` is in `b` with the same declaration and name. */
  predicate SameDeclarations(a: map<string, Dependency>, b: map<string, Dependency>) {
    forall k :: k in a ==> k in b && b[k].info == a[k].info && b[k].name == a[k].name
  }

  /** Loading changes no declaration: every entry keeps what the manifest
      declares for it and its name. */
  lemma LoadKeepsDeclarations(env: Env, st: State, m: Manifest, fuel: nat)
    ensures SameDeclarations(m.dependencies, LoadStep(env, st, m, fuel).dependencies)
  {
    EntriesKeepDeclarations(env, st, m, DependenciesDir(ProjectDir(m.filePath)), env.order(m.dependencies.Keys), fuel);
  }

  lemma {:induction false} EntriesKeepDeclarations(env: Env, st: State, m: Manifest, depRootDir: Path, keys: seq<string>, fuel: nat)
    requires forall k :: k in keys ==> k in m.dependencies
    ensures SameDeclarations(m.dependencies, LoadEntries(env, st, m, depRootDir, keys, fuel).dependencies)
    decreases |keys|
  {
    if keys != [] {
      var init := keys[..|keys| - 1];
      var key := keys[|keys| - 1];
      assert forall k :: k in init ==> k in keys;
      EntriesKeepDeclarations(env, st, m, depRootDir, init, fuel);
      var prev := LoadEntries(env, st, m, depRootDir, init, fuel);
      if prev.done.outcome.Pass? {
        var entry := LoadEntryStep(env, prev.done.st, m.dependencies[key], depRootDir, key, fuel);
        UpdateKeepsDeclarations(m.dependencies, prev.dependencies, key, entry.dependency);
      }
    }
  }

  lemma UpdateKeepsDeclarations(a: map<string, Dependency>, b: map<string, Dependency>, key: string, e: Dependency)
    requires SameDeclarations(a, b) && key in a
    requires e.info == a[key].info && e.name == a[key].name
    ensures SameDeclarations(a, b[key := e])
  {
  }

  /** One entry loaded, and how that ended. */
  datatype Entry = Entry(done: Done, dependency: Dependency)

  /** The manifest text of a dependency directory: `normalizeProjectPath`
      of it. */
  function ManifestText(dir: Path): string {
    M.NormalizeProjectPath(ToString(dir))
  }

  /** One turn of that loop: the entry `name` is placed in
      `<depRootDir>/<name>`; if an `opa.project` is there it is read (a
      missing one counting as empty) and loaded in turn. */
  function LoadEntryStep(env: Env, st: State, dep: Dependency, depRootDir: Path, name: string, fuel: nat): (r: Entry)
    ensures r.dependency.info == dep.info && r.dependency.name == dep.name
    ensures r.dependency.dirPath == Join(depRootDir, name)
    decreases fuel, 0, 2
  {
    var placed := dep.(dirPath := Join(depRootDir, name));
    if M.ManifestPath(env.cwd, ManifestText(placed.dirPath)) !in st.fs then Entry(Done(st, Pass), placed)
    else ReadEntryStep(env, st, placed, fuel)
  }

  /** The rest of that turn once the manifest of the placed entry exists:
      it is read. */
  function ReadEntryStep(env: Env, st: State, placed: Dependency, fuel: nat): (r: Entry)
    ensures r.dependency.(project := placed.project) == placed
    decreases fuel, 0, 1
  {
    EntryReadStep(env, M.ReadProjectStep(env, st, ManifestText(placed.dirPath), true), placed, fuel)
  }

  /** The rest of that turn once the manifest has been read, giving `read`:
      the project it holds is loaded in turn. */
  function EntryReadStep(env: Env, read: Got<M.Project>, placed: Dependency, fuel: nat): (r: Entry)
    ensures r.dependency.(project := placed.project) == placed
    ensures r.done.outcome.Fail? ==> r.dependency == placed
    decreases fuel, 0, 0
  {
    match read.result
    case Err(e) => Entry(Done(read.st, Fail(DependencyReadFailed(e))), placed)
    case Ok(p) =>
      if fuel == 0 then Entry(Done(read.st, Fail(DepthExhausted)), placed)
      else
        var child := OfManifest(p);
        var loaded := LoadStep(env, read.st, child, fuel - 1);
        if loaded.done.outcome.Fail? then Entry(Done(loaded.done.st, Fail(DependencyLoadFailed(loaded.done.outcome.error))), placed)
        else Entry(loaded.done, placed.(project := Some(child.(dependencies := loaded.dependencies))))
  }

  /** Where a load puts things, below the project `m`: every entry `k` in
      `<dir of m>/.opa/dependencies/<k>`, and every project found read from
      the manifest of that directory and placed the same way. */
  ghost predicate Placed(cwd: Path, m: Manifest)
    decreases m, 1
  {
    forall k :: k in m.dependencies ==> PlacedEntry(cwd, DependenciesDir(ProjectDir(m.filePath)), k, m.dependencies[k])
  }

  /** The entry `k`, placed below `depRootDir`: in its own directory there,
      and its project, if any, read from that directory and placed. */
  ghost predicate PlacedEntry(cwd: Path, depRootDir: Path, k: string, d: Dependency)
    decreases d, 0
  {
    d.dirPath == Join(depRootDir, k) &&
    (d.project.Some? ==> d.project.value.filePath == M.ManifestPath(cwd, ManifestText(d.dirPath)) && Placed(cwd, d.project.value))
  }

  /** No entry of `m` has a project yet, as after reading its manifest. */
  predicate Fresh(m: Manifest) {
    forall k :: k in m.dependencies ==> m.dependencies[k].project.None?
  }

  /** A load that passes leaves the whole tree placed. */
  lemma {:induction false} LoadPlaced(env: Env, st: State, m: Manifest, fuel: nat)
    requires Fresh(m)
    ensures LoadStep(env, st, m, fuel).done.outcome.Pass? ==>
      Placed(env.cwd, m.(dependencies := LoadStep(env, st, m, fuel).dependencies))
    decreases fuel, 2
  {
    var keys := env.order(m.dependencies.Keys);
    EntriesPlaced(env, st, m, DependenciesDir(ProjectDir(m.filePath)), keys, fuel);
  }

  lemma {:induction false} EntriesPlaced(env: Env, st: State, m: Manifest, depRootDir: Path, keys: seq<string>, fuel: nat)
    requires Fresh(m)
    requires forall k :: k in keys ==> k in m.dependencies
    ensures LoadEntries(env, st, m, depRootDir, keys, fuel).done.outcome.Pass? ==>
      forall k :: k in keys ==> PlacedEntry(env.cwd, depRootDir, k, LoadEntries(env, st, m, depRootDir, keys, fuel).dependencies[k])
    decreases fuel, 1, |keys|
  {
    if keys != [] {
      var init := keys[..|keys| - 1];
      var key := keys[|keys| - 1];
      assert forall k :: k in init ==> k in keys;
      EntriesPlaced(env, st, m, depRootDir, init, fuel);
      var prev := LoadEntries(env, st, m, depRootDir, init, fuel);
      if prev.done.outcome.Pass? {
        var entry := LoadEntryStep(env, prev.done.st, m.dependencies[key], depRootDir, key, fuel);
        EntryPlaced(env, prev.done.st, m.dependencies[key], depRootDir, key, fuel);
        if entry.done.outcome.Pass? {
          PlacedSnoc(env.cwd, depRootDir, keys, prev.dependencies, entry.dependency);
        }
      }
    }
  }

  /** Placing the last key keeps the keys before it placed. */
  lemma PlacedSnoc(cwd: Path, depRootDir: Path, keys: seq<string>, deps: map<string, Dependency>, e: Dependency)
    requires |keys| >= 1
    requires forall k :: k in keys[..|keys| - 1] ==> k in deps && PlacedEntry(cwd, depRootDir, k, deps[k])
    requires PlacedEntry(cwd, depRootDir, keys[|keys| - 1], e)
    ensures var r := deps[keys[|keys| - 1] := e];
      forall k :: k in keys ==> k in r && PlacedEntry(cwd, depRootDir, k, r[k])
  {
    var init := keys[..|keys| - 1];
    forall k | k in keys && k != keys[|keys| - 1]
      ensures k in init
    {
      var j :| 0 <= j < |keys| && keys[j] == k;
      assert init[j] == k;
    }
  }

  /** An entry that loads is placed; it has a project exactly when its
      directory holds a manifest, and without one nothing is done. */
  lemma {:induction false} EntryPlaced(env: Env, st: State, dep: Dependency, depRootDir: Path, name: string, fuel: nat)
    requires dep.project.None?
    ensures var r := LoadEntryStep(env, st, dep, depRootDir, name, fuel);
      r.done.outcome.Pass? ==> PlacedEntry(env.cwd, depRootDir, name, r.dependency)
    ensures var r := LoadEntryStep(env, st, dep, depRootDir, name, fuel);
      r.done.outcome.Pass? ==>
        (r.dependency.project.Some? <==> M.ManifestPath(env.cwd, ManifestText(Join(depRootDir, name))) in st.fs)
    ensures M.ManifestPath(env.cwd, ManifestText(Join(depRootDir, name))) !in st.fs ==>
      LoadEntryStep(env, st, dep, depRootDir, name, fuel).done == Done(st, Pass)
    decreases fuel, 0, 2
  {
    var placed := dep.(dirPath := Join(depRootDir, name));
    if M.ManifestPath(env.cwd, ManifestText(placed.dirPath)) in st.fs {
      ReadEntryPlaced(env, st, placed, fuel);
    }
  }

  lemma {:induction false} ReadEntryPlaced(env: Env, st: State, placed: Dependency, fuel: nat)
    requires placed.project.None?
    ensures var r := ReadEntryStep(env, st, placed, fuel);
      r.done.outcome.Pass? ==>
        r.dependency.project.Some? &&
        r.dependency.project.value.filePath == M.ManifestPath(env.cwd, ManifestText(placed.dirPath)) &&
        Placed(env.cwd, r.dependency.project.value)
    decreases fuel, 0, 1
  {
    var read := M.ReadProjectStep(env, st, ManifestText(placed.dirPath), true);
    EntryReadPlaced(env, read, placed, M.ManifestPath(env.cwd, ManifestText(placed.dirPath)), fuel);
  }

  lemma {:induction false} EntryReadPlaced(env: Env, read: Got<M.Project>, placed: Dependency, file: Path, fuel: nat)
    requires placed.project.None?
    requires read.result.Ok? ==> read.result.value.filePath == file
    ensures var r := EntryReadStep(env, read, placed, fuel);
      r.done.outcome.Pass? ==>
        r.dependency.project.Some? && r.dependency.project.value.filePath == file &&
        Placed(env.cwd, r.dependency.project.value)
    decreases fuel, 0, 0
  {
    if read.result.Ok? && fuel > 0 {
      var f := fuel - 1;
      var child := OfManifest(read.result.value);
      LoadPlaced(env, read.st, child, f);
      EntryReadLoads(env, read, placed, fuel, f);
    }
  }

  /** A read manifest, with fuel left, is loaded and becomes the entry's
      project when that load passes. */
  lemma EntryReadLoads(env: Env, read: Got<M.Project>, placed: Dependency, fuel: nat, f: nat)
    requires read.result.Ok? && fuel == f + 1
    ensures var child := OfManifest(read.result.value);
      var loaded := LoadStep(env, read.st, child, f);
      EntryReadStep(env, read, placed, fuel) ==
        if loaded.done.outcome.Fail? then Entry(Done(loaded.done.st, Fail(DependencyLoadFailed(loaded.done.outcome.error))), placed)
        else Entry(loaded.done, placed.(project := Some(child.(dependencies := loaded.dependencies))))
  {
  }

  /** A project read from its manifest, whose entries `SetDependency` and
      `Load` replace in place. */
  class Project {
    var name: string
    var version: string
    var sourceDir: string
    var dependencies: map<string, Dependency>
    var filePath: Path

    /** The project `ReadProjectFromFile` returns for the manifest `p`. */
    constructor (p: M.Project)
      ensures Value() == OfManifest(p)
    {
      var m := OfManifest(p);
      name, version, sourceDir, dependencies, filePath := m.name, m.version, m.sourceDir, m.dependencies, m.filePath;
    }

    function Value(): Manifest
      reads this
    {
      Manifest(name, version, sourceDir, dependencies, filePath)
    }

    /** `SetDependency`: a Dafny map is never nil, so creating one is not
        needed. */
    method SetDependency(name: string, info: M.DependencyInfo)
      modifies this
      ensures Value() == old(Value()).(dependencies := WithDependency(old(dependencies), name, info))
    {
      dependencies := dependencies[name := Dependency(info, name, None, Unplaced)];
    }

    /** `Project.Load`: the entries are replaced by the loaded ones, also
        those loaded before a failure. */
    method Load(w: World, fuel: nat) returns (o: Outcome)
      modifies this, w
      ensures Loaded(Done(w.Now(), o), dependencies) == LoadStep(w.env, old(w.Now()), old(Value()), fuel)
      ensures Value() == old(Value()).(dependencies := dependencies)
    {
      var deps;
      o, deps := LoadManifest(w, Value(), fuel);
      dependencies := deps;
    }
  }

  /** `Project.Load` on a project value: the entries it produces. */
  method LoadManifest(w: World, m: Manifest, fuel: nat) returns (o: Outcome, deps: map<string, Dependency>)
    modifies w
    ensures Loaded(Done(w.Now(), o), deps) == LoadStep(w.env, old(w.Now()), m, fuel)
    decreases fuel, 2
  {
    var depRootDir := DependenciesDir(ProjectDir(m.filePath));
    var keys := w.env.order(m.dependencies.Keys);
    ghost var st := w.Now();
    deps := m.dependencies;
    o := Pass;
    for i := 0 to |keys|
      invariant o == Pass
      invariant Loaded(Done(w.Now(), Pass), deps) == LoadEntries(w.env, st, m, depRootDir, keys[..i], fuel)
    {
      o, deps := LoadTurn(w, m, depRootDir, keys, i, fuel, st, deps);
      if o.Fail? {
        EntriesFailed(w.env, st, m, depRootDir, keys, fuel, i + 1);
        return;
      }
    }
    assert keys[..|keys|] == keys;
  }

  /** One turn of the loop of `Project.Load`, the entries before it having
      been loaded into `deps`. */
  method LoadTurn(w: World, m: Manifest, depRootDir: Path, keys: seq<string>, i: nat, fuel: nat,
                  ghost st: State, deps: map<string, Dependency>) returns (o: Outcome, next: map<string, Dependency>)
    requires forall k :: k in keys ==> k in m.dependencies
    requires i < |keys|
    requires Loaded(Done(w.Now(), Pass), deps) == LoadEntries(w.env, st, m, depRootDir, keys[..i], fuel)
    modifies w
    ensures Loaded(Done(w.Now(), o), next) == LoadEntries(w.env, st, m, depRootDir, keys[..i + 1], fuel)
    decreases fuel, 1
  {
    ghost var prev := Loaded(Done(w.Now(), Pass), deps);
    var dep;
    o, dep := LoadEntry(w, m.dependencies[keys[i]], depRootDir, keys[i], fuel);
    EntriesSnoc(w.env, st, m, depRootDir, keys, fuel, i, prev, Entry(Done(w.Now(), o), dep));
    next := if o.Fail? then deps else deps[keys[i] := dep];
  }

  /** One more key of the load loop, once the keys before it have passed. */
  lemma EntriesSnoc(env: Env, st: State, m: Manifest, depRootDir: Path, keys: seq<string>, fuel: nat, i: nat,
                    prev: Loaded, entry: Entry)
    requires forall k :: k in keys ==> k in m.dependencies
    requires i < |keys|
    requires prev == LoadEntries(env, st, m, depRootDir, keys[..i], fuel) && prev.done.outcome.Pass?
    requires entry == LoadEntryStep(env, prev.done.st, m.dependencies[keys[i]], depRootDir, keys[i], fuel)
    ensures LoadEntries(env, st, m, depRootDir, keys[..i + 1], fuel) ==
      if entry.done.outcome.Fail? then Loaded(entry.done, prev.dependencies)
      else Loaded(entry.done, prev.dependencies[keys[i] := entry.dependency])
  {
    assert keys[..i + 1][..i] == keys[..i];
  }

  /** Once the load loop has failed, visiting more keys keeps the failure. */
  lemma {:induction false} EntriesFailed(env: Env, st: State, m: Manifest, depRootDir: Path, keys: seq<string>, fuel: nat, i: nat)
    requires forall k :: k in keys ==> k in m.dependencies
    requires i <= |keys|
    ensures LoadEntries(env, st, m, depRootDir, keys[..i], fuel).done.outcome.Fail? ==>
      LoadEntries(env, st, m, depRootDir, keys, fuel) == LoadEntries(env, st, m, depRootDir, keys[..i], fuel)
    decreases |keys| - i
  {
    if i < |keys| {
      var init := keys[..|keys| - 1];
      assert init[..i] == keys[..i];
      EntriesFailed(env, st, m, depRootDir, init, fuel, i);
    } else {
      assert keys[..i] == keys;
    }
  }

  /** One turn of the loop of `Project.Load`. */
  method LoadEntry(w: World, dep: Dependency, depRootDir: Path, name: string, fuel: nat) returns (o: Outcome, d: Dependency)
    modifies w
    ensures Entry(Done(w.Now(), o), d) == LoadEntryStep(w.env, old(w.Now()), dep, depRootDir, name, fuel)
    decreases fuel, 0, 2
  {
    d := dep.(dirPath := Join(depRootDir, name));
    if M.ManifestPath(w.env.cwd, ManifestText(d.dirPath)) !in w.fs {
      return Pass, d;
    }
    o, d := ReadEntry(w, d, fuel);
  }

  /** The rest of that turn once the manifest of the placed entry exists:
      it is read. */
  method ReadEntry(w: World, placed: Dependency, fuel: nat) returns (o: Outcome, d: Dependency)
    modifies w
    ensures Entry(Done(w.Now(), o), d) == ReadEntryStep(w.env, old(w.Now()), placed, fuel)
    decreases fuel, 0, 1
  {
    var read := M.ReadProjectFromFile(w, ManifestText(placed.dirPath), true);
    o, d := EntryRead(w, read, placed, fuel);
  }

  /** The rest of that turn once the manifest has been read, giving `read`. */
  method EntryRead(w: World, read: Result<M.Project>, placed: Dependency, fuel: nat) returns (o: Outcome, d: Dependency)
    modifies w
    ensures Entry(Done(w.Now(), o), d) == EntryReadStep(w.env, Got(old(w.Now()), read), placed, fuel)
    decreases fuel, 0, 0
  {
    d := placed;
    if read.Err? {
      return Fail(DependencyReadFailed(read.error)), d;
    }
    if fuel == 0 {
      return Fail(DepthExhausted), d;
    }
    var child := OfManifest(read.value);
    var f := fuel - 1;
    EntryReadLoads(w.env, Got(w.Now(), read), placed, fuel, f);
    var deps;
    o, deps := LoadManifest(w, child, f);
    if o.Fail? {
      return Fail(DependencyLoadFailed(o.error)), d;
    }
    d := d.(project := Some(child.(dependencies := deps)));
  }

  // ----- DataLocations -----

  /** The data location of the project itself: its source directory under
      the manifest directory, or that directory. */
  function OwnLocation(m: Manifest): Path {
    if m.sourceDir != "" then Join(ProjectDir(m.filePath), Utils.NormalizeFilePath(m.sourceDir))
    else ProjectDir(m.filePath)
  }

  /** `DataLocations` with the dependencies visited in `order`. */
  function Locations(order: KeyOrder, m: Manifest): (r: seq<Path>)
    ensures |r| >= 1 && r[0] == OwnLocation(m)
    decreases m, 1
  {
    [OwnLocation(m)] + EntryLocations(order, m, order(m.dependencies.Keys))
  }

  /** The part of `DataLocations` the entries `keys` contribute. */
  function EntryLocations(order: KeyOrder, m: Manifest, keys: seq<string>): seq<Path>
    requires forall k :: k in keys ==> k in m.dependencies
    decreases m, 0, |keys|
  {
    if keys == [] then []
    else EntryLocations(order, m, keys[..|keys| - 1]) + DependencyLocations(order, m.dependencies[keys[|keys| - 1]])
  }

  /** What one entry contributes: the locations of its project, or else its
      source directory. */
  function DependencyLocations(order: KeyOrder, d: Dependency): seq<Path>
    decreases d, 0
  {
    if d.project.Some? then Locations(order, d.project.value) else [SourceDir(d)]
  }

  /** The data locations as a set, with no visiting order: the project's
      own, and for each entry those of its project or else its directory. */
  ghost function LocationSet(m: Manifest): set<Path>
    decreases m
  {
    {OwnLocation(m)} +
      set k, p | k in m.dependencies && p in EntrySet(m.dependencies[k]) :: p
  }

  ghost function EntrySet(d: Dependency): set<Path>
    decreases d
  {
    if d.project.Some? then LocationSet(d.project.value) else {SourceDir(d)}
  }

  /** Whatever order the map is visited in, `DataLocations` lists the same
      locations. */
  lemma {:induction false} LocationsAsSet(order: KeyOrder, m: Manifest)
    ensures forall p :: p in Locations(order, m) <==> p in LocationSet(m)
    decreases m, 1
  {
    var keys := order(m.dependencies.Keys);
    EntryLocationsAsSet(order, m, keys);
    assert forall k :: k in m.dependencies <==> k in keys;
  }

  lemma {:induction false} EntryLocationsAsSet(order: KeyOrder, m: Manifest, keys: seq<string>)
    requires forall k :: k in keys ==> k in m.dependencies
    ensures forall p :: p in EntryLocations(order, m, keys) <==> exists k :: k in keys && p in EntrySet(m.dependencies[k])
    decreases m, 0, |keys|
  {
    if keys != [] {
      var init := keys[..|keys| - 1];
      var key := keys[|keys| - 1];
      assert forall k :: k in init ==> k in keys;
      EntryLocationsAsSet(order, m, init);
      DependencyLocationsAsSet(order, m.dependencies[key]);
      assert forall k :: k in keys <==> k in init || k == key;
    }
  }

  lemma DependencyLocationsAsSet(order: KeyOrder, d: Dependency)
    ensures forall p :: p in DependencyLocations(order, d) <==> p in EntrySet(d)
    decreases d, 0
  {
    if d.project.Some? {
      LocationsAsSet(order, d.project.value);
    }
  }

  /** `DataLocations`, appending to a list while recursing. */
  method DataLocations(order: KeyOrder, m: Manifest) returns (r: seq<Path>)
    ensures r == Locations(order, m)
    decreases m, 1
  {
    var keys := order(m.dependencies.Keys);
    var rest := [];
    for i := 0 to |keys|
      invariant rest == EntryLocations(order, m, keys[..i])
    {
      EntryLocationsSnoc(order, m, keys, i);
      var child := DependencyDataLocations(order, m.dependencies[keys[i]]);
      rest := rest + child;
    }
    assert keys[..|keys|] == keys;
    r := [OwnLocation(m)] + rest;
  }

  /** One more key of the loop of `DataLocations`. */
  lemma EntryLocationsSnoc(order: KeyOrder, m: Manifest, keys: seq<string>, i: nat)
    requires forall k :: k in keys ==> k in m.dependencies
    requires i < |keys|
    ensures EntryLocations(order, m, keys[..i + 1]) ==
      EntryLocations(order, m, keys[..i]) + DependencyLocations(order, m.dependencies[keys[i]])
  {
    assert keys[..i + 1][..i] == keys[..i];
  }

  /** One turn of the loop of `DataLocations`. */
  method DependencyDataLocations(order: KeyOrder, d: Dependency) returns (r: seq<Path>)
    ensures r == DependencyLocations(order, d)
    decreases d, 0
  {
    if d.project.Some? {
      r := DataLocations(order, d.project.value);
    } else {
      r := [SourceDir(d)];
    }
  }

  // ----- printTree -----

  function Indent(depth: nat): string {
    Strings.Repeat(' ', 2 * depth)
  }

  /** The text of one node: its name, followed by the project's name in
      parentheses when the project has one. */
  function Label(p: Option<Manifest>, name: string): string {
    if p.Some? && |p.value.name| > 0 then name + " (" + p.value.name + ")" else name
  }

  /** `printTree(name, depth)` on the project `p` (`None` for a nil one),
      with the dependencies visited in `order`: the lines written. */
  function TreeLines(order: KeyOrder, p: Option<Manifest>, name: string, depth: nat): (r: seq<string>)
    ensures |r| >= 1 && r[0] == Indent(depth) + Label(p, name)
    decreases p, 1
  {
    [Indent(depth) + Label(p, name)] +
      (if p.None? then [] else ChildLines(order, p.value, order(p.value.dependencies.Keys), depth + 1))
  }

  function ChildLines(order: KeyOrder, m: Manifest, keys: seq<string>, depth: nat): seq<string>
    requires forall k :: k in keys ==> k in m.dependencies
    decreases m, 0, |keys|
  {
    if keys == [] then []
    else
      var d := m.dependencies[keys[|keys| - 1]];
      ChildLines(order, m, keys[..|keys| - 1], depth) + TreeLines(order, d.project, d.name, depth)
  }

  /** Every line of a subtree is indented at least as deep as its root. */
  lemma {:induction false} TreeLinesIndented(order: KeyOrder, p: Option<Manifest>, name: string, depth: nat)
    ensures forall l :: l in TreeLines(order, p, name, depth) ==> Strings.HasPrefix(l, Indent(depth))
    decreases p, 1
  {
    PrefixOfConcat(Indent(depth), Label(p, name));
    if p.Some? {
      var keys := order(p.value.dependencies.Keys);
      ChildLinesIndented(order, p.value, keys, depth + 1);
      IndentedDeeper(ChildLines(order, p.value, keys, depth + 1), depth);
    }
  }

  lemma PrefixOfConcat(a: string, b: string)
    ensures Strings.HasPrefix(a + b, a)
  {
    assert (a + b)[..|a|] == a;
  }

  /** Lines indented one level deeper are indented at this level too. */
  lemma IndentedDeeper(lines: seq<string>, depth: nat)
    requires forall l :: l in lines ==> Strings.HasPrefix(l, Indent(depth + 1))
    ensures forall l :: l in lines ==> Strings.HasPrefix(l, Indent(depth))
  {
    RepeatPrefix(2 * depth, 2 * (depth + 1));
    forall l | l in lines
      ensures Strings.HasPrefix(l, Indent(depth))
    {
      PrefixOfPrefix(Indent(depth), Indent(depth + 1), l);
    }
  }

  lemma {:induction false} ChildLinesIndented(order: KeyOrder, m: Manifest, keys: seq<string>, depth: nat)
    requires forall k :: k in keys ==> k in m.dependencies
    ensures forall l :: l in ChildLines(order, m, keys, depth) ==> Strings.HasPrefix(l, Indent(depth))
    decreases m, 0, |keys|
  {
    if keys != [] {
      var init := keys[..|keys| - 1];
      var d := m.dependencies[keys[|keys| - 1]];
      assert forall k :: k in init ==> k in keys;
      ChildLinesIndented(order, m, init, depth);
      TreeLinesIndented(order, d.project, d.name, depth);
    }
  }

  /** Every entry of a project has its own line, one level deeper. */
  lemma TreeLinesListChildren(order: KeyOrder, m: Manifest, name: string, depth: nat)
    ensures forall k :: k in m.dependencies ==>
      Indent(depth + 1) + Label(m.dependencies[k].project, m.dependencies[k].name) in TreeLines(order, Some(m), name, depth)
  {
    var keys := order(m.dependencies.Keys);
    ChildLinesListChildren(order, m, keys, depth + 1);
    assert forall k :: k in m.dependencies ==> k in keys;
  }

  lemma {:induction false} ChildLinesListChildren(order: KeyOrder, m: Manifest, keys: seq<string>, depth: nat)
    requires forall k :: k in keys ==> k in m.dependencies
    ensures forall k :: k in keys ==> Indent(depth) + Label(m.dependencies[k].project, m.dependencies[k].name) in ChildLines(order, m, keys, depth)
    decreases |keys|
  {
    if keys != [] {
      var init := keys[..|keys| - 1];
      var last := keys[|keys| - 1];
      var d := m.dependencies[last];
      assert forall k :: k in init ==> k in keys;
      ChildLinesListChildren(order, m, init, depth);
      var a := ChildLines(order, m, init, depth);
      var b := TreeLines(order, d.project, d.name, depth);
      assert b[0] in a + b;
      assert keys == init + [last];
    }
  }

  lemma RepeatPrefix(n: nat, m: nat)
    requires n <= m
    ensures Strings.HasPrefix(Strings.Repeat(' ', m), Strings.Repeat(' ', n))
  {
    var a := Strings.Repeat(' ', m);
    var b := Strings.Repeat(' ', n);
    assert a[..n] == b;
  }

  lemma PrefixOfPrefix(a: string, b: string, s: string)
    requires Strings.HasPrefix(b, a) && Strings.HasPrefix(s, b)
    ensures Strings.HasPrefix(s, a)
  {
    assert s[..|a|] == s[..|b|][..|a|];
  }

  /** `printTree`, writing its lines while recursing. */
  method PrintTree(order: KeyOrder, p: Option<Manifest>, name: string, depth: nat) returns (lines: seq<string>)
    ensures lines == TreeLines(order, p, name, depth)
    decreases p, 1
  {
    if p.None? {
      return [Indent(depth) + Label(p, name)];
    }
    var m := p.value;
    var keys := order(m.dependencies.Keys);
    var rest := [];
    for i := 0 to |keys|
      invariant rest == ChildLines(order, m, keys[..i], depth + 1)
    {
      assert keys[..i + 1][..i] == keys[..i];
      var d := m.dependencies[keys[i]];
      var child := PrintTree(order, d.project, d.name, depth + 1);
      rest := rest + child;
    }
    assert keys[..|keys|] == keys;
    lines := [Indent(depth) + Label(p, name)] + rest;
  }

  /** `PrintTree`: the tree printed from a root labelled `root`. */
  method PrintRoot(order: KeyOrder, m: Manifest) returns (lines: seq<string>)
    ensures lines == TreeLines(order, Some(m), "root", 0)
  {
    lines := PrintTree(order, Some(m), "root", 0);
  }
}
