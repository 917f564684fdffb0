/** The `opa.project` manifest of `proj/project.go`: the shorthand forms of
    a dependency entry, decoded from and encoded to YAML values, the project
    file path convention, and reading a manifest from the file system. */
module Manifests {
  import opened Paths
  import opened Outcomes
  import opened Files
  import opened Worlds
  import opened Yaml
  import Strings

  /** Where a dependency comes from and the namespace its packages move to;
      the empty namespace leaves them where they are. */
  datatype DependencyInfo = DependencyInfo(location: string, namespace: string)

  /** A dependency as a manifest declares it: its info and its key. */
  datatype Declared = Declared(info: DependencyInfo, name: string)

  // ----- Decoding one entry -----

  /** The namespace of the map form of an entry: the key when `namespace`
      is absent, null or `true`; none for `false`; a string as given. */
  function NamespaceOf(key: string, entry: map<string, Value>): Result<string> {
    if "namespace" !in entry || entry["namespace"].Null? then Ok(key)
    else match entry["namespace"]
      case Bool(b) => Ok(if b then key else "")
      case Str(s) => Ok(s)
      case _ => Err(InvalidNamespaceType)
  }

  /** One entry of the `dependencies` mapping under `key`: a bare string is
      the location, with the key as namespace; a mapping has a `location`
      and maybe a `namespace`; any other value leaves the info empty. A
      mapping whose `location` is missing or not a string stops the program
      in Go (a failed type assertion); here it is the error `LocationNotString`. */
  function DecodeEntry(key: string, v: Value): Result<DependencyInfo> {
    if v.Str? then Ok(DependencyInfo(v.s, key))
    else if v.Mapping? then
      var entry := v.entries;
      var ns := NamespaceOf(key, entry);
      if ns.Err? then Err(ns.error)
      else if "location" in entry && entry["location"].Str? then Ok(DependencyInfo(entry["location"].s, ns.value))
      else Err(LocationNotString)
    else Ok(DependencyInfo("", ""))
  }

  /** The documented forms of an entry, each in its own terms. */
  lemma DecodeForms(key: string, v: Value)
    ensures v.Str? ==> DecodeEntry(key, v) == Ok(DependencyInfo(v.s, key))
    ensures v.Mapping? && "location" in v.entries && v.entries["location"].Str? ==>
      var loc := v.entries["location"].s;
      ("namespace" !in v.entries ==> DecodeEntry(key, v) == Ok(DependencyInfo(loc, key))) &&
      (("namespace" in v.entries && v.entries["namespace"] == Bool(true)) ==> DecodeEntry(key, v) == Ok(DependencyInfo(loc, key))) &&
      (("namespace" in v.entries && v.entries["namespace"] == Bool(false)) ==> DecodeEntry(key, v) == Ok(DependencyInfo(loc, ""))) &&
      (("namespace" in v.entries && v.entries["namespace"].Str?) ==> DecodeEntry(key, v) == Ok(DependencyInfo(loc, v.entries["namespace"].s)))
    ensures v.Mapping? && "namespace" in v.entries && (v.entries["namespace"].Int? || v.entries["namespace"].List? || v.entries["namespace"].Mapping?) ==>
      DecodeEntry(key, v) == Err(InvalidNamespaceType)
  {
  }

  // ----- Decoding the mapping -----

  /** The Go loop over the entries of the mapping, visiting `keys` in turn:
      decoded entries are added under their key and the first failure ends
      the loop with its error. */
  function DecodeKeys(entries: map<string, Value>, keys: seq<string>): (r: Result<map<string, Declared>>)
    requires forall k :: k in keys ==> k in entries
    decreases |keys|
  {
    if keys == [] then Ok(map[])
    else
      var last := keys[|keys| - 1];
      match DecodeKeys(entries, keys[..|keys| - 1])
      case Err(e) => Err(e)
      case Ok(ds) =>
        match DecodeEntry(last, entries[last])
        case Err(e) => Err(e)
        case Ok(info) => Ok(ds[last := Declared(info, last)])
  }

  /** Once the loop has failed, visiting more keys keeps the failure. */
  lemma {:induction false} DecodeKeysFailed(entries: map<string, Value>, keys: seq<string>, i: nat)
    requires forall k :: k in keys ==> k in entries
    requires i <= |keys|
    ensures DecodeKeys(entries, keys[..i]).Err? ==> DecodeKeys(entries, keys) == DecodeKeys(entries, keys[..i])
    decreases |keys| - i
  {
    if i < |keys| {
      var init := keys[..|keys| - 1];
      assert init[..i] == keys[..i];
      DecodeKeysFailed(entries, init, i);
    } else {
      assert keys[..i] == keys;
    }
  }

  /** The decoded map, independent of the visiting order. */
  function Decoded(entries: map<string, Value>, keys: set<string>): map<string, Declared>
    requires forall k :: k in keys ==> k in entries && DecodeEntry(k, entries[k]).Ok?
  {
    map k | k in keys :: Declared(DecodeEntry(k, entries[k]).value, k)
  }

  /** The loop succeeds exactly when every visited entry decodes, and then
      holds each of them under its own key; a failure is the failure of one
      of the entries. */
  lemma {:induction false} DecodeKeysMeaning(entries: map<string, Value>, keys: seq<string>)
    requires forall k :: k in keys ==> k in entries
    ensures DecodeKeys(entries, keys).Ok? <==> forall k :: k in keys ==> DecodeEntry(k, entries[k]).Ok?
    ensures DecodeKeys(entries, keys).Ok? ==> DecodeKeys(entries, keys).value == Decoded(entries, set k | k in keys)
    ensures DecodeKeys(entries, keys).Err? ==>
      exists k :: k in keys && DecodeEntry(k, entries[k]) == Err(DecodeKeys(entries, keys).error)
    decreases |keys|
  {
    if keys != [] {
      var init := keys[..|keys| - 1];
      var last := keys[|keys| - 1];
      assert forall k :: k in keys <==> k in init || k == last;
      DecodeKeysMeaning(entries, init);
      if DecodeKeys(entries, init).Ok? && DecodeEntry(last, entries[last]).Ok? {
        assert (set k | k in keys) == (set k | k in init) + {last};
      }
    }
  }

  /** `Dependencies.UnmarshalYAML`: a null node leaves the dependencies
      empty, a node that is not a mapping is an error, and the entries of a
      mapping are decoded in the order Go visits them. */
  function Unmarshal(order: KeyOrder, v: Value): Result<map<string, Declared>> {
    match v
    case Null => Ok(map[])
    case Mapping(entries) => DecodeKeys(entries, order(entries.Keys))
    case _ => Err(NotAMapping)
  }

  /** Decoding a mapping succeeds exactly when each entry does, whatever the
      visiting order; it then keys each dependency by its own name. */
  lemma UnmarshalMapping(order: KeyOrder, entries: map<string, Value>)
    ensures Unmarshal(order, Mapping(entries)).Ok? <==> forall k :: k in entries ==> DecodeEntry(k, entries[k]).Ok?
    ensures Unmarshal(order, Mapping(entries)).Ok? ==>
      var ds := Unmarshal(order, Mapping(entries)).value;
      ds.Keys == entries.Keys && forall k :: k in ds ==> ds[k].name == k && DecodeEntry(k, entries[k]) == Ok(ds[k].info)
    ensures Unmarshal(order, Mapping(entries)).Err? ==>
      exists k :: k in entries && DecodeEntry(k, entries[k]) == Err(Unmarshal(order, Mapping(entries)).error)
  {
    var keys := order(entries.Keys);
    DecodeKeysMeaning(entries, keys);
    assert (set k | k in keys) == entries.Keys;
  }

  /** `Dependencies.UnmarshalYAML`. */
  method UnmarshalDependencies(env: Env, v: Value) returns (r: Result<map<string, Declared>>)
    ensures r == Unmarshal(env.order, v)
  {
    match v
    case Null => r := Ok(map[]);
    case Mapping(entries) => r := DecodeMapping(env.order, entries);
    case _ => r := Err(NotAMapping);
  }

  /** The loop of `Dependencies.UnmarshalYAML` over the entries of a mapping. */
  method DecodeMapping(order: KeyOrder, entries: map<string, Value>) returns (r: Result<map<string, Declared>>)
    ensures r == DecodeKeys(entries, order(entries.Keys))
  {
    var keys := order(entries.Keys);
    var ds := map[];
    for i := 0 to |keys|
      invariant DecodeKeys(entries, keys[..i]) == Ok(ds)
    {
      var k := keys[i];
      var info := DecodeEntry(k, entries[k]);
      DecodeKeysSnoc(entries, keys, i);
      if info.Err? {
        DecodeKeysFailed(entries, keys, i + 1);
        return Err(info.error);
      }
      ds := ds[k := Declared(info.value, k)];
    }
    assert keys[..|keys|] == keys;
    r := Ok(ds);
  }

  /** One more key of the loop, once the keys before it have decoded. */
  lemma DecodeKeysSnoc(entries: map<string, Value>, keys: seq<string>, i: nat)
    requires forall k :: k in keys ==> k in entries
    requires i < |keys| && DecodeKeys(entries, keys[..i]).Ok?
    ensures DecodeKeys(entries, keys[..i + 1]) ==
      match DecodeEntry(keys[i], entries[keys[i]])
      case Err(e) => Err(e)
      case Ok(info) => Ok(DecodeKeys(entries, keys[..i]).value[keys[i] := Declared(info, keys[i])])
  {
    assert keys[..i + 1][..i] == keys[..i];
  }

  // ----- Encoding -----

  /** `Dependency.MarshalYAML`: the bare location when the namespace is the
      name, `namespace: false` when there is none, both fields otherwise.
      Decoding the result under the dependency's name gives its info back. */
  function MarshalDependency(d: Declared): (v: Value)
    ensures DecodeEntry(d.name, v) == Ok(d.info)
    ensures v.Str? <==> d.info.namespace == d.name
  {
    if d.info.namespace == d.name then Str(d.info.location)
    else if d.info.namespace == "" then Mapping(map["namespace" := Bool(false), "location" := Str(d.info.location)])
    else Mapping(map["namespace" := Str(d.info.namespace), "location" := Str(d.info.location)])
  }

  /** Encoding a set of dependencies entry by entry under their names and
      decoding the mapping gives them back. */
  lemma RoundTrip(order: KeyOrder, ds: map<string, Declared>)
    requires forall k :: k in ds ==> ds[k].name == k
    ensures Unmarshal(order, Mapping(map k | k in ds :: MarshalDependency(ds[k]))) == Ok(ds)
  {
    var entries := map k | k in ds :: MarshalDependency(ds[k]);
    forall k | k in entries
      ensures DecodeEntry(k, entries[k]) == Ok(ds[k].info)
    {
      assert entries[k] == MarshalDependency(ds[k]);
    }
    DecodesTo(order, entries, ds);
  }

  /** A mapping whose every entry decodes to the info of `ds` under the same
      key decodes to `ds`. */
  lemma DecodesTo(order: KeyOrder, entries: map<string, Value>, ds: map<string, Declared>)
    requires entries.Keys == ds.Keys
    requires forall k :: k in ds ==> ds[k].name == k && DecodeEntry(k, entries[k]) == Ok(ds[k].info)
    ensures Unmarshal(order, Mapping(entries)) == Ok(ds)
  {
    UnmarshalMapping(order, entries);
    assert forall k :: k in entries ==> DecodeEntry(k, entries[k]).Ok?;
    var u := Unmarshal(order, Mapping(entries));
    assert u.Ok?;
    var r := u.value;
    forall k | k in ds
      ensures r[k] == ds[k]
    {
      assert DecodeEntry(k, entries[k]) == Ok(r[k].info);
    }
    assert r == ds;
  }

  // ----- Project files -----

  /** A decoded manifest, and the normalized `opa.project` path it was read
      from (`filePath`). */
  datatype Project = Project(
    name: string,
    version: string,
    source: string,
    sourceDirs: seq<string>,
    testDirs: seq<string>,
    dependencies: map<string, Declared>,
    build: BuildSection,
    filePath: Path)

  /** `NewProject`: no fields, no dependencies. */
  function NewProject(filePath: Path): (p: Project)
    ensures p.dependencies == map[] && p.sourceDirs == [] && p.testDirs == [] && p.source == ""
    ensures p.filePath == filePath
  {
    Project("", "", "", [], [], map[], BuildSection("", "", []), filePath)
  }

  /** `normalizeProjectPath`: a path to a manifest, given the manifest or its
      directory. It always names a file called `opa.project`, adds nothing
      to a path that already does, and adds no second `/`. */
  function NormalizeProjectPath(path: string): (r: string)
    ensures Strings.HasSuffix(r, "opa.project")
    ensures Strings.HasPrefix(r, path)
    ensures Strings.HasSuffix(path, "opa.project") ==> r == path
    ensures !Strings.HasSuffix(path, "opa.project") ==>
      r == path + (if |path| >= 1 && path[|path| - 1] == '/' then "" else "/") + "opa.project"
  {
    var l := |path|;
    if l >= 11 && path[l - 11..] == "opa.project" then path
    else if l >= 1 && path[l - 1] == '/' then
      assert (path + "opa.project")[..l] == path;
      path + "opa.project"
    else
      assert (path + "/" + "opa.project")[..l] == path;
      path + "/" + "opa.project"
  }

  /** Normalizing twice is normalizing once. */
  lemma NormalizeProjectPathIdempotent(path: string)
    ensures NormalizeProjectPath(NormalizeProjectPath(path)) == NormalizeProjectPath(path)
  {
  }

  /** A directory's manifest is the file `opa.project` in it. */
  lemma ProjectFileOfDir(cwd: Path, dir: Path)
    requires IsClean(dir) && dir != []
    requires !Strings.HasSuffix(ToString(dir), "opa.project")
    ensures ManifestPath(cwd, ToString(dir)) == dir + ["opa.project"]
  {
    LastOfToString(dir);
    LocateChild(cwd, dir, "opa.project");
  }

  /** The text of a non-empty clean path does not end with `/`. */
  lemma LastOfToString(p: Path)
    requires IsClean(p) && p != []
    ensures ToString(p)[|ToString(p)| - 1] != '/'
  {
    var last := p[|p| - 1];
    assert last in p;
    assert IsComponent(last);
    var s := ToString(p);
    if |p| == 1 {
      assert s == "/" + last;
    } else {
      Strings.JoinSnoc(p, "/");
      assert s == "/" + Strings.Join(p[..|p| - 1], "/") + "/" + last;
    }
    assert s[|s| - 1] == last[|last| - 1];
    assert last[|last| - 1] in last;
  }

  /** The manifest a path names, after normalizing it. */
  function ManifestPath(cwd: Path, path: string): Path {
    var s := NormalizeProjectPath(path);
    assert s != "";
    Locate(cwd, s).value
  }

  /** A manifest decoded after parsing; the dependency entries are checked
      as the YAML decoder calls `Dependencies.UnmarshalYAML`. */
  function DecodeProject(order: KeyOrder, file: ProjectFile, filePath: Path): Result<Project> {
    match Unmarshal(order, if file.dependencies.Some? then file.dependencies.value else Null)
    case Err(e) => Err(e)
    case Ok(ds) => Ok(Project(file.name, file.version, file.source, file.sourceDirs, file.testDirs, ds, file.build, filePath))
  }

  /** `ReadProjectFromFile(path, allowMissing)`, from state `st`: the path
      is normalized; a missing manifest is an empty project when
      `allowMissing` and an error otherwise; the file is read, parsed and
      decoded, each failure being reported against the path. */
  function ReadProjectStep(env: Env, st: State, path: string, allowMissing: bool): (r: Got<Project>)
    ensures var p := ManifestPath(env.cwd, path);
      (p !in st.fs ==> r.st == st && r.result == (if allowMissing then Ok(NewProject(p)) else Err(ProjectFileMissing(p)))) &&
      (p in st.fs ==> r.st == State(st.fs, st.effects + [ReadFrom(p)])) &&
      (r.result.Ok? && p in st.fs ==> IsFileAt(st.fs, p) && env.parseProject(st.fs[p].data).Ok? && DecodeProject(env.order, env.parseProject(st.fs[p].data).value, p) == Ok(r.result.value)) &&
      (r.result.Ok? ==> r.result.value.filePath == p)
  {
    var p := ManifestPath(env.cwd, path);
    if p !in st.fs then
      Got(st, if allowMissing then Ok(NewProject(p)) else Err(ProjectFileMissing(p)))
    else
      var read := ReadFileStep(st, p);
      match read.result
      case Err(e) => Got(read.st, Err(ProjectFileInvalid(p, e)))
      case Ok(data) =>
        match env.parseProject(data)
        case Err(e) => Got(read.st, Err(ProjectFileInvalid(p, e)))
        case Ok(file) =>
          match DecodeProject(env.order, file, p)
          case Err(e) => Got(read.st, Err(ProjectFileInvalid(p, e)))
          case Ok(project) => Got(read.st, Ok(project))
  }

  /** `ReadProjectFromFile`. */
  method ReadProjectFromFile(w: World, path: string, allowMissing: bool) returns (r: Result<Project>)
    modifies w
    ensures Got(w.Now(), r) == ReadProjectStep(w.env, old(w.Now()), path, allowMissing)
  {
    var p := ManifestPath(w.env.cwd, path);
    if p !in w.fs {
      return if allowMissing then Ok(NewProject(p)) else Err(ProjectFileMissing(p));
    }
    var data := w.ReadFile(p);
    if data.Err? {
      return Err(ProjectFileInvalid(p, data.error));
    }
    var file := w.env.parseProject(data.value);
    if file.Err? {
      return Err(ProjectFileInvalid(p, file.error));
    }
    var deps := UnmarshalDependencies(w.env, if file.value.dependencies.Some? then file.value.dependencies.value else Null);
    if deps.Err? {
      return Err(ProjectFileInvalid(p, deps.error));
    }
    var f := file.value;
    r := Ok(Project(f.name, f.version, f.source, f.sourceDirs, f.testDirs, deps.value, f.build, p));
  }
}
