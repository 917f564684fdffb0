/** `proj/repository.go`: a library repository, fetched into a directory
    named after its location, and the library table it publishes. */
module Repositories {
  import opened Paths
  import opened Outcomes
  import opened Files
  import opened Worlds
  import Locations

  /** `Libraries.Find`: the location of a library, or the empty location
      when there is none; the empty location is not a supported one. */
  function Find(libraries: map<string, string>, name: string): (l: string)
    ensures name in libraries ==> l == libraries[name]
    ensures name !in libraries ==> l == "" && !Locations.IsSupported(l)
  {
    if name in libraries then libraries[name] else ""
  }

  /** `Repository.id`: the digest of the location, and of nothing else. */
  function Id(env: Env, location: string): Digest {
    env.sha256(location)
  }

  /** `Repository.dir`: the directory of the repository under `rootDir`,
      one level below it. */
  function Dir(env: Env, rootDir: Path, location: string): (d: Path)
    ensures d == rootDir + [Id(env, location)]
  {
    DigestIsComponent(Id(env, location));
    JoinComponent(rootDir, Id(env, location));
    Join(rootDir, Id(env, location))
  }

  /** Two repositories with the same location share a directory, whatever
      else differs. */
  lemma DirByLocation(env: Env, rootDir: Path, a: string, b: string)
    ensures a == b ==> Dir(env, rootDir, a) == Dir(env, rootDir, b)
    ensures Dir(env, rootDir, a) == Dir(env, rootDir, b) ==> Id(env, a) == Id(env, b)
  {
    var da, db := Dir(env, rootDir, a), Dir(env, rootDir, b);
    assert da[|da| - 1] == Id(env, a) && db[|db| - 1] == Id(env, b);
  }

  /** The outcome of `update` and the library table afterwards. */
  datatype Updated = Updated(done: Done, libraries: map<string, string>)

  /** `ReadRepositoryFromFile`: the table of a `repository.yaml` file. */
  function ReadRepositoryStep(env: Env, st: State, path: Path): (r: Got<map<string, string>>)
    ensures r.st == State(st.fs, st.effects + [ReadFrom(path)])
    ensures r.result.Ok? ==> IsFileAt(st.fs, path) && env.parseRepository(st.fs[path].data) == r.result
  {
    var read := ReadFileStep(st, path);
    match read.result
    case Err(e) => Got(read.st, Err(RepositoryFileInvalid(path, e)))
    case Ok(data) =>
      match env.parseRepository(data)
      case Err(e) => Got(read.st, Err(RepositoryFileInvalid(path, e)))
      case Ok(table) => Got(read.st, Ok(table))
  }

  /** `Repository.update`: the target is wiped and created; an unsupported
      location fails before anything is fetched; after the fetch the
      target must hold `repository.yaml`, whose table replaces the
      libraries. Every failure leaves the libraries as they were. */
  function UpdateStep(env: Env, st: State, location: string, libraries: map<string, string>,
                      rootDir: Path, repoRootDir: Path): (r: Updated)
    ensures r.done.outcome.Fail? ==> r.libraries == libraries
    ensures !Locations.IsSupported(location) ==>
      var target := Dir(env, repoRootDir, location);
      r.done.st.effects == st.effects + [Removed(target), MadeDirs(target)] && r.done.outcome.Fail?
    ensures r.done.outcome.Pass? ==>
      var file := Dir(env, repoRootDir, location) + ["repository.yaml"];
      file in r.done.st.fs && |r.done.st.effects| > 0 && r.done.st.effects[|r.done.st.effects| - 1] == ReadFrom(file)
  {
    var target := Dir(env, repoRootDir, location);
    var removed := RemoveAllStep(st, target);
    var made := MkdirAllStep(removed, target);
    if made.outcome.Fail? then Updated(made, libraries)
    else if !Locations.IsSupported(location) then Updated(Done(made.st, Fail(UnsupportedLocation(location))), libraries)
    else
      var cloned := Locations.CloneLocationStep(env, made.st, location, rootDir, target);
      if cloned.outcome.Fail? then Updated(cloned, libraries)
      else
        var file := target + ["repository.yaml"];
        if file !in cloned.st.fs then Updated(Done(cloned.st, Fail(NoRepositoryFile)), libraries)
        else
          var read := ReadRepositoryStep(env, cloned.st, file);
          match read.result
          case Err(e) => Updated(Done(read.st, Fail(e)), libraries)
          case Ok(table) => Updated(Done(read.st, Pass), table)
  }

  /** A fetched repository without `repository.yaml` fails with
      `NoRepositoryFile`, and one that succeeds publishes the table of that
      file. */
  lemma UpdateResult(env: Env, st: State, location: string, libraries: map<string, string>,
                     rootDir: Path, repoRootDir: Path)
    ensures var target := Dir(env, repoRootDir, location);
      var made := MkdirAllStep(RemoveAllStep(st, target), target);
      var cloned := Locations.CloneLocationStep(env, made.st, location, rootDir, target);
      var r := UpdateStep(env, st, location, libraries, rootDir, repoRootDir);
      ((made.outcome.Pass? && Locations.IsSupported(location) && cloned.outcome.Pass? &&
        target + ["repository.yaml"] !in cloned.st.fs) ==> r.done == Done(cloned.st, Fail(NoRepositoryFile))) &&
      (r.done.outcome.Pass? ==>
        IsFileAt(cloned.st.fs, target + ["repository.yaml"]) &&
        env.parseRepository(cloned.st.fs[target + ["repository.yaml"]].data) == Ok(r.libraries))
  {
  }

  /** A repository: a location and the library table last read from it. */
  class Repository {
    const location: string
    var libraries: map<string, string>

    constructor (location: string)
      ensures this.location == location && libraries == map[]
    {
      this.location := location;
      libraries := map[];
    }

    /** `update`. */
    method Update(w: World, rootDir: Path, repoRootDir: Path) returns (o: Outcome)
      modifies this, w
      ensures Updated(Done(w.Now(), o), libraries) == UpdateStep(w.env, old(w.Now()), location, old(libraries), rootDir, repoRootDir)
    {
      var target := Dir(w.env, repoRootDir, location);
      w.RemoveAll(target);
      o := w.MkdirAll(target);
      if o.Fail? {
        return;
      }
      if !Locations.IsSupported(location) {
        return Fail(UnsupportedLocation(location));
      }
      o := Locations.Clone(w, location, rootDir, target);
      if o.Fail? {
        return;
      }
      var file := target + ["repository.yaml"];
      if file !in w.fs {
        return Fail(NoRepositoryFile);
      }
      var data := w.ReadFile(file);
      if data.Err? {
        return Fail(RepositoryFileInvalid(file, data.error));
      }
      var table := w.env.parseRepository(data.value);
      if table.Err? {
        return Fail(RepositoryFileInvalid(file, table.error));
      }
      libraries := table.value;
    }
  }
}
