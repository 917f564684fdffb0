# A verified model of the opa-dependency-manager core

The dependency manager (`odm`) installs the dependencies a policy project
declares in its `opa.project` manifest. Each dependency is either a local
directory (`file:` locations) or a git repository (`git+` locations). It is
copied or cloned into a directory named after a SHA-256 digest. Its own
manifest is then read, and its dependencies are installed the same way. When
the dependency has a namespace, its Rego packages are finally moved from
`data` to `data.<namespace>` with `opa refactor`.

This project models that engine in Dafny and proves properties of the model.
It has one module per source file:

- `Dependencies` (`proj/dependency.go`): the current dependency engine.
  It covers full namespaces, directory identity, source and test
  directories, and the recursive `Update` and `Load`.
- `LegacyProjects` (the rest of `proj/project.go`): the older project.
  Its directories are keyed by name. It covers `Project.Load`,
  `DataLocations`, `printTree` and `SetDependency`, on a class.
- `Manifests` (the codec part of `proj/project.go`): the manifest
  dependency-entry codec over an abstract YAML value, `normalizeProjectPath`
  and `ReadProjectFromFile`.
- `Locations` (`proj/location.go`): location kinds and `Clone`, plus
  `parseGitUrl`.
- `Repositories` (`proj/repository.go`): library repositories.
- `Utils` (`utils/utils.go`): the helpers, the existing-path filter and the
  recursive `CopyAll`.
- `OpaCli` (`utils/opa.go`): the argument lists handed to the `opa` binary.

The machine the program runs on is in `Worlds` and `Files`:

- The file system is a map from absolute paths (a list of components) to
  files and directories.
- A `World` object holds it, together with a trace of the actions taken
  (wipes, directory creations, reads, writes, clones, checkouts and command
  runs).

Everything outside the program is a parameter (`Env`): git clone and
checkout, the `opa` subprocess, SHA-256, the YAML parser, the environment
variables and the order in which Go visits a map.

Each operation that changes the machine has two forms:

- a function from the old state to the new state and outcome (`UpdateStep`,
  `LoadStep`, `Copy`, …);
- a method on `World` whose contract says it produces exactly that.

The properties are proved about the functions. For example:

- every transitive dependency is installed directly below the same
  `depsRootDir`;
- an unsupported location fails before anything is fetched;
- a successful local fetch leaves a full copy of the source without `.opa`
  entries and empty files;
- the manifest codec round-trips.

`Dependency.Update` has a value receiver, so what it assigns to `Project`
and `dirPath` is seen only inside that call. The model's `Update` therefore
returns only an outcome, and the loop of `updateTransitive` hands each child
the parent as that call sees it. `loadTransitive` links a child to its parent
after the child's `Load` has chosen its directory. The child's directory is
therefore named by its own namespace, not by the full one
(`Dependencies.LoadChildPlaces`).

`IsGit` (proj/location.go:44-46) counts `git:` locations as git, but
`Update` (proj/dependency.go:83-96) dispatches only on `git+` and refuses
`git:` ones as unsupported (`Dependencies.GitColonRefused`). The model also
keeps the code's second creation of the target directory in `Update`.

The two layouts do not agree. `Update` installs every transitive
dependency side by side, at `depsRootDir/DepId(full namespace, location)`
(`Dependencies.UpdateWipesBelow`, `Dependencies.TransitiveInstalled`).
`Load` looks for a child inside its parent's directory, at
`parentDir/DepId(own namespace, location)` (`Dependencies.LoadLayout`,
`Dependencies.LoadChildPlaces`). So a `Load` of what an `Update`
installed finds the manifests of the direct dependencies only. The model
keeps both layouts as the code has them.

## Model

| member | source | states |
|---|---|---|
| `Dependencies.FromDeclared` | proj/dependency.go:19-30 | a declared entry becomes a dependency with that entry and key, no project and no parent |
| `Dependencies.Child` | proj/dependency.go:245-247 | the entry of a parent's manifest keeps its info and key and is linked to that parent |
| `Dependencies.FullNamespace` | proj/dependency.go:257-267 | a dependency with a namespace of its own has a non-empty full namespace |
| `Dependencies.FullNamespaceEndsWith` | proj/dependency.go:257-267 | a dependency with a namespace has a full namespace that ends with it |
| `Dependencies.FullNamespaceRules` | proj/dependency.go:257-267 | with no parent, or a parent without a namespace of its own, the result is the own namespace and grandparents are ignored; below a parent with a namespace it is the parent's full namespace, followed by `.` and the own one when that is not empty |
| `Dependencies.TransitiveNamespaces` | cmd/update_test.go:68-103 | `no_deps` below `foo` is `foo.no_deps`, and below a dependency declared with `namespace: false` it stays `no_deps` |
| `Dependencies.Dir` | proj/dependency.go:53-66 | the directory is `rootDir` plus one component, the digest of the full namespace and the location |
| `Dependencies.DirIdentity` | proj/dependency.go:53-66 | equal full namespaces and locations give the same directory |
| `Dependencies.JoinAll` | proj/dependency.go:271-275 | each declared directory joined under the base, same length, same order |
| `Dependencies.SourceDirs` | proj/dependency.go:269-278 | never empty; the declared source dirs, in order, joined under `dirPath`, or `[dirPath]` when none is declared |
| `Dependencies.TestDirs` | proj/dependency.go:280-289 | the declared test dirs, in order, joined under `dirPath`; empty when none is declared |
| `Dependencies.RefactorStep` | proj/dependency.go:112-130 | nothing runs when the full namespace is empty or no source or test dir exists; otherwise exactly one `opa refactor move … -w -p data:data.<ns>` runs over the existing dirs, the state is the one that run leaves, the step passes exactly when the run does, and a failure is `RefactorFailed` with the own namespace and the run's error |
| `Dependencies.RefactorDirsMeaning` | proj/dependency.go:112-122 | the refactoring works on exactly the existing source and test dirs, and has some exactly when one exists, so the fallback at lines 116-117 is never taken |
| `Dependencies.FetchStep` | proj/dependency.go:83-96 | `git+` is cloned, otherwise `file:` is copied, and anything else fails with an unsupported location without touching the state |
| `Dependencies.GitColonRefused` | proj/dependency.go:83-96 | a `git:` location is git to `IsGit`, yet `Update` refuses it |
| `Dependencies.ManifestInTarget` | proj/dependency.go:98-99 | the manifest `Update` looks for is `opa.project` directly in the target |
| `Dependencies.ReadNoWipes` | proj/dependency.go:98-105 | reading the manifest wipes nothing |
| `Dependencies.FetchQuiet` | proj/dependency.go:83-96 | fetching, by clone or copy, wipes nothing and runs no program |
| `Dependencies.RefactorNoWipes` | proj/dependency.go:112-130 | refactoring wipes nothing |
| `Dependencies.UpdateWipesBelow` | proj/dependency.go:68-133 | every directory an update wipes, at any depth of the recursion, lies directly below `depsRootDir` (the flat layout) |
| `Dependencies.FetchedWipesBelow` | proj/dependency.go:83-133 | the same, from the fetch on |
| `Dependencies.ManifestWipesBelow` | proj/dependency.go:98-133 | the same, from the manifest read on |
| `Dependencies.TransitiveWipesBelow` | proj/dependency.go:108-130 | the same, for `updateTransitive` and the refactoring |
| `Dependencies.ChildrenWipesBelow` | proj/dependency.go:241-255 | the same, for the loop over the children |
| `Dependencies.ChildWipesBelow` | proj/dependency.go:245-250 | the same, for one child |
| `Dependencies.UpdateBegins` | proj/dependency.go:69-81 | the trace of an update starts with the wipe and the creation of its target, whatever follows |
| `Dependencies.UnsupportedFailsEarly` | proj/dependency.go:69-96 | a location that is neither `git+` nor `file:` fails right after the target is wiped and created (once or twice), before any fetch |
| `Dependencies.ChildInstalled` | proj/dependency.go:245-250 | a successful turn of the loop has wiped the directory the child's update targets |
| `Dependencies.ChildrenInstalled` | proj/dependency.go:244-252 | a successful loop has wiped, as the start of its update, the directory of every visited child, the one directly below `depsRootDir` named by its full namespace below the parent and its location |
| `Dependencies.TransitiveInstalled` | proj/dependency.go:241-255 | after a successful `updateTransitive` and refactoring, the directory `depsRootDir/DepId(full namespace, location)` of every declared dependency has been wiped as the start of its update |
| `Dependencies.UpdateOrder` | proj/dependency.go:68-133 | the trace of a successful update is the wipe and the two creations of the target, then the fetch, which wipes nothing and runs no program, then, if there is one, the read of `opa.project` in the target, which gives the dependency its project (without one the project is unchanged), then the children's updates, the first beginning with the wipe of its own directory, then at most one `opa refactor` over some of its source and test dirs into its full namespace, as the very last action |
| `Dependencies.FetchedOrder` | proj/dependency.go:83-133 | the same, from the fetch on |
| `Dependencies.ManifestOrder` | proj/dependency.go:98-133 | the same, from the manifest read on; the placed dependency keeps its entry, key and parent and sits in the target |
| `Dependencies.TransitiveOrder` | proj/dependency.go:108-130 | the children's updates come before the refactoring, which is nothing or one run |
| `Dependencies.ChildrenOrder` | proj/dependency.go:241-252 | the loop over a known manifest's children adds nothing when it declares none, and otherwise begins with the wipe of the first visited child's directory |
| `Dependencies.RefactorOrder` | proj/dependency.go:112-130 | the refactoring adds nothing, or one `opa refactor` over some of its source and test dirs into its non-empty full namespace |
| `Dependencies.ChildrenBegin` | proj/dependency.go:241-252 | a successful loop over some keys begins with the wipe of the first child's directory |
| `Dependencies.ChildBegins` | proj/dependency.go:245-250 | a successful turn of the loop begins with the wipe of the child's directory |
| `Dependencies.LoadTransitiveStep` | proj/dependency.go:224-239 | a successful load returns the dependency it was given as the root of the tree |
| `Dependencies.LoadPlaces` | proj/dependency.go:135-150 | a loaded dependency is placed at `Dir(targetDir)` and keeps its entry, key and parent link |
| `Dependencies.LoadChildPlaces` | proj/dependency.go:229-233 | a loaded child is linked to the parent but placed by its own namespace, because the link is made after the directory is chosen |
| `Dependencies.LoadChildrenLayout` | proj/dependency.go:227-236 | a successful load loop gives one child per key, each placed as above |
| `Dependencies.LoadLayout` | proj/dependency.go:135-150 | a load nests: children are keyed like the manifest, linked to the loaded dependency, and placed inside its directory |
| `Dependencies.UpdateChildrenFailed` | proj/dependency.go:245-251 | once the update loop has failed, later keys change nothing |
| `Dependencies.LoadChildrenFailed` | proj/dependency.go:228-235 | once the load loop has failed, later keys change nothing |
| `Dependencies.UpdateChildrenSnoc` | proj/dependency.go:245-251 | one more key of the update loop is one more child update, unless the loop has failed |
| `Dependencies.LoadChildrenSnoc` | proj/dependency.go:228-235 | one more key of the load loop adds that child's tree, or ends with its error |
| `Dependencies.Fetch` | proj/dependency.go:83-96 | the fetch method does what `FetchStep` says |
| `Dependencies.Refactor` | proj/dependency.go:112-130 | the refactoring method, filtering the existing dirs, does what `RefactorStep` says |
| `Dependencies.Update` | proj/dependency.go:68-81 | `Update` on the world does what `UpdateStep` says |
| `Dependencies.Fetched` | proj/dependency.go:83-96 | the rest of `Update` after the target exists |
| `Dependencies.ReadManifest` | proj/dependency.go:98-106 | the rest of `Update` after the fetch |
| `Dependencies.UpdateTransitive` | proj/dependency.go:108-130 | the loop of `updateTransitive` and the refactoring, against `TransitiveStep` |
| `Dependencies.UpdateChild` | proj/dependency.go:245-251 | one turn of `updateTransitive`'s loop, against `ChildStep` |
| `Dependencies.Load` | proj/dependency.go:135-150 | `Load` on the world does what `LoadStep` says |
| `Dependencies.LoadTransitive` | proj/dependency.go:224-239 | the loop of `loadTransitive`, against `LoadTransitiveStep` |
| `Dependencies.LoadChild` | proj/dependency.go:229-233 | one turn of `loadTransitive`'s loop, against `LoadChildStep` |
| `Manifests.DecodeForms` | proj/project.go:65-98 | a bare string is (location, key); in a mapping with a string `location`, `namespace` absent or `true` gives the key, `false` gives "" and a string gives that string; a number, list or mapping there is `InvalidNamespaceType` |
| `Manifests.DecodeKeysFailed` | proj/project.go:65-99 | once the decoding loop has failed, later keys change nothing |
| `Manifests.DecodeKeysMeaning` | proj/project.go:64-101 | the loop succeeds exactly when every visited entry decodes, then holds each under its own key; a failure is one entry's failure |
| `Manifests.UnmarshalMapping` | proj/project.go:58-101 | whatever the visiting order, decoding a mapping succeeds exactly when every entry does, and keys each dependency by its name |
| `Manifests.UnmarshalDependencies` | proj/project.go:58-102 | the method of `UnmarshalYAML` agrees with `Unmarshal` |
| `Manifests.DecodeMapping` | proj/project.go:64-99 | the loop over the mapping's entries agrees with `DecodeKeys` in the visiting order |
| `Manifests.DecodeKeysSnoc` | proj/project.go:65-99 | one more key decodes that entry and adds it under its key, or ends with its error |
| `Manifests.MarshalDependency` | proj/project.go:113-132 | the bare location exactly when the namespace equals the name; decoding the output under the name gives the info back |
| `Manifests.RoundTrip` | proj/project.go:58-132 | marshalling every dependency under its name and unmarshalling the mapping gives the dependencies back |
| `Manifests.DecodesTo` | proj/project.go:58-102 | a mapping whose entries decode to the given infos under the same keys decodes to those dependencies |
| `Manifests.NewProject` | proj/project.go:51-56 | an empty project with the given path |
| `Manifests.NormalizeProjectPath` | proj/project.go:438-447 | the result extends the input and ends with `opa.project`; a path ending with it is kept; otherwise `/` is added only when the path does not already end with one |
| `Manifests.NormalizeProjectPathIdempotent` | proj/project.go:438-447 | normalizing twice is normalizing once |
| `Manifests.ProjectFileOfDir` | proj/project.go:438-447 | a directory's manifest is `opa.project` inside it |
| `Manifests.ReadProjectStep` | proj/project.go:296-321 | a missing manifest is an empty project when `allowMissing` and an error otherwise, with no read; an existing one is read once, and a result comes from parsing and decoding that file and carries the normalized path |
| `Manifests.ReadProjectFromFile` | proj/project.go:296-321 | the method agrees with `ReadProjectStep` |
| `LegacyProjects.OfManifest` | proj/project.go:312-320 | the project read from a manifest has its declared keys, no dependency project yet, and the manifest path |
| `LegacyProjects.DependenciesDirJoin` | proj/project.go:449-451 | `dependenciesDir` is `root/.opa/dependencies` |
| `LegacyProjects.DotOpaComponents` | proj/project.go:17-20 | `.opa` and `dependencies` are single path components |
| `LegacyProjects.WithDependency` | proj/project.go:286-294 | `SetDependency` adds or replaces only `name`, with `Name` = key and no project; every other entry is unchanged |
| `LegacyProjects.LoadStep` | proj/project.go:336-356 | loading keeps the set of dependency keys |
| `LegacyProjects.LoadEntries` | proj/project.go:340-353 | the loop keeps the set of dependency keys |
| `LegacyProjects.LoadKeepsDeclarations` | proj/project.go:336-356 | loading keeps every entry's declaration and name |
| `LegacyProjects.EntriesKeepDeclarations` | proj/project.go:340-353 | the same, for the loop |
| `LegacyProjects.LoadEntryStep` | proj/project.go:341-352 | an entry keeps its declaration and name and is placed at `depRootDir/<name>` |
| `LegacyProjects.ReadEntryStep` | proj/project.go:343-351 | reading the placed entry's manifest changes only its project |
| `LegacyProjects.EntryReadStep` | proj/project.go:345-351 | loading the read project changes only the entry's project, and a failure leaves the entry as it was |
| `LegacyProjects.LoadPlaced` | proj/project.go:336-356 | a load that passes leaves every entry at every depth in `<manifest dir>/.opa/dependencies/<name>`, with its project read from that directory |
| `LegacyProjects.EntriesPlaced` | proj/project.go:340-353 | the same, for the loop |
| `LegacyProjects.EntryPlaced` | proj/project.go:341-352 | the same, for one entry; an entry that loads has a project exactly when its directory holds a manifest, and without a manifest nothing is read and the state is unchanged |
| `LegacyProjects.ReadEntryPlaced` | proj/project.go:343-351 | a read manifest becomes the entry's project, with the manifest path of the entry's directory, and is placed in turn |
| `LegacyProjects.EntryReadPlaced` | proj/project.go:345-351 | the same, once the manifest has been read |
| `LegacyProjects.Project.constructor` | proj/project.go:312-320 | the object holds the project the manifest describes |
| `LegacyProjects.Project.SetDependency` | proj/project.go:286-294 | the object's entries become `WithDependency` of the old ones; nothing else changes |
| `LegacyProjects.Project.Load` | proj/project.go:336-356 | the object's entries become the loaded ones, those loaded before a failure included; nothing else changes |
| `LegacyProjects.LoadManifest` | proj/project.go:336-356 | the loop of `Load` on a project value agrees with `LoadStep` |
| `LegacyProjects.LoadTurn` | proj/project.go:340-353 | one turn of that loop agrees with one more key of `LoadEntries` |
| `LegacyProjects.EntriesSnoc` | proj/project.go:340-353 | one more key of the loop adds that entry, or ends with its failure and keeps the entries so far |
| `LegacyProjects.EntriesFailed` | proj/project.go:340-353 | once the loop has failed, later keys change nothing |
| `LegacyProjects.LoadEntry` | proj/project.go:341-352 | one turn agrees with `LoadEntryStep` |
| `LegacyProjects.ReadEntry` | proj/project.go:343-351 | the manifest read agrees with `ReadEntryStep` |
| `LegacyProjects.EntryRead` | proj/project.go:345-351 | the load of the read manifest agrees with `EntryReadStep` |
| `LegacyProjects.Locations` | proj/project.go:358-384 | the project's own location comes first: its source dir under the manifest dir, or that dir |
| `LegacyProjects.LocationsAsSet` | proj/project.go:358-384 | whatever the visiting order, the locations are the project's own plus, for each entry, its project's locations or else its source dir |
| `LegacyProjects.EntryLocationsAsSet` | proj/project.go:371-381 | the same, for the loop over the entries |
| `LegacyProjects.DependencyLocationsAsSet` | proj/project.go:372-380 | the same, for one entry |
| `LegacyProjects.DataLocations` | proj/project.go:358-384 | the method, appending while recursing, returns `Locations` |
| `LegacyProjects.EntryLocationsSnoc` | proj/project.go:371-381 | one more entry appends what that entry contributes |
| `LegacyProjects.DependencyDataLocations` | proj/project.go:372-380 | one turn of the loop agrees with `DependencyLocations` |
| `LegacyProjects.TreeLines` | proj/project.go:414-436 | the first line is the node's indented label |
| `LegacyProjects.TreeLinesIndented` | proj/project.go:414-436 | every line of a subtree starts with its root's indentation of 2×depth spaces |
| `LegacyProjects.ChildLinesIndented` | proj/project.go:430-434 | the same, for the children's lines |
| `LegacyProjects.TreeLinesListChildren` | proj/project.go:430-434 | every entry has its own line one level deeper, `name (ProjectName)` or just the name |
| `LegacyProjects.ChildLinesListChildren` | proj/project.go:430-434 | the same, for the loop over the children |
| `LegacyProjects.PrintTree` | proj/project.go:414-436 | the lines written are `TreeLines` |
| `LegacyProjects.PrintRoot` | proj/project.go:407-412 | the tree is printed from a root labelled `root` at depth 0 |
| `Locations.LocalNotGit` | proj/location.go:41-47 | no location is both local and git |
| `Locations.Type` | proj/location.go:32-51 | `local` exactly for local locations, `git` exactly for git ones, `unknown` exactly for unsupported ones |
| `Locations.MarshalLocation` | proj/location.go:15-17 | the node unmarshals to the same string |
| `Locations.UnmarshalLocation` | proj/location.go:19-26 | succeeds exactly on string nodes |
| `Locations.UnmarshalMarshal` | proj/location.go:15-26 | a string node unmarshalled and marshalled again is the same node |
| `Locations.ParseGitUrl` | proj/dependency.go:210-222 | after one `git+` is removed, an error exactly when two or more `#` remain; otherwise the URL and tag have no `#`, and the text is `url#tag`, or just `url` when it had no `#` |
| `Locations.ParseGitUrlTagged` | proj/dependency.go:210-222 | `git+url#tag` parses back to (url, tag) |
| `Locations.ParseGitUrlUntagged` | proj/dependency.go:210-222 | `git+url` parses back to (url, "") |
| `Locations.GitCloneStep` | proj/location.go:88-118 | a bad URL fails before anything runs; a failed clone is wrapped in `CloneFailed`; without a tag the clone is the result; with a tag, the checkout decides |
| `Locations.GitCloneTrace` | proj/location.go:88-118 | a git fetch is one clone, then at most one checkout, and only when there is a tag |
| `Locations.CloneGit` | proj/location.go:88-118 | the method agrees with `GitCloneStep` |
| `Locations.LocalSourceText` | proj/location.go:63-70 | the source text is never empty, and an absolute normalized path is kept as is |
| `Locations.LocalSource` | proj/location.go:62-78 | a missing source is an error; a source that is an `opa.project` file is replaced by its parent directory; anything else is kept |
| `Locations.LocalSourceRelative` | proj/location.go:68-78 | a relative path is joined under `rootDir`, and a manifest there stands for its directory |
| `Locations.LocalCopyStep` | proj/location.go:62-86 | a missing source or parent fails without touching the state; otherwise the source is copied into the target without `.opa` entries and without empty files, unless the target lies inside what is read |
| `Locations.LocalCopyMirrors` | proj/location.go:80-83 | a successful local fetch leaves a full copy of the source, with no `.opa` entry and no empty file, and changes only what the copy makes |
| `Locations.CloneLocal` | proj/location.go:62-86 | the method agrees with `LocalCopyStep` |
| `Locations.CloneLocationStep` | proj/location.go:53-60 | an unsupported location fails without touching the state; local ones are copied and git ones cloned |
| `Locations.Clone` | proj/location.go:53-60 | the method agrees with `CloneLocationStep` |
| `Repositories.Find` | proj/repository.go:26-29 | a present name gives its location; an absent one gives the empty location, which is not supported |
| `Repositories.Dir` | proj/repository.go:64-73 | the directory is one component below `rootDir`, the digest of the location alone |
| `Repositories.DirByLocation` | proj/repository.go:64-73 | the same location gives the same directory, and the same directory means the same digest |
| `Repositories.ReadRepositoryStep` | proj/repository.go:75-87 | the file is read once, and a table is what the parser makes of that file |
| `Repositories.UpdateStep` | proj/repository.go:31-62 | every failure keeps the libraries; an unsupported location fails right after the wipe and the creation of the target; a success has just read `repository.yaml` in the target |
| `Repositories.UpdateResult` | proj/repository.go:46-61 | a fetched target without `repository.yaml` fails with `NoRepositoryFile`; on success the libraries are exactly the table parsed from that file |
| `Repositories.Repository.constructor` | proj/repository.go:13-16 | a repository at the location, with no libraries yet |
| `Repositories.Repository.Update` | proj/repository.go:31-62 | the method's outcome, state and libraries agree with `UpdateStep` |
| `Utils.Contains` | utils/utils.go:141-148 | true exactly when some element equals the item (`Contains` at lines 167-174 is the same scan) |
| `Utils.GetParentDirDropsLast` | utils/utils.go:63-66 | without `/` the result is ""; otherwise the path is the result, `/` and a last piece without `/` |
| `Utils.GetParentDirOfPath` | utils/utils.go:63-66 | on a clean path's text, the parent's text, or "" for the root and top-level paths |
| `Utils.NormalizeFilePath` | utils/utils.go:68-83 | text not starting with `file:/` is returned unchanged |
| `Utils.NormalizeHost` | utils/utils.go:75-76 | `file://host/p` gives `/host/p` |
| `Utils.NormalizeRootless` | utils/utils.go:77-79 | `file:/p` gives `p` |
| `Utils.NormalizeEmptyHost` | utils/utils.go:75-79 | `file:///p` gives `p` |
| `Utils.Existing` | utils/utils.go:19-27 | the filter keeps exactly the existing inputs and is no longer than them |
| `Utils.ExistingAppend` | utils/utils.go:19-27 | the filter distributes over concatenation, so it keeps order |
| `Utils.ExistingIdempotent` | utils/utils.go:19-27 | filtering twice is filtering once |
| `Utils.ExistingStep` | utils/utils.go:21-25 | one more input is appended exactly when it exists |
| `Utils.FilterExistingFiles` | utils/utils.go:19-27 | the loop returns `Existing` |
| `Utils.MakeDirStep` | utils/utils.go:48-53 | an existing directory is a no-op success; an existing file is an error; otherwise the directory is created; success leaves a directory |
| `Utils.MakeDir` | utils/utils.go:48-53 | the method agrees with `MakeDirStep` |
| `Utils.Copy` | utils/utils.go:85-88 | a missing source is an error before anything is made, and only an existing source can succeed |
| `Utils.ChildCopy` | utils/utils.go:111-120 | copying a child succeeds only for an existing child |
| `Utils.CopyEntries` | utils/utils.go:105-121 | the loop can fail only while a child is left to copy, so an empty listing succeeds |
| `Utils.CopyGrows` | utils/utils.go:85-139 | the copy only adds entries, and a successful copy leaves the destination directory in place, even when nothing is copied into it |
| `Utils.EntriesGrow` | utils/utils.go:105-121 | the same, for the loop |
| `Utils.CopyQuiet` | utils/utils.go:85-139 | the copy wipes nothing and runs no program |
| `Utils.EntriesQuiet` | utils/utils.go:105-121 | the same, for the loop |
| `Utils.EntriesCons` | utils/utils.go:105-121 | the loop copies the first child, then the rest from where that left off, and stops at its failure |
| `Utils.CopyOnlyMakes` | utils/utils.go:85-139 | every entry the copy changes lies on the way to the destination or is the copy of a non-excluded source entry, and an empty file is never written when `ignoreEmptyFiles` |
| `Utils.EntriesOnlyMake` | utils/utils.go:105-121 | the same, for the loop |
| `Utils.CopyMirrors` | utils/utils.go:85-139 | a successful copy leaves a full copy: directories are mirrored at `dst/<child>`, files copied byte for byte to `dst/<name>`, excluded names skipped at every depth, empty files skipped when asked |
| `Utils.EntriesMirror` | utils/utils.go:105-121 | the same, for each copied child |
| `Utils.CopyAll` | utils/utils.go:85-139 | the method agrees with `Copy` on the state it starts from |
| `Utils.CopyFrom` | utils/utils.go:94-136 | the recursive method agrees with `Copy` on a snapshot of what it reads |
| `Utils.ListDir` | utils/utils.go:100-103 | the listing without the excluded names is the snapshot's |
| `Utils.CopyChildren` | utils/utils.go:105-121 | the loop over the listing agrees with `CopyEntries` |
| `Utils.CopyNext` | utils/utils.go:106-109 | an excluded child is skipped and any other one copied |
| `Utils.CopyChild` | utils/utils.go:111-120 | one child is copied as `ChildCopy` says |
| `OpaCli.NewOpa` | utils/opa.go:16-28 | the binary is `OPA_PATH` when it is set, even to "", and `opa` otherwise; no entrypoints and no target |
| `OpaCli.WithEntrypoints` | utils/opa.go:30-34 | a copy with the new entrypoints and everything else unchanged |
| `OpaCli.WithTarget` | utils/opa.go:36-40 | a copy with the new target and everything else unchanged |
| `OpaCli.Flagged` | utils/opa.go:113-120 | n×2 items with a flag and n without |
| `OpaCli.FlaggedBare` | utils/opa.go:117-118 | without a flag the values are listed as they are |
| `OpaCli.FlaggedAt` | utils/opa.go:115-116 | with a flag, position 2i holds the flag and 2i+1 the i-th value |
| `OpaCli.FlaggedMembers` | utils/opa.go:114-120 | nothing but the flag and the values appears |
| `OpaCli.PrefixDataLocations` | utils/opa.go:107-123 | the locations, each after `-d` when `namedFlag`, followed by the flags unchanged |
| `OpaCli.PrefixEntrypoints` | utils/opa.go:125-132 | `-e e` for each entrypoint, followed by the flags unchanged |
| `OpaCli.PrefixOutput` | utils/opa.go:134-143 | `-o path` goes in front exactly when the flags name no output, even for an empty path; otherwise the flags are unchanged; the result always names an output |
| `OpaCli.PrefixTarget` | utils/opa.go:145-157 | unchanged for an empty target or flags naming a target, otherwise `-t target` in front |
| `OpaCli.PrefixOutputIdempotent` | utils/opa.go:134-143 | prefixing the output twice is doing it once |
| `OpaCli.PrefixTargetIdempotent` | utils/opa.go:145-157 | prefixing the target twice is doing it once |
| `OpaCli.CommandArgs` | utils/opa.go:99-105 | the command, then the flags |
| `OpaCli.EvalLayout` | utils/opa.go:42-54 | `eval`, then `-d loc` for each location in order, then the arguments |
| `OpaCli.TestLayout` | utils/opa.go:56-68 | `test`, the bare locations, the arguments |
| `OpaCli.BuildLayout` | utils/opa.go:70-81 | the locations, then `-t target` when set and not in the flags, then `-o path` unless the flags name an output, then the `-e` pairs, then the flags |
| `OpaCli.Eval` | utils/opa.go:42-54 | one run of the binary with the `eval` arguments |
| `OpaCli.Test` | utils/opa.go:56-68 | one run of the binary with the `test` arguments |
| `OpaCli.Build` | utils/opa.go:70-81 | one run of the binary with `build` and the flags put together from the back |
| `OpaCli.RefactorStep` | utils/opa.go:83-97 | one run of `refactor move <locations> -w -p from:to`, passing exactly when the run does |
| `OpaCli.Refactor` | utils/opa.go:83-97 | the method agrees with `RefactorStep` |

## Left out

- The command-line layer, the end-to-end tests and the printer. These are
  cobra wiring, `os.Exit`, output and log levels.
- The legacy `Dependency.Update`, `updateLocal`, `updateGit`,
  `parseGitUrl` and `updateTransitive` (proj/project.go:134-277). They are
  superseded by proj/dependency.go. Its `parseGitUrl` is the same as the
  modelled one.
- `Dependencies.MarshalYAML` (proj/project.go:104-111). Keying the map by
  location does not survive a round trip through `UnmarshalYAML`.
- `ReadAndLoadProject` and `WriteToFile` (proj/project.go:323-334,
  386-405). They only chain modelled steps, and YAML writing is not
  modelled.
- Build settings and the version of the legacy project. They are carried
  but not used.
- YAML text, in both directions. Parsing a manifest or `repository.yaml` is
  a parameter that yields decoded values.
- git clone and checkout, the `opa` subprocess, SHA-256 and `OPA_PATH`.
  These are parameters: the effects they leave are recorded, their insides
  are not modelled.
- Nothing is proved about SHA-256 beyond determinism.
- The worktree error of go-git (proj/location.go:103-106,
  proj/dependency.go:193-196). It is folded into the checkout result.
- `url.Parse` (utils/utils.go:70-73). Only the two `file:` shapes are
  modelled, with the host taken up to the first `/`. Percent-decoding,
  queries, fragments and parse errors are not modelled, so
  `NormalizeFilePath` never fails here.
- Utils.CopyAll: it requires the destination not to lie inside what it
  reads, where Go would copy its own output again, without bound.
  `Locations.LocalCopyStep`, its one caller, reports such a copy as the
  error `CopyIntoItself` instead.
- `os.RemoveAll` errors: a wipe always succeeds.
- `os.Stat` errors other than "does not exist". `FileExists` is membership
  in the file system.
- `GetFileName(p)` is modelled as the last component of `p`.
- `RunCommand` (utils/utils.go:150-165) is the `run` parameter: it returns
  the output, or an error carrying stderr or stdout.
- Permissions and file modes.
- A manifest entry whose mapping lacks a string `location` panics in Go (a
  failed type assertion). Here it is the error `LocationNotString`.
- `Dependencies.UpdateStep`, `Dependencies.LoadStep` and
  `LegacyProjects.LoadStep` carry `fuel`, a bound on the depth of the
  recursion. The Go code recurses without bound and diverges on
  self-referencing manifests. Past the bound, the model fails with
  `DepthExhausted`.
- Dependencies.LoadChildPlaces: the parent link is a value snapshot of
  the parent taken at the time of the turn. In Go it is a pointer to a copy
  whose project map is shared, so it also sees entries the loop replaces
  later.
- Writer errors in `printTree` are not modelled, so a print never fails.
- The empty `dirPath` of an entry that has not been placed is modelled as
  the root path `[]`.
- `SetDependency`'s creation of a nil map: a Dafny map is never nil.
- OpaCli.BuildLayout: it is stated only when the output path is not `-t`
  or `--target`, and no entrypoint is `-t`, `--target`, `-o` or `--output`.
  Such a value would count as a flag in the pass-through checks.
- The `opa` binary's rewrite of Rego packages: only that the run happens,
  with its exact arguments, is modelled.
- Concurrency: the program is sequential.
