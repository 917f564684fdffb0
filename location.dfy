/** `proj/location.go`: what kind of source a location string names, and
    fetching it into a target directory, by copying a local directory or by
    cloning a git repository; with `parseGitUrl` of `proj/dependency.go`,
    which splits a git location into its URL and tag. */
module Locations {
  import opened Paths
  import opened Outcomes
  import opened Files
  import opened Worlds
  import opened Yaml
  import Strings
  import Utils

  /** `IsLocal`: a `file:` URL. */
  predicate IsLocal(l: string) {
    Strings.HasPrefix(l, "file:")
  }

  /** `IsGit`: `git:` or `git+`. */
  predicate IsGit(l: string) {
    Strings.HasPrefix(l, "git:") || Strings.HasPrefix(l, "git+")
  }

  predicate IsSupported(l: string) {
    IsLocal(l) || IsGit(l)
  }

  /** A location is never both local and git. */
  lemma LocalNotGit(l: string)
    ensures !(IsLocal(l) && IsGit(l))
  {
    if IsLocal(l) {
      assert l[0] == 'f';
    }
  }

  /** `Type`: `local`, `git` or `unknown`, the last for exactly the
      unsupported locations. */
  function Type(l: string): (t: string)
    ensures t == "local" <==> IsLocal(l)
    ensures t == "git" <==> IsGit(l)
    ensures t == "unknown" <==> !IsSupported(l)
  {
    LocalNotGit(l);
    if IsLocal(l) then "local" else if IsGit(l) then "git" else "unknown"
  }

  /** `Location.MarshalYAML`: the string itself. */
  function MarshalLocation(l: string): (v: Value)
    ensures UnmarshalLocation(v) == Ok(l)
  {
    Str(l)
  }

  /** `Location.UnmarshalYAML`: a string node is the location; any other
      node fails to decode into a string. */
  function UnmarshalLocation(v: Value): (r: Result<string>)
    ensures r.Ok? <==> v.Str?
  {
    if v.Str? then Ok(v.s) else Err(External("cannot unmarshal into a location"))
  }

  /** Unmarshalling a string node and marshalling it again gives the node. */
  lemma UnmarshalMarshal(v: Value)
    requires v.Str?
    ensures MarshalLocation(UnmarshalLocation(v).value) == v
  {
  }

  // ----- git URLs -----

  /** `parseGitUrl`: one leading `git+` is dropped; more than one `#` is an
      error; otherwise the text is the URL, followed by `#` and the tag when
      there is one. */
  function ParseGitUrl(fullUrl: string): (r: Result<(string, string)>)
    ensures var trimmed := Strings.TrimPrefix(fullUrl, "git+");
      (r.Err? <==> Strings.Count(trimmed, '#') >= 2) &&
      (r.Err? ==> r.error == InvalidGitUrl(fullUrl)) &&
      (r.Ok? ==> '#' !in r.value.0 && '#' !in r.value.1 &&
                 trimmed == (if '#' in trimmed then r.value.0 + "#" + r.value.1 else r.value.0))
  {
    var trimmed := Strings.TrimPrefix(fullUrl, "git+");
    var parts := Strings.Split(trimmed, '#');
    Strings.JoinSplit(trimmed, '#');
    Strings.CountZero(trimmed, '#');
    if |parts| > 2 then Err(InvalidGitUrl(fullUrl))
    else
      assert parts[0] in parts;
      if |parts| == 2 then
        assert parts[1] in parts;
        assert Strings.Join(parts[1..], "#") == parts[1];
        Ok((parts[0], parts[1]))
      else Ok((parts[0], ""))
  }

  /** A URL and a tag without `#` come back out of `git+<url>#<tag>`. */
  lemma ParseGitUrlTagged(url: string, tag: string)
    requires '#' !in url && '#' !in tag
    ensures ParseGitUrl("git+" + url + "#" + tag) == Ok((url, tag))
  {
    var full := "git+" + url + "#" + tag;
    assert full[..4] == "git+";
    assert full[4..] == url + "#" + tag;
    Strings.SplitAfterPiece(url, tag, '#');
    Strings.SplitNoSeparator(tag, '#');
    assert url + "#" + tag == url + ['#'] + tag;
  }

  /** A URL without `#` comes back out of `git+<url>`, with no tag. */
  lemma ParseGitUrlUntagged(url: string)
    requires '#' !in url
    ensures ParseGitUrl("git+" + url) == Ok((url, ""))
  {
    var full := "git+" + url;
    assert full[..4] == "git+";
    assert full[4..] == url;
    Strings.SplitNoSeparator(url, '#');
  }

  // ----- Fetching -----

  /** `cloneGit`, and `updateFromGit` of `proj/dependency.go`: the URL is
      cloned into the target, then the tag, if any, is checked out. */
  function GitCloneStep(env: Env, st: State, location: string, target: Path): (r: Done)
    ensures ParseGitUrl(location).Err? ==> r == Done(st, Fail(ParseGitUrl(location).error))
    ensures ParseGitUrl(location).Ok? ==>
      var (url, tag) := ParseGitUrl(location).value;
      var cloned := CloneStep(env, st, url, target);
      (cloned.outcome.Fail? ==> r == Done(cloned.st, Fail(CloneFailed(url, cloned.outcome.error)))) &&
      (cloned.outcome.Pass? && tag == "" ==> r == cloned) &&
      (cloned.outcome.Pass? && tag != "" ==>
        r.st == CheckoutStep(env, cloned.st, target, tag).st &&
        (r.outcome.Pass? <==> CheckoutStep(env, cloned.st, target, tag).outcome.Pass?))
    ensures r.outcome.Pass? ==> ParseGitUrl(location).Ok?
  {
    match ParseGitUrl(location)
    case Err(e) => Done(st, Fail(e))
    case Ok((url, tag)) =>
      var cloned := CloneStep(env, st, url, target);
      if cloned.outcome.Fail? then Done(cloned.st, Fail(CloneFailed(url, cloned.outcome.error)))
      else if tag == "" then cloned
      else
        var out := CheckoutStep(env, cloned.st, target, tag);
        if out.outcome.Fail? then Done(out.st, Fail(CheckoutFailed(tag, url, out.outcome.error))) else out
  }

  /** A git fetch runs git and nothing else: a clone, then at most a
      checkout, and the trace says which. */
  lemma GitCloneTrace(env: Env, st: State, location: string, target: Path)
    requires ParseGitUrl(location).Ok?
    ensures var (url, tag) := ParseGitUrl(location).value;
      var r := GitCloneStep(env, st, location, target);
      r.st.effects == st.effects + [Cloned(url, target)] ||
      (tag != "" && r.st.effects == st.effects + [Cloned(url, target), CheckedOut(target, tag)])
  {
  }

  method CloneGit(w: World, location: string, target: Path) returns (o: Outcome)
    modifies w
    ensures Done(w.Now(), o) == GitCloneStep(w.env, old(w.Now()), location, target)
  {
    var parsed := ParseGitUrl(location);
    if parsed.Err? {
      return Fail(parsed.error);
    }
    var (url, tag) := parsed.value;
    o := w.Clone(url, target);
    if o.Fail? {
      return Fail(CloneFailed(url, o.error));
    }
    if tag != "" {
      o := w.Checkout(target, tag);
      if o.Fail? {
        o := Fail(CheckoutFailed(tag, url, o.error));
      }
    }
  }

  /** The text of the local source `location` names: the normalized path,
      joined to `rootDir` unless it is absolute. */
  function LocalSourceText(location: string, rootDir: Path): (text: string)
    ensures text != ""
    ensures Paths.IsAbs(Utils.NormalizeFilePath(location)) ==> text == Utils.NormalizeFilePath(location)
  {
    var s := Utils.NormalizeFilePath(location);
    if Paths.IsAbs(s) then s else ToString(Join(rootDir, s))
  }

  /** The directory `cloneLocal` copies from: the source, or the directory
      of a source that is an `opa.project` file. A missing source is an
      error; a parent that does not exist is left to the copy to report. */
  function LocalSource(env: Env, fs: FS, location: string, rootDir: Path): (r: Result<Option<Path>>)
    ensures var p := Locate(env.cwd, LocalSourceText(location, rootDir)).value;
      (r.Err? <==> p !in fs) &&
      (r.Err? ==> r.error == LocalSourceMissing(LocalSourceText(location, rootDir))) &&
      (r.Ok? && !(IsFileAt(fs, p) && Base(p) == "opa.project") ==> r.value == Some(p)) &&
      (r.Ok? && IsFileAt(fs, p) && Base(p) == "opa.project" ==>
         r.value == Locate(env.cwd, Utils.GetParentDir(LocalSourceText(location, rootDir))))
  {
    var text := LocalSourceText(location, rootDir);
    var p := Locate(env.cwd, text).value;
    if p !in fs then Err(LocalSourceMissing(text))
    else if !IsDirAt(fs, p) && Base(p) == "opa.project" then Ok(Locate(env.cwd, Utils.GetParentDir(text)))
    else Ok(Some(p))
  }

  /** A relative source names the path under `rootDir`; the manifest of a
      directory there stands for the directory. */
  lemma LocalSourceRelative(env: Env, fs: FS, location: string, rootDir: Path)
    requires IsClean(rootDir)
    requires !Paths.IsAbs(Utils.NormalizeFilePath(location))
    ensures var p := Join(rootDir, Utils.NormalizeFilePath(location));
      (p in fs ==> LocalSource(env, fs, location, rootDir).Ok?) &&
      (p in fs && !(IsFileAt(fs, p) && Base(p) == "opa.project") ==> LocalSource(env, fs, location, rootDir) == Ok(Some(p))) &&
      (p in fs && IsFileAt(fs, p) && Base(p) == "opa.project" && |p| >= 2 ==>
         LocalSource(env, fs, location, rootDir) == Ok(Some(p[..|p| - 1])))
  {
    var s := Utils.NormalizeFilePath(location);
    var p := Join(rootDir, s);
    LocateToString(env.cwd, p);
    if |p| >= 2 {
      Utils.GetParentDirOfPath(p);
      assert IsClean(p[..|p| - 1]);
      LocateToString(env.cwd, p[..|p| - 1]);
    }
  }

  /** `cloneLocal`, and `updateFromLocal` of `proj/dependency.go`: the
      source directory is copied into the target without `.opa` entries and
      without empty files. A copy into its own source is refused. */
  function LocalCopyStep(env: Env, st: State, location: string, rootDir: Path, target: Path): (r: Done)
    ensures LocalSource(env, st.fs, location, rootDir).Err? ==> r == Done(st, Fail(LocalSource(env, st.fs, location, rootDir).error))
    ensures LocalSource(env, st.fs, location, rootDir) == Ok(None) ==> r == Done(st, Fail(CopySourceMissing("")))
    ensures LocalSource(env, st.fs, location, rootDir).Ok? && LocalSource(env, st.fs, location, rootDir).value.Some? ==>
      var src := LocalSource(env, st.fs, location, rootDir).value.value;
      (src in st.fs && Utils.CopyDisjoint(src, target, [".opa"]) ==> r == Utils.Copy(st.fs, st, src, target, [".opa"], true)) &&
      (src in st.fs && !Utils.CopyDisjoint(src, target, [".opa"]) ==> r == Done(st, Fail(CopyIntoItself(src, target)))) &&
      (src !in st.fs ==> r == Done(st, Fail(CopySourceMissing(ToString(src)))))
  {
    match LocalSource(env, st.fs, location, rootDir)
    case Err(e) => Done(st, Fail(e))
    case Ok(None) => Done(st, Fail(CopySourceMissing("")))
    case Ok(Some(src)) =>
      if src !in st.fs then Done(st, Fail(CopySourceMissing(ToString(src))))
      else if !Utils.CopyDisjoint(src, target, [".opa"]) then Done(st, Fail(CopyIntoItself(src, target)))
      else Utils.Copy(st.fs, st, src, target, [".opa"], true)
  }

  /** A local fetch that succeeds leaves a copy of the source at the
      target, with no `.opa` entry and no empty file, and changes nothing
      the copy does not make. */
  lemma LocalCopyMirrors(env: Env, st: State, location: string, rootDir: Path, target: Path)
    requires LocalCopyStep(env, st, location, rootDir, target).outcome.Pass?
    ensures LocalSource(env, st.fs, location, rootDir).Ok? && LocalSource(env, st.fs, location, rootDir).value.Some?
    ensures var src := LocalSource(env, st.fs, location, rootDir).value.value;
      var after := LocalCopyStep(env, st, location, rootDir, target).st.fs;
      Utils.Mirrored(st.fs, after, src, Utils.Target(st.fs, src, target), [".opa"], true) &&
      Utils.OnlyMade(st.fs, st.fs, after, src, target, [".opa"], true)
  {
    var src := LocalSource(env, st.fs, location, rootDir).value.value;
    Utils.CopyMirrors(st.fs, st, src, target, [".opa"], true);
    Utils.CopyOnlyMakes(st.fs, st, src, target, [".opa"], true);
  }

  method CloneLocal(w: World, location: string, rootDir: Path, target: Path) returns (o: Outcome)
    modifies w
    ensures Done(w.Now(), o) == LocalCopyStep(w.env, old(w.Now()), location, rootDir, target)
  {
    var source := LocalSource(w.env, w.fs, location, rootDir);
    if source.Err? {
      return Fail(source.error);
    }
    if source.value.None? {
      return Fail(CopySourceMissing(""));
    }
    var src := source.value.value;
    if src !in w.fs {
      return Fail(CopySourceMissing(ToString(src)));
    }
    if !Utils.CopyDisjoint(src, target, [".opa"]) {
      return Fail(CopyIntoItself(src, target));
    }
    o := Utils.CopyAll(w, src, target, [".opa"], true);
  }

  /** `Location.Clone`: local locations are copied, git locations cloned,
      and anything else is refused before the target is touched. */
  function CloneLocationStep(env: Env, st: State, location: string, rootDir: Path, target: Path): (r: Done)
    ensures !IsSupported(location) ==> r == Done(st, Fail(UnsupportedLocation(location)))
    ensures IsLocal(location) ==> r == LocalCopyStep(env, st, location, rootDir, target)
    ensures IsGit(location) ==> r == GitCloneStep(env, st, location, target)
  {
    LocalNotGit(location);
    if IsLocal(location) then LocalCopyStep(env, st, location, rootDir, target)
    else if IsGit(location) then GitCloneStep(env, st, location, target)
    else Done(st, Fail(UnsupportedLocation(location)))
  }

  method Clone(w: World, location: string, rootDir: Path, target: Path) returns (o: Outcome)
    modifies w
    ensures Done(w.Now(), o) == CloneLocationStep(w.env, old(w.Now()), location, rootDir, target)
  {
    if IsLocal(location) {
      o := CloneLocal(w, location, rootDir, target);
    } else if IsGit(location) {
      o := CloneGit(w, location, target);
    } else {
      o := Fail(UnsupportedLocation(location));
    }
  }
}
