/** The machine the dependency manager runs on: the file system, a trace of
    the actions taken on it, and the outside parts the model does not look
    into (git, the `opa` binary, SHA-256, the YAML parser, the order in which
    Go iterates a map), which are parameters of the model. */
module Worlds {
  import opened Paths
  import opened Outcomes
  import opened Files
  import Yaml
  import Strings

  /** One action on the file system or on an outside program, recorded
      whether or not it succeeded. */
  datatype Effect =
    | Removed(path: Path)
    | MadeDirs(path: Path)
    | ReadFrom(path: Path)
    | WroteTo(path: Path)
    | Cloned(url: string, target: Path)
    | CheckedOut(target: Path, tag: string)
    | Ran(command: string, args: seq<string>)

  /** Lower-case hexadecimal, 64 digits: `fmt.Sprintf("%x", sha256.Sum)`. */
  predicate IsHexDigest(s: string) {
    |s| == 64 && forall i :: 0 <= i < |s| ==> '0' <= s[i] <= '9' || 'a' <= s[i] <= 'f'
  }

  type Digest = s: string | IsHexDigest(s)
    witness Strings.Repeat('0', 64)

  /** A digest is a path component: a directory can be named by it. */
  lemma DigestIsComponent(d: Digest)
    ensures IsComponent(d)
  {
    assert '/' !in d by {
      forall i | 0 <= i < |d| ensures d[i] != '/' { }
    }
  }

  /** `s` lists the members of `keys`, each once. */
  predicate IsEnumeration(s: seq<string>, keys: set<string>) {
    (forall k :: k in keys ==> k in s) &&
    (forall k :: k in s ==> k in keys) &&
    (forall i, j :: 0 <= i < j < |s| ==> s[i] != s[j])
  }

  /** An order in which a Go `for ... range` may visit the keys of a map:
      any order, each key once. */
  type KeyOrder = f: set<string> -> seq<string> | forall keys :: IsEnumeration(f(keys), keys)
    witness (keys: set<string>) => Strings.SortedNames(keys)

  /** What the model leaves uninterpreted. */
  datatype Env = Env(
    cwd: Path,
    variables: map<string, string>,
    sha256: string -> Digest,
    order: KeyOrder,
    clone: (FS, string, Path) -> Result<FS>,
    checkout: (FS, Path, string) -> Result<FS>,
    run: (FS, string, seq<string>) -> Result<(FS, string)>,
    parseProject: seq<Files.byte> -> Result<Yaml.ProjectFile>,
    parseRepository: seq<Files.byte> -> Result<map<string, string>>)

  datatype State = State(fs: FS, effects: seq<Effect>)

  /** A new state and the error-only outcome of the step that produced it. */
  datatype Done = Done(st: State, outcome: Outcome)

  /** A new state and the result of the step that produced it. */
  datatype Got<T> = Got(st: State, result: Result<T>)

  /** `after` continues the trace of `before`, and every directory wiped in
      between lies directly below `root`. */
  ghost predicate WipesBelow(before: State, after: State, root: Path) {
    before.effects <= after.effects &&
    forall i :: |before.effects| <= i < |after.effects| && after.effects[i].Removed? ==>
      |after.effects[i].path| == |root| + 1 && IsPrefix(root, after.effects[i].path)
  }

  /** `after` continues the trace of `before` and wipes nothing. */
  ghost predicate NoWipes(before: State, after: State) {
    before.effects <= after.effects &&
    forall i :: |before.effects| <= i < |after.effects| ==> !after.effects[i].Removed?
  }

  /** `after` continues the trace of `before` with file-system and git
      actions only: it wipes nothing and runs no program. */
  ghost predicate Quiet(before: State, after: State) {
    before.effects <= after.effects &&
    forall i :: |before.effects| <= i < |after.effects| ==> !after.effects[i].Removed? && !after.effects[i].Ran?
  }

  lemma QuietTrans(a: State, b: State, c: State)
    requires Quiet(a, b) && Quiet(b, c)
    ensures Quiet(a, c)
  {
    forall i | |a.effects| <= i < |c.effects| ensures !c.effects[i].Removed? && !c.effects[i].Ran? {
      if i < |b.effects| {
        assert c.effects[i] == b.effects[i];
      }
    }
  }

  lemma NoWipesTrans(a: State, b: State, c: State)
    requires NoWipes(a, b) && NoWipes(b, c)
    ensures NoWipes(a, c)
  {
    forall i | |a.effects| <= i < |c.effects| ensures !c.effects[i].Removed? {
      if i < |b.effects| {
        assert c.effects[i] == b.effects[i];
      }
    }
  }

  lemma WipesBelowTrans(a: State, b: State, c: State, root: Path)
    requires WipesBelow(a, b, root) && WipesBelow(b, c, root)
    ensures WipesBelow(a, c, root)
  {
    forall i | |a.effects| <= i < |c.effects| && c.effects[i].Removed?
      ensures |c.effects[i].path| == |root| + 1 && IsPrefix(root, c.effects[i].path)
    {
      if i < |b.effects| {
        assert c.effects[i] == b.effects[i];
      }
    }
  }

  lemma NoWipesBelow(a: State, b: State, root: Path)
    requires NoWipes(a, b)
    ensures WipesBelow(a, b, root)
  {
  }

  function RemoveAllStep(st: State, p: Path): (r: State)
    ensures r.effects == st.effects + [Removed(p)]
    ensures forall k :: k in r.fs <==> k in st.fs && !IsPrefix(p, k)
  {
    State(RemoveAll(st.fs, p), st.effects + [Removed(p)])
  }

  function MkdirAllStep(st: State, p: Path): (r: Done)
    ensures r.st.effects == st.effects + [MadeDirs(p)]
    ensures r.outcome.Pass? <==> CanMkdirAll(st.fs, p)
    ensures r.outcome.Pass? ==> IsDirAt(r.st.fs, p)
    ensures r.outcome.Fail? ==> r.st.fs == st.fs && r.outcome.error == MkdirFailed(p)
  {
    var effects := st.effects + [MadeDirs(p)];
    assert p in Prefixes(p);
    if CanMkdirAll(st.fs, p) then Done(State(MkdirAll(st.fs, p), effects), Pass)
    else Done(State(st.fs, effects), Fail(MkdirFailed(p)))
  }

  function ReadFileStep(st: State, p: Path): (r: Got<seq<byte>>)
    ensures r.st == State(st.fs, st.effects + [ReadFrom(p)])
    ensures r.result.Ok? <==> IsFileAt(st.fs, p)
    ensures r.result.Ok? ==> st.fs[p] == File(r.result.value)
  {
    var st' := State(st.fs, st.effects + [ReadFrom(p)]);
    if IsFileAt(st.fs, p) then Got(st', Ok(st.fs[p].data)) else Got(st', Err(ReadFailed(p)))
  }

  function WriteFileStep(st: State, p: Path, data: seq<byte>): (r: Done)
    ensures r.st.effects == st.effects + [WroteTo(p)]
    ensures r.outcome.Pass? <==> CanWrite(st.fs, p)
    ensures r.outcome.Pass? ==> r.st.fs == st.fs[p := File(data)]
    ensures r.outcome.Fail? ==> r.st.fs == st.fs
  {
    var effects := st.effects + [WroteTo(p)];
    if CanWrite(st.fs, p) then Done(State(st.fs[p := File(data)], effects), Pass)
    else Done(State(st.fs, effects), Fail(WriteFailed(p)))
  }

  function CloneStep(env: Env, st: State, url: string, target: Path): (r: Done)
    ensures r.st.effects == st.effects + [Cloned(url, target)]
  {
    var effects := st.effects + [Cloned(url, target)];
    match env.clone(st.fs, url, target)
    case Ok(fs) => Done(State(fs, effects), Pass)
    case Err(e) => Done(State(st.fs, effects), Fail(e))
  }

  function CheckoutStep(env: Env, st: State, target: Path, tag: string): (r: Done)
    ensures r.st.effects == st.effects + [CheckedOut(target, tag)]
  {
    var effects := st.effects + [CheckedOut(target, tag)];
    match env.checkout(st.fs, target, tag)
    case Ok(fs) => Done(State(fs, effects), Pass)
    case Err(e) => Done(State(st.fs, effects), Fail(e))
  }

  /** `utils.RunCommand`: runs a program, giving its output or its error. */
  function RunStep(env: Env, st: State, command: string, args: seq<string>): (r: Got<string>)
    ensures r.st.effects == st.effects + [Ran(command, args)]
  {
    var effects := st.effects + [Ran(command, args)];
    match env.run(st.fs, command, args)
    case Ok((fs, output)) => Got(State(fs, effects), Ok(output))
    case Err(e) => Got(State(st.fs, effects), Err(e))
  }

  /** The running program's view of the machine. */
  class World {
    var fs: FS
    var effects: seq<Effect>
    const env: Env

    constructor (env: Env, fs: FS)
      ensures this.env == env && this.fs == fs && effects == []
    {
      this.env := env;
      this.fs := fs;
      effects := [];
    }

    function Now(): State
      reads this
    {
      State(fs, effects)
    }

    method RemoveAll(p: Path)
      modifies this
      ensures Now() == RemoveAllStep(old(Now()), p)
    {
      fs := Files.RemoveAll(fs, p);
      effects := effects + [Removed(p)];
    }

    method MkdirAll(p: Path) returns (o: Outcome)
      modifies this
      ensures Done(Now(), o) == MkdirAllStep(old(Now()), p)
    {
      effects := effects + [MadeDirs(p)];
      if CanMkdirAll(fs, p) {
        fs := Files.MkdirAll(fs, p);
        o := Pass;
      } else {
        o := Fail(MkdirFailed(p));
      }
    }

    method ReadFile(p: Path) returns (r: Result<seq<byte>>)
      modifies this
      ensures Got(Now(), r) == ReadFileStep(old(Now()), p)
    {
      effects := effects + [ReadFrom(p)];
      if IsFileAt(fs, p) {
        r := Ok(fs[p].data);
      } else {
        r := Err(ReadFailed(p));
      }
    }

    method WriteFile(p: Path, data: seq<byte>) returns (o: Outcome)
      modifies this
      ensures Done(Now(), o) == WriteFileStep(old(Now()), p, data)
    {
      effects := effects + [WroteTo(p)];
      if CanWrite(fs, p) {
        fs := fs[p := File(data)];
        o := Pass;
      } else {
        o := Fail(WriteFailed(p));
      }
    }

    method Clone(url: string, target: Path) returns (o: Outcome)
      modifies this
      ensures Done(Now(), o) == CloneStep(env, old(Now()), url, target)
    {
      var d := CloneStep(env, Now(), url, target);
      fs, effects, o := d.st.fs, d.st.effects, d.outcome;
    }

    method Checkout(target: Path, tag: string) returns (o: Outcome)
      modifies this
      ensures Done(Now(), o) == CheckoutStep(env, old(Now()), target, tag)
    {
      var d := CheckoutStep(env, Now(), target, tag);
      fs, effects, o := d.st.fs, d.st.effects, d.outcome;
    }

    method Run(command: string, args: seq<string>) returns (r: Result<string>)
      modifies this
      ensures Got(Now(), r) == RunStep(env, old(Now()), command, args)
    {
      var g := RunStep(env, Now(), command, args);
      fs, effects, r := g.st.fs, g.st.effects, g.result;
    }
  }
}
