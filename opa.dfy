/** `utils/opa.go`: the argument lists the dependency manager hands to the
    `opa` binary, and the runs that pass them. */
module OpaCli {
  import opened Outcomes
  import opened Worlds

  /** An `opa` invocation in the making: the binary, the data locations and,
      for `build`, the entrypoints and the target. */
  datatype Opa = Opa(location: string, dataLocations: seq<string>, entrypoints: seq<string>, target: string)

  /** `NewOpa`: the binary is `OPA_PATH` when that variable is set, even to
      the empty string, and `opa` otherwise. */
  function NewOpa(env: Env, dataLocations: seq<string>): (o: Opa)
    ensures "OPA_PATH" in env.variables ==> o.location == env.variables["OPA_PATH"]
    ensures "OPA_PATH" !in env.variables ==> o.location == "opa"
    ensures o.dataLocations == dataLocations && o.entrypoints == [] && o.target == ""
  {
    Opa(if "OPA_PATH" in env.variables then env.variables["OPA_PATH"] else "opa", dataLocations, [], "")
  }

  /** `WithEntrypoints`: a copy with other entrypoints; the receiver stays
      as it was. */
  function WithEntrypoints(o: Opa, entrypoints: seq<string>): (r: Opa)
    ensures r.entrypoints == entrypoints
    ensures r.location == o.location && r.dataLocations == o.dataLocations && r.target == o.target
  {
    o.(entrypoints := entrypoints)
  }

  /** `WithTarget`: a copy with another target. */
  function WithTarget(o: Opa, target: string): (r: Opa)
    ensures r.target == target
    ensures r.location == o.location && r.dataLocations == o.dataLocations && r.entrypoints == o.entrypoints
  {
    o.(target := target)
  }

  /** The flags naming each of `values`, in order, after `flag` when there
      is one: `-d a -d b` for `["a", "b"]` and `-d`. */
  function Flagged(flag: Option<string>, values: seq<string>): (r: seq<string>)
    ensures |r| == (if flag.Some? then 2 * |values| else |values|)
  {
    if values == [] then []
    else
      var last := values[|values| - 1];
      Flagged(flag, values[..|values| - 1]) + (if flag.Some? then [flag.value, last] else [last])
  }

  /** Without a flag the values are listed as they are. */
  lemma {:induction false} FlaggedBare(values: seq<string>)
    ensures Flagged(None, values) == values
    decreases |values|
  {
    if values != [] {
      FlaggedBare(values[..|values| - 1]);
      assert values[..|values| - 1] + [values[|values| - 1]] == values;
    }
  }

  /** With a flag, the flag stands before each value, in the order given. */
  lemma {:induction false} FlaggedAt(flag: string, values: seq<string>, i: int)
    requires 0 <= i < |values|
    ensures Flagged(Some(flag), values)[2 * i] == flag
    ensures Flagged(Some(flag), values)[2 * i + 1] == values[i]
    decreases |values|
  {
    var init := values[..|values| - 1];
    if i < |values| - 1 {
      FlaggedAt(flag, init, i);
      assert init[i] == values[i];
    }
  }

  /** Nothing but the flag and the values appears in the list. */
  lemma {:induction false} FlaggedMembers(flag: Option<string>, values: seq<string>, x: string)
    ensures x in Flagged(flag, values) ==> x in values || (flag.Some? && x == flag.value)
    decreases |values|
  {
    if values != [] {
      var init := values[..|values| - 1];
      FlaggedMembers(flag, init, x);
      assert forall y :: y in init ==> y in values;
    }
  }

  /** `prefixDataLocations`: the locations, each after `-d` when
      `namedFlag`, then the flags. */
  method PrefixDataLocations(dataLocations: seq<string>, flags: seq<string>, namedFlag: bool) returns (r: seq<string>)
    ensures r == Flagged(if namedFlag then Some("-d") else None, dataLocations) + flags
  {
    var flag := if namedFlag then Some("-d") else None;
    var newFlags := [];
    for i := 0 to |dataLocations|
      invariant newFlags == Flagged(flag, dataLocations[..i])
    {
      if namedFlag {
        newFlags := newFlags + ["-d", dataLocations[i]];
      } else {
        newFlags := newFlags + [dataLocations[i]];
      }
      assert dataLocations[..i + 1][..i] == dataLocations[..i];
    }
    assert dataLocations[..|dataLocations|] == dataLocations;
    r := newFlags + flags;
  }

  /** `prefixEntrypoints`: `-e` before each entrypoint, then the flags. */
  method PrefixEntrypoints(entrypoints: seq<string>, flags: seq<string>) returns (r: seq<string>)
    ensures r == Flagged(Some("-e"), entrypoints) + flags
  {
    var newFlags := [];
    for i := 0 to |entrypoints|
      invariant newFlags == Flagged(Some("-e"), entrypoints[..i])
    {
      newFlags := newFlags + ["-e", entrypoints[i]];
      assert entrypoints[..i + 1][..i] == entrypoints[..i];
    }
    assert entrypoints[..|entrypoints|] == entrypoints;
    r := newFlags + flags;
  }

  predicate HasOutputFlag(flags: seq<string>) {
    "-o" in flags || "--output" in flags
  }

  predicate HasTargetFlag(flags: seq<string>) {
    "-t" in flags || "--target" in flags
  }

  /** `prefixOutput`: `-o outputPath` in front unless the flags already name
      an output; an empty path is put in front all the same. */
  function PrefixOutput(outputPath: string, flags: seq<string>): (r: seq<string>)
    ensures HasOutputFlag(r)
    ensures HasOutputFlag(flags) ==> r == flags
    ensures !HasOutputFlag(flags) ==> r == ["-o", outputPath] + flags
  {
    if !("-o" in flags) && !("--output" in flags) then
      assert (["-o", outputPath] + flags)[0] == "-o";
      ["-o", outputPath] + flags
    else flags
  }

  /** `prefixTarget`: `-t target` in front unless the target is empty or the
      flags already name a target. */
  function PrefixTarget(target: string, flags: seq<string>): (r: seq<string>)
    ensures target != "" ==> HasTargetFlag(r)
    ensures target == "" || HasTargetFlag(flags) ==> r == flags
    ensures target != "" && !HasTargetFlag(flags) ==> r == ["-t", target] + flags
  {
    if target == "" then flags
    else if !("-t" in flags) && !("--target" in flags) then
      assert (["-t", target] + flags)[0] == "-t";
      ["-t", target] + flags
    else flags
  }

  /** Putting the output in front twice puts it there once. */
  lemma PrefixOutputIdempotent(outputPath: string, flags: seq<string>)
    ensures PrefixOutput(outputPath, PrefixOutput(outputPath, flags)) == PrefixOutput(outputPath, flags)
  {
  }

  /** Putting the target in front twice puts it there once. */
  lemma PrefixTargetIdempotent(target: string, flags: seq<string>)
    ensures PrefixTarget(target, PrefixTarget(target, flags)) == PrefixTarget(target, flags)
  {
  }

  /** `runOpaCommand`'s argument list: the command, then the flags. */
  function CommandArgs(command: string, flags: seq<string>): (r: seq<string>)
    ensures |r| == 1 + |flags| && r[0] == command && r[1..] == flags
  {
    [command] + flags
  }

  /** What `Eval` passes: `eval`, `-d loc` for each location, the
      pass-through arguments. */
  function EvalArgs(o: Opa, args: seq<string>): seq<string> {
    CommandArgs("eval", Flagged(Some("-d"), o.dataLocations) + args)
  }

  /** What `Test` passes: `test`, the locations, the pass-through arguments. */
  function TestArgs(o: Opa, args: seq<string>): seq<string> {
    CommandArgs("test", Flagged(None, o.dataLocations) + args)
  }

  /** What `Build` passes after `build`: the locations first, then the
      target, the output, the entrypoints and the pass-through flags. */
  function BuildFlags(o: Opa, outputPath: string, flags: seq<string>): seq<string> {
    Flagged(None, o.dataLocations)
      + PrefixTarget(o.target, PrefixOutput(outputPath, Flagged(Some("-e"), o.entrypoints) + flags))
  }

  /** What `Refactor` passes: `refactor move`, the locations, `-w -p from:to`. */
  function RefactorArgs(o: Opa, fromPackage: string, toPackage: string): seq<string> {
    CommandArgs("refactor", ["move"] + o.dataLocations + ["-w", "-p", fromPackage + ":" + toPackage])
  }

  /** `eval`'s argument list, position by position. */
  lemma EvalLayout(o: Opa, args: seq<string>)
    ensures var r := EvalArgs(o, args);
            var n := |o.dataLocations|;
            |r| == 1 + 2 * n + |args| && r[0] == "eval" &&
            (forall i :: 0 <= i < n ==> r[1 + 2 * i] == "-d" && r[2 + 2 * i] == o.dataLocations[i]) &&
            r[1 + 2 * n..] == args
  {
    var r := EvalArgs(o, args);
    var d := Flagged(Some("-d"), o.dataLocations);
    forall i | 0 <= i < |o.dataLocations|
      ensures r[1 + 2 * i] == "-d" && r[2 + 2 * i] == o.dataLocations[i]
    {
      FlaggedAt("-d", o.dataLocations, i);
      assert r[1 + 2 * i] == d[2 * i] && r[2 + 2 * i] == d[2 * i + 1];
    }
    assert r[1 + |d|..] == args;
  }

  /** `test`'s argument list: the locations are passed bare. */
  lemma TestLayout(o: Opa, args: seq<string>)
    ensures TestArgs(o, args) == ["test"] + o.dataLocations + args
  {
    FlaggedBare(o.dataLocations);
  }

  /** `build`'s argument list, part by part: the locations; `-t target`
      when a target is set and the pass-through flags name none; `-o path`
      when they name no output; `-e` before each entrypoint; the flags.
      An entrypoint or output path spelled like one of these flags would
      change the outcome, and is set aside. */
  lemma BuildLayout(o: Opa, outputPath: string, flags: seq<string>)
    requires outputPath != "-t" && outputPath != "--target"
    requires !HasTargetFlag(o.entrypoints) && !HasOutputFlag(o.entrypoints)
    ensures BuildFlags(o, outputPath, flags)
         == o.dataLocations
          + (if o.target != "" && !HasTargetFlag(flags) then ["-t", o.target] else [])
          + (if HasOutputFlag(flags) then [] else ["-o", outputPath])
          + Flagged(Some("-e"), o.entrypoints) + flags
  {
    FlaggedBare(o.dataLocations);
    var ep := Flagged(Some("-e"), o.entrypoints);
    var e := ep + flags;
    FlaggedMembers(Some("-e"), o.entrypoints, "-t");
    FlaggedMembers(Some("-e"), o.entrypoints, "--target");
    FlaggedMembers(Some("-e"), o.entrypoints, "-o");
    FlaggedMembers(Some("-e"), o.entrypoints, "--output");
    assert HasTargetFlag(e) <==> HasTargetFlag(flags);
    assert HasOutputFlag(e) <==> HasOutputFlag(flags);
    var O := if HasOutputFlag(flags) then [] else ["-o", outputPath];
    var out := PrefixOutput(outputPath, e);
    assert out == O + e;
    assert HasTargetFlag(out) <==> HasTargetFlag(flags) by {
      assert forall x :: x in O + e <==> x in O || x in e;
    }
    var T := if o.target != "" && !HasTargetFlag(flags) then ["-t", o.target] else [];
    assert PrefixTarget(o.target, out) == T + (O + e);
    Regroup(o.dataLocations, T, O, ep, flags);
  }

  lemma Regroup<T>(a: seq<T>, b: seq<T>, c: seq<T>, d: seq<T>, e: seq<T>)
    ensures a + (b + (c + (d + e))) == a + b + c + d + e
  {
  }

  /** `opa eval`, with `-d` before each data location. */
  method Eval(w: World, o: Opa, args: seq<string>) returns (r: Result<string>)
    modifies w
    ensures Got(w.Now(), r) == RunStep(w.env, old(w.Now()), o.location, EvalArgs(o, args))
  {
    var flags := PrefixDataLocations(o.dataLocations, args, true);
    r := w.Run(o.location, ["eval"] + flags);
  }

  /** `opa test`, with the data locations bare. */
  method Test(w: World, o: Opa, args: seq<string>) returns (r: Result<string>)
    modifies w
    ensures Got(w.Now(), r) == RunStep(w.env, old(w.Now()), o.location, TestArgs(o, args))
  {
    var flags := PrefixDataLocations(o.dataLocations, args, false);
    r := w.Run(o.location, ["test"] + flags);
  }

  /** `opa build`: the flags are put together from the back, since the
      locations must come first. */
  method Build(w: World, o: Opa, outputPath: string, flags: seq<string>) returns (r: Result<string>)
    modifies w
    ensures Got(w.Now(), r) == RunStep(w.env, old(w.Now()), o.location, CommandArgs("build", BuildFlags(o, outputPath, flags)))
  {
    var args := PrefixEntrypoints(o.entrypoints, flags);
    args := PrefixOutput(outputPath, args);
    args := PrefixTarget(o.target, args);
    args := PrefixDataLocations(o.dataLocations, args, false);
    r := w.Run(o.location, CommandArgs("build", args));
  }

  /** The step `Refactor` takes: only its error is kept. */
  function RefactorStep(env: Env, st: State, o: Opa, fromPackage: string, toPackage: string): (r: Done)
    ensures r.st.effects == st.effects + [Ran(o.location, RefactorArgs(o, fromPackage, toPackage))]
    ensures r.outcome.Pass? <==> RunStep(env, st, o.location, RefactorArgs(o, fromPackage, toPackage)).result.Ok?
  {
    var g := RunStep(env, st, o.location, RefactorArgs(o, fromPackage, toPackage));
    Done(g.st, if g.result.Ok? then Pass else Fail(g.result.error))
  }

  /** `opa refactor move ... -w -p from:to`. */
  method Refactor(w: World, o: Opa, fromPackage: string, toPackage: string) returns (r: Outcome)
    modifies w
    ensures Done(w.Now(), r) == RefactorStep(w.env, old(w.Now()), o, fromPackage, toPackage)
  {
    var g := w.Run(o.location, RefactorArgs(o, fromPackage, toPackage));
    r := if g.Ok? then Pass else Fail(g.error);
  }
}
