/** String helpers with the behaviour of the Go library functions the system
    calls: `strings.HasPrefix`, `HasSuffix`, `TrimPrefix`, `Split`, `Join` and
    `Repeat`, and the name order in which `os.ReadDir` lists a directory. */
module Strings {

  predicate HasPrefix(s: string, prefix: string) {
    |prefix| <= |s| && s[..|prefix|] == prefix
  }

  predicate HasSuffix(s: string, suffix: string) {
    |suffix| <= |s| && s[|s| - |suffix|..] == suffix
  }

  /** `strings.TrimPrefix`: removes one leading occurrence of `prefix`. */
  function TrimPrefix(s: string, prefix: string): (r: string)
    ensures HasPrefix(s, prefix) ==> s == prefix + r
    ensures !HasPrefix(s, prefix) ==> r == s
  {
    if HasPrefix(s, prefix) then s[|prefix|..] else s
  }

  /** Number of occurrences of `c` in `s`. */
  function Count(s: string, c: char): nat {
    if s == [] then 0 else (if s[0] == c then 1 else 0) + Count(s[1..], c)
  }

  /** `strings.Split(s, string(sep))`: the maximal pieces of `s` between
      separators, so there is always one more piece than separators. */
  function Split(s: string, sep: char): (parts: seq<string>)
    ensures |parts| == Count(s, sep) + 1
    ensures forall p :: p in parts ==> sep !in p
  {
    if s == [] then [""]
    else
      var rest := Split(s[1..], sep);
      if s[0] == sep then [""] + rest
      else [[s[0]] + rest[0]] + rest[1..]
  }

  /** `strings.Join(parts, sep)`. */
  function Join(parts: seq<string>, sep: string): string {
    if parts == [] then ""
    else if |parts| == 1 then parts[0]
    else parts[0] + sep + Join(parts[1..], sep)
  }

  /** Joining splits off the last part: the parts before it, the
      separator, the last part. */
  lemma {:induction false} JoinSnoc(parts: seq<string>, sep: string)
    requires |parts| >= 2
    ensures Join(parts, sep) == Join(parts[..|parts| - 1], sep) + sep + parts[|parts| - 1]
    decreases |parts|
  {
    if |parts| > 2 {
      JoinSnoc(parts[1..], sep);
      assert parts[1..][..|parts| - 2] == parts[..|parts| - 1][1..];
    }
  }

  /** `strings.Repeat(string(c), n)`. */
  function Repeat(c: char, n: nat): (r: string)
    ensures |r| == n
    ensures forall i :: 0 <= i < n ==> r[i] == c
  {
    if n == 0 then "" else [c] + Repeat(c, n - 1)
  }

  lemma {:induction false} CountZero(s: string, c: char)
    ensures Count(s, c) == 0 <==> c !in s
  {
    if s != [] {
      CountZero(s[1..], c);
      assert s == [s[0]] + s[1..];
    }
  }

  lemma {:induction false} CountConcat(a: string, b: string, c: char)
    ensures Count(a + b, c) == Count(a, c) + Count(b, c)
  {
    if a == [] {
      assert a + b == b;
    } else {
      assert (a + b)[1..] == a[1..] + b;
      CountConcat(a[1..], b, c);
    }
  }

  /** Splitting a string without the separator gives the string back alone. */
  lemma {:induction false} SplitNoSeparator(s: string, sep: char)
    requires sep !in s
    ensures Split(s, sep) == [s]
  {
    CountZero(s, sep);
    var parts := Split(s, sep);
    assert |parts| == 1;
    JoinSplit(s, sep);
  }

  /** A separator after a separator-free prefix ends the first piece there. */
  lemma {:induction false} SplitAfterPiece(a: string, b: string, sep: char)
    requires sep !in a
    ensures Split(a + [sep] + b, sep) == [a] + Split(b, sep)
  {
    if a == [] {
      assert a + [sep] + b == [sep] + b;
      assert ([sep] + b)[1..] == b;
    } else {
      var s := a + [sep] + b;
      assert s[0] == a[0];
      assert s[1..] == a[1..] + [sep] + b;
      SplitAfterPiece(a[1..], b, sep);
      assert [a[0]] + a[1..] == a;
    }
  }

  /** A separator splits the text around it into the pieces of each side. */
  lemma {:induction false} SplitConcat(a: string, b: string, sep: char)
    ensures Split(a + [sep] + b, sep) == Split(a, sep) + Split(b, sep)
    decreases |a|
  {
    if a == [] {
      assert a + [sep] + b == [sep] + b;
      assert ([sep] + b)[1..] == b;
    } else {
      var s := a + [sep] + b;
      assert s[0] == a[0];
      assert s[1..] == a[1..] + [sep] + b;
      SplitConcat(a[1..], b, sep);
    }
  }

  /** Joining the pieces with the separator restores the input. */
  lemma {:induction false} JoinSplit(s: string, sep: char)
    ensures Join(Split(s, sep), [sep]) == s
  {
    if s != [] {
      JoinSplit(s[1..], sep);
      var rest := Split(s[1..], sep);
      if s[0] == sep {
        assert Split(s, sep) == [""] + rest;
        assert ([""] + rest)[1..] == rest;
      } else {
        var parts := Split(s, sep);
        assert parts == [[s[0]] + rest[0]] + rest[1..];
        if |rest| == 1 {
          assert parts == [[s[0]] + rest[0]];
          assert Join(rest, [sep]) == rest[0];
        } else {
          assert parts[1..] == rest[1..];
          assert Join(rest, [sep]) == rest[0] + [sep] + Join(rest[1..], [sep]);
        }
        assert s == [s[0]] + s[1..];
      }
    }
  }

  /** Byte-wise lexicographic order on strings, the order `os.ReadDir` sorts by. */
  predicate LessEq(a: string, b: string) {
    a == [] || (b != [] && (a[0] < b[0] || (a[0] == b[0] && LessEq(a[1..], b[1..]))))
  }

  lemma {:induction false} LessEqReflexive(a: string)
    ensures LessEq(a, a)
  {
    if a != [] { LessEqReflexive(a[1..]); }
  }

  lemma {:induction false} LessEqTotal(a: string, b: string)
    ensures LessEq(a, b) || LessEq(b, a)
  {
    if a != [] && b != [] && a[0] == b[0] { LessEqTotal(a[1..], b[1..]); }
  }

  lemma {:induction false} LessEqAntisymmetric(a: string, b: string)
    requires LessEq(a, b) && LessEq(b, a)
    ensures a == b
  {
    if a != [] && b != [] {
      LessEqAntisymmetric(a[1..], b[1..]);
      assert a == [a[0]] + a[1..];
      assert b == [b[0]] + b[1..];
    }
  }

  lemma {:induction false} LessEqTransitive(a: string, b: string, c: string)
    requires LessEq(a, b) && LessEq(b, c)
    ensures LessEq(a, c)
  {
    if a != [] && b != [] && c != [] && a[0] == b[0] && b[0] == c[0] {
      LessEqTransitive(a[1..], b[1..], c[1..]);
    }
  }

  predicate IsLeast(m: string, s: set<string>) {
    m in s && forall x :: x in s ==> LessEq(m, x)
  }

  lemma {:induction false} LeastExists(s: set<string>)
    requires s != {}
    ensures exists m :: IsLeast(m, s)
    decreases |s|
  {
    var x :| x in s;
    LessEqReflexive(x);
    if s == {x} {
      assert IsLeast(x, s);
    } else {
      LeastExists(s - {x});
      var m :| IsLeast(m, s - {x});
      LessEqTotal(m, x);
      if LessEq(m, x) {
        assert IsLeast(m, s);
      } else {
        forall y | y in s ensures LessEq(x, y) {
          if y != x { LessEqTransitive(x, m, y); }
        }
        assert IsLeast(x, s);
      }
    }
  }

  function Least(s: set<string>): (m: string)
    requires s != {}
    ensures IsLeast(m, s)
  {
    LeastExists(s);
    var m :| IsLeast(m, s);
    assert forall m' :: IsLeast(m', s) ==> m' == m by {
      forall m' | IsLeast(m', s) ensures m' == m { LessEqAntisymmetric(m, m'); }
    }
    m
  }

  /** The least member is the only one. */
  lemma LeastUnique(m: string, s: set<string>)
    requires IsLeast(m, s)
    ensures Least(s) == m
  {
    LessEqAntisymmetric(m, Least(s));
  }

  predicate Distinct(s: seq<string>) {
    forall i, j :: 0 <= i < j < |s| ==> s[i] != s[j]
  }

  /** The members of `s` in ascending order, each once. */
  function SortedNames(s: set<string>): (r: seq<string>)
    ensures |r| == |s|
    ensures forall x :: x in s <==> x in r
    ensures Distinct(r)
    decreases |s|
  {
    if s == {} then [] else
    var m := Least(s);
    [m] + SortedNames(s - {m})
  }

  /** `names` without the members of `exclude`, in the same order. */
  function Without(names: seq<string>, exclude: seq<string>): (r: seq<string>)
    ensures forall x :: x in r <==> x in names && x !in exclude
    ensures Distinct(names) ==> Distinct(r)
  {
    if names == [] then []
    else if names[0] in exclude then Without(names[1..], exclude)
    else [names[0]] + Without(names[1..], exclude)
  }

  lemma WithoutCons(m: string, t: seq<string>, exclude: seq<string>)
    ensures m in exclude ==> Without([m] + t, exclude) == Without(t, exclude)
    ensures m !in exclude ==> Without([m] + t, exclude) == [m] + Without(t, exclude)
  {
    assert ([m] + t)[1..] == t;
  }

  /** The members of `s` that are not in `exclude`. */
  function Kept(s: set<string>, exclude: seq<string>): (r: set<string>)
    ensures forall x :: x in r <==> x in s && x !in exclude
  {
    set x | x in s && x !in exclude
  }

  /** Leaving names out of a sorted listing lists the remaining set. */
  lemma {:induction false} WithoutSorted(s: set<string>, exclude: seq<string>)
    ensures Without(SortedNames(s), exclude) == SortedNames(Kept(s, exclude))
    decreases |s|
  {
    if s == {} {
      assert Kept(s, exclude) == {};
    } else {
      var m := Least(s);
      var rest := s - {m};
      assert SortedNames(s) == [m] + SortedNames(rest);
      WithoutSorted(rest, exclude);
      WithoutCons(m, SortedNames(rest), exclude);
      if m in exclude {
        assert Kept(rest, exclude) == Kept(s, exclude);
      } else {
        KeptLeast(s, m, exclude);
      }
    }
  }

  lemma KeptLeast(s: set<string>, m: string, exclude: seq<string>)
    requires IsLeast(m, s) && m !in exclude
    ensures SortedNames(Kept(s, exclude)) == [m] + SortedNames(Kept(s - {m}, exclude))
  {
    var kept := Kept(s, exclude);
    assert IsLeast(m, kept);
    LeastUnique(m, kept);
    assert kept - {m} == Kept(s - {m}, exclude);
  }

  /** The text of `s` before the first `c`, or all of `s`. */
  function Before(s: string, c: char): (r: string)
    ensures HasPrefix(s, r) && c !in r
    ensures |r| < |s| ==> s[|r|] == c
  {
    if s == [] || s[0] == c then "" else [s[0]] + Before(s[1..], c)
  }

  /** `Before` stops at the first `c`, and nowhere earlier. */
  lemma {:induction false} BeforeConcat(a: string, b: string, c: char)
    requires c !in a
    requires b == [] || b[0] == c
    ensures Before(a + b, c) == a
    decreases |a|
  {
    if a == [] {
      assert a + b == b;
    } else {
      assert (a + b)[1..] == a[1..] + b;
      BeforeConcat(a[1..], b, c);
    }
  }
}
