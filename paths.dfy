/**
 * File-system paths as lists of name components, with the few `java.nio.file.Path`
 * and Kotlin string operations the backup service relies on.
 */
module Paths {
  /** A path as its list of name components; the empty list is the path itself ("" relative). */
  type Path = seq<string>

  /** `Path.startsWith`: component-wise prefix. */
  predicate IsPrefix(p: Path, q: Path)
  {
    |p| <= |q| && q[..|p|] == p
  }

  /** `Path.resolve(s)` for a single name: resolving the empty string yields the path unchanged. */
  function Resolve(p: Path, s: string): (r: Path)
    ensures s == "" ==> r == p
    ensures s != "" ==> |r| == |p| + 1 && r[..|p|] == p && r[|p|] == s
  {
    if s == "" then p else p + [s]
  }

  /** Kotlin `String.take(n)`. */
  function Take(s: string, n: nat): (r: string)
    ensures |r| == if |s| <= n then |s| else n
    ensures r <= s
  {
    if |s| <= n then s else s[..n]
  }

  /** Kotlin `String.drop(n)`. */
  function Drop(s: string, n: nat): (r: string)
    ensures |r| == if |s| <= n then 0 else |s| - n
    ensures Take(s, n) + r == s
  {
    if |s| <= n then "" else s[n..]
  }

  /** The last name component (`File.name`); the walk root is named by `rootName`. */
  function Name(rootName: string, p: Path): string
  {
    if p == [] then rootName else p[|p| - 1]
  }

  /**
   * One step of `Path.normalize()`: drop "." and empty names, let ".." cancel the
   * previous name when there is one that is not itself "..".
   */
  function NormalizeStep(acc: Path, c: string): Path
  {
    if c == "." || c == "" then acc
    else if c == ".." && |acc| > 0 && acc[|acc| - 1] != ".." then acc[..|acc| - 1]
    else acc + [c]
  }

  function NormalizeFrom(acc: Path, p: Path): Path
    decreases |p|
  {
    if p == [] then acc else NormalizeFrom(NormalizeStep(acc, p[0]), p[1..])
  }

  /** `Path.normalize()` on a relative path. */
  function Normalize(p: Path): Path
  {
    NormalizeFrom([], p)
  }

  /** A normal path: no "." or empty name, and every ".." stands at the front. */
  predicate IsNormal(p: Path)
  {
    (forall i :: 0 <= i < |p| ==> p[i] != "." && p[i] != "") &&
    (forall i, j :: 0 <= i < j < |p| && p[j] == ".." ==> p[i] == "..")
  }

  lemma NormalizeStepKeepsNormal(acc: Path, c: string)
    requires IsNormal(acc)
    ensures IsNormal(NormalizeStep(acc, c))
  {
    var r := NormalizeStep(acc, c);
    if c == ".." && !(|acc| > 0 && acc[|acc| - 1] != "..") && c != "." && c != "" {
      // the new ".." is appended after a prefix made only of ".."
      if |acc| > 0 {
        assert acc[|acc| - 1] == "..";
        forall i | 0 <= i < |acc| ensures acc[i] == ".." {
          if i < |acc| - 1 { assert acc[|acc| - 1] == ".."; }
        }
      }
      assert r == acc + [c];
    }
  }

  lemma {:induction false} NormalizeFromNormal(acc: Path, p: Path)
    requires IsNormal(acc)
    ensures IsNormal(NormalizeFrom(acc, p))
    decreases |p|
  {
    if p != [] {
      NormalizeStepKeepsNormal(acc, p[0]);
      NormalizeFromNormal(NormalizeStep(acc, p[0]), p[1..]);
    }
  }

  /** A normal path is left as it is by normalisation. */
  lemma {:induction false} NormalizeFromOfNormal(acc: Path, p: Path)
    requires IsNormal(acc + p)
    ensures NormalizeFrom(acc, p) == acc + p
    decreases |p|
  {
    if p != [] {
      var q := acc + p;
      assert q[|acc|] == p[0];
      assert p[0] != "." && p[0] != "";
      if |acc| > 0 {
        assert q[|acc| - 1] == acc[|acc| - 1];
        assert p[0] == ".." ==> acc[|acc| - 1] == "..";
      }
      assert NormalizeStep(acc, p[0]) == acc + [p[0]];
      assert acc + [p[0]] + p[1..] == q;
      NormalizeFromOfNormal(acc + [p[0]], p[1..]);
    }
  }

  /** `normalize()` yields a normal path and is idempotent. */
  lemma NormalizeIdempotent(p: Path)
    ensures IsNormal(Normalize(p))
    ensures Normalize(Normalize(p)) == Normalize(p)
  {
    NormalizeFromNormal([], p);
    assert [] + Normalize(p) == Normalize(p);
    NormalizeFromOfNormal([], Normalize(p));
  }

  /** Kotlin `String.split(d)` on one delimiter character: keeps empty pieces. */
  function Split(s: string, d: char): (r: seq<string>)
    ensures |r| >= 1
    ensures forall i :: 0 <= i < |r| ==> d !in r[i]
    decreases |s|
  {
    if s == [] then [""]
    else if s[0] == d then [""] + Split(s[1..], d)
    else
      var rest := Split(s[1..], d);
      [[s[0]] + rest[0]] + rest[1..]
  }

  /** `joinToString(d)`: the inverse of `Split`. */
  function Join(parts: seq<string>, d: char): string
    requires |parts| >= 1
    decreases |parts|
  {
    if |parts| == 1 then parts[0] else parts[0] + [d] + Join(parts[1..], d)
  }

  /** Splitting then joining on the same delimiter gives the string back. */
  lemma {:induction false} SplitJoin(s: string, d: char)
    ensures Join(Split(s, d), d) == s
    decreases |s|
  {
    if s != [] {
      SplitJoin(s[1..], d);
      var rest := Split(s[1..], d);
      if s[0] == d {
        assert Split(s, d)[1..] == rest;
      } else {
        var r := Split(s, d);
        if |rest| == 1 {
          assert r == [[s[0]] + rest[0]];
        } else {
          assert r[1..] == rest[1..];
          assert Join(rest, d) == rest[0] + [d] + Join(rest[1..], d);
        }
      }
    }
  }

  /** A piece without the delimiter, the delimiter, then the rest: the piece comes off first. */
  lemma {:induction false} SplitAfterPiece(a: string, d: char, rest: string)
    requires d !in a
    ensures Split(a + [d] + rest, d) == [a] + Split(rest, d)
    decreases |a|
  {
    if a == [] {
      assert ([d] + rest)[1..] == rest;
    } else {
      SplitAfterPiece(a[1..], d, rest);
      assert (a + [d] + rest)[1..] == a[1..] + [d] + rest;
      assert [a[0]] + a[1..] == a;
    }
  }

  /** Joining pieces free of the delimiter and splitting again gives the pieces back. */
  lemma {:induction false} JoinSplit(parts: seq<string>, d: char)
    requires |parts| >= 1
    requires forall i :: 0 <= i < |parts| ==> d !in parts[i]
    ensures Split(Join(parts, d), d) == parts
    decreases |parts|
  {
    if |parts| == 1 {
      SplitNoDelimiter(parts[0], d);
    } else {
      JoinSplit(parts[1..], d);
      SplitAfterPiece(parts[0], d, Join(parts[1..], d));
      assert [parts[0]] + parts[1..] == parts;
    }
  }

  /** A string without the delimiter splits into itself alone. */
  lemma {:induction false} SplitNoDelimiter(s: string, d: char)
    requires d !in s
    ensures Split(s, d) == [s]
    decreases |s|
  {
    if s != [] {
      SplitNoDelimiter(s[1..], d);
      assert [s[0]] + s[1..] == s;
    }
  }

  /** Kotlin `substringAfterLast(c, "")`: `Path.extension` of a file name. */
  function AfterLast(s: string, c: char): (r: string)
    ensures c !in r
    ensures |r| <= |s| && r == s[|s| - |r|..]
    ensures c in s ==> s[|s| - |r| - 1] == c
    ensures c !in s ==> r == ""
    decreases |s|
  {
    if s == [] then ""
    else if s[|s| - 1] == c then ""
    else
      var r' := AfterLast(s[..|s| - 1], c);
      if c in s[..|s| - 1] then r' + [s[|s| - 1]]
      else
        assert c !in s by { assert s == s[..|s| - 1] + [s[|s| - 1]]; }
        ""
  }

  /** The text after the last `c` of `a + [c] + b` is `b`, when `b` holds no `c`. */
  lemma {:induction false} AfterLastPiece(a: string, c: char, b: string)
    requires c !in b
    ensures AfterLast(a + [c] + b, c) == b
    decreases |b|
  {
    var s := a + [c] + b;
    if b != [] {
      var init := b[..|b| - 1];
      AfterLastPiece(a, c, init);
      assert s[..|s| - 1] == a + [c] + init;
      assert c in s[..|s| - 1] by { assert (a + [c] + init)[|a|] == c; }
      assert init + [b[|b| - 1]] == b;
    }
  }
}
