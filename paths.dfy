/** The part of System.IO.Path that the core relies on, over paths kept as segment sequences.

    A path is the sequence of its segments. Its first segment is the volume root (`C:`), so a root
    path has exactly one segment. A segment never contains a directory separator. */
module Paths {
  import opened Wrappers

  type Path = seq<string>

  /** Path.Combine(directory, name) for a name that is one relative segment. */
  function Combine(directory: Path, name: string): Path
  {
    directory + [name]
  }

  /** Path.GetDirectoryName: the parent path, or null (None) for a root or empty path. */
  function DirectoryName(p: Path): Option<Path>
  {
    if |p| <= 1 then None else Some(p[..|p| - 1])
  }

  /** Path.GetFileName: the last segment, or the empty string for a root or empty path
      (`GetFileName("C:\\")` is ""). */
  function FileName(p: Path): string
  {
    if |p| <= 1 then "" else p[|p| - 1]
  }

  /** Path.GetPathRoot: the volume root of the path. */
  function PathRoot(p: Path): Path
  {
    if |p| == 0 then [] else [p[0]]
  }

  /** Combining a name onto a non-root directory and taking it apart again gives back both. */
  lemma CombineSplits(directory: Path, name: string)
    requires |directory| >= 1
    ensures DirectoryName(Combine(directory, name)) == Some(directory)
    ensures FileName(Combine(directory, name)) == name
  {
    assert Combine(directory, name)[..|directory|] == directory;
  }

  /** Every path with a directory part is that part combined with its file name. */
  lemma SplitCombines(p: Path)
    requires DirectoryName(p).Some?
    ensures Combine(DirectoryName(p).value, FileName(p)) == p
  {
  }

  /** `fragments.Aggregate(seed, Path.Combine)`: combines the fragments onto the seed from left to right. */
  function CombineAll(seed: Path, fragments: seq<string>): Path
    decreases |fragments|
  {
    if |fragments| == 0 then seed
    else Combine(CombineAll(seed, fragments[..|fragments| - 1]), fragments[|fragments| - 1])
  }

  /** Folding a concatenation is folding the second part onto the fold of the first. */
  lemma {:induction false} CombineAllConcat(seed: Path, xs: seq<string>, ys: seq<string>)
    ensures CombineAll(seed, xs + ys) == CombineAll(CombineAll(seed, xs), ys)
    decreases |ys|
  {
    if |ys| == 0 {
      assert xs + ys == xs;
    } else {
      var ys' := ys[..|ys| - 1];
      assert (xs + ys)[..|xs + ys| - 1] == xs + ys';
      assert (xs + ys)[|xs + ys| - 1] == ys[|ys| - 1];
      CombineAllConcat(seed, xs, ys');
    }
  }

  /** With one-segment fragments the fold appends every fragment, in order. */
  lemma {:induction false} CombineAllAppends(seed: Path, fragments: seq<string>)
    ensures CombineAll(seed, fragments) == seed + fragments
    decreases |fragments|
  {
    if |fragments| > 0 {
      var init := fragments[..|fragments| - 1];
      CombineAllAppends(seed, init);
      assert fragments == init + [fragments[|fragments| - 1]];
    }
  }

  /** ASCII upper-case letters to lower case; every other character unchanged. */
  function ToLower(c: char): char
  {
    if 'A' <= c <= 'Z' then (c as int + 32) as char else c
  }

  function LowerString(s: string): (r: string)
    ensures |r| == |s| && forall i :: 0 <= i < |s| ==> r[i] == ToLower(s[i])
  {
    seq(|s|, i requires 0 <= i < |s| => ToLower(s[i]))
  }

  /** String.Equals(a, b, OrdinalIgnoreCase), compared character by character (ASCII case only). */
  function EqualsIgnoreCase(a: string, b: string): bool
    decreases |a|
  {
    |a| == |b| && (|a| == 0 || (ToLower(a[0]) == ToLower(b[0]) && EqualsIgnoreCase(a[1..], b[1..])))
  }

  /** Two strings are equal ignoring case exactly when their lower-case forms are equal. */
  lemma {:induction false} EqualsIgnoreCaseIsLowerEquality(a: string, b: string)
    ensures EqualsIgnoreCase(a, b) <==> LowerString(a) == LowerString(b)
    decreases |a|
  {
    if |a| == |b| && |a| > 0 {
      EqualsIgnoreCaseIsLowerEquality(a[1..], b[1..]);
      if LowerString(a) == LowerString(b) {
        assert LowerString(a)[0] == LowerString(b)[0];
        assert LowerString(a[1..]) == LowerString(a)[1..];
        assert LowerString(b[1..]) == LowerString(b)[1..];
      }
      if EqualsIgnoreCase(a, b) {
        assert LowerString(a) == [ToLower(a[0])] + LowerString(a[1..]);
        assert LowerString(b) == [ToLower(b[0])] + LowerString(b[1..]);
      }
    } else if |a| != |b| {
      assert |LowerString(a)| != |LowerString(b)|;
    }
  }

  /** Every string equals itself ignoring case. */
  lemma {:induction false} EqualsIgnoreCaseReflexive(a: string)
    ensures EqualsIgnoreCase(a, a)
    decreases |a|
  {
    if |a| > 0 {
      EqualsIgnoreCaseReflexive(a[1..]);
    }
  }

  /** Lower-casing twice is lower-casing once. */
  lemma LowerStringIdempotent(s: string)
    ensures LowerString(LowerString(s)) == LowerString(s)
  {
  }

  /** Path strings compared ignoring case: segment by segment, as the joined strings would be. */
  function PathEqualsIgnoreCase(p: Path, q: Path): bool
  {
    |p| == |q| && forall i :: 0 <= i < |p| ==> EqualsIgnoreCase(p[i], q[i])
  }

  function LowerPath(p: Path): (r: Path)
    ensures |r| == |p| && forall i :: 0 <= i < |p| ==> r[i] == LowerString(p[i])
  {
    seq(|p|, i requires 0 <= i < |p| => LowerString(p[i]))
  }

  /** Two paths are equal ignoring case exactly when their lower-case forms are equal. */
  lemma PathEqualsIgnoreCaseIsLowerEquality(p: Path, q: Path)
    ensures PathEqualsIgnoreCase(p, q) <==> LowerPath(p) == LowerPath(q)
  {
    forall i | 0 <= i < |p| && i < |q| {
      EqualsIgnoreCaseIsLowerEquality(p[i], q[i]);
    }
    if LowerPath(p) == LowerPath(q) {
      forall i | 0 <= i < |p| ensures EqualsIgnoreCase(p[i], q[i]) {
        assert LowerPath(p)[i] == LowerPath(q)[i];
      }
    }
  }

  /** The path as a string with backslash separators, as exception messages print it. */
  function Render(p: Path): string
    decreases |p|
  {
    if |p| == 0 then ""
    else if |p| == 1 then p[0]
    else Render(p[..|p| - 1]) + "\\" + p[|p| - 1]
  }
}
