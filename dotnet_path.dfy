/** UnifiedStorage.DotNet.DotNetPath: a path string wrapped for the IPath interface. */
module DotNetPaths {
  import opened Paths

  /** The wrapped path never changes: it is a readonly field, and the type here is a value. */
  datatype DotNetPath = DotNetPath(path: Path)
  {
    /** IsRoot: Path.GetPathRoot of the path equals the path, ignoring case. */
    predicate IsRoot()
    {
      PathEqualsIgnoreCase(PathRoot(path), path)
    }

    /** Combine(fragments): Path.Combine folded over the fragments from the left, starting at the path. */
    function Combine(fragments: seq<string>): Path
    {
      CombineAll(path, fragments)
    }

    /** ToString: the path as it was given. */
    function ToString(): Path
    {
      path
    }
  }

  /** A path is a root exactly when it is a volume root alone. */
  lemma IsRootIffVolumeRoot(p: DotNetPath)
    ensures p.IsRoot() <==> |p.path| <= 1
  {
    if |p.path| == 1 {
      EqualsIgnoreCaseReflexive(p.path[0]);
    }
  }

  /** Combining nothing gives the path back; combining one fragment is one Path.Combine;
      combining a concatenation is combining the second part onto the first result. */
  lemma CombineFolds(p: DotNetPath, a: string, xs: seq<string>, ys: seq<string>)
    ensures p.Combine([]) == p.ToString()
    ensures p.Combine([a]) == Paths.Combine(p.path, a)
    ensures p.Combine(xs + ys) == DotNetPath(p.Combine(xs)).Combine(ys)
  {
    CombineAllConcat(p.path, xs, ys);
    assert [a][..0] == [];
  }

  /** Combining fragments appends them, so the wrapped path is a prefix of every combination. */
  lemma CombineExtends(p: DotNetPath, fragments: seq<string>)
    ensures p.Combine(fragments) == p.ToString() + fragments
    ensures p.ToString() <= p.Combine(fragments)
  {
    CombineAllAppends(p.path, fragments);
  }
}
