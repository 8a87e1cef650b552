/** The abstract, finite filesystem that System.IO works on, and the System.IO calls of the core.

    Files and directories are kept apart: File.Exists is false for a directory and
    Directory.Exists is false for a file. */
module Storage {
  import opened Wrappers
  import opened Errors
  import opened Paths

  newtype byte = x: int | 0 <= x < 256

  datatype FsState = FsState(files: map<Path, seq<byte>>, dirs: set<Path>)

  /** What an operation returns, together with the filesystem it leaves behind. */
  datatype Outcome<+T> = Outcome(result: Result<T>, state: FsState)

  /** A filesystem is a tree: no path is both a file and a directory, every file lies in an
      existing directory, and every directory below a volume root lies in an existing directory. */
  ghost predicate Valid(s: FsState)
  {
    && (forall p :: p in s.files ==> p !in s.dirs)
    && (forall p :: p in s.files ==> DirectoryName(p).Some? && DirectoryName(p).value in s.dirs)
    && (forall p :: p in s.dirs ==> |p| >= 1)
    && (forall p :: p in s.dirs && |p| >= 2 ==> p[..|p| - 1] in s.dirs)
  }

  /** `p` and every path beneath it. */
  predicate InSubtree(root: Path, p: Path)
  {
    root <= p
  }

  /** The files directly inside `dir`, as Directory.GetFiles lists them. */
  function ChildFiles(s: FsState, dir: Path): set<Path>
  {
    set p | p in s.files && DirectoryName(p) == Some(dir)
  }

  /** The directories directly inside `dir`, as Directory.GetDirectories lists them. */
  function ChildDirectories(s: FsState, dir: Path): set<Path>
  {
    set p | p in s.dirs && DirectoryName(p) == Some(dir)
  }

  /** File.Create(p), disposed at once: an empty file at `p`, truncating a file already there. */
  function FileCreated(s: FsState, p: Path): (r: Outcome<()>)
    ensures r.state.dirs == s.dirs && r.state.files - {p} == s.files - {p}
    ensures r.result.Ok? <==> p !in s.dirs && DirectoryName(p).Some? && DirectoryName(p).value in s.dirs
    ensures r.result.Ok? ==> p in r.state.files && r.state.files[p] == []
    ensures r.result.Err? ==> r.state == s
  {
    if p in s.dirs then Outcome(Err(Native(UnauthorizedAccess)), s)
    else if DirectoryName(p).None? || DirectoryName(p).value !in s.dirs then
      Outcome(Err(Native(NativeDirectoryNotFound)), s)
    else Outcome(Ok(()), s.(files := s.files[p := []]))
  }

  /** File.Delete(p); removing a file that is not there changes nothing. */
  function FileDeleted(s: FsState, p: Path): FsState
  {
    s.(files := s.files - {p})
  }

  /** File.Move(source, destination): never overwrites. */
  function FileMoved(s: FsState, source: Path, destination: Path): (r: Outcome<()>)
    ensures r.state.dirs == s.dirs
    ensures r.result.Ok? ==> source in s.files && destination !in s.files && destination != source
    ensures r.result.Ok? ==>
      (&& source !in r.state.files && destination in r.state.files
       && r.state.files[destination] == s.files[source]
       && r.state.files - {source, destination} == s.files - {source, destination})
    ensures r.result.Err? ==> r.state == s
  {
    if source !in s.files then Outcome(Err(Native(NativeFileNotFound)), s)
    else if destination in s.files || destination in s.dirs then Outcome(Err(Native(NativeIOError)), s)
    else if DirectoryName(destination).None? || DirectoryName(destination).value !in s.dirs then
      Outcome(Err(Native(NativeDirectoryNotFound)), s)
    else Outcome(Ok(()), s.(files := (s.files - {source})[destination := s.files[source]]))
  }

  /** The non-empty prefixes of `p`: the directories Directory.CreateDirectory(p) makes sure of. */
  function Prefixes(p: Path): set<Path>
  {
    set i | 1 <= i <= |p| :: p[..i]
  }

  /** Directory.CreateDirectory(p): creates `p` and every missing directory above it. */
  function DirectoryCreated(s: FsState, p: Path): (r: Outcome<()>)
    ensures r.state.files == s.files && s.dirs <= r.state.dirs
    ensures r.result.Ok? ==> p in r.state.dirs && r.state.dirs - s.dirs <= Prefixes(p)
    ensures r.result.Err? ==> r.state == s
  {
    assert |p| > 0 ==> p[..|p|] == p;
    if |p| == 0 then Outcome(Err(Native(InvalidPath)), s)
    else if exists q :: q in s.files && q <= p then Outcome(Err(Native(NativeIOError)), s)
    else Outcome(Ok(()), s.(dirs := s.dirs + Prefixes(p)))
  }

  /** Directory.Delete(p, true): removes `p` with everything beneath it. */
  function TreeDeleted(s: FsState, p: Path): (r: Outcome<()>)
    ensures r.state.dirs <= s.dirs && r.state.files.Keys <= s.files.Keys
    ensures forall q :: q in r.state.files ==> r.state.files[q] == s.files[q]
    ensures r.result.Ok? ==> p in s.dirs && p !in r.state.dirs
    ensures r.result.Err? ==> r.state == s
  {
    if p in s.files then Outcome(Err(Native(NativeIOError)), s)
    else if p !in s.dirs then Outcome(Err(Native(NativeDirectoryNotFound)), s)
    else Outcome(Ok(()), FsState(
      map q | q in s.files && !InSubtree(p, q) :: s.files[q],
      set q | q in s.dirs && !InSubtree(p, q)))
  }

  /** Whatever the outcome, creating a file leaves a valid filesystem valid. */
  lemma FileCreatedPreservesValid(s: FsState, p: Path)
    requires Valid(s)
    ensures Valid(FileCreated(s, p).state)
  {
  }

  lemma FileDeletedPreservesValid(s: FsState, p: Path)
    requires Valid(s)
    ensures Valid(FileDeleted(s, p))
  {
  }

  lemma FileMovedPreservesValid(s: FsState, source: Path, destination: Path)
    requires Valid(s)
    ensures Valid(FileMoved(s, source, destination).state)
  {
  }

  lemma DirectoryCreatedPreservesValid(s: FsState, p: Path)
    requires Valid(s)
    ensures Valid(DirectoryCreated(s, p).state)
  {
    var o := DirectoryCreated(s, p);
    if o.result.Ok? {
      var t := o.state;
      forall q | q in t.dirs && |q| >= 2 ensures q[..|q| - 1] in t.dirs {
        if q in Prefixes(p) {
          var i :| 1 <= i <= |p| && q == p[..i];
          assert q[..|q| - 1] == p[..i - 1];
        }
      }
    }
  }

  /** A path beneath `root` has its parent beneath `root` too, unless it is `root` itself. */
  lemma ParentInSubtree(root: Path, q: Path)
    requires |q| >= 1 && InSubtree(root, q[..|q| - 1])
    ensures InSubtree(root, q)
  {
    assert q[..|root|] == q[..|q| - 1][..|root|];
  }

  lemma TreeDeletedPreservesValid(s: FsState, p: Path)
    requires Valid(s)
    ensures Valid(TreeDeleted(s, p).state)
  {
    var o := TreeDeleted(s, p);
    if o.result.Ok? {
      var t := o.state;
      forall q | q in t.files ensures DirectoryName(q).Some? && DirectoryName(q).value in t.dirs {
        if InSubtree(p, q[..|q| - 1]) { ParentInSubtree(p, q); }
      }
      forall q | q in t.dirs && |q| >= 2 ensures q[..|q| - 1] in t.dirs {
        if InSubtree(p, q[..|q| - 1]) { ParentInSubtree(p, q); }
      }
    }
  }

  /** Recursive deletion removes exactly the subtree: what lies outside it keeps its place and bytes. */
  lemma TreeDeletedRemovesExactlySubtree(s: FsState, p: Path, q: Path)
    requires TreeDeleted(s, p).result.Ok?
    ensures var t := TreeDeleted(s, p).state;
      && (InSubtree(p, q) ==> q !in t.files && q !in t.dirs)
      && (!InSubtree(p, q) ==> (q in t.files <==> q in s.files) && (q in t.dirs <==> q in s.dirs))
      && (!InSubtree(p, q) && q in s.files ==> t.files[q] == s.files[q])
  {
  }

  /** In a valid filesystem every non-empty prefix of a directory is a directory. */
  lemma {:induction false} PrefixesOfDirectoryAreDirectories(s: FsState, d: Path, i: nat)
    requires Valid(s) && d in s.dirs && 1 <= i <= |d|
    ensures d[..i] in s.dirs
    decreases |d| - i
  {
    if i < |d| {
      PrefixesOfDirectoryAreDirectories(s, d, i + 1);
      assert d[..i + 1][..i] == d[..i];
    } else {
      assert d[..i] == d;
    }
  }

  /** The file system seen by System.IO: its two tables are replaced as the calls run. */
  class FileStore {
    var files: map<Path, seq<byte>>
    var dirs: set<Path>

    function State(): FsState
      reads this
    {
      FsState(files, dirs)
    }

    constructor (initial: FsState)
      ensures State() == initial
    {
      files := initial.files;
      dirs := initial.dirs;
    }

    /** File.Exists */
    predicate FileExists(p: Path)
      reads this
    {
      p in files
    }

    /** Directory.Exists */
    predicate DirectoryExists(p: Path)
      reads this
    {
      p in dirs
    }

    method CreateFile(p: Path) returns (r: Result<()>)
      modifies this
      ensures Outcome(r, State()) == FileCreated(old(State()), p)
    {
      var o := FileCreated(State(), p);
      files, dirs := o.state.files, o.state.dirs;
      r := o.result;
    }

    method DeleteFile(p: Path)
      modifies this
      ensures State() == FileDeleted(old(State()), p)
    {
      files := files - {p};
    }

    method MoveFile(source: Path, destination: Path) returns (r: Result<()>)
      modifies this
      ensures Outcome(r, State()) == FileMoved(old(State()), source, destination)
    {
      if source !in files {
        return Err(Native(NativeFileNotFound));
      }
      if destination in files || destination in dirs {
        return Err(Native(NativeIOError));
      }
      var parent := DirectoryName(destination);
      if parent.None? || parent.value !in dirs {
        return Err(Native(NativeDirectoryNotFound));
      }
      files := (files - {source})[destination := files[source]];
      r := Ok(());
    }

    method CreateDirectory(p: Path) returns (r: Result<()>)
      modifies this
      ensures Outcome(r, State()) == DirectoryCreated(old(State()), p)
    {
      var o := DirectoryCreated(State(), p);
      files, dirs := o.state.files, o.state.dirs;
      r := o.result;
    }

    method DeleteDirectory(p: Path) returns (r: Result<()>)
      modifies this
      ensures Outcome(r, State()) == TreeDeleted(old(State()), p)
    {
      var o := TreeDeleted(State(), p);
      files, dirs := o.state.files, o.state.dirs;
      r := o.result;
    }

    /** Writes through an open stream: the bytes go to the end of the file. */
    method Append(p: Path, bytes: seq<byte>)
      requires p in files
      modifies this
      ensures files == old(files)[p := old(files)[p] + bytes] && dirs == old(dirs)
    {
      files := files[p := files[p] + bytes];
    }

    /** Directory.GetFiles(dir): each file directly inside `dir` once, in no particular order. */
    method GetFiles(dir: Path) returns (r: Result<seq<Path>>)
      ensures r.Err? <==> dir !in dirs
      ensures r.Err? ==> r.error == Native(NativeDirectoryNotFound)
      ensures r.Ok? ==> NoDuplicates(r.value) && forall p :: p in r.value <==> p in ChildFiles(State(), dir)
    {
      if dir !in dirs {
        return Err(Native(NativeDirectoryNotFound));
      }
      var listed := Enumerate(ChildFiles(State(), dir));
      r := Ok(listed);
    }

    /** Directory.GetDirectories(dir): each directory directly inside `dir` once, in no particular order. */
    method GetDirectories(dir: Path) returns (r: Result<seq<Path>>)
      ensures r.Err? <==> dir !in dirs
      ensures r.Err? ==> r.error == Native(NativeDirectoryNotFound)
      ensures r.Ok? ==> NoDuplicates(r.value) && forall p :: p in r.value <==> p in ChildDirectories(State(), dir)
    {
      if dir !in dirs {
        return Err(Native(NativeDirectoryNotFound));
      }
      var listed := Enumerate(ChildDirectories(State(), dir));
      r := Ok(listed);
    }
  }

  predicate NoDuplicates<T(==)>(xs: seq<T>)
  {
    forall i, j :: 0 <= i < j < |xs| ==> xs[i] != xs[j]
  }

  /** The directory enumeration of the operating system: visits every entry once, in an order it picks. */
  method Enumerate(entries: set<Path>) returns (listed: seq<Path>)
    ensures NoDuplicates(listed)
    ensures forall p :: p in listed <==> p in entries
  {
    listed := [];
    var pending := entries;
    while pending != {}
      invariant NoDuplicates(listed)
      invariant forall p :: p in listed ==> p !in pending
      invariant forall p :: p in entries <==> p in listed || p in pending
      decreases pending
    {
      var p :| p in pending;
      listed := listed + [p];
      pending := pending - {p};
    }
  }
}
