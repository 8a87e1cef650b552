/** The System.IO handles of the current revision: DotNetFile (UnifiedStorage.DotNet/DotNetFile.cs) and
    DotNetDirectory (UnifiedStorage.SysIo/DotNetDirectory.cs). Every asynchronous operation is a
    method on the handle that works on the filesystem `fs` and is proved to do what the reference
    function of FileOps or DirectoryOps says. */
module DotNet {
  import opened Wrappers
  import opened Errors
  import opened Paths
  import opened FileNames
  import opened Cancellation
  import opened Storage
  import opened Collision
  import opened FileOps
  import opened DirectoryOps

  /** The path a file-handle result points at. */
  function HandlePath(r: Result<DotNetFile>): Result<Path>
    reads if r.Ok? then {r.value} else {}
  {
    match r
    case Ok(f) => Ok(f.path)
    case Err(e) => Err(e)
  }

  /** The path a directory-handle result points at. */
  function DirectoryHandlePath(r: Result<DotNetDirectory>): Result<Path>
  {
    match r
    case Ok(d) => Ok(d.path)
    case Err(e) => Err(e)
  }

  /** The paths a list of file handles points at, in order. */
  function FilePaths(handles: seq<DotNetFile>): (r: seq<Path>)
    reads set i | 0 <= i < |handles| :: handles[i]
    ensures |r| == |handles| && forall i :: 0 <= i < |handles| ==> r[i] == handles[i].path
  {
    if |handles| == 0 then [] else FilePaths(handles[..|handles| - 1]) + [handles[|handles| - 1].path]
  }

  /** The paths a list of directory handles points at, in order; a directory's path never changes. */
  function DirectoryPaths(handles: seq<DotNetDirectory>): seq<Path>
  {
    seq(|handles|, i requires 0 <= i < |handles| => handles[i].path)
  }

  /** A file handle: only a path, which MoveAsync and RenameAsync replace. */
  class DotNetFile {
    var path: Path

    constructor (path: Path)
      ensures this.path == path
    {
      this.path := path;
    }

    /** Name: Path.GetFileName of the path. */
    function Name(): (r: string)
      reads this
      ensures DirectoryName(path).Some? ==> Combine(DirectoryName(path).value, r) == path
      ensures DirectoryName(path).None? ==> r == ""
    {
      FileName(path)
    }

    /** Extension: Path.GetExtension of the path, which only looks at its last segment. */
    function Extension(): (r: string)
      reads this
      ensures r == "" || (2 <= |r| <= |Name()| && r[0] == '.' && r == Name()[|Name()| - |r|..])
    {
      ExtensionIsLastDotSuffix(FileName(path));
      GetExtension(FileName(path))
    }

    /** Directory: a handle on the parent; GetFullPath(null) throws for a path without one. */
    method Directory() returns (r: Result<DotNetDirectory>)
      ensures DirectoryName(path).None? ==> r == Err(ArgumentNull("path"))
      ensures DirectoryName(path).Some? ==>
        r.Ok? && fresh(r.value) && r.value.path == DirectoryName(path).value && r.value.name == FileName(r.value.path)
    {
      var dir := DirectoryName(path);
      if dir.None? {
        return Err(ArgumentNull("path"));
      }
      var d := new DotNetDirectory(dir.value);
      r := Ok(d);
    }

    /** EnsureExists: raises FileNotFound unless a file is at the path. */
    method EnsureExists(fs: FileStore) returns (r: Result<()>)
      ensures r.Ok? <==> path in fs.files
      ensures r.Err? ==> r.error == FileNotFound(path)
    {
      if !fs.FileExists(path) {
        return Err(FileNotFound(path));
      }
      r := Ok(());
    }

    method ExistsAsync(fs: FileStore, token: CancellationToken) returns (r: Result<bool>)
      ensures r == if IsCancellationRequested(token, 0) then Err(OperationCanceled) else Ok(path in fs.files)
    {
      if IsCancellationRequested(token, 0) {
        return Err(OperationCanceled);
      }
      r := Ok(fs.FileExists(path));
    }

    method OpenAsync(fs: FileStore, access: FileAccessOption, token: CancellationToken) returns (r: Result<Stream>)
      modifies fs
      ensures Outcome(r, fs.State()) == OpenOutcome(old(fs.State()), path, access, token)
    {
      if IsCancellationRequested(token, 0) {
        return Err(OperationCanceled);
      }
      match access
      case ReadOnly =>
        var e := EnsureExists(fs);
        if e.Err? {
          return Err(e.error);
        }
        r := Ok(Stream(path, ReadOnly));
      case ReadWrite =>
        if !fs.FileExists(path) {
          var c := fs.CreateFile(path);
          if c.Err? {
            return Err(c.error);
          }
        }
        r := Ok(Stream(path, ReadWrite));
    }

    method DeleteAsync(fs: FileStore, token: CancellationToken) returns (r: Result<()>)
      modifies fs
      ensures Outcome(r, fs.State()) == DeleteOutcome(old(fs.State()), path, token)
    {
      var e := EnsureExists(fs);
      if e.Err? {
        return Err(e.error);
      }
      if IsCancellationRequested(token, 0) {
        return Err(OperationCanceled);
      }
      fs.DeleteFile(path);
      r := Ok(());
    }

    /** MoveAsync: on success the handle's path becomes the destination and the handle itself is
        returned; on failure its path is what it was. */
    method MoveAsync(fs: FileStore, newPath: Path, option: CollisionOption := ReplaceExisting,
                     token: CancellationToken := NoCancellation)
      returns (r: Result<DotNetFile>)
      modifies this, fs
      ensures Outcome(HandlePath(r), fs.State()) == MoveOutcome(old(fs.State()), old(path), newPath, option, token)
      ensures r.Ok? ==> r.value == this
      ensures r.Err? ==> path == old(path)
    {
      var e := EnsureExists(fs);
      if e.Err? {
        return Err(e.error);
      }
      if IsCancellationRequested(token, 0) {
        return Err(OperationCanceled);
      }
      var newDirectory := DirectoryName(newPath);
      var newName := FileName(newPath);
      ghost var scheme := MoveScheme(newName);
      ghost var k := if newDirectory.Some? && option == GenerateUniqueName
        then FirstFree(fs.files.Keys, newDirectory.value, scheme, 1) else 1;
      if newDirectory.Some? {
        FirstFreeIsFirst(fs.files.Keys, newDirectory.value, scheme, 1);
        SplitCombines(newPath);
      }
      var counter := 1;
      while true
        invariant 1 <= counter <= k
        invariant option != GenerateUniqueName ==> counter == 1
        invariant !IsCancellationRequested(token, counter - 1)
        invariant newDirectory.Some? ==>
          forall j :: 1 <= j < counter ==> Candidate(newDirectory.value, scheme, j) in fs.files
        invariant fs.State() == old(fs.State()) && path == old(path)
        decreases k - counter
      {
        if IsCancellationRequested(token, counter) {
          return Err(OperationCanceled);
        }
        var candidateName := newName;
        if counter > 1 {
          candidateName := Format(GetFileNameWithoutExtension(newName) + " (", counter, ")" + GetExtension(newName));
        }
        if newDirectory.None? {
          return Err(ArgumentNull("path1"));
        }
        var candidatePath := Combine(newDirectory.value, candidateName);
        assert candidatePath == Candidate(newDirectory.value, scheme, counter);
        if fs.FileExists(candidatePath) {
          if option == FailIfExists {
            return Err(UnifiedIO("File already exists."));
          } else if option == GenerateUniqueName {
            counter := counter + 1;
            continue;
          } else if option == ReplaceExisting {
            fs.DeleteFile(candidatePath);
          } else {
            return Err(ArgumentOutOfRange("collisionOption"));
          }
        }
        var m := fs.MoveFile(path, candidatePath);
        if m.Err? {
          return Err(m.error);
        }
        path := candidatePath;
        return Ok(this);
      }
    }

    /** RenameAsync: MoveAsync to `newName` in the same directory. */
    method RenameAsync(fs: FileStore, newName: string, option: CollisionOption := FailIfExists,
                       token: CancellationToken := NoCancellation)
      returns (r: Result<DotNetFile>)
      modifies this, fs
      ensures Outcome(HandlePath(r), fs.State()) == RenameOutcome(old(fs.State()), old(path), newName, option, token)
      ensures r.Ok? ==> r.value == this
      ensures r.Err? ==> path == old(path)
    {
      var e := EnsureExists(fs);
      if e.Err? {
        return Err(e.error);
      }
      var directoryPath := DirectoryName(path);
      if directoryPath.None? {
        return Err(Argument("newName"));
      }
      r := MoveAsync(fs, Combine(directoryPath.value, newName), option, token);
    }

    /** CopyAsync: the collision option is accepted and ignored. The destination is created empty
        and filled chunk by chunk, at most BufferSize bytes at a time, with a cancellation check
        before each chunk. */
    method CopyAsync(fs: FileStore, newPath: Path, option: CollisionOption := ReplaceExisting,
                     token: CancellationToken := NoCancellation)
      returns (r: Result<DotNetFile>)
      modifies fs
      ensures Outcome(HandlePath(r), fs.State()) == CopyOutcome(old(fs.State()), path, newPath, token)
      ensures r.Ok? ==> fresh(r.value)
    {
      var e := EnsureExists(fs);
      if e.Err? {
        return Err(e.error);
      }
      if IsCancellationRequested(token, 0) {
        return Err(OperationCanceled);
      }
      if newPath == path {
        return Err(Native(NativeIOError));
      }
      var source := fs.files[path];
      var c := fs.CreateFile(newPath);
      if c.Err? {
        return Err(c.error);
      }
      var cancelled := CopyToAsync(fs, source, newPath, token);
      if cancelled {
        return Err(OperationCanceled);
      }
      var f := new DotNetFile(newPath);
      r := Ok(f);
    }
  }

  /** Stream.CopyToAsync of `source` into the empty file `destination`: chunks of at most
      BufferSize bytes, with a cancellation check before each read, the final empty read included. */
  method CopyToAsync(fs: FileStore, source: seq<byte>, destination: Path, token: CancellationToken)
    returns (cancelled: bool)
    requires destination in fs.files && fs.files[destination] == []
    modifies fs
    ensures fs.files == old(fs.files)[destination := CopyChunks(source, 0, 1, token).0]
    ensures fs.dirs == old(fs.dirs) && cancelled == CopyChunks(source, 0, 1, token).1
  {
    var copied, check := 0, 1;
    while copied < |source|
      invariant copied <= |source|
      invariant fs.files == old(fs.files)[destination := source[..copied]] && fs.dirs == old(fs.dirs)
      invariant CopyChunks(source, copied, check, token) == CopyChunks(source, 0, 1, token)
      decreases |source| - copied
    {
      if IsCancellationRequested(token, check) {
        return true;
      }
      var n := Min(BufferSize, |source| - copied);
      fs.Append(destination, source[copied..copied + n]);
      assert source[..copied] + source[copied..copied + n] == source[..copied + n];
      copied, check := copied + n, check + 1;
    }
    if IsCancellationRequested(token, check) {
      return true;
    }
    assert source[..copied] == source;
    cancelled := false;
  }

  /** A directory handle of the current revision: its full path and its leaf name. */
  class DotNetDirectory {
    const path: Path
    const name: string

    /** The path is taken as already full; Name is Path.GetFileName of it. */
    constructor (path: Path)
      ensures this.path == path && name == FileName(path)
    {
      this.path := path;
      this.name := FileName(path);
    }

    /** EnsureExists: raises DirectoryNotFound unless the directory exists. */
    method EnsureExists(fs: FileStore) returns (r: Result<()>)
      ensures r.Ok? <==> path in fs.dirs
      ensures r.Err? ==> r.error == DirectoryNotFound(path)
    {
      if !fs.DirectoryExists(path) {
        return Err(DirectoryNotFound(path));
      }
      r := Ok(());
    }

    method ExistsAsync(fs: FileStore, token: CancellationToken := NoCancellation) returns (r: Result<bool>)
      ensures r == if IsCancellationRequested(token, 0) then Err(OperationCanceled) else Ok(path in fs.dirs)
    {
      if IsCancellationRequested(token, 0) {
        return Err(OperationCanceled);
      }
      r := Ok(fs.DirectoryExists(path));
    }

    /** The private CreateFile helper. */
    method CreateFile(fs: FileStore, filePath: Path) returns (r: Result<()>)
      modifies fs
      ensures Outcome(r, fs.State()) == FileCreated(old(fs.State()), filePath)
    {
      r := fs.CreateFile(filePath);
    }

    method CreateFileAsync(fs: FileStore, desiredName: string, option: CollisionOption,
                           token: CancellationToken := NoCancellation)
      returns (r: Result<DotNetFile>)
      modifies fs
      ensures Outcome(HandlePath(r), fs.State()) ==
              CreateFileOutcome(old(fs.State()), path, desiredName, option, token, FileExistsError)
      ensures r.Ok? ==> fresh(r.value)
    {
      if IsCancellationRequested(token, 0) {
        return Err(OperationCanceled);
      }
      var newPath := Combine(path, desiredName);
      if fs.FileExists(newPath) {
        match option
        case GenerateUniqueName =>
          assert Candidate(path, CreateFileScheme(desiredName), 0) == newPath;
          var g := GenerateFileName(fs, path, desiredName, token);
          if g.Err? {
            return Err(g.error);
          }
          newPath := g.value;
        case ReplaceExisting =>
          fs.DeleteFile(newPath);
          var c := CreateFile(fs, newPath);
          if c.Err? {
            return Err(c.error);
          }
        case FailIfExists =>
          return Err(FileExistsError);
        case OpenIfExists =>
      } else {
        var c := CreateFile(fs, newPath);
        if c.Err? {
          return Err(c.error);
        }
      }
      var f := new DotNetFile(newPath);
      r := Ok(f);
    }

    method CreateDirectoryAsync(fs: FileStore, desiredName: string, option: CollisionOption,
                                token: CancellationToken := NoCancellation)
      returns (r: Result<DotNetDirectory>)
      modifies fs
      ensures Outcome(DirectoryHandlePath(r), fs.State()) ==
              CreateDirectoryOutcome(old(fs.State()), path, desiredName, option, token)
      ensures r.Ok? ==> fresh(r.value) && r.value.name == FileName(r.value.path)
    {
      if IsCancellationRequested(token, 0) {
        return Err(OperationCanceled);
      }
      var e := EnsureExists(fs);
      if e.Err? {
        return Err(e.error);
      }
      var newPath := Combine(path, desiredName);
      if fs.DirectoryExists(newPath) {
        match option
        case GenerateUniqueName =>
          var g := GenerateDirectoryName(fs, path, desiredName, token);
          if g.Err? {
            return Err(g.error);
          }
          newPath := g.value;
          var c := fs.CreateDirectory(newPath);
          if c.Err? {
            return Err(c.error);
          }
        case ReplaceExisting =>
          var d := fs.DeleteDirectory(newPath);
          if d.Err? {
            return Err(d.error);
          }
          var c := fs.CreateDirectory(newPath);
          if c.Err? {
            return Err(c.error);
          }
        case FailIfExists =>
          return Err(UnifiedIO("The directory " + Render(newPath) + " already exists"));
        case OpenIfExists =>
      } else {
        var c := fs.CreateDirectory(newPath);
        if c.Err? {
          return Err(c.error);
        }
      }
      var d := new DotNetDirectory(newPath);
      r := Ok(d);
    }

    /** GetFileAsync: a handle on the combined path; the filesystem is not consulted. */
    method GetFileAsync(fileName: string, token: CancellationToken := NoCancellation) returns (r: Result<DotNetFile>)
      ensures r.Err? <==> IsCancellationRequested(token, 0)
      ensures r.Err? ==> r.error == OperationCanceled
      ensures r.Ok? ==> fresh(r.value) && r.value.path == Combine(path, fileName)
    {
      if IsCancellationRequested(token, 0) {
        return Err(OperationCanceled);
      }
      var f := new DotNetFile(Combine(path, fileName));
      r := Ok(f);
    }

    /** GetDirectoryAsync: a handle on the combined path; the filesystem is not consulted. */
    method GetDirectoryAsync(directoryName: string, token: CancellationToken := NoCancellation)
      returns (r: Result<DotNetDirectory>)
      ensures r.Err? <==> IsCancellationRequested(token, 0)
      ensures r.Err? ==> r.error == OperationCanceled
      ensures r.Ok? ==> fresh(r.value) && r.value.path == Combine(path, directoryName)
      ensures r.Ok? ==> r.value.name == FileName(r.value.path)
      ensures r.Ok? && |path| >= 1 ==> r.value.name == directoryName
    {
      if IsCancellationRequested(token, 0) {
        return Err(OperationCanceled);
      }
      if |path| >= 1 {
        CombineSplits(path, directoryName);
      }
      var d := new DotNetDirectory(Combine(path, directoryName));
      r := Ok(d);
    }

    /** A fresh file handle for each listed path, in order. */
    static method FileHandles(listed: seq<Path>) returns (handles: seq<DotNetFile>)
      ensures FilePaths(handles) == listed
      ensures forall i :: 0 <= i < |handles| ==> fresh(handles[i])
    {
      handles := [];
      while |handles| < |listed|
        invariant |handles| <= |listed|
        invariant forall i :: 0 <= i < |handles| ==> fresh(handles[i]) && handles[i].path == listed[i]
        decreases |listed| - |handles|
      {
        var f := new DotNetFile(listed[|handles|]);
        handles := handles + [f];
      }
    }

    /** GetFilesAsync: handles on exactly the files directly inside this directory. */
    method GetFilesAsync(fs: FileStore, token: CancellationToken := NoCancellation) returns (r: Result<seq<DotNetFile>>)
      ensures var expected := ListingOutcome(fs.State(), path, ChildFiles(fs.State(), path), token);
        && r.Ok? == expected.Ok?
        && (r.Err? ==> r.error == expected.error)
        && (r.Ok? ==> NoDuplicates(FilePaths(r.value)) &&
                      forall p :: p in FilePaths(r.value) <==> p in expected.value)
      ensures r.Ok? ==> forall i :: 0 <= i < |r.value| ==> fresh(r.value[i])
    {
      if IsCancellationRequested(token, 0) {
        return Err(OperationCanceled);
      }
      var e := EnsureExists(fs);
      if e.Err? {
        return Err(e.error);
      }
      var listed := fs.GetFiles(path);
      var handles := FileHandles(listed.value);
      r := Ok(handles);
    }

    /** GetFilesAsync(searchPattern): as GetFilesAsync, keeping the names the pattern matches. */
    method GetFilesMatchingAsync(fs: FileStore, matches: string -> bool, token: CancellationToken := NoCancellation)
      returns (r: Result<seq<DotNetFile>>)
      ensures var expected := ListingOutcome(fs.State(), path, ChildFiles(fs.State(), path), token);
        && r.Ok? == expected.Ok?
        && (r.Err? ==> r.error == expected.error)
        && (r.Ok? ==> NoDuplicates(FilePaths(r.value)) &&
                      forall p :: p in FilePaths(r.value) <==> p in expected.value && matches(FileName(p)))
      ensures r.Ok? ==> forall i :: 0 <= i < |r.value| ==> fresh(r.value[i])
    {
      if IsCancellationRequested(token, 0) {
        return Err(OperationCanceled);
      }
      var e := EnsureExists(fs);
      if e.Err? {
        return Err(e.error);
      }
      var listed := fs.GetFiles(path);
      var all := listed.value;
      var kept: seq<Path> := [];
      var i := 0;
      while i < |all|
        invariant i <= |all|
        invariant NoDuplicates(kept)
        invariant forall p :: p in kept <==> p in all[..i] && matches(FileName(p))
      {
        if matches(FileName(all[i])) {
          assert all[i] !in all[..i];
          kept := kept + [all[i]];
        }
        assert all[..i + 1] == all[..i] + [all[i]];
        i := i + 1;
      }
      assert all[..i] == all;
      var handles := FileHandles(kept);
      r := Ok(handles);
    }

    /** GetDirectoriesAsync: handles on exactly the directories directly inside this directory. */
    method GetDirectoriesAsync(fs: FileStore, token: CancellationToken := NoCancellation) returns (r: Result<seq<DotNetDirectory>>)
      ensures var expected := ListingOutcome(fs.State(), path, ChildDirectories(fs.State(), path), token);
        && r.Ok? == expected.Ok?
        && (r.Err? ==> r.error == expected.error)
        && (r.Ok? ==> NoDuplicates(DirectoryPaths(r.value)) &&
                      forall p :: p in DirectoryPaths(r.value) <==> p in expected.value)
      ensures r.Ok? ==> forall i :: 0 <= i < |r.value| ==> fresh(r.value[i]) && r.value[i].name == FileName(r.value[i].path)
    {
      if IsCancellationRequested(token, 0) {
        return Err(OperationCanceled);
      }
      var e := EnsureExists(fs);
      if e.Err? {
        return Err(e.error);
      }
      var listed := fs.GetDirectories(path);
      var all := listed.value;
      var handles: seq<DotNetDirectory> := [];
      while |handles| < |all|
        invariant |handles| <= |all|
        invariant forall i :: 0 <= i < |handles| ==> fresh(handles[i]) && handles[i].path == all[i]
        invariant forall i :: 0 <= i < |handles| ==> handles[i].name == FileName(handles[i].path)
        decreases |all| - |handles|
      {
        var d := new DotNetDirectory(all[|handles|]);
        handles := handles + [d];
      }
      assert DirectoryPaths(handles) == all;
      r := Ok(handles);
    }

    /** DeleteAsync: the directory with everything beneath it. */
    method DeleteAsync(fs: FileStore, token: CancellationToken) returns (r: Result<()>)
      modifies fs
      ensures Outcome(r, fs.State()) == DeleteDirectoryOutcome(old(fs.State()), path, token)
    {
      if IsCancellationRequested(token, 0) {
        return Err(OperationCanceled);
      }
      r := fs.DeleteDirectory(path);
    }
  }

  /** Name and Extension of a file handle are the leaf and its last-dot suffix. */
  lemma FileHandleNames(dir: Path)
    requires |dir| >= 1
    ensures FileName(Combine(dir, "test.txt")) == "test.txt"
    ensures GetExtension(FileName(Combine(dir, "test.txt"))) == ".txt"
    ensures GetExtension(FileName(Combine(dir, ".gitignore"))) == ".gitignore"
    ensures DirectoryName(Combine(dir, "test.txt")) == Some(dir)
  {
    CombineSplits(dir, "test.txt");
    CombineSplits(dir, ".gitignore");
    ExtensionExamples();
  }
}
