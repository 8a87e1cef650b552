/** The earlier revision of the System.IO directory handle (UnifiedStorage.DotNet/DotNetDirectory.cs).
    Only file creation and deletion are implemented there; its other operations only throw. */
module DotNetEarlier {
  import opened Wrappers
  import opened Errors
  import opened Paths
  import opened Cancellation
  import opened Storage
  import opened Collision
  import opened DirectoryOps
  import DotNet

  class DotNetDirectory {
    const path: Path
    /** Name is Path.GetDirectoryName of the path: the parent path, absent for a root. */
    const name: Option<Path>

    constructor (path: Path)
      ensures this.path == path && name == DirectoryName(path)
    {
      this.path := path;
      this.name := DirectoryName(path);
    }

    /** The private CreateFile helper. */
    method CreateFile(fs: FileStore, filePath: Path) returns (r: Result<()>)
      modifies fs
      ensures Outcome(r, fs.State()) == FileCreated(old(fs.State()), filePath)
    {
      r := fs.CreateFile(filePath);
    }

    /** CreateFileAsync: the protocol of the current revision, with the older exception type for
        FailIfExists. */
    method CreateFileAsync(fs: FileStore, desiredName: string, option: CollisionOption,
                           token: CancellationToken := NoCancellation)
      returns (r: Result<DotNet.DotNetFile>)
      modifies fs
      ensures Outcome(DotNet.HandlePath(r), fs.State()) ==
              CreateFileOutcome(old(fs.State()), path, desiredName, option, token, EarlierFileExistsError)
      ensures r.Ok? ==> fresh(r.value)
    {
      if IsCancellationRequested(token, 0) {
        return Err(OperationCanceled);
      }
      var newPath := Combine(path, desiredName);
      if fs.FileExists(newPath) {
        match option
        case GenerateUniqueName =>
          assert Candidate(path, CreateFileScheme(desiredName), 0) == newPath;
          var g := GenerateFileName(fs, path, desiredName, token);
          if g.Err? {
            return Err(g.error);
          }
          newPath := g.value;
        case ReplaceExisting =>
          fs.DeleteFile(newPath);
          var c := CreateFile(fs, newPath);
          if c.Err? {
            return Err(c.error);
          }
        case FailIfExists =>
          return Err(EarlierFileExistsError);
        case OpenIfExists =>
      } else {
        var c := CreateFile(fs, newPath);
        if c.Err? {
          return Err(c.error);
        }
      }
      var f := new DotNet.DotNetFile(newPath);
      r := Ok(f);
    }

    /** DeleteAsync: the directory with everything beneath it. */
    method DeleteAsync(fs: FileStore, token: CancellationToken) returns (r: Result<()>)
      modifies fs
      ensures Outcome(r, fs.State()) == DeleteDirectoryOutcome(old(fs.State()), path, token)
    {
      if IsCancellationRequested(token, 0) {
        return Err(OperationCanceled);
      }
      r := fs.DeleteDirectory(path);
    }
  }

  /** The two revisions create files alike; they differ only in the exception FailIfExists raises
      on an existing file, UnifiedIOException now and the library's IOException before. */
  lemma RevisionsDifferOnlyInFailIfExists(s: FsState, dir: Path, desiredName: string, option: CollisionOption,
                                          token: CancellationToken)
    ensures var current := CreateFileOutcome(s, dir, desiredName, option, token, FileExistsError);
      var earlier := CreateFileOutcome(s, dir, desiredName, option, token, EarlierFileExistsError);
      && current.state == earlier.state
      && (current.result != earlier.result <==>
            option == FailIfExists && Combine(dir, desiredName) in s.files && !IsCancellationRequested(token, 0))
      && (current.result != earlier.result ==>
            current.result == Err(UnifiedIO("Cannot create file, it already exists")) &&
            earlier.result == Err(StorageIO("Cannot create file, it already exists")))
  {
  }
}
