/** What the operations of a System.IO directory handle do to the filesystem: one reference
    function per operation, from the filesystem before the call to the result and the filesystem
    after it. Both revisions of the directory handle share the file-creation protocol; they differ
    only in the exception raised by FailIfExists. */
module DirectoryOps {
  import opened Wrappers
  import opened Errors
  import opened Paths
  import opened Cancellation
  import opened Storage
  import opened Collision

  /** FailIfExists on an existing file, in the current revision. */
  const FileExistsError: Error := UnifiedIO("Cannot create file, it already exists")

  /** FailIfExists on an existing file, in the earlier revision. */
  const EarlierFileExistsError: Error := StorageIO("Cannot create file, it already exists")

  /** The private CreateFile helper: File.Create, disposed at once, reporting the path. */
  function FileMade(s: FsState, p: Path): (r: Outcome<Path>)
    ensures r.result.Ok? ==> r.result.value == p
    ensures r.state == FileCreated(s, p).state
  {
    var c := FileCreated(s, p);
    Outcome(if c.result.Ok? then Ok(p) else Err(c.result.error), c.state)
  }

  /** Directory.CreateDirectory, reporting the path. */
  function DirectoryMade(s: FsState, p: Path): (r: Outcome<Path>)
    ensures r.result.Ok? ==> r.result.value == p
    ensures r.state == DirectoryCreated(s, p).state
  {
    var c := DirectoryCreated(s, p);
    Outcome(if c.result.Ok? then Ok(p) else Err(c.result.error), c.state)
  }

  /** CreateFileAsync(desiredName, option) on directory `dir`. There is no check that `dir` exists.
      Under GenerateUniqueName the loop probes "{root} ({num}).{ext}" from num = 1 with a cancellation
      check at each num, and the handle it returns is to a path where no file was created. */
  function CreateFileOutcome(s: FsState, dir: Path, desiredName: string, option: CollisionOption,
                             token: CancellationToken, alreadyExists: Error): (r: Outcome<Path>)
    ensures r.state.dirs == s.dirs
    ensures r.state.files - {Combine(dir, desiredName)} == s.files - {Combine(dir, desiredName)}
    ensures Combine(dir, desiredName) in s.files && option != ReplaceExisting ==> r.state == s
    ensures r.result.Ok? ==>
      (r.result.value in r.state.files <==> r.result.value == Combine(dir, desiredName))
  {
    if IsCancellationRequested(token, 0) then Outcome(Err(OperationCanceled), s)
    else
      var q := Combine(dir, desiredName);
      if q !in s.files then FileMade(s, q)
      else match option
        case GenerateUniqueName =>
          var scheme := CreateFileScheme(desiredName);
          var k := FirstFree(s.files.Keys, dir, scheme, 0);
          FirstFreeIsFirst(s.files.Keys, dir, scheme, 0);
          Outcome(if IsCancellationRequested(token, k) then Err(OperationCanceled)
                  else Ok(Candidate(dir, scheme, k)), s)
        case ReplaceExisting => FileMade(FileDeleted(s, q), q)
        case FailIfExists => Outcome(Err(alreadyExists), s)
        case OpenIfExists => Outcome(Ok(q), s)
  }

  /** CreateDirectoryAsync(desiredName, option) on directory `dir`, which must exist. Under
      GenerateUniqueName the loop probes "{desiredName} ({num})" from num = 2 and creates the
      first free one. */
  function CreateDirectoryOutcome(s: FsState, dir: Path, desiredName: string, option: CollisionOption,
                                  token: CancellationToken): (r: Outcome<Path>)
    ensures option != ReplaceExisting ==> r.state.files == s.files && s.dirs <= r.state.dirs
    ensures r.result.Ok? ==> dir in s.dirs && r.result.value in r.state.dirs
    ensures r.result.Ok? && option != GenerateUniqueName ==> r.result.value == Combine(dir, desiredName)
  {
    if IsCancellationRequested(token, 0) then Outcome(Err(OperationCanceled), s)
    else if dir !in s.dirs then Outcome(Err(DirectoryNotFound(dir)), s)
    else
      var q := Combine(dir, desiredName);
      if q !in s.dirs then DirectoryMade(s, q)
      else match option
        case GenerateUniqueName =>
          var scheme := DirectoryScheme(desiredName);
          var k := FirstFree(s.dirs, dir, scheme, 1);
          if k >= 2 && IsCancellationRequested(token, k - 1) then Outcome(Err(OperationCanceled), s)
          else DirectoryMade(s, Candidate(dir, scheme, k))
        case ReplaceExisting =>
          var d := TreeDeleted(s, q);
          if d.result.Err? then Outcome(Err(d.result.error), d.state) else DirectoryMade(d.state, q)
        case FailIfExists => Outcome(Err(UnifiedIO("The directory " + Render(q) + " already exists")), s)
        case OpenIfExists => Outcome(Ok(q), s)
  }

  /** DeleteAsync: Directory.Delete(path, true) after the entry check. */
  function DeleteDirectoryOutcome(s: FsState, dir: Path, token: CancellationToken): (r: Outcome<()>)
    ensures r.state.dirs <= s.dirs && r.state.files.Keys <= s.files.Keys
    ensures r.result.Ok? ==> !IsCancellationRequested(token, 0) && dir in s.dirs && dir !in r.state.dirs
    ensures r.result.Err? ==> r.state == s
  {
    if IsCancellationRequested(token, 0) then Outcome(Err(OperationCanceled), s)
    else TreeDeleted(s, dir)
  }

  /** GetFilesAsync (entries = ChildFiles) and GetDirectoriesAsync (entries = ChildDirectories):
      the directory must exist. */
  function ListingOutcome(s: FsState, dir: Path, entries: set<Path>, token: CancellationToken): Result<set<Path>>
  {
    if IsCancellationRequested(token, 0) then Err(OperationCanceled)
    else if dir !in s.dirs then Err(DirectoryNotFound(dir))
    else Ok(entries)
  }

  // ---------------------------------------------------------------------------------------------
  // Properties of CreateFileAsync

  /** A free path in an existing directory gets an empty file, and nothing else changes. */
  lemma CreateFileOnFreePath(s: FsState, dir: Path, desiredName: string, option: CollisionOption,
                             token: CancellationToken, alreadyExists: Error)
    requires Valid(s) && dir in s.dirs && !IsCancellationRequested(token, 0)
    requires Combine(dir, desiredName) !in s.files && Combine(dir, desiredName) !in s.dirs
    ensures var o := CreateFileOutcome(s, dir, desiredName, option, token, alreadyExists);
      && o.result == Ok(Combine(dir, desiredName))
      && o.state.files == s.files[Combine(dir, desiredName) := []]
      && o.state.dirs == s.dirs
  {
    CombineSplits(dir, desiredName);
  }

  /** There is no directory guard: in a missing directory the failure is System.IO's own. */
  lemma CreateFileHasNoDirectoryGuard(s: FsState, dir: Path, desiredName: string, option: CollisionOption,
                                      token: CancellationToken, alreadyExists: Error)
    requires Valid(s) && |dir| >= 1 && dir !in s.dirs && !IsCancellationRequested(token, 0)
    ensures CreateFileOutcome(s, dir, desiredName, option, token, alreadyExists) ==
            Outcome(Err(Native(NativeDirectoryNotFound)), s)
  {
    CombineSplits(dir, desiredName);
    var q := Combine(dir, desiredName);
    assert q[..|q| - 1] == dir;
  }

  /** FailIfExists on an existing file raises the revision's exception and changes nothing. */
  lemma CreateFileFailIfExists(s: FsState, dir: Path, desiredName: string, token: CancellationToken,
                               alreadyExists: Error)
    requires Combine(dir, desiredName) in s.files && !IsCancellationRequested(token, 0)
    ensures CreateFileOutcome(s, dir, desiredName, FailIfExists, token, alreadyExists) ==
            Outcome(Err(alreadyExists), s)
  {
  }

  /** ReplaceExisting truncates the existing file to empty; OpenIfExists returns it as it is. */
  lemma CreateFileReplaceOrOpenExisting(s: FsState, dir: Path, desiredName: string, token: CancellationToken,
                                        alreadyExists: Error)
    requires Valid(s) && Combine(dir, desiredName) in s.files && !IsCancellationRequested(token, 0)
    ensures var o := CreateFileOutcome(s, dir, desiredName, ReplaceExisting, token, alreadyExists);
      o.result == Ok(Combine(dir, desiredName)) && o.state == s.(files := s.files[Combine(dir, desiredName) := []])
    ensures CreateFileOutcome(s, dir, desiredName, OpenIfExists, token, alreadyExists) ==
            Outcome(Ok(Combine(dir, desiredName)), s)
  {
  }

  /** GenerateUniqueName on an existing file returns the first free "{root} ({n}).{ext}" with n >= 1,
      after a cancellation check at each n up to it, and creates nothing. */
  lemma CreateFileGenerateUniqueName(s: FsState, dir: Path, desiredName: string, token: CancellationToken,
                                     alreadyExists: Error)
    requires Combine(dir, desiredName) in s.files && !IsCancellationRequested(token, 0)
    ensures var o := CreateFileOutcome(s, dir, desiredName, GenerateUniqueName, token, alreadyExists);
      var scheme := CreateFileScheme(desiredName);
      && o.state == s
      && (exists n :: 1 <= n <= |s.files|
            && Candidate(dir, scheme, n) !in s.files
            && (forall j :: 1 <= j < n ==> Candidate(dir, scheme, j) in s.files)
            && o.result == (if IsCancellationRequested(token, n) then Err(OperationCanceled)
                            else Ok(Candidate(dir, scheme, n))))
  {
    var scheme := CreateFileScheme(desiredName);
    FirstFreeIsFirst(s.files.Keys, dir, scheme, 0);
    assert |s.files.Keys| == |s.files|;
    assert Candidate(dir, scheme, 0) == Combine(dir, desiredName);
  }

  /** With `report.txt` taken and `report (1)..txt` free, the unique name is `report (1)..txt`,
      and no file is there afterwards. */
  lemma CreateFileDoubleDotScenario(s: FsState, dir: Path, alreadyExists: Error)
    requires Combine(dir, "report.txt") in s.files && Combine(dir, "report (1)..txt") !in s.files
    ensures var o := CreateFileOutcome(s, dir, "report.txt", GenerateUniqueName, NoCancellation, alreadyExists);
      o.result == Ok(Combine(dir, "report (1)..txt")) && Combine(dir, "report (1)..txt") !in o.state.files
  {
    CandidateNameExamples();
    var scheme := CreateFileScheme("report.txt");
    assert FirstFree(s.files.Keys - {Candidate(dir, scheme, 0)}, dir, scheme, 1) == 1;
  }

  // ---------------------------------------------------------------------------------------------
  // Properties of CreateDirectoryAsync

  /** A missing parent directory is reported before any change. */
  lemma CreateDirectoryNeedsParent(s: FsState, dir: Path, desiredName: string, option: CollisionOption,
                                   token: CancellationToken)
    requires dir !in s.dirs && !IsCancellationRequested(token, 0)
    ensures CreateDirectoryOutcome(s, dir, desiredName, option, token) == Outcome(Err(DirectoryNotFound(dir)), s)
  {
  }

  /** A free name gets a new, empty directory, and nothing else changes. */
  lemma CreateDirectoryOnFreeName(s: FsState, dir: Path, desiredName: string, option: CollisionOption,
                                  token: CancellationToken)
    requires Valid(s) && dir in s.dirs && !IsCancellationRequested(token, 0)
    requires Combine(dir, desiredName) !in s.dirs && Combine(dir, desiredName) !in s.files
    ensures var o := CreateDirectoryOutcome(s, dir, desiredName, option, token);
      && o.result == Ok(Combine(dir, desiredName))
      && o.state == s.(dirs := s.dirs + {Combine(dir, desiredName)})
  {
    var q := Combine(dir, desiredName);
    AddingChildDirectory(s, q);
  }

  /** In a valid filesystem every non-empty prefix of a directory is a directory, so no file
      lies above a directory. */
  lemma NoFileAboveDirectory(s: FsState, d: Path, f: Path)
    requires Valid(s) && d in s.dirs && 1 <= |f| && f <= d
    ensures f in s.dirs && f !in s.files
  {
    PrefixesOfDirectoryAreDirectories(s, d, |f|);
    assert d[..|f|] == f;
  }

  /** Creating a directory whose parent exists adds only that directory. */
  lemma AddingChildDirectory(s: FsState, q: Path)
    requires Valid(s) && |q| >= 2 && q[..|q| - 1] in s.dirs && q !in s.files
    ensures DirectoryCreated(s, q) == Outcome(Ok(()), s.(dirs := s.dirs + {q}))
  {
    var parent := q[..|q| - 1];
    forall f | f in s.files && f <= q && f != q ensures false {
      assert f <= parent;
      NoFileAboveDirectory(s, parent, f);
    }
    forall i | 1 <= i <= |q| ensures q[..i] in s.dirs + {q} {
      if i < |q| {
        PrefixesOfDirectoryAreDirectories(s, parent, i);
        assert parent[..i] == q[..i];
      } else {
        assert q[..i] == q;
      }
    }
    assert q[..|q|] == q;
  }

  /** FailIfExists on an existing directory raises and changes nothing; OpenIfExists returns it. */
  lemma CreateDirectoryFailOrOpenExisting(s: FsState, dir: Path, desiredName: string, token: CancellationToken)
    requires dir in s.dirs && Combine(dir, desiredName) in s.dirs && !IsCancellationRequested(token, 0)
    ensures var o := CreateDirectoryOutcome(s, dir, desiredName, FailIfExists, token);
      o.state == s && o.result.Err? && o.result.error.UnifiedIO?
    ensures CreateDirectoryOutcome(s, dir, desiredName, OpenIfExists, token) == Outcome(Ok(Combine(dir, desiredName)), s)
  {
  }

  /** ReplaceExisting removes the existing directory with its whole subtree and recreates it empty;
      nothing outside the subtree changes. */
  lemma CreateDirectoryReplaceExisting(s: FsState, dir: Path, desiredName: string, token: CancellationToken)
    requires Valid(s) && dir in s.dirs && Combine(dir, desiredName) in s.dirs && !IsCancellationRequested(token, 0)
    ensures var q := Combine(dir, desiredName);
      var o := CreateDirectoryOutcome(s, dir, desiredName, ReplaceExisting, token);
      && o.result == Ok(q)
      && (forall p :: p in o.state.files <==> p in s.files && !InSubtree(q, p))
      && (forall p :: p in o.state.files ==> o.state.files[p] == s.files[p])
      && (forall p :: p in o.state.dirs <==> (p in s.dirs && !InSubtree(q, p)) || p == q)
  {
    var q := Combine(dir, desiredName);
    CombineSplits(dir, desiredName);
    TreeDeletedPreservesValid(s, q);
    var t := TreeDeleted(s, q).state;
    assert q[..|q| - 1] == dir;
    assert q !in t.files;
    assert dir in t.dirs by {
      assert !InSubtree(q, dir);
    }
    AddingChildDirectory(t, q);
  }

  /** GenerateUniqueName on an existing directory creates the first free "{desiredName} ({n})" with
      n >= 2, every earlier candidate being an existing directory. That directory is the only one
      added, and the files are left alone. */
  lemma CreateDirectoryGenerateUniqueName(s: FsState, dir: Path, desiredName: string, token: CancellationToken)
    requires Valid(s) && dir in s.dirs && Combine(dir, desiredName) in s.dirs
    requires CreateDirectoryOutcome(s, dir, desiredName, GenerateUniqueName, token).result.Ok?
    ensures var o := CreateDirectoryOutcome(s, dir, desiredName, GenerateUniqueName, token);
      var scheme := DirectoryScheme(desiredName);
      var t := o.result.value;
      && t !in s.dirs && o.state.dirs == s.dirs + {t} && o.state.files == s.files
      && (exists n :: 2 <= n <= |s.dirs| + 1 && t == Candidate(dir, scheme, n)
            && (forall j :: 1 <= j < n ==> Candidate(dir, scheme, j) in s.dirs))
  {
    var scheme := DirectoryScheme(desiredName);
    FirstFreeIsFirst(s.dirs, dir, scheme, 1);
    var k := FirstFree(s.dirs, dir, scheme, 1);
    assert Candidate(dir, scheme, 1) == Combine(dir, desiredName);
    var t := Candidate(dir, scheme, k);
    assert t[..|t| - 1] == dir;
    assert t <= t;
    AddingChildDirectory(s, t);
  }

  // ---------------------------------------------------------------------------------------------
  // Listing, existence and deletion

  /** Listing succeeds exactly on an existing directory, giving exactly its immediate children. */
  lemma ListingGivesImmediateChildren(s: FsState, dir: Path, token: CancellationToken)
    requires !IsCancellationRequested(token, 0)
    ensures ListingOutcome(s, dir, ChildFiles(s, dir), token).Ok? <==> dir in s.dirs
    ensures ListingOutcome(s, dir, ChildFiles(s, dir), token).Ok? ==>
      forall p :: p in ListingOutcome(s, dir, ChildFiles(s, dir), token).value <==>
        p in s.files && DirectoryName(p) == Some(dir)
    ensures ListingOutcome(s, dir, ChildDirectories(s, dir), token).Ok? ==>
      forall p :: p in ListingOutcome(s, dir, ChildDirectories(s, dir), token).value <==>
        p in s.dirs && DirectoryName(p) == Some(dir)
  {
  }

  /** Deleting a directory removes it and everything beneath it, and nothing else. */
  lemma DeleteDirectoryRemovesSubtree(s: FsState, dir: Path, token: CancellationToken)
    requires dir in s.dirs && dir !in s.files && !IsCancellationRequested(token, 0)
    ensures var o := DeleteDirectoryOutcome(s, dir, token);
      && o.result == Ok(())
      && (forall p :: p in o.state.files <==> p in s.files && !InSubtree(dir, p))
      && (forall p :: p in o.state.dirs <==> p in s.dirs && !InSubtree(dir, p))
  {
  }

  /** Every directory operation leaves a valid filesystem valid, however it ends. */
  lemma CreateFilePreservesValid(s: FsState, dir: Path, desiredName: string, option: CollisionOption,
                                 token: CancellationToken, alreadyExists: Error)
    requires Valid(s)
    ensures Valid(CreateFileOutcome(s, dir, desiredName, option, token, alreadyExists).state)
  {
    var q := Combine(dir, desiredName);
    if !IsCancellationRequested(token, 0) {
      if q !in s.files {
        FileCreatedPreservesValid(s, q);
      } else if option == ReplaceExisting {
        FileDeletedPreservesValid(s, q);
        FileCreatedPreservesValid(FileDeleted(s, q), q);
      }
    }
  }

  lemma CreateDirectoryPreservesValid(s: FsState, dir: Path, desiredName: string, option: CollisionOption,
                                      token: CancellationToken)
    requires Valid(s)
    ensures Valid(CreateDirectoryOutcome(s, dir, desiredName, option, token).state)
  {
    var q := Combine(dir, desiredName);
    if !IsCancellationRequested(token, 0) && dir in s.dirs {
      if q !in s.dirs {
        DirectoryCreatedPreservesValid(s, q);
      } else if option == ReplaceExisting {
        TreeDeletedPreservesValid(s, q);
        DirectoryCreatedPreservesValid(TreeDeleted(s, q).state, q);
      } else if option == GenerateUniqueName {
        var scheme := DirectoryScheme(desiredName);
        DirectoryCreatedPreservesValid(s, Candidate(dir, scheme, FirstFree(s.dirs, dir, scheme, 1)));
      }
    }
  }

  lemma DeleteDirectoryPreservesValid(s: FsState, dir: Path, token: CancellationToken)
    requires Valid(s)
    ensures Valid(DeleteDirectoryOutcome(s, dir, token).state)
  {
    TreeDeletedPreservesValid(s, dir);
  }
}
