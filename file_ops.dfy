/** What the operations of a System.IO file handle do to the filesystem: one reference function per
    operation, from the filesystem before the call to the result and the filesystem after it. */
module FileOps {
  import opened Wrappers
  import opened Errors
  import opened Paths
  import opened Cancellation
  import opened Storage
  import opened Collision

  /** UnifiedStorage.FileAccessOption */
  datatype FileAccessOption = ReadOnly | ReadWrite

  /** An open stream, known only by the file it is open on and how. */
  datatype Stream = Stream(path: Path, access: FileAccessOption)

  /** The buffer size CopyAsync uses for its destination stream and for the transfer. */
  const BufferSize: nat := 4096

  function Min(a: nat, b: nat): nat
  {
    if a <= b then a else b
  }

  /** `t` is `s` with the bytes of `source` moved to a different path `target`, replacing any file
      there. */
  ghost predicate Relocated(s: FsState, t: FsState, source: Path, target: Path)
  {
    source in s.files && source != target && t.files == (s.files - {source})[target := s.files[source]]
  }

  /** File.Move to `target`, reporting the target path on success. */
  function MovedTo(s: FsState, source: Path, target: Path): (r: Outcome<Path>)
    ensures r.state.dirs == s.dirs
    ensures r.result.Ok? ==> r.result.value == target && Relocated(s, r.state, source, target)
    ensures r.result.Err? ==> r.state == s
  {
    var m := FileMoved(s, source, target);
    Outcome(if m.result.Ok? then Ok(target) else Err(m.result.error), m.state)
  }

  /** MoveAsync(newPath, option): the source must exist (checked before cancellation); the counter
      loop tries the bare name at counter 1 and, under GenerateUniqueName only, "{root} ({n}){ext}"
      from n = 2, checking for cancellation at every counter. */
  function MoveOutcome(s: FsState, source: Path, newPath: Path, option: CollisionOption := ReplaceExisting,
                       token: CancellationToken := NoCancellation): (r: Outcome<Path>)
    ensures r.state.dirs == s.dirs
    ensures r.result.Ok? ==>
      (&& Relocated(s, r.state, source, r.result.value)
       && DirectoryName(newPath).Some? && DirectoryName(r.result.value) == DirectoryName(newPath)
       && (option != GenerateUniqueName ==> r.result.value == newPath))
    ensures r.result.Err? ==> r.state == s || (option == ReplaceExisting && r.state == FileDeleted(s, newPath))
  {
    if source !in s.files then Outcome(Err(FileNotFound(source)), s)
    else if IsCancellationRequested(token, 0) then Outcome(Err(OperationCanceled), s)
    else match DirectoryName(newPath)
      case None =>
        // Path.Combine(null, candidateName) throws, after the first check of the loop
        Outcome(Err(if IsCancellationRequested(token, 1) then OperationCanceled else ArgumentNull("path1")), s)
      case Some(newDirectory) =>
        var scheme := MoveScheme(FileName(newPath));
        if option == GenerateUniqueName then
          var k := FirstFree(s.files.Keys, newDirectory, scheme, 1);
          if IsCancellationRequested(token, k) then Outcome(Err(OperationCanceled), s)
          else
            CombineSplits(newDirectory, CandidateName(scheme, k));
            MovedTo(s, source, Candidate(newDirectory, scheme, k))
        else if IsCancellationRequested(token, 1) then Outcome(Err(OperationCanceled), s)
        else if newPath !in s.files then MovedTo(s, source, newPath)
        else match option
          case FailIfExists => Outcome(Err(UnifiedIO("File already exists.")), s)
          case ReplaceExisting =>
            var d := FileDeleted(s, newPath);
            assert source != newPath ==>
              (d.files - {source})[newPath := s.files[source]] == (s.files - {source})[newPath := s.files[source]];
            MovedTo(d, source, newPath)
          case _ => Outcome(Err(ArgumentOutOfRange("collisionOption")), s)
  }

  /** RenameAsync(newName, option): a move to the same directory under `newName`. */
  function RenameOutcome(s: FsState, source: Path, newName: string, option: CollisionOption := FailIfExists,
                         token: CancellationToken := NoCancellation): (r: Outcome<Path>)
    ensures r.state.dirs == s.dirs
    ensures r.result.Ok? ==>
      (&& Relocated(s, r.state, source, r.result.value)
       && DirectoryName(r.result.value) == DirectoryName(source)
       && (option != GenerateUniqueName ==> FileName(r.result.value) == newName))
  {
    if source !in s.files then Outcome(Err(FileNotFound(source)), s)
    else match DirectoryName(source)
      case None => Outcome(Err(Argument("newName")), s)
      case Some(directoryPath) =>
        CombineSplits(directoryPath, newName);
        MoveOutcome(s, source, Combine(directoryPath, newName), option, token)
  }

  /** Stream.CopyToAsync with a bounded buffer: from `copied` on, every read of at most BufferSize
      bytes passes the checkpoint `check` first, the final read that finds nothing left included.
      Gives the bytes written and whether the transfer was cancelled. */
  function CopyChunks(source: seq<byte>, copied: nat, check: nat, token: CancellationToken): (seq<byte>, bool)
    requires copied <= |source|
    decreases |source| - copied
  {
    if IsCancellationRequested(token, check) then (source[..copied], true)
    else if copied == |source| then (source, false)
    else CopyChunks(source, copied + Min(BufferSize, |source| - copied), check + 1, token)
  }

  /** CopyAsync(newPath): the collision option plays no part. The source, opened exclusively, must
      exist; File.Create makes the destination empty (overwriting a file there) and the bytes follow. */
  function CopyOutcome(s: FsState, source: Path, newPath: Path, token: CancellationToken := NoCancellation)
    : (r: Outcome<Path>)
    ensures r.state.dirs == s.dirs && r.state.files - {newPath} == s.files - {newPath}
    ensures r.result.Ok? ==>
      (&& r.result.value == newPath && source in s.files && newPath in r.state.files
       && r.state.files[newPath] == s.files[source])
    ensures r.state != s ==>
      source in s.files && newPath in r.state.files && r.state.files[newPath] <= s.files[source]
  {
    if source !in s.files then Outcome(Err(FileNotFound(source)), s)
    else if IsCancellationRequested(token, 0) then Outcome(Err(OperationCanceled), s)
    else if newPath == source then Outcome(Err(Native(NativeIOError)), s)  // the source is open without sharing
    else
      var created := FileCreated(s, newPath);
      if created.result.Err? then Outcome(Err(created.result.error), created.state)
      else
        var transfer := CopyChunks(s.files[source], 0, 1, token);
        CopyChunksWritesPrefix(s.files[source], 0, 1, token);
        Outcome(if transfer.1 then Err(OperationCanceled) else Ok(newPath),
                created.state.(files := created.state.files[newPath := transfer.0]))
  }

  /** DeleteAsync: the file must exist (checked before cancellation). */
  function DeleteOutcome(s: FsState, p: Path, token: CancellationToken): (r: Outcome<()>)
    ensures r.result.Ok? <==> p in s.files && !IsCancellationRequested(token, 0)
    ensures r.state == if r.result.Ok? then s.(files := s.files - {p}) else s
  {
    if p !in s.files then Outcome(Err(FileNotFound(p)), s)
    else if IsCancellationRequested(token, 0) then Outcome(Err(OperationCanceled), s)
    else Outcome(Ok(()), FileDeleted(s, p))
  }

  /** OpenAsync: read-only needs the file (checked after cancellation); read-write opens or creates it. */
  function OpenOutcome(s: FsState, p: Path, access: FileAccessOption, token: CancellationToken): (r: Outcome<Stream>)
    ensures r.result.Ok? ==> r.result.value == Stream(p, access) && p in r.state.files
    ensures r.state.dirs == s.dirs
    ensures r.state != s ==> access == ReadWrite && p !in s.files && r.state.files == s.files[p := []]
  {
    if IsCancellationRequested(token, 0) then Outcome(Err(OperationCanceled), s)
    else match access
      case ReadOnly =>
        Outcome(if p in s.files then Ok(Stream(p, ReadOnly)) else Err(FileNotFound(p)), s)
      case ReadWrite =>
        if p in s.files then Outcome(Ok(Stream(p, ReadWrite)), s)
        else
          var created := FileCreated(s, p);
          Outcome(if created.result.Ok? then Ok(Stream(p, ReadWrite)) else Err(created.result.error), created.state)
  }

  // ---------------------------------------------------------------------------------------------
  // Properties

  /** A missing file is reported before anything else, cancellation included, and nothing changes. */
  lemma MissingSourceIsReportedFirst(s: FsState, p: Path, q: Path, name: string, option: CollisionOption,
                                     token: CancellationToken)
    requires p !in s.files
    ensures MoveOutcome(s, p, q, option, token) == Outcome(Err(FileNotFound(p)), s)
    ensures RenameOutcome(s, p, name, option, token) == Outcome(Err(FileNotFound(p)), s)
    ensures CopyOutcome(s, p, q, token) == Outcome(Err(FileNotFound(p)), s)
    ensures DeleteOutcome(s, p, token) == Outcome(Err(FileNotFound(p)), s)
    ensures !IsCancellationRequested(token, 0) ==>
      OpenOutcome(s, p, ReadOnly, token) == Outcome(Err(FileNotFound(p)), s)
  {
  }

  /** Moving to a free destination in an existing directory carries the bytes over and removes
      the old path, under every collision option. */
  lemma MoveToFreeDestination(s: FsState, p: Path, q: Path, option: CollisionOption, token: CancellationToken)
    requires Valid(s) && p in s.files
    requires q !in s.files && q !in s.dirs
    requires DirectoryName(q).Some? && DirectoryName(q).value in s.dirs
    requires !IsCancellationRequested(token, 1)
    ensures var o := MoveOutcome(s, p, q, option, token);
      && o.result == Ok(q)
      && o.state.files == (s.files - {p})[q := s.files[p]]
      && o.state.dirs == s.dirs
      && q in o.state.files && o.state.files[q] == s.files[p]
      && (p != q ==> p !in o.state.files)
  {
    SplitCombines(q);
  }

  /** FailIfExists on an occupied destination changes nothing: the source stays, and so do the
      destination's bytes. */
  lemma MoveFailIfExistsChangesNothing(s: FsState, p: Path, q: Path, token: CancellationToken)
    requires p in s.files && q in s.files && DirectoryName(q).Some?
    ensures var o := MoveOutcome(s, p, q, FailIfExists, token);
      && o.state == s
      && o.result == Err(if IsCancellationRequested(token, 1) then OperationCanceled
                         else UnifiedIO("File already exists."))
  {
  }

  /** ReplaceExisting deletes the occupant, then moves: the destination holds the source's bytes. */
  lemma MoveReplaceExisting(s: FsState, p: Path, q: Path, token: CancellationToken)
    requires Valid(s) && p in s.files && q in s.files && p != q
    requires !IsCancellationRequested(token, 1)
    ensures var o := MoveOutcome(s, p, q, ReplaceExisting, token);
      && o.result == Ok(q)
      && o.state.files == (s.files - {p})[q := s.files[p]]
      && o.state.dirs == s.dirs
  {
  }

  /** ReplaceExisting onto the source's own path deletes the source, and then the move fails. */
  lemma MoveReplaceOntoItself(s: FsState, p: Path, token: CancellationToken)
    requires Valid(s) && p in s.files
    requires !IsCancellationRequested(token, 1)
    ensures var o := MoveOutcome(s, p, p, ReplaceExisting, token);
      && o.result == Err(Native(NativeFileNotFound))
      && o.state.files == s.files - {p}
      && o.state.dirs == s.dirs
  {
  }

  /** OpenIfExists is no move option: on an occupied destination it raises, changing nothing. */
  lemma MoveOpenIfExistsRaisesWhenOccupied(s: FsState, p: Path, q: Path, token: CancellationToken)
    requires p in s.files && q in s.files && DirectoryName(q).Some?
    requires !IsCancellationRequested(token, 1)
    ensures MoveOutcome(s, p, q, OpenIfExists, token) == Outcome(Err(ArgumentOutOfRange("collisionOption")), s)
  {
  }

  /** GenerateUniqueName moves to the first free candidate: a path no file had before, every
      earlier candidate being an existing file. */
  lemma MoveGenerateUniqueNameTarget(s: FsState, p: Path, q: Path, token: CancellationToken)
    requires p in s.files && DirectoryName(q).Some?
    requires MoveOutcome(s, p, q, GenerateUniqueName, token).result.Ok?
    ensures var target := MoveOutcome(s, p, q, GenerateUniqueName, token).result.value;
      var dir := DirectoryName(q).value;
      var scheme := MoveScheme(FileName(q));
      && target !in s.files
      && (exists k :: 1 <= k <= |s.files| + 1 && target == Candidate(dir, scheme, k) &&
            forall j :: 1 <= j < k ==> Candidate(dir, scheme, j) in s.files)
  {
    var dir := DirectoryName(q).value;
    var scheme := MoveScheme(FileName(q));
    var k := FirstFree(s.files.Keys, dir, scheme, 1);
    FirstFreeIsFirst(s.files.Keys, dir, scheme, 1);
    assert |s.files.Keys| == |s.files|;
  }

  /** The candidate the search settles on is the moved file's new home: it holds the source's bytes. */
  lemma MoveGenerateUniqueNameCarriesBytes(s: FsState, p: Path, q: Path, token: CancellationToken)
    requires p in s.files
    requires MoveOutcome(s, p, q, GenerateUniqueName, token).result.Ok?
    ensures var o := MoveOutcome(s, p, q, GenerateUniqueName, token);
      && o.result.value in o.state.files && o.state.files[o.result.value] == s.files[p]
      && p !in o.state.files
  {
  }

  /** RenameAsync is MoveAsync to the sibling path. */
  lemma RenameIsMoveToSibling(s: FsState, p: Path, name: string, option: CollisionOption, token: CancellationToken)
    requires DirectoryName(p).Some?
    ensures RenameOutcome(s, p, name, option, token) ==
            MoveOutcome(s, p, Combine(DirectoryName(p).value, name), option, token)
  {
  }

  /** Called without an option and a token, MoveAsync replaces an occupied destination. */
  lemma MoveByDefaultReplaces(s: FsState, p: Path, q: Path)
    requires Valid(s) && p in s.files && q in s.files && p != q
    ensures var o := MoveOutcome(s, p, q);
      && o.result == Ok(q)
      && o.state == s.(files := (s.files - {p})[q := s.files[p]])
  {
    MoveReplaceExisting(s, p, q, NoCancellation);
  }

  /** Called without an option and a token, RenameAsync refuses to overwrite a sibling. */
  lemma RenameByDefaultRefusesToOverwrite(s: FsState, p: Path, newName: string)
    requires p in s.files && DirectoryName(p).Some?
    requires Combine(DirectoryName(p).value, newName) in s.files
    ensures RenameOutcome(s, p, newName) == Outcome(Err(UnifiedIO("File already exists.")), s)
  {
    CombineSplits(DirectoryName(p).value, newName);
  }

  /** Renaming `a.txt` to a free `b.txt` with FailIfExists: the handle's file is now called
      `b.txt`, it sits in the same directory, and `a.txt` is gone. */
  lemma RenameScenario(s: FsState, dir: Path, token: CancellationToken)
    requires Valid(s) && dir in s.dirs && Combine(dir, "a.txt") in s.files
    requires Combine(dir, "b.txt") !in s.files && Combine(dir, "b.txt") !in s.dirs
    requires !IsCancellationRequested(token, 1)
    ensures var o := RenameOutcome(s, Combine(dir, "a.txt"), "b.txt", FailIfExists, token);
      && o.result == Ok(Combine(dir, "b.txt"))
      && FileName(o.result.value) == "b.txt"
      && DirectoryName(o.result.value) == Some(dir)
      && Combine(dir, "a.txt") !in o.state.files
  {
    var a, b := Combine(dir, "a.txt"), Combine(dir, "b.txt");
    CombineSplits(dir, "a.txt");
    CombineSplits(dir, "b.txt");
    MoveToFreeDestination(s, a, b, FailIfExists, token);
  }

  /** The transfer writes a prefix of the source; it writes all of it unless it was cancelled. */
  lemma {:induction false} CopyChunksWritesPrefix(source: seq<byte>, copied: nat, check: nat, token: CancellationToken)
    requires copied <= |source|
    ensures var t := CopyChunks(source, copied, check, token);
      && t.0 <= source
      && (!t.1 ==> t.0 == source)
      && (token == NoCancellation ==> !t.1)
    decreases |source| - copied
  {
    if copied < |source| && !IsCancellationRequested(token, check) {
      CopyChunksWritesPrefix(source, copied + Min(BufferSize, |source| - copied), check + 1, token);
    }
  }

  /** A completed copy leaves the source as it was and gives the destination the same bytes,
      whatever collision option the caller passed. */
  lemma CopyDuplicatesBytes(s: FsState, p: Path, q: Path, token: CancellationToken)
    requires CopyOutcome(s, p, q, token).result.Ok?
    ensures var o := CopyOutcome(s, p, q, token);
      && o.result == Ok(q) && p in s.files && p != q
      && p in o.state.files && o.state.files[p] == s.files[p]
      && q in o.state.files && o.state.files[q] == s.files[p]
      && o.state.dirs == s.dirs
  {
    CopyChunksWritesPrefix(s.files[p], 0, 1, token);
  }

  /** Without cancellation, a copy to a distinct path in an existing directory succeeds, replacing
      whatever file was there. */
  lemma CopySucceedsWithoutCancellation(s: FsState, p: Path, q: Path)
    requires p in s.files && q != p && q !in s.dirs
    requires DirectoryName(q).Some? && DirectoryName(q).value in s.dirs
    ensures var o := CopyOutcome(s, p, q, NoCancellation);
      o.result == Ok(q) && o.state == s.(files := s.files[q := s.files[p]])
  {
    CopyChunksWritesPrefix(s.files[p], 0, 1, NoCancellation);
  }

  /** A copy cancelled during the transfer leaves a truncated destination: a prefix of the source. */
  lemma CopyCancelledMidwayLeavesPrefix(s: FsState, p: Path, q: Path, token: CancellationToken)
    requires p in s.files && p != q && !IsCancellationRequested(token, 0)
    requires FileCreated(s, q).result.Ok?
    requires CopyOutcome(s, p, q, token).result.Err?
    ensures var o := CopyOutcome(s, p, q, token);
      o.result == Err(OperationCanceled) && q in o.state.files && o.state.files[q] <= s.files[p]
  {
    CopyChunksWritesPrefix(s.files[p], 0, 1, token);
  }

  /** Copying and then deleting the original leaves one file, at the new path, with the original bytes. */
  lemma CopyThenDeleteIsRelocation(s: FsState, p: Path, q: Path)
    requires p in s.files && q != p && q !in s.dirs
    requires DirectoryName(q).Some? && DirectoryName(q).value in s.dirs
    ensures var copied := CopyOutcome(s, p, q, NoCancellation);
      var deleted := DeleteOutcome(copied.state, p, NoCancellation);
      && deleted.result == Ok(())
      && deleted.state.files == (s.files - {p})[q := s.files[p]]
  {
    CopySucceedsWithoutCancellation(s, p, q);
  }

  /** Every file operation leaves a valid filesystem valid, however it ends. */
  lemma MovePreservesValid(s: FsState, p: Path, q: Path, option: CollisionOption, token: CancellationToken)
    requires Valid(s)
    ensures Valid(MoveOutcome(s, p, q, option, token).state)
  {
    if p in s.files && !IsCancellationRequested(token, 0) && DirectoryName(q).Some? {
      if option == GenerateUniqueName {
        var dir, scheme := DirectoryName(q).value, MoveScheme(FileName(q));
        FileMovedPreservesValid(s, p, Candidate(dir, scheme, FirstFree(s.files.Keys, dir, scheme, 1)));
      } else if q !in s.files {
        FileMovedPreservesValid(s, p, q);
      } else if option == ReplaceExisting {
        FileDeletedPreservesValid(s, q);
        FileMovedPreservesValid(FileDeleted(s, q), p, q);
      }
    }
  }

  lemma RenamePreservesValid(s: FsState, p: Path, name: string, option: CollisionOption, token: CancellationToken)
    requires Valid(s)
    ensures Valid(RenameOutcome(s, p, name, option, token).state)
  {
    if DirectoryName(p).Some? {
      MovePreservesValid(s, p, Combine(DirectoryName(p).value, name), option, token);
    }
  }

  /** Rewriting the bytes of an existing file keeps the tree as it is. */
  lemma ContentsChangePreservesValid(s: FsState, p: Path, bytes: seq<byte>)
    requires Valid(s) && p in s.files
    ensures Valid(s.(files := s.files[p := bytes]))
  {
  }

  lemma CopyPreservesValid(s: FsState, p: Path, q: Path, token: CancellationToken)
    requires Valid(s)
    ensures Valid(CopyOutcome(s, p, q, token).state)
  {
    FileCreatedPreservesValid(s, q);
    var created := FileCreated(s, q);
    if p in s.files && !IsCancellationRequested(token, 0) && q != p && created.result.Ok? {
      ContentsChangePreservesValid(created.state, q, CopyChunks(s.files[p], 0, 1, token).0);
    }
  }

  lemma DeletePreservesValid(s: FsState, p: Path, token: CancellationToken)
    requires Valid(s)
    ensures Valid(DeleteOutcome(s, p, token).state)
  {
    FileDeletedPreservesValid(s, p);
  }

  lemma OpenPreservesValid(s: FsState, p: Path, access: FileAccessOption, token: CancellationToken)
    requires Valid(s)
    ensures Valid(OpenOutcome(s, p, access, token).state)
  {
    FileCreatedPreservesValid(s, p);
  }
}
