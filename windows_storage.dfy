/** UnifiedStorage.WindowsStorage.WindowsStoragePath: a path under the application's storage.
    The local-folder path (ApplicationData.Current.LocalFolder.Path) is passed in. */
module WindowsStoragePaths {
  import opened Paths

  /** The wrapped path is a readonly field; the type here is a value. */
  datatype WindowsStoragePath = WindowsStoragePath(path: Path)
  {
    /** IsRoot: the path is the local folder, ignoring case. */
    predicate IsRoot(localFolder: Path)
    {
      PathEqualsIgnoreCase(path, localFolder)
    }

    /** Combine(fragments): Path.Combine folded over the fragments from the left. */
    function Combine(fragments: seq<string>): Path
    {
      CombineAll(path, fragments)
    }
  }

  /** Combining nothing gives the stored path; combining a concatenation combines in two steps. */
  lemma CombineFolds(p: WindowsStoragePath, xs: seq<string>, ys: seq<string>)
    ensures p.Combine([]) == p.path
    ensures p.Combine(xs + ys) == WindowsStoragePath(p.Combine(xs)).Combine(ys)
  {
    CombineAllConcat(p.path, xs, ys);
  }

  /** IsRoot is case-blind: it holds exactly when the lower-case forms agree, so the local folder
      is a root however it is spelt. */
  lemma IsRootIgnoresCase(p: WindowsStoragePath, localFolder: Path)
    ensures p.IsRoot(localFolder) <==> LowerPath(p.path) == LowerPath(localFolder)
    ensures WindowsStoragePath(LowerPath(localFolder)).IsRoot(localFolder)
    ensures WindowsStoragePath(localFolder).IsRoot(localFolder)
  {
    PathEqualsIgnoreCaseIsLowerEquality(p.path, localFolder);
    PathEqualsIgnoreCaseIsLowerEquality(LowerPath(localFolder), localFolder);
    PathEqualsIgnoreCaseIsLowerEquality(localFolder, localFolder);
    forall i | 0 <= i < |localFolder| {
      LowerStringIdempotent(localFolder[i]);
    }
  }

  /** A folder beside the local folder whose name differs from the local folder's, ignoring case,
      is not a root, and neither is anything combined below the local folder. */
  lemma OnlyTheLocalFolderIsRoot(parent: Path, local: string, sibling: string, fragments: seq<string>)
    requires LowerString(sibling) != LowerString(local)
    requires |fragments| >= 1
    ensures !WindowsStoragePath(parent + [sibling]).IsRoot(parent + [local])
    ensures !WindowsStoragePath(WindowsStoragePath(parent + [local]).Combine(fragments)).IsRoot(parent + [local])
  {
    var l, b := parent + [local], parent + [sibling];
    PathEqualsIgnoreCaseIsLowerEquality(b, l);
    assert LowerPath(b)[|parent|] != LowerPath(l)[|parent|];
    CombineAllAppends(l, fragments);
  }
}

/** UnifiedStorage.WindowsStorage.Extensions.CollisionOptionExtensions: the library's collision
    options as Windows.Storage.NameCollisionOption values. */
module CollisionOptionExtensions {
  import opened Errors
  import C = Collision

  /** Windows.Storage.NameCollisionOption */
  datatype NameCollisionOption = GenerateUniqueName | ReplaceExisting | FailIfExists

  /** ToNameCollisionOption: the three options Windows.Storage knows map to their namesakes;
      OpenIfExists has no counterpart. */
  function ToNameCollisionOption(option: C.CollisionOption): (r: Result<NameCollisionOption>)
    ensures r.Err? <==> option == C.OpenIfExists
    ensures r.Ok? ==> FromNameCollisionOption(r.value) == option
  {
    match option
    case GenerateUniqueName => Ok(GenerateUniqueName)
    case ReplaceExisting => Ok(ReplaceExisting)
    case FailIfExists => Ok(FailIfExists)
    case OpenIfExists => Err(ArgumentOutOfRange("option"))
  }

  /** The library option a native option stands for. */
  function FromNameCollisionOption(option: NameCollisionOption): C.CollisionOption
  {
    match option
    case GenerateUniqueName => C.GenerateUniqueName
    case ReplaceExisting => C.ReplaceExisting
    case FailIfExists => C.FailIfExists
  }

  /** The mapping succeeds on every option but OpenIfExists, and it is undone by the inverse. */
  lemma ToNameCollisionOptionRoundTrip(option: C.CollisionOption, native: NameCollisionOption)
    ensures ToNameCollisionOption(option).Ok? <==> option != C.OpenIfExists
    ensures ToNameCollisionOption(option).Ok? ==> FromNameCollisionOption(ToNameCollisionOption(option).value) == option
    ensures ToNameCollisionOption(FromNameCollisionOption(native)) == Ok(native)
    ensures option == C.OpenIfExists ==> ToNameCollisionOption(option) == Err(ArgumentOutOfRange("option"))
  {
  }

  /** Distinct accepted options map to distinct native options. */
  lemma ToNameCollisionOptionInjective(a: C.CollisionOption, b: C.CollisionOption)
    requires ToNameCollisionOption(a).Ok? && ToNameCollisionOption(b).Ok?
    requires ToNameCollisionOption(a) == ToNameCollisionOption(b)
    ensures a == b
  {
    ToNameCollisionOptionRoundTrip(a, GenerateUniqueName);
    ToNameCollisionOptionRoundTrip(b, GenerateUniqueName);
  }
}

/** UnifiedStorage.WindowsStorage: file handles that resolve their Windows.Storage file lazily,
    and the file system's GetFileAsync. A lookup of Windows.Storage (StorageFile.GetFileFromPathAsync)
    is not modelled; its outcome is given to the operations that perform one. */
module WindowsStorage {
  import opened Wrappers
  import opened Errors
  import opened Paths
  import opened WindowsStoragePaths

  /** A Windows.Storage file (IStorageFile), known by its path. */
  datatype NativeFile = NativeFile(path: Path)

  /** What ExistsAsync does to the cached native file, and what it answers: a cached file
      answers yes with no lookup; otherwise the lookup's file is cached, and any failure of the
      lookup leaves nothing cached and answers no. */
  function Probe(cached: Option<NativeFile>, lookup: Result<NativeFile>): (r: (Option<NativeFile>, bool))
    ensures r.1 <==> r.0.Some?
    ensures cached.Some? ==> r.0 == cached
    ensures cached.None? ==> (r.0.Some? <==> lookup.Ok?) && (lookup.Ok? ==> r.0 == Some(lookup.value))
  {
    if cached.Some? then (cached, true)
    else match lookup
      case Ok(f) => (Some(f), true)
      case Err(_) => (None, false)
  }

  /** Resolution is monotone: after a successful probe every later probe answers yes, keeps the
      same file, and needs no lookup. */
  lemma ProbeIsMonotone(cached: Option<NativeFile>, first: Result<NativeFile>, second: Result<NativeFile>)
    requires Probe(cached, first).1
    ensures Probe(Probe(cached, first).0, second) == Probe(cached, first)
  {
  }

  /** A handle on a file at `path`: Resolved once it holds the Windows.Storage file, Unresolved before. */
  class WindowsStorageFile {
    var storageFile: Option<NativeFile>
    var path: Path

    /** The handle on a file already looked up: Resolved, with that file's path. */
    constructor FromStorageFile(file: NativeFile)
      ensures storageFile == Some(file) && path == file.path
    {
      storageFile := Some(file);
      path := file.path;
    }

    /** The handle on a path: Unresolved. */
    constructor (path: Path)
      ensures storageFile == None && this.path == path
    {
      storageFile := None;
      this.path := path;
    }

    predicate Resolved()
      reads this
    {
      storageFile.Some?
    }

    /** ExistsAsync; `lookup` is what StorageFile.GetFileFromPathAsync(path) would give, consulted
        only while the handle is Unresolved. The path never changes. */
    method ExistsAsync(lookup: Result<NativeFile>) returns (found: bool)
      modifies this
      ensures (storageFile, found) == Probe(old(storageFile), lookup)
      ensures path == old(path)
      ensures old(Resolved()) ==> Resolved() && storageFile == old(storageFile)
    {
      if storageFile.Some? {
        return true;
      }
      if lookup.Ok? {
        storageFile := Some(lookup.value);
      } else {
        storageFile := None;
      }
      found := storageFile.Some?;
    }
  }

  /** How FileSystem.GetFileAsync ends for a lookup outcome: a found file gives a Resolved handle,
      a FileNotFoundException an Unresolved handle on the requested path, and any other failure
      escapes. */
  datatype Resolution = ResolvedFile(file: NativeFile) | UnresolvedPath(path: Path)

  function GetFileResolution(path: Path, lookup: Result<NativeFile>): (r: Result<Resolution>)
    ensures r.Ok? <==> lookup.Ok? || lookup.error == Native(NativeFileNotFound)
    ensures lookup.Ok? ==> r == Ok(ResolvedFile(lookup.value))
    ensures lookup.Err? && r.Ok? ==> r.value == UnresolvedPath(path)
    ensures r.Err? ==> r.error == lookup.error
  {
    match lookup
    case Ok(f) => Ok(ResolvedFile(f))
    case Err(e) => if e == Native(NativeFileNotFound) then Ok(UnresolvedPath(path)) else Err(e)
  }

  /** GetFileAsync: resolves eagerly, falling back to an Unresolved handle only when the file is
      not found. */
  method GetFileAsync(path: Path, lookup: Result<NativeFile>) returns (r: Result<WindowsStorageFile>)
    ensures var expected := GetFileResolution(path, lookup);
      && r.Ok? == expected.Ok?
      && (r.Err? ==> r.error == expected.error)
      && (r.Ok? ==> fresh(r.value) && match expected.value
            case ResolvedFile(f) => r.value.storageFile == Some(f) && r.value.path == f.path
            case UnresolvedPath(p) => r.value.storageFile == None && r.value.path == p)
  {
    if lookup.Ok? {
      var file := new WindowsStorageFile.FromStorageFile(lookup.value);
      return Ok(file);
    }
    if lookup.error != Native(NativeFileNotFound) {
      return Err(lookup.error);
    }
    var file := new WindowsStorageFile(path);
    r := Ok(file);
  }

  /** Only not-found is caught by GetFileAsync, while ExistsAsync swallows every failure: for any
      other failure the first raises and the second answers no. */
  lemma LookupFailuresAreTreatedDifferently(path: Path, e: Error)
    requires e != Native(NativeFileNotFound)
    ensures GetFileResolution(path, Err(e)) == Err(e)
    ensures Probe(None, Err(e)) == (None, false)
    ensures GetFileResolution(path, Err(Native(NativeFileNotFound))) == Ok(UnresolvedPath(path))
  {
  }

  /** CreatePath: the string wrapped as it is. */
  function CreatePath(path: Path): (r: WindowsStoragePath)
    ensures r.Combine([]) == path
  {
    WindowsStoragePath(path)
  }
}
