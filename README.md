# UnifiedStorage collision resolution, in Dafny

UnifiedStorage is a C# library that gives desktop, mobile and Windows Store apps one interface to
files and directories. Its System.IO provider handles the names that collide when a file or
directory is created, moved or renamed. It has four options: GenerateUniqueName, ReplaceExisting,
FailIfExists and OpenIfExists. This project models that provider as operations over a finite
filesystem. It also models the small pieces around it: path folding, the mapping of collision
options to Windows.Storage, and the handle caching of the Windows.Storage file.

Parts of the model:

- **Paths.** A path (`Paths.Path`) is a sequence of segments. The first segment is the volume
  root.
  - `Path.Combine` appends a segment.
  - `GetDirectoryName` drops the last segment, or gives nothing for a root.
  - `GetFileName` is the last segment, or the empty string for a root.
- **File names.** `FileNames` splits a name at its last dot into a root and an extension. The
  extension keeps the dot.
- **Counters.** `Decimal` renders the counters of numbered names in decimal and parses them back.
- **The filesystem.** It is `Storage.FsState`: a map from file paths to bytes, and a set of
  directory paths.
  - `Storage.Valid` is the tree invariant.
  - System.IO's own calls (`File.Create`, `File.Move`, `Directory.CreateDirectory`,
    `Directory.Delete(path, true)`, and so on) are pure transformers of that state.
  - `Storage.FileStore` is the mutable object that the handles change. Its methods are proved
    against these transformers.
- **Cancellation.** A token (`Cancellation`) is seen from inside one call. Checkpoints are
  numbered in the order the call reaches them:
  - the entry check of `SwitchOffMainThreadAsync` is checkpoint 0;
  - the unique-name loops check once per counter;
  - the copy checks once per chunk.
- **Reference functions.** `FileOps` (file handle) and `DirectoryOps` (directory handle) give
  one reference function per operation. Each maps the filesystem before the call to the result
  and the filesystem after it. The per-option properties are lemmas about these functions.
- **Handle classes.** The classes of `DotNet` and `DotNetEarlier` are the handles themselves:
  - `DotNetFile` has a mutable path, which `MoveAsync` replaces.
  - There are two revisions of `DotNetDirectory`.

  Each asynchronous operation of a handle is a method. Each method ensures that the result and
  the new filesystem are what the reference function gives.
- **Windows.Storage.**
  - `WindowsStoragePaths` models the path wrapper.
  - `CollisionOptionExtensions` models the option mapping.
  - `WindowsStorage` models the lazily resolved file handle and `FileSystem.GetFileAsync`. The
    outcome of the Windows.Storage lookup is passed in as a parameter.

Quirks of the source that the model keeps as they are:

- **CreateFileAsync with GenerateUniqueName.**
  - The extension already carries its dot, so `report.txt` becomes `report (1)..txt`.
  - No file is created: the returned handle points at a path where no file exists.
- **MoveAsync with GenerateUniqueName.** The bare name is counter 1, and numbering starts at 2.
- **CreateDirectoryAsync with GenerateUniqueName.** It starts at 2 and does create the directory.
- **MoveAsync with OpenIfExists.** It raises ArgumentOutOfRange, but only when the destination is
  taken.
- **CopyAsync.** It ignores its collision option and overwrites the destination.
- **Order of checks.** MoveAsync, RenameAsync, CopyAsync and the file's DeleteAsync check that the
  file exists before they check for cancellation.
- **Directory checks.** CreateFileAsync does not check that its directory exists, while
  CreateDirectoryAsync does.

## Model

| member | source | states |
|---|---|---|
| FileNames.LastIndexOf | UnifiedStorage.DotNet/DotNetFile.cs:28-31 | Finds the last occurrence of a character: the index holds it and no later index does, or -1 when it does not occur. |
| FileNames.GetExtension | UnifiedStorage.DotNet/DotNetFile.cs:28-31 | Path.GetExtension on a leaf name: from the last dot to the end. ExtensionIsLastDotSuffix and RootAndExtensionRebuildName state what it satisfies. |
| FileNames.GetFileNameWithoutExtension | UnifiedStorage.DotNet/DotNetFile.cs:114 | Path.GetFileNameWithoutExtension on a leaf name: everything before the last dot. RootAndExtensionRebuildName ties it to GetExtension. |
| FileNames.ExtensionIsLastDotSuffix | UnifiedStorage.DotNet/DotNetFile.cs:28-31 | The extension is empty, or it is a suffix of the name that starts with the only dot it contains. |
| FileNames.RootAndExtensionRebuildName | UnifiedStorage.DotNet/DotNetFile.cs:114-116 | Putting root and extension back together gives the name, except when the name ends in a dot, where the root has lost that dot. |
| FileNames.RootAndExtensionFit | UnifiedStorage.DotNet/DotNetFile.cs:111-116 | The root and the extension together are never longer than the name. |
| FileNames.ExtensionExamples | UnifiedStorage.Shared.Tests/FileTests.cs:87-91 | `test.txt` has extension `.txt`, `.gitignore` has extension `.gitignore`, and `README` has none. |
| Decimal.NatToString | UnifiedStorage.SysIo/DotNetDirectory.cs:60 | A counter renders as a non-empty string of decimal digits. |
| Decimal.ParseNatToString | UnifiedStorage.DotNet/DotNetFile.cs:111-116 | The decimal rendering of a counter parses back to the counter. |
| Decimal.NatToStringInjective | UnifiedStorage.SysIo/DotNetDirectory.cs:60 | Distinct counters render as distinct digit strings. |
| Paths.CombineSplits | UnifiedStorage.DotNet/DotNetFile.cs:85-91 | A name combined onto any non-empty directory, a volume root included, has that directory as its directory part and that name as its file name. |
| Paths.SplitCombines | UnifiedStorage.DotNet/DotNetFile.cs:102-119 | A path with a directory part is that part combined with its file name, so counter 1 of MoveAsync is the requested path. |
| Paths.CombineAllConcat | UnifiedStorage.DotNet/DotNetPath.cs:21-24 | Folding Path.Combine over `xs + ys` is folding `ys` onto the fold of `xs`. |
| Paths.CombineAllAppends | UnifiedStorage.WindowsStorage/WindowsStoragePath.cs:27-30 | Folding one-segment fragments appends them in order. |
| Paths.EqualsIgnoreCaseIsLowerEquality | UnifiedStorage.WindowsStorage/WindowsStoragePath.cs:20-24 | Two strings are equal ignoring case exactly when their lower-case forms are equal. |
| Paths.EqualsIgnoreCaseReflexive | UnifiedStorage.DotNet/DotNetPath.cs:16-19 | Every string equals itself ignoring case. |
| Paths.LowerStringIdempotent | UnifiedStorage.WindowsStorage/WindowsStoragePath.cs:20-24 | Lower-casing twice is lower-casing once. |
| Paths.PathEqualsIgnoreCaseIsLowerEquality | UnifiedStorage.WindowsStorage/WindowsStoragePath.cs:20-24 | Two paths are equal ignoring case exactly when their lower-case forms are equal. |
| Storage.FileCreated | UnifiedStorage.SysIo/DotNetDirectory.cs:221 | File.Create succeeds exactly when the path is no directory and its parent directory exists. On success the file is there and empty. Only that path can change, never a directory, and a failure changes nothing. |
| Storage.FileMoved | UnifiedStorage.DotNet/DotNetFile.cs:148 | File.Move succeeds only from an existing file to a different free path. The bytes then sit at the destination and not at the source, every other file keeps its bytes, and the directories are untouched. A failure changes nothing. |
| Storage.DirectoryCreated | UnifiedStorage.SysIo/DotNetDirectory.cs:179 | Directory.CreateDirectory never touches files and never removes a directory. On success the path is a directory, and the only directories added are its prefixes. A failure changes nothing. |
| Storage.TreeDeleted | UnifiedStorage.SysIo/DotNetDirectory.cs:215 | A recursive Directory.Delete only removes: every remaining file keeps its bytes. On success the directory existed and is gone. A failure changes nothing. |
| Storage.FileCreatedPreservesValid | UnifiedStorage.SysIo/DotNetDirectory.cs:218-224 | File.Create keeps the tree invariant, whether it succeeds or fails. |
| Storage.FileDeletedPreservesValid | UnifiedStorage.DotNet/DotNetFile.cs:76 | File.Delete keeps the tree invariant. |
| Storage.FileMovedPreservesValid | UnifiedStorage.DotNet/DotNetFile.cs:148 | File.Move keeps the tree invariant. |
| Storage.DirectoryCreatedPreservesValid | UnifiedStorage.SysIo/DotNetDirectory.cs:179 | Directory.CreateDirectory, with the parents it adds, keeps the tree invariant. |
| Storage.TreeDeletedPreservesValid | UnifiedStorage.SysIo/DotNetDirectory.cs:215 | A recursive Directory.Delete keeps the tree invariant. |
| Storage.ParentInSubtree | UnifiedStorage.SysIo/DotNetDirectory.cs:215 | A path whose parent lies in a subtree lies in it too. |
| Storage.TreeDeletedRemovesExactlySubtree | UnifiedStorage.SysIo/DotNetDirectory.cs:212-216 | A successful recursive delete removes every file and directory at or beneath the root, and keeps every other one with its bytes. |
| Storage.PrefixesOfDirectoryAreDirectories | UnifiedStorage.SysIo/DotNetDirectory.cs:159-160 | In a valid filesystem, every non-empty prefix of a directory is a directory. |
| Storage.FileStore.CreateFile | UnifiedStorage.SysIo/DotNetDirectory.cs:221 | Changes the state as File.Create does. |
| Storage.FileStore.DeleteFile | UnifiedStorage.SysIo/DotNetDirectory.cs:68 | Changes the state as File.Delete does. |
| Storage.FileStore.MoveFile | UnifiedStorage.DotNet/DotNetFile.cs:148 | Changes the state as File.Move does, which never overwrites. |
| Storage.FileStore.CreateDirectory | UnifiedStorage.SysIo/DotNetDirectory.cs:153 | Changes the state as Directory.CreateDirectory does. |
| Storage.FileStore.DeleteDirectory | UnifiedStorage.SysIo/DotNetDirectory.cs:159 | Changes the state as a recursive Directory.Delete does. |
| Storage.FileStore.Append | UnifiedStorage.DotNet/DotNetFile.cs:168 | A write through the destination stream appends exactly those bytes to that file, and changes nothing else. |
| Storage.FileStore.GetFiles | UnifiedStorage.SysIo/DotNetDirectory.cs:109 | Fails exactly when the directory is missing. Otherwise it lists each file directly inside it exactly once, and nothing else. |
| Storage.FileStore.GetDirectories | UnifiedStorage.SysIo/DotNetDirectory.cs:198 | Fails exactly when the directory is missing. Otherwise it lists each directory directly inside it exactly once, and nothing else. |
| Storage.Enumerate | UnifiedStorage.SysIo/DotNetDirectory.cs:109-112 | Enumerates a set without repeating an entry, giving exactly its members. |
| Collision.FormatInjective | UnifiedStorage.SysIo/DotNetDirectory.cs:149 | A name formatted with a counter between a fixed prefix and suffix determines the counter. |
| Collision.FormattedIsLonger | UnifiedStorage.DotNet/DotNetFile.cs:109-117 | A numbered candidate is longer than the bare name, so it never equals it. |
| Collision.CandidateNameInjective | UnifiedStorage.DotNet/DotNetFile.cs:105-119 | From its first counter on, each naming scheme spells distinct counters differently. |
| Collision.CandidateInjective | UnifiedStorage.SysIo/DotNetDirectory.cs:61 | Distinct counters give distinct candidate paths in a directory. |
| Collision.CandidateName | UnifiedStorage.DotNet/DotNetFile.cs:108-117 | The name each scheme tries at a counter: the bare name at its first counter, then the numbered spelling. CandidateNameInjective and CandidateNameExamples state what it satisfies. |
| Collision.FirstFree | UnifiedStorage.SysIo/DotNetDirectory.cs:57-62 | The counter the unique-name loops stop at, never below the counter they start from. FirstFreeIsFirst proves it is the first free one and bounds it. |
| Collision.FirstFreeIsFirst | UnifiedStorage.SysIo/DotNetDirectory.cs:57-62 | The search ends at a free candidate, and every earlier candidate is taken. It stops at most as many counters past its start as there are occupied paths. |
| Collision.GenerateFileName | UnifiedStorage.SysIo/DotNetDirectory.cs:53-64 | The create-file loop returns the first free `"{root} ({n}).{ext}"`, or the bare name if that is free. It raises OperationCanceled exactly when the check at the last counter tried sees a cancellation request. |
| Collision.GenerateDirectoryName | UnifiedStorage.SysIo/DotNetDirectory.cs:144-151 | The directory loop returns the first free `"{desiredName} ({n})"` from n = 2, with the same cancellation rule. |
| Collision.CandidateNameExamples | UnifiedStorage.SysIo/DotNetDirectory.cs:60 | For `report.txt`, CreateFileAsync numbers it `report (1)..txt`, and MoveAsync uses `report.txt` then `report (2).txt`. For `photos`, directories get `photos (2)`. |
| Collision.ReportNameParts | UnifiedStorage.SysIo/DotNetDirectory.cs:55-56 | `report.txt` has root `report` and extension `.txt`. |
| FileOps.MoveOutcome | UnifiedStorage.DotNet/DotNetFile.cs:94-153 | A successful move relocates the source's bytes to a different path, in the requested directory, and that path is `newPath` unless the option is GenerateUniqueName. Directories never change. A failure changes nothing, except that ReplaceExisting may already have deleted the occupant. The option defaults to ReplaceExisting and the token to none. |
| FileOps.RenameOutcome | UnifiedStorage.DotNet/DotNetFile.cs:79-92 | A successful rename relocates the bytes to a different path in the source's own directory. That path is named `newName` unless the option is GenerateUniqueName. Directories never change. The option defaults to FailIfExists and the token to none. |
| FileOps.CopyChunks | UnifiedStorage.DotNet/DotNetFile.cs:165-168 | Stream.CopyToAsync in chunks of at most 4096 bytes, with one cancellation check per read, the final empty read included. CopyChunksWritesPrefix states what it satisfies. |
| FileOps.CopyOutcome | UnifiedStorage.DotNet/DotNetFile.cs:155-173 | A copy only ever changes the destination, never a directory. On success the destination holds the source's bytes. Whenever anything changed, the destination holds a prefix of them. The token defaults to none. |
| FileOps.DeleteOutcome | UnifiedStorage.DotNet/DotNetFile.cs:69-77 | The delete succeeds exactly when the file exists and the entry check sees no request. It then removes exactly that file; otherwise nothing changes. |
| FileOps.OpenOutcome | UnifiedStorage.DotNet/DotNetFile.cs:47-67 | A successful open gives a stream on the path with the requested access, and a file is then at the path. The only change ever made is that read-write access creates a missing file, empty. |
| FileOps.MissingSourceIsReportedFirst | UnifiedStorage.DotNet/DotNetFile.cs:181-187 | With no file at the path, Move, Rename, Copy and Delete raise FileNotFound whatever the token, and change nothing. A read-only Open does the same unless the entry check cancels first. |
| FileOps.MoveToFreeDestination | UnifiedStorage.DotNet/DotNetFile.cs:119-151 | Under every option, a move to a free path in an existing directory carries the bytes to the new path, removes the old one, and leaves the directories alone. |
| FileOps.MoveFailIfExistsChangesNothing | UnifiedStorage.DotNet/DotNetFile.cs:121-128 | FailIfExists on a taken destination raises "File already exists." (or is cancelled at the first loop check) and leaves the filesystem exactly as it was. |
| FileOps.MoveReplaceExisting | UnifiedStorage.DotNet/DotNetFile.cs:136-140 | ReplaceExisting deletes the occupant and moves, so the destination holds the source's bytes and the source path is gone. |
| FileOps.MoveReplaceOntoItself | UnifiedStorage.DotNet/DotNetFile.cs:136-148 | ReplaceExisting onto the source's own path deletes the source, and the move then fails with System.IO's FileNotFoundException. |
| FileOps.MoveOpenIfExistsRaisesWhenOccupied | UnifiedStorage.DotNet/DotNetFile.cs:141-144 | OpenIfExists on a taken destination raises ArgumentOutOfRange for `collisionOption` and changes nothing. |
| FileOps.MoveGenerateUniqueNameTarget | UnifiedStorage.DotNet/DotNetFile.cs:105-133 | A successful GenerateUniqueName move lands on a path that no file had before. That path is the first free candidate, at a counter no greater than the number of files plus one, and every earlier candidate was a file. |
| FileOps.MoveGenerateUniqueNameCarriesBytes | UnifiedStorage.DotNet/DotNetFile.cs:148-151 | After a successful GenerateUniqueName move, the chosen path holds the source's bytes and the source path is gone. |
| FileOps.RenameIsMoveToSibling | UnifiedStorage.DotNet/DotNetFile.cs:85-91 | For a path with a directory part, RenameAsync is MoveAsync to the same directory under the new name. |
| FileOps.MoveByDefaultReplaces | UnifiedStorage.DotNet/DotNetFile.cs:94 | Called without an option, MoveAsync replaces an occupied destination: the source's bytes end up there and the source is gone. |
| FileOps.RenameByDefaultRefusesToOverwrite | UnifiedStorage.DotNet/DotNetFile.cs:79 | Called without an option, RenameAsync onto an existing sibling raises "File already exists." and changes nothing. |
| FileOps.RenameScenario | UnifiedStorage.WindowsPhone.Tests/WindowsPhoneFileTests.cs:108-111 | Renaming `a.txt` to a free `b.txt` with FailIfExists gives the path `b.txt` in the same directory, and `a.txt` no longer exists. |
| FileOps.CopyChunksWritesPrefix | UnifiedStorage.DotNet/DotNetFile.cs:165-168 | The chunked transfer writes a prefix of the source, all of it unless cancelled, and never stops without a cancellation request. |
| FileOps.CopyDuplicatesBytes | UnifiedStorage.DotNet/DotNetFile.cs:155-172 | A successful copy returns the new path, leaves the source and its bytes alone, and gives the destination the same bytes, whatever option the caller passed. |
| FileOps.CopySucceedsWithoutCancellation | UnifiedStorage.DotNet/DotNetFile.cs:163-172 | Without cancellation, a copy to a distinct path in an existing directory succeeds. The only change is that the destination now holds the source's bytes, replacing any file there. |
| FileOps.CopyCancelledMidwayLeavesPrefix | UnifiedStorage.DotNet/DotNetFile.cs:166-168 | A copy cancelled after the destination was created leaves the destination holding a prefix of the source. |
| FileOps.CopyThenDeleteIsRelocation | UnifiedStorage.DotNet/DotNetFile.cs:155-172 | A copy followed by deleting the original leaves exactly the original's bytes at the new path, with the original path gone. |
| FileOps.MovePreservesValid | UnifiedStorage.DotNet/DotNetFile.cs:94-153 | MoveAsync keeps the tree invariant under every option and outcome. |
| FileOps.RenamePreservesValid | UnifiedStorage.DotNet/DotNetFile.cs:79-92 | RenameAsync keeps the tree invariant. |
| FileOps.ContentsChangePreservesValid | UnifiedStorage.DotNet/DotNetFile.cs:168 | Rewriting an existing file's bytes keeps the tree invariant. |
| FileOps.CopyPreservesValid | UnifiedStorage.DotNet/DotNetFile.cs:155-173 | CopyAsync keeps the tree invariant, cancelled or not. |
| FileOps.DeletePreservesValid | UnifiedStorage.DotNet/DotNetFile.cs:69-77 | The file's DeleteAsync keeps the tree invariant. |
| FileOps.OpenPreservesValid | UnifiedStorage.DotNet/DotNetFile.cs:47-67 | OpenAsync keeps the tree invariant, including when read-write access creates the file. |
| DirectoryOps.CreateFileOutcome | UnifiedStorage.SysIo/DotNetDirectory.cs:41-93 | CreateFileAsync never touches directories, and no file other than the desired path. An existing file there changes only under ReplaceExisting. A returned path exists afterwards exactly when it is the desired path, so a numbered GenerateUniqueName result never does. |
| DirectoryOps.CreateDirectoryOutcome | UnifiedStorage.SysIo/DotNetDirectory.cs:131-183 | Except under ReplaceExisting, CreateDirectoryAsync leaves the files alone and removes no directory. Success needs an existing parent and leaves the returned path a directory. That path is the desired one unless the option is GenerateUniqueName. |
| DirectoryOps.DeleteDirectoryOutcome | UnifiedStorage.SysIo/DotNetDirectory.cs:212-216 | DeleteAsync only removes. On success the directory existed and is gone, and a failure changes nothing. |
| DirectoryOps.ListingOutcome | UnifiedStorage.SysIo/DotNetDirectory.cs:103-115 | The listing after the entry check and EnsureExists. ListingGivesImmediateChildren states what it gives. |
| DirectoryOps.CreateFileOnFreePath | UnifiedStorage.SysIo/DotNetDirectory.cs:86-92 | With a free path in an existing directory, CreateFileAsync, under any option, adds an empty file there, returns that path, and changes nothing else. |
| DirectoryOps.CreateFileHasNoDirectoryGuard | UnifiedStorage.SysIo/DotNetDirectory.cs:41-49 | In a missing directory, CreateFileAsync raises System.IO's DirectoryNotFoundException from File.Create, not the library's, and changes nothing. |
| DirectoryOps.CreateFileFailIfExists | UnifiedStorage.SysIo/DotNetDirectory.cs:73-74 | FailIfExists on an existing file raises the revision's exception and changes nothing. |
| DirectoryOps.CreateFileReplaceOrOpenExisting | UnifiedStorage.SysIo/DotNetDirectory.cs:66-80 | On an existing file, ReplaceExisting truncates it to empty and changes nothing else. OpenIfExists returns its path with the filesystem unchanged. |
| DirectoryOps.CreateFileGenerateUniqueName | UnifiedStorage.SysIo/DotNetDirectory.cs:53-64 | On an existing file, GenerateUniqueName leaves everything unchanged. It returns the first free `"{root} ({n}).{ext}"` with 1 <= n <= the number of files, every earlier candidate being a file, or raises OperationCanceled if the check at that n sees a request. |
| DirectoryOps.CreateFileDoubleDotScenario | UnifiedStorage.SysIo/DotNetDirectory.cs:60-64 | With `report.txt` taken and `report (1)..txt` free, the result is `report (1)..txt`, and no file exists there afterwards. |
| DirectoryOps.CreateDirectoryNeedsParent | UnifiedStorage.SysIo/DotNetDirectory.cs:136 | CreateDirectoryAsync on a missing directory raises the library's DirectoryNotFound and changes nothing. |
| DirectoryOps.CreateDirectoryOnFreeName | UnifiedStorage.SysIo/DotNetDirectory.cs:177-182 | A free name gets a new empty directory, under any option. That is the only change. |
| DirectoryOps.NoFileAboveDirectory | UnifiedStorage.SysIo/DotNetDirectory.cs:153 | In a valid filesystem, a non-empty prefix of a directory is a directory, never a file. |
| DirectoryOps.AddingChildDirectory | UnifiedStorage.SysIo/DotNetDirectory.cs:179 | Directory.CreateDirectory on a path whose parent exists adds that one directory. |
| DirectoryOps.CreateDirectoryFailOrOpenExisting | UnifiedStorage.SysIo/DotNetDirectory.cs:164-171 | On an existing directory, FailIfExists raises UnifiedIOException with no change. OpenIfExists returns its path with no change. |
| DirectoryOps.CreateDirectoryReplaceExisting | UnifiedStorage.SysIo/DotNetDirectory.cs:157-161 | ReplaceExisting removes the existing directory with its whole subtree and recreates it empty. Everything outside the subtree keeps its place and bytes. |
| DirectoryOps.CreateDirectoryGenerateUniqueName | UnifiedStorage.SysIo/DotNetDirectory.cs:144-154 | A successful GenerateUniqueName creates a directory that did not exist before, at the first free `"{desiredName} ({n})"` with 2 <= n <= the number of directories plus one, every earlier candidate being a directory. That directory is the only one added, and files are untouched. |
| DirectoryOps.ListingGivesImmediateChildren | UnifiedStorage.SysIo/DotNetDirectory.cs:103-115 | Listing succeeds exactly when the directory exists. It gives exactly the files, or the directories, directly inside it. |
| DirectoryOps.DeleteDirectoryRemovesSubtree | UnifiedStorage.SysIo/DotNetDirectory.cs:212-216 | DeleteAsync removes the directory and everything beneath it, and nothing else. |
| DirectoryOps.CreateFilePreservesValid | UnifiedStorage.SysIo/DotNetDirectory.cs:41-93 | CreateFileAsync keeps the tree invariant under every option and outcome. |
| DirectoryOps.CreateDirectoryPreservesValid | UnifiedStorage.SysIo/DotNetDirectory.cs:131-183 | CreateDirectoryAsync keeps the tree invariant under every option and outcome. |
| DirectoryOps.DeleteDirectoryPreservesValid | UnifiedStorage.SysIo/DotNetDirectory.cs:212-216 | The directory's DeleteAsync keeps the tree invariant. |
| DotNet.DotNetFile.constructor | UnifiedStorage.DotNet/DotNetFile.cs:18-21 | A handle holds the path it was made with. |
| DotNet.DotNetFile.Name | UnifiedStorage.DotNet/DotNetFile.cs:23-26 | The name is the last segment: the directory part combined with it gives the path back. A root has the empty name, as Path.GetFileName gives for `C:\`. |
| DotNet.DotNetFile.Extension | UnifiedStorage.DotNet/DotNetFile.cs:28-31 | The extension is empty, or a suffix of the name of at least two characters that starts with a dot. |
| DotNet.DotNetFile.Directory | UnifiedStorage.DotNet/DotNetFile.cs:38-45 | Gives a fresh directory handle on the parent path, or ArgumentNull when the path has no directory part. The parent handle's Name is Path.GetFileName of the parent, the empty string when the parent is a volume root. |
| DotNet.DotNetFile.EnsureExists | UnifiedStorage.DotNet/DotNetFile.cs:181-187 | Succeeds exactly when a file is at the path. Otherwise it raises FileNotFound carrying the path. |
| DotNet.DotNetFile.ExistsAsync | UnifiedStorage.DotNet/DotNetFile.cs:175-179 | After the entry check, true exactly when a file is at the path. It changes nothing. |
| DotNet.DotNetFile.OpenAsync | UnifiedStorage.DotNet/DotNetFile.cs:47-67 | Result and new filesystem are those of the reference OpenOutcome. |
| DotNet.DotNetFile.DeleteAsync | UnifiedStorage.DotNet/DotNetFile.cs:69-77 | Result and new filesystem are those of DeleteOutcome, which checks existence before cancellation. |
| DotNet.DotNetFile.MoveAsync | UnifiedStorage.DotNet/DotNetFile.cs:94-153 | The counter loop gives the result and filesystem of MoveOutcome. On success the handle's path becomes the destination and the handle itself is returned. On failure the path is unchanged. The option defaults to ReplaceExisting and the token to none. |
| DotNet.DotNetFile.RenameAsync | UnifiedStorage.DotNet/DotNetFile.cs:79-92 | Result, new filesystem and handle path are those of RenameOutcome. The option defaults to FailIfExists and the token to none. |
| DotNet.DotNetFile.CopyAsync | UnifiedStorage.DotNet/DotNetFile.cs:155-173 | The chunked copy gives the result and filesystem of CopyOutcome, and a fresh handle on the new path. The option, which plays no part, defaults to ReplaceExisting and the token to none. |
| DotNet.CopyToAsync | UnifiedStorage.DotNet/DotNetFile.cs:166-168 | Copies the source into the empty destination in chunks, with one check per read, the final empty read included. The destination ends with the bytes CopyChunks gives, and nothing else changes. |
| DotNet.DotNetDirectory.constructor | UnifiedStorage.SysIo/DotNetDirectory.cs:25-29 | Name is Path.GetFileName of the path: its leaf, or the empty string for a volume root. |
| DotNet.DotNetDirectory.EnsureExists | UnifiedStorage.SysIo/DotNetDirectory.cs:226-232 | Succeeds exactly when the directory exists. Otherwise it raises DirectoryNotFound. |
| DotNet.DotNetDirectory.ExistsAsync | UnifiedStorage.SysIo/DotNetDirectory.cs:206-210 | After the entry check, true exactly when the directory exists. It changes nothing. |
| DotNet.DotNetDirectory.CreateFile | UnifiedStorage.SysIo/DotNetDirectory.cs:218-224 | Changes the state as File.Create does. |
| DotNet.DotNetDirectory.CreateFileAsync | UnifiedStorage.SysIo/DotNetDirectory.cs:41-93 | Result path and new filesystem are those of CreateFileOutcome, with UnifiedIOException for FailIfExists. |
| DotNet.DotNetDirectory.CreateDirectoryAsync | UnifiedStorage.SysIo/DotNetDirectory.cs:131-183 | Result path and new filesystem are those of CreateDirectoryOutcome, and the handle's Name is the leaf of that path. |
| DotNet.DotNetDirectory.GetFileAsync | UnifiedStorage.SysIo/DotNetDirectory.cs:95-101 | A fresh handle on the combined path, without reading the filesystem. It fails only when cancelled. |
| DotNet.DotNetDirectory.GetDirectoryAsync | UnifiedStorage.SysIo/DotNetDirectory.cs:185-191 | A fresh handle on the combined path, without reading the filesystem, whose Name is the requested name. It fails only when cancelled. |
| DotNet.DotNetDirectory.FileHandles | UnifiedStorage.SysIo/DotNetDirectory.cs:110-112 | One fresh handle per listed path, in order. |
| DotNet.DotNetDirectory.GetFilesAsync | UnifiedStorage.SysIo/DotNetDirectory.cs:103-115 | Handles on exactly the immediate child files, each once. It fails as ListingOutcome does. |
| DotNet.DotNetDirectory.GetFilesMatchingAsync | UnifiedStorage.SysIo/DotNetDirectory.cs:117-129 | Handles on exactly the immediate child files whose names the pattern matches, each once. |
| DotNet.DotNetDirectory.GetDirectoriesAsync | UnifiedStorage.SysIo/DotNetDirectory.cs:193-204 | Handles on exactly the immediate child directories, each once, each named by its leaf. |
| DotNet.DotNetDirectory.DeleteAsync | UnifiedStorage.SysIo/DotNetDirectory.cs:212-216 | Result and new filesystem are those of DeleteDirectoryOutcome. |
| DotNet.FileHandleNames | UnifiedStorage.DotNet/DotNetFile.cs:23-31 | For a handle on `dir\test.txt`, Name is `test.txt`, Extension is `.txt` and the directory is `dir`. For `.gitignore`, Extension is `.gitignore`. |
| DotNetEarlier.DotNetDirectory.constructor | UnifiedStorage.DotNet/DotNetDirectory.cs:20-24 | Name is GetDirectoryName of the path, the parent, not the leaf. |
| DotNetEarlier.DotNetDirectory.CreateFile | UnifiedStorage.DotNet/DotNetDirectory.cs:122-127 | Changes the state as File.Create does. |
| DotNetEarlier.DotNetDirectory.CreateFileAsync | UnifiedStorage.DotNet/DotNetDirectory.cs:36-88 | Result path and new filesystem are those of CreateFileOutcome, with the library's IOException for FailIfExists. |
| DotNetEarlier.DotNetDirectory.DeleteAsync | UnifiedStorage.DotNet/DotNetDirectory.cs:116-120 | Removes the directory with its subtree, as DeleteDirectoryOutcome says. |
| DotNetEarlier.RevisionsDifferOnlyInFailIfExists | UnifiedStorage.DotNet/DotNetDirectory.cs:68-69 | The two revisions' CreateFileAsync always leave the same filesystem. Their results differ exactly for FailIfExists on an existing file, not cancelled: UnifiedIOException in one, IOException in the other. |
| DotNetPaths.DotNetPath.IsRoot | UnifiedStorage.DotNet/DotNetPath.cs:16-19 | Path.GetPathRoot of the path equals the path, ignoring case. IsRootIffVolumeRoot states when this holds. |
| DotNetPaths.DotNetPath.Combine | UnifiedStorage.DotNet/DotNetPath.cs:21-24 | Path.Combine folded over the fragments. CombineFolds and CombineExtends state what it satisfies. |
| DotNetPaths.DotNetPath.ToString | UnifiedStorage.DotNet/DotNetPath.cs:26-29 | The wrapped path. CombineFolds and CombineExtends relate it to Combine. |
| DotNetPaths.IsRootIffVolumeRoot | UnifiedStorage.DotNet/DotNetPath.cs:16-19 | IsRoot holds exactly when the path is a volume root alone. |
| DotNetPaths.CombineFolds | UnifiedStorage.DotNet/DotNetPath.cs:21-24 | Combining no fragments gives back the ToString path, and one fragment is one Path.Combine. Combining `xs + ys` equals combining `ys` onto a new DotNetPath of the `xs` result. |
| DotNetPaths.CombineExtends | UnifiedStorage.DotNet/DotNetPath.cs:9-29 | Combining appends the fragments to the unchanged stored path. |
| WindowsStoragePaths.WindowsStoragePath.IsRoot | UnifiedStorage.WindowsStorage/WindowsStoragePath.cs:18-25 | The path equals the local folder, ignoring case. IsRootIgnoresCase and OnlyTheLocalFolderIsRoot state when this holds. |
| WindowsStoragePaths.WindowsStoragePath.Combine | UnifiedStorage.WindowsStorage/WindowsStoragePath.cs:27-30 | Path.Combine folded over the fragments. CombineFolds states its laws. |
| WindowsStoragePaths.CombineFolds | UnifiedStorage.WindowsStorage/WindowsStoragePath.cs:27-30 | Combining no fragments gives back the stored path. Combining `xs + ys` equals combining `ys` onto a new WindowsStoragePath of the `xs` result. |
| WindowsStoragePaths.IsRootIgnoresCase | UnifiedStorage.WindowsStorage/WindowsStoragePath.cs:18-25 | IsRoot holds exactly when the lower-case forms of the path and the local folder agree, so the local folder in any spelling is a root. |
| WindowsStoragePaths.OnlyTheLocalFolderIsRoot | UnifiedStorage.WindowsStorage/WindowsStoragePath.cs:18-25 | A folder beside the local folder whose name differs from the local folder's, ignoring case, is not a root. Neither is any path combined below the local folder. |
| CollisionOptionExtensions.ToNameCollisionOption | UnifiedStorage.WindowsStorage/Extensions/CollisionOptionExtensions.cs:10-23 | The mapping fails exactly on OpenIfExists, and FromNameCollisionOption undoes every mapping that succeeds. |
| CollisionOptionExtensions.ToNameCollisionOptionRoundTrip | UnifiedStorage.WindowsStorage/Extensions/CollisionOptionExtensions.cs:10-23 | The mapping succeeds on every option except OpenIfExists, which raises ArgumentOutOfRange for `option`. The inverse undoes it in both directions. |
| CollisionOptionExtensions.ToNameCollisionOptionInjective | UnifiedStorage.WindowsStorage/Extensions/CollisionOptionExtensions.cs:12-19 | Distinct accepted options map to distinct native options. |
| WindowsStorage.Probe | UnifiedStorage.WindowsStorage/WindowsStorageFile.cs:90-109 | ExistsAsync answers yes exactly when a file ends up cached. A cached file stays, with no lookup. Otherwise a successful lookup's file is cached, and any failure leaves nothing cached. |
| WindowsStorage.ProbeIsMonotone | UnifiedStorage.WindowsStorage/WindowsStorageFile.cs:92-95 | Once a probe has answered yes, every later probe gives the same file and answer, whatever its lookup. |
| WindowsStorage.WindowsStorageFile.FromStorageFile | UnifiedStorage.WindowsStorage/WindowsStorageFile.cs:21-25 | The storage constructor gives a Resolved handle whose path is the native file's. |
| WindowsStorage.WindowsStorageFile.constructor | UnifiedStorage.WindowsStorage/WindowsStorageFile.cs:31-34 | The path constructor gives an Unresolved handle on that path. |
| WindowsStorage.WindowsStorageFile.ExistsAsync | UnifiedStorage.WindowsStorage/WindowsStorageFile.cs:90-109 | The new cache and the answer are those of Probe. The path never changes, and a Resolved handle stays Resolved with the same file. |
| WindowsStorage.GetFileResolution | UnifiedStorage.WindowsStorage/FileSystem.cs:45-61 | A found file gives a Resolved handle. Not-found gives an Unresolved handle on the requested path. Every other failure propagates unchanged. |
| WindowsStorage.GetFileAsync | UnifiedStorage.WindowsStorage/FileSystem.cs:45-61 | Builds the fresh handle GetFileResolution describes, or raises its error. |
| WindowsStorage.LookupFailuresAreTreatedDifferently | UnifiedStorage.WindowsStorage/FileSystem.cs:53-56 | For a failure other than not-found, GetFileAsync raises while ExistsAsync answers no. For not-found, GetFileAsync gives an Unresolved handle. |
| WindowsStorage.CreatePath | UnifiedStorage.WindowsStorage/FileSystem.cs:35-38 | The wrapped path, combined with nothing, is the argument unchanged. |

## Left out

- System.IO's own rules are not modelled. This covers GetFullPath (paths are taken as already
  full), the Path.Combine rules for rooted or empty fragments, relative paths, separators inside
  a name, case-insensitive file lookup, and Win32's trimming of trailing dots and spaces. So an
  extensionless name such as `README` gets the CreateFileAsync candidate `README (1).`, which the
  model treats as distinct from `README (1)` although Windows opens the same file for both. A path is a list of plain segments.
- Case folding is limited to ASCII letters. InvariantCultureIgnoreCase and OrdinalIgnoreCase
  fold more of Unicode.
- DotNetPaths.IsRootIffVolumeRoot: treats the empty path as a root, where Path.GetPathRoot
  raises.
- Search patterns of `GetFiles(searchPattern)`: the pattern is an arbitrary predicate on file
  names, and wildcard matching is not modelled.
- Streams: their contents and what is later read or written through them are not modelled. The
  stream OpenAsync returns is only its path and access mode.
- CopyAsync: buffering inside Stream.CopyToAsync is modelled as one cancellation check before
  each read of at most 4096 bytes, the final read that finds the source exhausted included, so an
  empty source or a request raised after the last chunk still ends in OperationCanceled. The
  separate check of each write is folded into the check of the read before it. The source being open without sharing is modelled only for a
  copy onto itself, which fails.
- The C# counters are `int`. Here they are unbounded, so the overflow after 2^31 - 1 candidates is
  not modelled.
- Out-of-range values cast to CollisionOption and FileAccessOption, which reach the `default`
  branches, are not modelled. The enum of collision options is modelled with its four named
  values, because its declaration is not part of this model.
- Exceptions raised by the library carry the handle in C#. Here FileNotFound and
  DirectoryNotFound carry the handle's path.
- Threads, task schedulers and the await machinery of AwaitExtensions are not modelled. What
  remains is the cancellation check at entry.
- Cancellation requested from outside is modelled as the first checkpoint of a call at which the
  request is visible.
- WindowsStorageFile's Name, Extension and Directory are not modelled. They call helpers of
  WindowsStoragePath (GetFilename, GetExtension, GetDirectoryFromFilePath) that are not part of
  this model.
- The Windows.Storage lookups (StorageFile.GetFileFromPathAsync) and the cancellation passed to
  them are given as their outcome, a parameter of the operation.
- The operations that only throw NotImplementedException are not modelled: the WindowsStorageFile
  stubs, WindowsStorageDirectory, the earlier DotNetDirectory's listing and folder operations, and
  FileSystem.GetDirectoryAsync. Neither are the storage-root properties of the file systems
  (ApplicationData and special folders).
- Partial effects of a cancellation in the middle of a copy are modelled as the truncated
  destination. Nothing is rolled back.
