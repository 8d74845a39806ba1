# Torrent staging reconciler: a verified model of its decision engine

The tool reconciles a staging directory of downloaded objects (`main.py`).
It lists the objects in the source directory and drops `.DS_Store` entries and
the names of torrents that are still active. Each remaining object is then
classified as a symbolic link, a regular file or a directory and handled by
kind:

- A link is unlinked.
- A file is looked up in the archive directory. If a copy exists there, the
  object is moved to the graveyard, with the trash as a fallback when that
  move fails. Otherwise it is moved to the archive.
- A directory that holds a `.rar` archive first has its single unpacked file
  scrubbed. It stops there when scrubbing warns or fails, and otherwise goes
  through the same archive lookup as a file.

Every object whose handling fails is recorded as a `[kind, name]` pair.

The model describes the filesystem as a snapshot value. A directory is the
sequence of its entries in listing order. A symbolic link carries the entry it
resolves to, so the link-following queries (`is_file`, `isdir`, `exists`,
`stat`) and the non-following one (`islink`) can both be answered. A FIFO,
socket or device node is a special entry: it exists, but it is neither a file
nor a directory, so the classification drops it.

Each effect is an input to the model:

- the outcome of `shutil.move`, `os.remove` and `os.unlink`;
- the tokens printed by `7z l`;
- the names of the active torrents.

The modules are:

- `Common`: shared vocabulary and Python string and list helpers.
- `Fs`: the snapshot and its queries, and directory sizes.
- `SizeCheck`: size comparison and the archive lookup.
- `Classify`: object classification.
- `RarScrub`: archive detection, listing and scrubbing.
- `Mover`: paths, moves and the fallback chain.
- `Reconcile`: the action list and the main loop.

In these places the model follows the code, which may be unexpected:

- An empty list of active torrents does not stop the run; every listed object
  is processed (`EmptyTransmissionProcessesAll`).
- The directory size counts links to files at their target's size, because
  `rglob` yields them and `is_file`/`stat` follow links. It does not descend
  into links to directories.
- A `.rar` directory whose listing names no extracted file is reported as a
  warning ("more than one video file"). It is recorded as failed and not moved.
- A listing token that names a regular file with a trailing "/" (or "/.")
  passes the `pathlib` test, which drops that ending, but fails
  `os.path.exists` on the joined string. As the only target it is reported
  'missing', nothing is removed and the directory goes on
  (`RarScrub.SlashTargetIsMissing`).
- The archive lookup builds both paths from the archive directory
  (`main.py` line 64). The archive copy is therefore compared with itself,
  and an object whose name exists in the archive always goes to the
  graveyard, whatever the sizes. The model keeps this behaviour and proves it
  (`SizeCheck.CheckExistsAtDest`, `Mover.PlacementByName`).

## Model

| member | source | states |
|---|---|---|
| Fs.DirSizeRecursive | main.py:224-225 | an empty directory weighs 0; otherwise the size is the first entry's bytes (a file its size, a subdirectory its whole size, a link to a file its target's size) plus the rest |
| Fs.DirSizeNesting | main.py:224-225 | files count at any depth: wrapping a listing in nested directories leaves its size unchanged |
| Fs.DirSizeAppend | main.py:224-225 | the size is additive over the entries of a directory |
| Fs.LinkContribution | main.py:224-225 | a link to a directory adds nothing (the walk does not follow it), a link to a file adds the file's size |
| SizeCheck.FileSize | main.py:218-219 | the size is the one of the file the path resolves to, links followed |
| SizeCheck.DirectorySize | main.py:224-225 | a directory (links followed) weighs the sum over its walk; anything else weighs 0 |
| SizeCheck.Decide | main.py:120-123 | 'archive' exactly when the archived size is strictly smaller, 'graveyard' on ties and larger archived copies |
| SizeCheck.CompareSizes | main.py:104-124 | the type is 'file' exactly when the source is a regular file; file sizes for files, directory sizes otherwise; the action follows the decision rule |
| SizeCheck.CompareWithItself | main.py:104-124 | comparing an object with itself gives equal sizes and 'graveyard' |
| SizeCheck.CheckExistsAtDest | main.py:56-77 | 'exists' is false exactly when nothing of the base name exists in the archive; when it exists, both sizes are equal and the action is always 'graveyard' (the self-comparison at line 64) |
| SizeCheck.ExistsAtDestByName | main.py:56-77 | for a listing name, 'exists' holds exactly when the archive lists that name and the entry does not dangle |
| Classify.SplitByKind | main.py:90-99 | the loop leaves in each list exactly the names of that kind, in input order |
| Classify.ClassifyContents | main.py:82-99 | the three lists are the names of each kind and form a partition: subsequences of the input, pairwise disjoint, links never files or directories, unclassifiable names dropped |
| Classify.SpecialNotClassified | main.py:92-97 | a FIFO, socket or device node is none of the three kinds and lands in no list |
| Classify.ClassificationIsPartition | main.py:93-98 | the kind filters with the link test first satisfy the partition properties |
| RarScrub.RarSuffix | main.py:341 | a name has the suffix ".rar" exactly when it ends in ".rar" after at least one character |
| Fs.PathToFileExists | main.py:341-347 | a path that `is_file` accepts passes `os.path.exists` exactly when it does not end in "/" or "/." |
| Fs.TrailingSlashLookup | main.py:340-341 | a plain name with a trailing "/" is looked up as the name itself, has that name as its base name, and can only name a directory for the operating system |
| RarScrub.Shape | main.py:345-353 | one candidate is returned by name if `os.path.exists` holds for it, as 'missing' otherwise; any other count returns the list |
| RarScrub.CollectTargets | main.py:339-343 | the loop keeps exactly the tokens that pass the test, in order |
| RarScrub.ListFilesFromRar | main.py:317-353 | the result is the listing of the directory and the tool's tokens |
| RarScrub.RarListingCases | main.py:317-353 | None exactly when no name ends in ".rar"; one target gives its name, or 'missing' exactly when the token ends in "/" or "/."; any other count gives the list |
| RarScrub.SlashTargetIsMissing | main.py:339-350 | a regular file listed with a trailing "/" as the only target is reported 'missing'; the scrubber then reports success and removes nothing |
| RarScrub.TargetsAreListedFiles | main.py:339-343 | the targets are the tokens naming a regular file without the ".rar" suffix, in listing order, with every repetition kept |
| RarScrub.ScrubDirectory | main.py:411-472 | 'warning' with the whole list and no deletion for any count other than one; a deletion exactly for a single target not ending in "/" or "/.", giving 'success', 'missing' on a no-such-file message, 'failed' otherwise; 'success' without deletion for a single target with that ending; 'success' with an empty name when no archive is present |
| RarScrub.HasRar | main.py:129-158 | has_rar is true exactly when a name ends in ".rar"; then its file, result and response are the scrubber's and `os.remove` is attempted exactly when the listing has one target not ending in "/" or "/."; without an archive nothing is removed; continue holds exactly when there is no archive, or there is one target and either it is reported missing or its deletion did not fail with an error other than no-such-file |
| RarScrub.ScrubTargetOf | main.py:336-350 | the file the scrubber deletes exists exactly when there is an archive and a single target that may name a file; it is a listed token naming a regular file without the ".rar" suffix |
| RarScrub.ScrubNeverFindsNoRar | main.py:138-143 | called from has_rar, the scrubber never takes its "No rar file found" branch |
| RarScrub.Dedupe | main.py:388-389 | keeps the first copy of every line: the same elements, no repeats, ordered by the position of their first copies |
| RarScrub.StripSpacesFacts | main.py:391-392 | the stripped line has no space at either end; a line without edge spaces is unchanged |
| RarScrub.StripSpacesSlice | main.py:391-392 | the stripped line is a slice of the line, and every character outside that slice is a space |
| RarScrub.RemoveFirst | main.py:394-396 | removes one copy of the element and nothing else |
| RarScrub.RemoveFirstDropsFirstCopy | main.py:394-396 | the removed copy is the first one and the other elements keep their order |
| RarScrub.ListFilesFromRar2 | main.py:358-406 | None exactly when no name ends in ".rar"; otherwise the cleaned lines shaped as one name, 'missing' (when `os.path.exists` fails for it) or a list |
| RarScrub.CleanListingOrigins | main.py:381-396 | every cleaned name is a stripped non-empty line, and cleaning never lengthens the list |
| RarScrub.CleanListingWithoutEdgeSpaces | main.py:381-396 | when no line has an edge space, the result keeps line order, has no repeats, no empty name and no "files" |
| RarScrub.StripAfterDedupe | main.py:388-392 | repeats are removed before stripping, so any two different non-empty lines with the same stripped form come out as that name twice |
| RarScrub.StripAfterDedupeExample | main.py:388-392 | an instance: "a" and " a" are cleaned to "a" twice |
| Mover.ProdPaths | main.py:479-484 | each location is its volume (the home directory for the trash) joined with "zzzNew", "Media_Archive", "Graveyard" or ".Trash", and ends in that name |
| Mover.DevPaths | main.py:43-51 | every location gets "__DEV" appended |
| Mover.RunPaths | main.py:495-497 | the development locations are used exactly when the script's directory contains "__DEV" |
| Mover.DevLabel | main.py:253-256 | appending "__DEV" to a destination does not change the name reported for it |
| Mover.DevPathsSameLabels | main.py:43-51 | the development run reports the archive, graveyard and trash as the production run does |
| Mover.ProcessObject | main.py:252-269 | 'success' exactly when the move succeeds, reporting the destination's name; 'failed' with the error text otherwise |
| Mover.ProcessSymlink | main.py:274-288 | 'success' with an empty response exactly when the unlink succeeds; 'failed' with the error text otherwise |
| Mover.InstanceCheck | main.py:163-184 | the graveyard is tried exactly when the lookup reports an existing copy with action 'graveyard', the archive otherwise; the trash only after a failed graveyard move; success exactly when the first move succeeds |
| Mover.PlacementByName | main.py:163-184 | an object goes to the graveyard exactly when its name exists in the archive; a trash attempt always means 'failed'; success is the chosen move's success |
| Reconcile.FsObjects | main.py:230-247 | the listed names without ".DS_Store" entries, in order; none when the directory cannot be read |
| Reconcile.ActionList | main.py:524 | the objects not among the active torrents, in order |
| Reconcile.HandleObject | main.py:560-615 | the attempted calls are the unlink for a link, the moves `instance_check` attempts for a file, and for a directory the scrub removal (if any) followed by those moves exactly when the scrubber lets it continue; the failure flag follows the unlink, the scrubber and the instance check |
| Reconcile.FileStepsByArchiveName | main.py:576-587 | a file's handling attempts the graveyard move exactly when the archive holds a non-dangling entry of its name, the archive move otherwise, and the trash only after the graveyard, as a failure |
| Reconcile.DirectoryRemovalSteps | main.py:591-611 | a directory's handling attempts `os.remove` on exactly the scrubber's single target, and on nothing when there is none |
| Reconcile.ScrubRemovesSingleTarget | main.py:591-611 | in a completed run, a listed directory has a removal effect exactly for the scrubber's single target |
| Reconcile.FilePlacedByArchiveName | main.py:576-587 | in a run, a listed file is moved to the graveyard exactly when the archive holds a non-dangling entry of its name and to the archive otherwise; a trash move follows a graveyard move and makes it a failed item |
| Reconcile.SpecialFilesUntouched | main.py:89-98 | a FIFO, socket or device node in the source directory has no effect and is never a failed item |
| Reconcile.LogFacts | main.py:549-615 | an item is failed exactly when its object is listed, has that kind and its handling failed; every effect belongs to a listed object of some kind and every such object's handling shows; the counter counts the classified objects |
| Reconcile.FailedInOrder | main.py:549-615 | the failed items follow the order of the list |
| Reconcile.ProcessActions | main.py:546-615 | the loop with its symlink/file/directory chain produces the failed items, effects and counter of the specification |
| Reconcile.SelectionIsClassification | main.py:560-591 | on the action list, the membership chain selects exactly the classified kind |
| Reconcile.Reconcile | main.py:517-615 | the run stops when there are no objects or nothing to do, and otherwise processes the action list by kind |
| Reconcile.ActiveTransfersUntouched | main.py:524-615 | no effect touches an active torrent or a ".DS_Store" entry, and every effect is on a listed object of some kind |
| Reconcile.FailedItemsExact | main.py:549-615 | the failed items are exactly the listed objects whose handling failed, each with its kind |
| Reconcile.FailedItemsInRunOrder | main.py:549-615 | the failed items come in action-list order |
| Reconcile.StoppedDirectoryStays | main.py:596-603 | a directory the scrubber stops is recorded as failed and no move is attempted on it |
| Reconcile.SymlinkOnlyUnlinked | main.py:560-572 | an unlink is attempted on a link, and no move |
| Reconcile.EmptyTransmissionProcessesAll | main.py:508-524 | with no active torrents every listed object is in the action list and the run goes on |

## Left out

- Loading the shell environment (`load_shell_environment`) and reading the volume variables: the volumes are parameters of `Mover.ProdPaths`.
- Fetching the active torrents over the Transmission RPC API, and its exit on error: the name list is an input. The comparison with the string 'empty' is never true and is not modelled.
- The exits of the process: when there are no objects or nothing to do, the run ends with `NoObjects` or `NothingToDo`.
- Printing, timestamps, the stage counter and humanised run times.
- The `7z`, `grep` and `awk` subprocesses: their output is an input. The path of an archive built from several ".rar" names, and a non-zero exit of the tool (which aborts the run), are not modelled.
- Listing tokens that are absolute paths or contain "..": such a token is treated as naming nothing.
- The error texts of operating-system calls: only the no-such-file prefix is distinguished. Exceptions other than `OSError` raised by a move are not modelled.
- The filesystem changes made by moves, removals and unlinks. The snapshot stays as it was, which is faithful because each object is handled under its own name and the lookups only read the archive under that name. An archive directory placed inside the source directory is not modelled.
- Permissions, and the permission errors `rglob` swallows. Every snapshot entry is readable.
- `os.path.basename` of an object path is taken to equal the listing name. A listing name never contains '/', so the two agree.
- Fs.Find: every name lookup compares names by exact string equality, as on a case-sensitive filesystem without Unicode normalisation. This covers the archive lookup (`CheckExistsAtDest`, `ExistsAtDestByName`, `PlacementByName`), the test of each `7z` token by `is_file()` (`IsScrubTarget`), the existence test in `Shape`, and the classification of the source listing. On a case-insensitive volume (the macOS default) or one that normalises Unicode (HFS+ stores names in decomposed form), Python also finds a name that differs in case or in normal form. For example, a token in composed form that names a decomposed file on disk passes `is_file()` and the file is deleted, whereas the model finds no target, reports a warning and records the directory as failed.
- Python's `str.strip(' ')` is modelled for the space character only, as the code calls it.
