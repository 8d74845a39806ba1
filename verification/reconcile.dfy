/**
 * `get_fs_objects`, the action list, and the loop of `main` that sends each
 * object down the symlink, file or directory path and collects the failed
 * items.
 *
 * The run is modelled over a snapshot of the source and archive directories
 * and the outcomes of every effect (`World`). The snapshot stays valid during
 * the loop because every object is handled under its own name: an earlier
 * object's move or unlink does not change what a later one sees.
 */
module Reconcile {
  import opened Common
  import opened Fs
  import opened SizeCheck
  import opened Classify
  import opened RarScrub
  import opened Mover

  /** Everything the run observes: the two directories, whether the source
      directory can be listed at all, and what each effect does. */
  datatype World = World(
    source: seq<Node>,
    sourceReadable: bool,
    archive: seq<Node>,
    rarTokens: string -> seq<string>,  // the `7z l` output tokens for the archive in a directory
    removal: string -> OsOutcome,      // what `os.remove` does on the directory's scrub target
    move: (string, Dest) -> OsOutcome, // what `shutil.move` does with an object
    unlink: string -> OsOutcome)       // what `os.unlink` does with a link

  const DsStore := ".DS_Store"

  function NotDsStore(): string -> bool {
    (o: string) => !EndsWith(o, DsStore)
  }

  /** `get_fs_objects(source_dir)`: the source listing without ".DS_Store"
      entries; an unreadable directory gives no objects. */
  function FsObjects(w: World): (r: seq<string>)
    ensures forall o :: o in r <==> w.sourceReadable && o in Names(w.source) && !EndsWith(o, DsStore)
    ensures IsSubsequence(r, if w.sourceReadable then Names(w.source) else [])
  {
    if w.sourceReadable then Filter(Names(w.source), NotDsStore()) else []
  }

  function NotActive(transmission: seq<string>): string -> bool {
    (i: string) => i !in transmission
  }

  /** `[i for i in filesystem_objects if i not in transmission_objects]`. */
  function ActionList(objects: seq<string>, transmission: seq<string>): (r: seq<string>)
    ensures forall i :: i in r <==> i in objects && i !in transmission
    ensures IsSubsequence(r, objects)
  {
    Filter(objects, NotActive(transmission))
  }

  /** A call the run makes on the filesystem, whatever its outcome: an
      attempted unlink, removal or move. */
  datatype Step = Unlinked | Removed(file: string) | Moved(dest: Dest)

  /** One effect of the run on the object called `name`. */
  datatype Effect = Effect(name: string, step: Step)

  /** What handling one object did, and whether it is recorded as failed. */
  datatype Outcome = Outcome(failed: bool, steps: seq<Step>)

  /** An entry of `failed_items_list`: the object's kind and its name. */
  datatype FailedItem = FailedItem(kind: Kind, name: string)

  function Moves(ds: seq<Dest>): (r: seq<Step>)
    ensures forall d :: Moved(d) in r <==> d in ds
    ensures forall s :: s in r ==> s.Moved?
  {
    if ds == [] then [] else [Moved(ds[0])] + Moves(ds[1..])
  }

  function Removals(removed: Option<string>): (r: seq<Step>)
    ensures forall s :: s in r ==> s.Removed?
    ensures |r| <= 1
  {
    if removed.Some? then [Removed(removed.value)] else []
  }

  /** The entries of the directory at `name`, following links. */
  function Below(cs: seq<Node>, name: string): seq<Node> {
    var t := Target(Lookup(cs, name));
    if t.Some? && t.value.Dir? then t.value.children else []
  }

  function MoveOf(w: World, name: string): Dest -> OsOutcome {
    (d: Dest) => w.move(name, d)
  }

  /** The body of the loop for one object of a known kind. A symlink is
      unlinked; a file goes through `instance_check`; a directory is first
      scrubbed when it holds a ".rar" archive, stops there when the scrubber
      says not to continue, and goes through `instance_check` otherwise. */
  function HandleObject(w: World, p: Paths, kind: Kind, a: string): (r: Outcome)
    ensures Unlinked in r.steps <==> kind == SymlinkKind
    ensures (exists d :: Moved(d) in r.steps) <==>
              kind == FileKind ||
              (kind == DirectoryKind && HasRar(Below(w.source, a), w.rarTokens(a), w.removal(a)).cont)
    ensures (exists f :: Removed(f) in r.steps) ==> kind == DirectoryKind
    ensures kind == SymlinkKind ==> (r.failed <==> w.unlink(a).OsError?)
    ensures kind != SymlinkKind ==>
              (r.failed <==>
                 (kind == DirectoryKind && !HasRar(Below(w.source, a), w.rarTokens(a), w.removal(a)).cont) ||
                 InstanceCheck(p, w.archive, a, MoveOf(w, a)).status == Failed)
    ensures kind == SymlinkKind ==> r.steps == [Unlinked]
    ensures kind == FileKind ==> r.steps == Moves(InstanceCheck(p, w.archive, a, MoveOf(w, a)).attempts)
    ensures kind == DirectoryKind ==>
              r.steps == Removals(HasRar(Below(w.source, a), w.rarTokens(a), w.removal(a)).removed) +
                         (if HasRar(Below(w.source, a), w.rarTokens(a), w.removal(a)).cont
                          then Moves(InstanceCheck(p, w.archive, a, MoveOf(w, a)).attempts) else [])
  {
    match kind
    case SymlinkKind =>
      var responseDict := ProcessSymlink(w.unlink(a));
      Outcome(responseDict.result != Success, [Unlinked])
    case FileKind =>
      var placement := InstanceCheck(p, w.archive, a, MoveOf(w, a));
      assert Moved(placement.attempts[0]) in Moves(placement.attempts);
      Outcome(placement.status == Failed, Moves(placement.attempts))
    case DirectoryKind =>
      var processDirDict := HasRar(Below(w.source, a), w.rarTokens(a), w.removal(a));
      var scrubbed := Removals(processDirDict.removed);
      if !processDirDict.cont then
        Outcome(true, scrubbed)
      else
        var placement := InstanceCheck(p, w.archive, a, MoveOf(w, a));
        assert Moved(placement.attempts[0]) in scrubbed + Moves(placement.attempts);
        Outcome(placement.status == Failed, scrubbed + Moves(placement.attempts))
  }

  function Handler(w: World, p: Paths): (Kind, string) -> Outcome {
    (k: Kind, a: string) => HandleObject(w, p, k, a)
  }

  /** What the loop has done after some objects: the failed items, the
      effects in order, and how many objects it processed (`counter - 1`). */
  datatype RunLog = RunLog(failed: seq<FailedItem>, effects: seq<Effect>, processed: nat)

  function EffectsOf(a: string, steps: seq<Step>): (r: seq<Effect>)
    ensures forall e :: e in r <==> e.name == a && e.step in steps
  {
    if steps == [] then [] else [Effect(a, steps[0])] + EffectsOf(a, steps[1..])
  }

  /** The loop over the action list, objects of no kind being skipped. */
  function LogOf(names: seq<string>, kindOf: string -> Option<Kind>,
                 handle: (Kind, string) -> Outcome): RunLog
  {
    if names == [] then RunLog([], [], 0)
    else
      var log := LogOf(names[..|names| - 1], kindOf, handle);
      var a := names[|names| - 1];
      match kindOf(a)
      case None => log
      case Some(k) =>
        var o := handle(k, a);
        RunLog(log.failed + (if o.failed then [FailedItem(k, a)] else []),
               log.effects + EffectsOf(a, o.steps), log.processed + 1)
  }

  function Classified(kindOf: string -> Option<Kind>): string -> bool {
    (a: string) => kindOf(a).Some?
  }

  /** An item is failed exactly when its object is in the list, has that kind
      and its handling failed; every effect belongs to a listed object of
      some kind, and the handling of every such object shows in the effects;
      the processed count is the number of objects of some kind. */
  lemma {:induction false} LogFacts(names: seq<string>, kindOf: string -> Option<Kind>,
                                    handle: (Kind, string) -> Outcome)
    ensures forall fi :: fi in LogOf(names, kindOf, handle).failed <==>
              fi.name in names && kindOf(fi.name) == Some(fi.kind) && handle(fi.kind, fi.name).failed
    ensures forall e :: e in LogOf(names, kindOf, handle).effects ==>
              e.name in names && kindOf(e.name).Some? && e.step in handle(kindOf(e.name).value, e.name).steps
    ensures forall a, s :: a in names && kindOf(a).Some? && s in handle(kindOf(a).value, a).steps ==>
              Effect(a, s) in LogOf(names, kindOf, handle).effects
    ensures LogOf(names, kindOf, handle).processed == |Filter(names, Classified(kindOf))|
    decreases |names|
  {
    if names != [] {
      var init := names[..|names| - 1];
      var a := names[|names| - 1];
      assert names == init + [a];
      LogFacts(init, kindOf, handle);
      FilterAppend(init, [a], Classified(kindOf));
      assert [a][1..] == [];
    }
  }

  function ItemNames(items: seq<FailedItem>): (r: seq<string>)
    ensures |r| == |items| && forall i :: 0 <= i < |items| ==> r[i] == items[i].name
  {
    seq(|items|, i requires 0 <= i < |items| => items[i].name)
  }

  /** The failed items come in processing order: their names are a
      subsequence of the list. */
  lemma {:induction false} FailedInOrder(names: seq<string>, kindOf: string -> Option<Kind>,
                                         handle: (Kind, string) -> Outcome)
    ensures IsSubsequence(ItemNames(LogOf(names, kindOf, handle).failed), names)
    decreases |names|
  {
    if names != [] {
      var init := names[..|names| - 1];
      var a := names[|names| - 1];
      assert names == init + [a];
      FailedInOrder(init, kindOf, handle);
      var before := LogOf(init, kindOf, handle).failed;
      var after := LogOf(names, kindOf, handle).failed;
      SubsequenceAppend(ItemNames(before), init, a);
      if after != before {
        assert ItemNames(after) == ItemNames(before) + [a];
      }
    }
  }

  /** The log does not depend on how kinds are computed for names outside the list. */
  lemma {:induction false} LogOfAgrees(names: seq<string>, k1: string -> Option<Kind>,
                                       k2: string -> Option<Kind>, handle: (Kind, string) -> Outcome)
    requires forall a :: a in names ==> k1(a) == k2(a)
    ensures LogOf(names, k1, handle) == LogOf(names, k2, handle)
    decreases |names|
  {
    if names != [] {
      var init := names[..|names| - 1];
      assert forall a :: a in init ==> a in names;
      LogOfAgrees(init, k1, k2, handle);
      assert names[|names| - 1] in names;
    }
  }

  /** The kind the loop's `if a in symlinks / elif a in files / elif a in
      directories` chain selects. */
  function KindIn(symlinks: seq<string>, files: seq<string>, directories: seq<string>): string -> Option<Kind> {
    (a: string) =>
      if a in symlinks then Some(SymlinkKind)
      else if a in files then Some(FileKind)
      else if a in directories then Some(DirectoryKind)
      else None
  }

  /** The loop of `main` over the action list. */
  method ProcessActions(actionList: seq<string>, symlinks: seq<string>, files: seq<string>,
                        directories: seq<string>, handle: (Kind, string) -> Outcome)
    returns (failedItems: seq<FailedItem>, effects: seq<Effect>, counter: nat)
    ensures counter >= 1
    ensures RunLog(failedItems, effects, counter - 1) == LogOf(actionList, KindIn(symlinks, files, directories), handle)
  {
    failedItems, effects, counter := [], [], 1;
    ghost var kindOf := KindIn(symlinks, files, directories);
    for i := 0 to |actionList|
      invariant counter >= 1
      invariant RunLog(failedItems, effects, counter - 1) == LogOf(actionList[..i], kindOf, handle)
    {
      var a := actionList[i];
      assert actionList[..i + 1][..i] == actionList[..i];
      if a in symlinks {
        var o := handle(SymlinkKind, a);
        if o.failed {
          failedItems := failedItems + [FailedItem(SymlinkKind, a)];
        }
        effects := effects + EffectsOf(a, o.steps);
        counter := counter + 1;
      } else if a in files {
        var o := handle(FileKind, a);
        if o.failed {
          failedItems := failedItems + [FailedItem(FileKind, a)];
        }
        effects := effects + EffectsOf(a, o.steps);
        counter := counter + 1;
      } else if a in directories {
        var o := handle(DirectoryKind, a);
        if o.failed {
          failedItems := failedItems + [FailedItem(DirectoryKind, a)];
        }
        effects := effects + EffectsOf(a, o.steps);
        counter := counter + 1;
      }
    }
    assert actionList[..|actionList|] == actionList;
  }

  /** How a run ends: no objects in the source, nothing left once the active
      transfers are removed, or the loop ran over the action list. */
  datatype RunResult =
    | NoObjects
    | NothingToDo
    | Completed(actionList: seq<string>, log: RunLog)

  /** The run of `main` from the object listing on, `transmission` being the
      names of the active transfers. */
  function Run(w: World, p: Paths, transmission: seq<string>): RunResult {
    var objects := FsObjects(w);
    if objects == [] then NoObjects
    else
      var actionList := ActionList(objects, transmission);
      if actionList == [] then NothingToDo
      else Completed(actionList, LogOf(actionList, Classifier(w.source), Handler(w, p)))
  }

  /** `main`, from fetching the filesystem objects to the end of the loop. */
  method Reconcile(w: World, p: Paths, transmission: seq<string>) returns (r: RunResult)
    ensures r == Run(w, p, transmission)
  {
    var filesystemObjects := FsObjects(w);
    if filesystemObjects == [] {
      return NoObjects;
    }
    var actionList := ActionList(filesystemObjects, transmission);
    if actionList == [] {
      return NothingToDo;
    }
    var files, directories, symlinks := ClassifyContents(w.source, actionList);
    var failedItems, effects, counter := ProcessActions(actionList, symlinks, files, directories, Handler(w, p));
    SelectionIsClassification(w.source, actionList, files, directories, symlinks);
    LogOfAgrees(actionList, KindIn(symlinks, files, directories), Classifier(w.source), Handler(w, p));
    r := Completed(actionList, RunLog(failedItems, effects, counter - 1));
  }

  /** On the listed names, the loop's membership chain selects exactly the
      classification's kind. */
  lemma SelectionIsClassification(dir: seq<Node>, contents: seq<string>,
                                  files: seq<string>, directories: seq<string>, symlinks: seq<string>)
    requires IsPartition(dir, contents, files, directories, symlinks)
    ensures forall a :: a in contents ==> KindIn(symlinks, files, directories)(a) == Classifier(dir)(a)
  {
  }

  /** Active transfers and ".DS_Store" entries are never touched, and every
      effect is the handling of a listed object of some kind. */
  lemma ActiveTransfersUntouched(w: World, p: Paths, transmission: seq<string>)
    ensures Run(w, p, transmission).Completed? ==>
              forall e :: e in Run(w, p, transmission).log.effects ==>
                && e.name !in transmission
                && !EndsWith(e.name, DsStore)
                && e.name in Names(w.source)
                && KindOf(w.source, e.name).Some?
  {
    var r := Run(w, p, transmission);
    if r.Completed? {
      LogFacts(r.actionList, Classifier(w.source), Handler(w, p));
    }
  }

  /** The failed items are exactly the listed objects whose handling failed,
      each with its kind. */
  lemma FailedItemsExact(w: World, p: Paths, transmission: seq<string>)
    ensures Run(w, p, transmission).Completed? ==>
              forall fi :: fi in Run(w, p, transmission).log.failed <==>
                && fi.name in FsObjects(w) && fi.name !in transmission
                && KindOf(w.source, fi.name) == Some(fi.kind)
                && HandleObject(w, p, fi.kind, fi.name).failed
  {
    var r := Run(w, p, transmission);
    if r.Completed? {
      LogFacts(r.actionList, Classifier(w.source), Handler(w, p));
    }
  }

  /** `failed_items_list` follows the order of the action list. */
  lemma FailedItemsInRunOrder(w: World, p: Paths, transmission: seq<string>)
    requires Run(w, p, transmission).Completed?
    ensures IsSubsequence(ItemNames(Run(w, p, transmission).log.failed), Run(w, p, transmission).actionList)
  {
    var r := Run(w, p, transmission);
    FailedInOrder(r.actionList, Classifier(w.source), Handler(w, p));
  }

  /** The log of one listed object of some kind: its effects are exactly its
      handling's steps, and it is a failed item exactly when its handling failed. */
  lemma LogOfListed(names: seq<string>, kindOf: string -> Option<Kind>,
                    handle: (Kind, string) -> Outcome, a: string)
    requires a in names && kindOf(a).Some?
    ensures forall s :: Effect(a, s) in LogOf(names, kindOf, handle).effects <==>
              s in handle(kindOf(a).value, a).steps
    ensures FailedItem(kindOf(a).value, a) in LogOf(names, kindOf, handle).failed <==>
              handle(kindOf(a).value, a).failed
  {
    LogFacts(names, kindOf, handle);
  }

  /** A directory the scrubber stops is recorded as failed, and no move is
      attempted on it. */
  lemma StoppedDirectoryStays(w: World, p: Paths, transmission: seq<string>, a: string)
    requires Run(w, p, transmission).Completed?
    requires a in Run(w, p, transmission).actionList
    requires KindOf(w.source, a) == Some(DirectoryKind)
    requires !HasRar(Below(w.source, a), w.rarTokens(a), w.removal(a)).cont
    ensures FailedItem(DirectoryKind, a) in Run(w, p, transmission).log.failed
    ensures forall d :: Effect(a, Moved(d)) !in Run(w, p, transmission).log.effects
  {
    var r := Run(w, p, transmission);
    var kindOf := Classifier(w.source);
    var handle := Handler(w, p);
    assert r.log == LogOf(r.actionList, kindOf, handle);
    assert kindOf(a) == Some(DirectoryKind);
    LogOfListed(r.actionList, kindOf, handle, a);
    assert handle(DirectoryKind, a) == HandleObject(w, p, DirectoryKind, a);
    StoppedDirectorySteps(w, p, a);
  }

  /** The handling of a directory the scrubber stops fails and moves nothing. */
  lemma StoppedDirectorySteps(w: World, p: Paths, a: string)
    requires !HasRar(Below(w.source, a), w.rarTokens(a), w.removal(a)).cont
    ensures HandleObject(w, p, DirectoryKind, a).failed
    ensures forall d :: Moved(d) !in HandleObject(w, p, DirectoryKind, a).steps
  {
    var o := HandleObject(w, p, DirectoryKind, a);
    assert forall d :: Moved(d) !in o.steps;
  }

  /** An unlink is attempted on a symlink, and no move. */
  lemma SymlinkOnlyUnlinked(w: World, p: Paths, transmission: seq<string>, a: string)
    requires Run(w, p, transmission).Completed?
    requires a in Run(w, p, transmission).actionList
    requires KindOf(w.source, a) == Some(SymlinkKind)
    ensures Effect(a, Unlinked) in Run(w, p, transmission).log.effects
    ensures forall d :: Effect(a, Moved(d)) !in Run(w, p, transmission).log.effects
  {
    var r := Run(w, p, transmission);
    var kindOf := Classifier(w.source);
    var handle := Handler(w, p);
    assert r.log == LogOf(r.actionList, kindOf, handle);
    assert kindOf(a) == Some(SymlinkKind);
    LogOfListed(r.actionList, kindOf, handle, a);
    assert handle(SymlinkKind, a) == HandleObject(w, p, SymlinkKind, a);
    assert HandleObject(w, p, SymlinkKind, a).steps == [Unlinked];
  }

  /** A listed file is moved to the graveyard exactly when the archive holds
      an entry of its name that does not dangle, and to the archive
      otherwise; a move to the trash only follows a failed graveyard move and
      makes the file a failed item. */
  lemma FilePlacedByArchiveName(w: World, p: Paths, transmission: seq<string>, a: string)
    requires Run(w, p, transmission).Completed?
    requires a in Run(w, p, transmission).actionList
    requires a != "" && a != "." && '/' !in a
    requires KindOf(w.source, a) == Some(FileKind)
    ensures Effect(a, Moved(GraveyardDest)) in Run(w, p, transmission).log.effects <==>
              a in Names(w.archive) && Exists(Find(w.archive, a))
    ensures Effect(a, Moved(ArchiveDest)) in Run(w, p, transmission).log.effects <==>
              !(a in Names(w.archive) && Exists(Find(w.archive, a)))
    ensures Effect(a, Moved(TrashDest)) in Run(w, p, transmission).log.effects ==>
              Effect(a, Moved(GraveyardDest)) in Run(w, p, transmission).log.effects &&
              FailedItem(FileKind, a) in Run(w, p, transmission).log.failed
  {
    var r := Run(w, p, transmission);
    var kindOf := Classifier(w.source);
    var handle := Handler(w, p);
    assert r.log == LogOf(r.actionList, kindOf, handle);
    assert kindOf(a) == Some(FileKind);
    LogOfListed(r.actionList, kindOf, handle, a);
    assert handle(FileKind, a) == HandleObject(w, p, FileKind, a);
    FileStepsByArchiveName(w, p, a);
  }

  /** The moves of one file follow the archive lookup by its name. */
  lemma FileStepsByArchiveName(w: World, p: Paths, a: string)
    requires a != "" && a != "." && '/' !in a
    ensures Moved(GraveyardDest) in HandleObject(w, p, FileKind, a).steps <==>
              a in Names(w.archive) && Exists(Find(w.archive, a))
    ensures Moved(ArchiveDest) in HandleObject(w, p, FileKind, a).steps <==>
              !(a in Names(w.archive) && Exists(Find(w.archive, a)))
    ensures Moved(TrashDest) in HandleObject(w, p, FileKind, a).steps ==>
              Moved(GraveyardDest) in HandleObject(w, p, FileKind, a).steps &&
              HandleObject(w, p, FileKind, a).failed
  {
    var placement := InstanceCheck(p, w.archive, a, MoveOf(w, a));
    PlacementByName(p, w.archive, a, MoveOf(w, a));
    assert placement.attempts[0] in placement.attempts;
  }

  /** A listed directory holding a ".rar" archive whose listing names exactly
      one unpacked file has `os.remove` attempted on that file, and on
      nothing else; any other directory has no removal attempted. */
  lemma ScrubRemovesSingleTarget(w: World, p: Paths, transmission: seq<string>, a: string)
    requires Run(w, p, transmission).Completed?
    requires a in Run(w, p, transmission).actionList
    requires KindOf(w.source, a) == Some(DirectoryKind)
    ensures forall f :: Effect(a, Removed(f)) in Run(w, p, transmission).log.effects <==>
              ScrubTargetOf(Below(w.source, a), w.rarTokens(a)) == Some(f)
  {
    var r := Run(w, p, transmission);
    var kindOf := Classifier(w.source);
    var handle := Handler(w, p);
    assert r.log == LogOf(r.actionList, kindOf, handle);
    assert kindOf(a) == Some(DirectoryKind);
    LogOfListed(r.actionList, kindOf, handle, a);
    assert handle(DirectoryKind, a) == HandleObject(w, p, DirectoryKind, a);
    DirectoryRemovalSteps(w, p, a);
  }

  /** The removals among one directory's steps are the scrubber's deletion. */
  lemma DirectoryRemovalSteps(w: World, p: Paths, a: string)
    ensures forall f :: Removed(f) in HandleObject(w, p, DirectoryKind, a).steps <==>
              ScrubTargetOf(Below(w.source, a), w.rarTokens(a)) == Some(f)
  {
    var check := HasRar(Below(w.source, a), w.rarTokens(a), w.removal(a));
    var placement := InstanceCheck(p, w.archive, a, MoveOf(w, a));
    var tail := if check.cont then Moves(placement.attempts) else [];
    assert forall f :: Removed(f) !in tail;
    assert forall f :: Removed(f) in Removals(check.removed) <==> check.removed == Some(f);
  }

  /** A FIFO, socket or device node in the source directory is neither
      handled nor recorded as failed. */
  lemma SpecialFilesUntouched(w: World, p: Paths, transmission: seq<string>, a: string)
    requires Run(w, p, transmission).Completed?
    requires a != "" && a != "." && '/' !in a
    requires Find(w.source, a) == Some(Special)
    ensures forall e :: e in Run(w, p, transmission).log.effects ==> e.name != a
    ensures forall fi :: fi in Run(w, p, transmission).log.failed ==> fi.name != a
  {
    SpecialNotClassified(w.source, a);
    ActiveTransfersUntouched(w, p, transmission);
    FailedItemsExact(w, p, transmission);
  }

  /** An empty list of active transfers does not stop the run: every listed
      object is then in the action list. */
  lemma EmptyTransmissionProcessesAll(w: World, p: Paths)
    requires FsObjects(w) != []
    ensures Run(w, p, []).Completed?
    ensures Run(w, p, []).actionList == FsObjects(w)
  {
    FilterAll(FsObjects(w), NotActive([]));
  }

  lemma {:induction false} FilterAll<T(!new)>(s: seq<T>, p: T -> bool)
    requires forall x :: x in s ==> p(x)
    ensures Filter(s, p) == s
  {
    if s != [] {
      assert forall x :: x in s[1..] ==> x in s;
      FilterAll(s[1..], p);
      assert s[0] in s;
    }
  }
}
