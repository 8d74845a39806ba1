/**
 * `get_file_size`, `get_directory_size`, `compare_size_of_two_objects` and
 * `check_if_object_exists_at_dest`.
 */
module SizeCheck {
  import opened Common
  import opened Fs

  /** The 'type' the comparison reports: 'file' or 'dir'. */
  datatype ObjType = FileType | DirType

  /** The 'action' the comparison decides: 'archive' or 'graveyard'. */
  datatype Action = Archive | Graveyard

  /** The dictionary `compare_size_of_two_objects` returns. */
  datatype SizeComparison = SizeComparison(
    name: string, objType: ObjType, objSize: nat, archiveSize: nat, action: Action)

  /** The dictionary `check_if_object_exists_at_dest` returns:
      {'exists': False} or the comparison fields with 'exists': True. */
  datatype ArchiveExistence =
    | Absent
    | Present(objType: ObjType, sourceSize: nat, destSize: nat, action: Action)

  /** `get_file_size`: `stat().st_size`, which follows links. */
  function FileSize(o: Option<Entry>): (r: nat)
    requires IsFile(o)
    ensures Target(o) == Some(File(r))
  {
    Target(o).value.size
  }

  /** `get_directory_size`: the sum over `rglob('*')`; a path that is not a
      directory (after following links) has nothing below it and weighs 0. */
  function DirectorySize(o: Option<Entry>): (r: nat)
    ensures IsDir(o) ==> r == DirSize(Target(o).value.children)
    ensures !IsDir(o) ==> r == 0
  {
    if IsDir(o) then DirSize(Target(o).value.children) else 0
  }

  /** The decision rule: archive exactly when the archived copy is strictly
      smaller; ties go to the graveyard. */
  function Decide(objSize: nat, archiveSize: nat): (a: Action)
    ensures a == Archive <==> archiveSize < objSize
    ensures a == Graveyard <==> objSize <= archiveSize
  {
    if archiveSize < objSize then Archive else Graveyard
  }

  /** `compare_size_of_two_objects(obj_src, obj_dest)`. The kind is taken from
      the source alone; a file source is compared file to file. */
  function CompareSizes(src: Option<Entry>, dest: Option<Entry>, name: string): (r: SizeComparison)
    requires IsFile(src) ==> IsFile(dest)
    ensures r.name == name
    ensures r.objType == FileType <==> IsFile(src)
    ensures IsFile(src) ==> r.objSize == FileSize(src) && r.archiveSize == FileSize(dest)
    ensures !IsFile(src) ==> r.objSize == DirectorySize(src) && r.archiveSize == DirectorySize(dest)
    ensures r.action == Archive <==> r.archiveSize < r.objSize
  {
    if IsFile(src) then
      var s := FileSize(src);
      var d := FileSize(dest);
      SizeComparison(name, FileType, s, d, Decide(s, d))
    else
      var s := DirectorySize(src);
      var d := DirectorySize(dest);
      SizeComparison(name, DirType, s, d, Decide(s, d))
  }

  /** Comparing an object with itself always gives equal sizes and the
      graveyard. */
  lemma CompareWithItself(o: Option<Entry>, name: string)
    ensures CompareSizes(o, o, name).objSize == CompareSizes(o, o, name).archiveSize
    ensures CompareSizes(o, o, name).action == Graveyard
  {
  }

  /** `check_if_object_exists_at_dest(dest_dir, o)`, as written: when the name
      exists at the destination, the "source" handed to the comparison is
      built from the destination directory too (main.py line 64), so the
      destination copy is compared with itself. */
  function CheckExistsAtDest(dest: seq<Node>, o: string): (r: ArchiveExistence)
    ensures r.Absent? <==> !Exists(Lookup(dest, BaseName(o)))
    ensures r.Present? ==> r.sourceSize == r.destSize && r.action == Graveyard
    ensures r.Present? ==> (r.objType == FileType <==> IsFile(Lookup(dest, BaseName(o))))
  {
    var destObject := Lookup(dest, BaseName(o));
    if Exists(destObject) then
      var sourceObject := Lookup(dest, BaseName(o));
      var c := CompareSizes(sourceObject, destObject, BaseName(o));
      CompareWithItself(destObject, BaseName(o));
      Present(c.objType, c.objSize, c.archiveSize, c.action)
    else
      Absent
  }

  /** For a name as `os.listdir` reports it, the lookup reports 'exists'
      exactly when an entry of that name is in the destination listing and
      does not dangle. */
  lemma ExistsAtDestByName(dest: seq<Node>, o: string)
    requires o != "" && o != "." && '/' !in o
    ensures CheckExistsAtDest(dest, o).Present? <==> o in Names(dest) && Exists(Find(dest, o))
  {
    LookupPlainName(dest, o);
  }
}
