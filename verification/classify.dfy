/**
 * `classify_directory_contents`: objects sorted into links, files and
 * directories.
 */
module Classify {
  import opened Common
  import opened Fs

  /** The kinds the driver processes, with the labels it records for failures:
      'symlink', 'file' and 'directory'. */
  datatype Kind = SymlinkKind | FileKind | DirectoryKind

  /** The branch a name takes in the classification: the link test comes
      first, so a link is a symlink even when it points to a file or a
      directory; a name that is none of the three is not classified. */
  function KindOf(dir: seq<Node>, name: string): Option<Kind> {
    var itemPath := Lookup(dir, name);
    if IsLink(itemPath) then Some(SymlinkKind)
    else if IsFile(itemPath) then Some(FileKind)
    else if IsDir(itemPath) then Some(DirectoryKind)
    else None
  }

  /** The classification of every name below one directory. */
  function Classifier(dir: seq<Node>): string -> Option<Kind> {
    (n: string) => KindOf(dir, n)
  }

  function HasKind(kindOf: string -> Option<Kind>, k: Kind): string -> bool {
    (n: string) => kindOf(n) == Some(k)
  }

  /** The names of one kind, in input order. */
  function OfKind(kindOf: string -> Option<Kind>, names: seq<string>, k: Kind): seq<string> {
    Filter(names, HasKind(kindOf, k))
  }

  lemma OfKindAppend(kindOf: string -> Option<Kind>, names: seq<string>, x: string, k: Kind)
    ensures OfKind(kindOf, names + [x], k)
         == OfKind(kindOf, names, k) + (if kindOf(x) == Some(k) then [x] else [])
  {
    FilterAppend(names, [x], HasKind(kindOf, k));
    assert [x][1..] == [];
  }

  /** What the three lists say about every name: each keeps input order,
      no name is in two of them, a link is never a file or a directory,
      every name of one of the three kinds lands in its list and every
      other name is dropped. */
  ghost predicate IsPartition(dir: seq<Node>, contents: seq<string>,
                              files: seq<string>, directories: seq<string>, symlinks: seq<string>)
  {
    && IsSubsequence(files, contents) && IsSubsequence(directories, contents)
    && IsSubsequence(symlinks, contents)
    && (forall n :: n in symlinks <==> n in contents && IsLink(Lookup(dir, n)))
    && (forall n :: n in files <==> n in contents && !IsLink(Lookup(dir, n)) && IsFile(Lookup(dir, n)))
    && (forall n :: n in directories <==>
          n in contents && !IsLink(Lookup(dir, n)) && !IsFile(Lookup(dir, n)) && IsDir(Lookup(dir, n)))
    && (forall n :: !(n in files && n in directories) && !(n in files && n in symlinks)
                    && !(n in directories && n in symlinks))
    && (forall n :: n in contents ==>
          (n in files || n in directories || n in symlinks <==> KindOf(dir, n).Some?))
  }

  /** The loop of `classify_directory_contents`, over any way of inspecting
      a name: one pass that appends each name to the list of its kind. */
  method SplitByKind(contents: seq<string>, kindOf: string -> Option<Kind>)
    returns (files: seq<string>, directories: seq<string>, symlinks: seq<string>)
    ensures files == OfKind(kindOf, contents, FileKind)
    ensures directories == OfKind(kindOf, contents, DirectoryKind)
    ensures symlinks == OfKind(kindOf, contents, SymlinkKind)
  {
    files, directories, symlinks := [], [], [];
    for i := 0 to |contents|
      invariant files == OfKind(kindOf, contents[..i], FileKind)
      invariant directories == OfKind(kindOf, contents[..i], DirectoryKind)
      invariant symlinks == OfKind(kindOf, contents[..i], SymlinkKind)
    {
      var item := contents[i];
      var kind := kindOf(item);
      if kind == Some(SymlinkKind) {
        symlinks := symlinks + [item];
      } else if kind == Some(FileKind) {
        files := files + [item];
      } else if kind == Some(DirectoryKind) {
        directories := directories + [item];
      }
      assert contents[..i + 1] == contents[..i] + [item];
      OfKindAppend(kindOf, contents[..i], item, FileKind);
      OfKindAppend(kindOf, contents[..i], item, DirectoryKind);
      OfKindAppend(kindOf, contents[..i], item, SymlinkKind);
    }
    assert contents[..|contents|] == contents;
  }

  lemma ClassificationIsPartition(dir: seq<Node>, contents: seq<string>)
    ensures IsPartition(dir, contents, OfKind(Classifier(dir), contents, FileKind),
                        OfKind(Classifier(dir), contents, DirectoryKind),
                        OfKind(Classifier(dir), contents, SymlinkKind))
  {
  }

  /** A FIFO, socket or device node is none of the three kinds, so the
      classification drops it. */
  lemma SpecialNotClassified(dir: seq<Node>, name: string)
    requires name != "" && name != "." && '/' !in name
    requires Find(dir, name) == Some(Special)
    ensures KindOf(dir, name) == None
    ensures forall contents :: name !in OfKind(Classifier(dir), contents, FileKind) &&
                               name !in OfKind(Classifier(dir), contents, DirectoryKind) &&
                               name !in OfKind(Classifier(dir), contents, SymlinkKind)
  {
    LookupPlainName(dir, name);
  }

  /** `classify_directory_contents(directory_path, contents)`: inspects each
      name below the directory and splits the names into files, directories
      and symlinks. */
  method ClassifyContents(dir: seq<Node>, contents: seq<string>)
    returns (files: seq<string>, directories: seq<string>, symlinks: seq<string>)
    ensures files == OfKind(Classifier(dir), contents, FileKind)
    ensures directories == OfKind(Classifier(dir), contents, DirectoryKind)
    ensures symlinks == OfKind(Classifier(dir), contents, SymlinkKind)
    ensures IsPartition(dir, contents, files, directories, symlinks)
  {
    files, directories, symlinks := SplitByKind(contents, Classifier(dir));
    ClassificationIsPartition(dir, contents);
  }
}
