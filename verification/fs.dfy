/**
 * The filesystem as the tool sees it: a snapshot of directory listings.
 * A directory is the sequence of its entries in `os.listdir` order; a symbolic
 * link carries the entry it resolves to (None when it dangles), so that
 * Python's link-following queries (`is_file`, `is_dir`, `exists`, `stat`) and
 * the non-following one (`islink`) can both be answered.
 */
module Fs {
  import opened Common

  /** `Special` is anything else a directory can hold: a FIFO, a socket or a
      device node. It exists, but is neither a regular file nor a directory. */
  datatype Entry = File(size: nat) | Dir(children: seq<Node>) | Symlink(target: Option<Entry>) | Special
  datatype Node = Node(name: string, entry: Entry)

  /** The names `os.listdir` reports for a directory, in order. */
  function Names(cs: seq<Node>): (r: seq<string>)
    ensures |r| == |cs|
    ensures forall i :: 0 <= i < |cs| ==> r[i] == cs[i].name
  {
    if cs == [] then [] else [cs[0].name] + Names(cs[1..])
  }

  /** What an entry is once every symbolic link on the way is followed;
      None for a dangling link. */
  function Resolve(e: Entry): (r: Option<Entry>)
    ensures r.Some? ==> !r.value.Symlink?
    ensures !e.Symlink? ==> r == Some(e)
  {
    match e
    case Symlink(None) => None
    case Symlink(Some(t)) => Resolve(t)
    case _ => Some(e)
  }

  /** The entry called `name` in a listing (the first one, should names repeat). */
  function Find(cs: seq<Node>, name: string): (r: Option<Entry>)
    ensures r.Some? <==> name in Names(cs)
    ensures r.Some? ==> Node(name, r.value) in cs
  {
    if cs == [] then None
    else if cs[0].name == name then Some(cs[0].entry)
    else Find(cs[1..], name)
  }

  /** The components of a relative path as `os.path.join` and `pathlib`
      read them: empty and "." components are dropped. */
  function Components(path: string): seq<string> {
    Filter(Split(path, '/'), KeptComponent())
  }

  function KeptComponent(): string -> bool {
    (c: string) => c != "" && c != "."
  }

  /** `PurePosixPath(path).name`: the last component, or "" when there is none. */
  function BaseName(path: string): string {
    var cs := Components(path);
    if cs == [] then "" else cs[|cs| - 1]
  }

  /** Walks the components below a directory; every component but the last
      is followed through symbolic links, the last one is not (like `lstat`). */
  function Walk(cs: seq<Node>, comps: seq<string>): Option<Entry>
    decreases |comps|
  {
    if comps == [] then Some(Dir(cs))
    else
      match Find(cs, comps[0])
      case None => None
      case Some(e) =>
        if |comps| == 1 then Some(e)
        else
          match Resolve(e)
          case Some(Dir(c)) => Walk(c, comps[1..])
          case _ => None
  }

  /** The entry at `os.path.join(dir, path)` as `pathlib` finds it (a
      trailing "/" or "/." is dropped; see `PathExists` for the operating
      system's reading). An absolute path leaves the modelled directory and
      is reported as absent. */
  function Lookup(cs: seq<Node>, path: string): Option<Entry> {
    if StartsWith(path, "/") then None else Walk(cs, Components(path))
  }

  /** `os.path.islink`. */
  predicate IsLink(o: Option<Entry>) {
    o.Some? && o.value.Symlink?
  }

  function Target(o: Option<Entry>): Option<Entry> {
    if o.Some? then Resolve(o.value) else None
  }

  /** `os.path.isfile` / `Path.is_file`: follows links. */
  predicate IsFile(o: Option<Entry>) {
    Target(o).Some? && Target(o).value.File?
  }

  /** `os.path.isdir` / `Path.is_dir`: follows links. */
  predicate IsDir(o: Option<Entry>) {
    Target(o).Some? && Target(o).value.Dir?
  }

  /** `os.path.exists`: follows links, so a dangling link does not exist. */
  predicate Exists(o: Option<Entry>) {
    Target(o).Some?
  }

  /** A path ending in "/" or "/." can only name a directory: `pathlib` drops
      that ending, but the operating system refuses such a path for anything
      else (ENOTDIR). */
  predicate NamesDirectory(path: string) {
    EndsWith(path, "/") || EndsWith(path, "/.")
  }

  /** `os.path.exists(os.path.join(dir, path))` on the joined string: the
      entry exists, and a path ending in "/" or "/." resolves to a directory. */
  predicate PathExists(cs: seq<Node>, path: string) {
    Exists(Lookup(cs, path)) && (NamesDirectory(path) ==> IsDir(Lookup(cs, path)))
  }

  /** A path to a regular file exists for the operating system exactly when
      it does not end in "/" or "/.". */
  lemma PathToFileExists(cs: seq<Node>, path: string)
    requires IsFile(Lookup(cs, path))
    ensures PathExists(cs, path) <==> !NamesDirectory(path)
  {
  }

  /** A plain listing name is looked up directly among the entries. */
  lemma LookupPlainName(cs: seq<Node>, name: string)
    requires name != "" && name != "." && '/' !in name
    ensures Lookup(cs, name) == Find(cs, name)
    ensures BaseName(name) == name
  {
    SplitWithoutSep(name, '/');
    assert Components(name) == [name];
  }

  /** `pathlib` reads a plain name with a trailing "/" as the name itself,
      while the operating system only accepts it for a directory. */
  lemma TrailingSlashLookup(cs: seq<Node>, name: string)
    requires name != "" && name != "." && '/' !in name
    ensures Lookup(cs, name + "/") == Find(cs, name)
    ensures BaseName(name + "/") == name
    ensures NamesDirectory(name + "/")
  {
    var path := name + "/";
    SplitTrailingSep(name, '/');
    var pieces := [name, ""];
    assert pieces[1..] == [""] && [""][1..] == [];
    assert Filter(pieces[1..], KeptComponent()) == [];
    assert Components(path) == [name];
    assert path[|path| - 1..] == "/";
  }

  function Sum(s: seq<nat>): nat {
    if s == [] then 0 else s[0] + Sum(s[1..])
  }

  /** The sizes `Path(root).rglob('*')` visits and keeps with `is_file()`, in
      visiting order: every entry whose resolved kind is a regular file
      (a link to a file counts with its target's size), descending into real
      subdirectories but not into links to directories. */
  function FileSizes(cs: seq<Node>): seq<nat> {
    if cs == [] then []
    else
      var own := match Resolve(cs[0].entry)
                 case Some(File(s)) => [s]
                 case _ => [];
      var below := match cs[0].entry
                   case Dir(c) => FileSizes(c)
                   case _ => [];
      own + below + FileSizes(cs[1..])
  }

  /** `get_directory_size`: the sum over that traversal. */
  function DirSize(cs: seq<Node>): nat {
    Sum(FileSizes(cs))
  }

  /** The bytes one entry adds to its directory's size, stated structurally:
      a file its size, a subdirectory its whole size, a link to a file the
      target's size, and any other link or special file nothing. */
  ghost function EntryBytes(e: Entry): nat {
    match e
    case File(s) => s
    case Dir(c) => DirSize(c)
    case Symlink(_) => (match Resolve(e) case Some(File(s)) => s case _ => 0)
    case Special => 0
  }

  lemma {:induction false} SumAppend(a: seq<nat>, b: seq<nat>)
    ensures Sum(a + b) == Sum(a) + Sum(b)
  {
    if a != [] {
      assert (a + b)[1..] == a[1..] + b;
      SumAppend(a[1..], b);
    } else {
      assert a + b == b;
    }
  }

  lemma {:induction false} FileSizesAppend(a: seq<Node>, b: seq<Node>)
    ensures FileSizes(a + b) == FileSizes(a) + FileSizes(b)
  {
    if a != [] {
      assert (a + b)[0] == a[0];
      assert (a + b)[1..] == a[1..] + b;
      FileSizesAppend(a[1..], b);
    } else {
      assert a + b == b;
    }
  }

  /** Directory size is additive over a listing. */
  lemma DirSizeAppend(a: seq<Node>, b: seq<Node>)
    ensures DirSize(a + b) == DirSize(a) + DirSize(b)
  {
    FileSizesAppend(a, b);
    SumAppend(FileSizes(a), FileSizes(b));
  }

  /** The traversal sum equals the recursive per-entry sum: an empty
      directory weighs 0 and each entry adds its EntryBytes. */
  lemma DirSizeRecursive(cs: seq<Node>)
    ensures cs == [] ==> DirSize(cs) == 0
    ensures cs != [] ==> DirSize(cs) == EntryBytes(cs[0].entry) + DirSize(cs[1..])
  {
    if cs != [] {
      var e := cs[0].entry;
      var own := match Resolve(e) case Some(File(s)) => [s] case _ => [];
      var below := match e case Dir(c) => FileSizes(c) case _ => [];
      assert FileSizes(cs) == own + below + FileSizes(cs[1..]);
      SumAppend(own + below, FileSizes(cs[1..]));
      SumAppend(own, below);
    }
  }

  /** Wraps a listing in one directory per name, outermost first. */
  function Nest(cs: seq<Node>, dirs: seq<string>): seq<Node>
    decreases |dirs|
  {
    if dirs == [] then cs else [Node(dirs[0], Dir(Nest(cs, dirs[1..])))]
  }

  /** The size does not depend on how deeply the files are nested. */
  lemma {:induction false} DirSizeNesting(cs: seq<Node>, dirs: seq<string>)
    ensures DirSize(Nest(cs, dirs)) == DirSize(cs)
    decreases |dirs|
  {
    if dirs != [] {
      var inner := Nest(cs, dirs[1..]);
      DirSizeNesting(cs, dirs[1..]);
      DirSizeRecursive([Node(dirs[0], Dir(inner))]);
      assert [Node(dirs[0], Dir(inner))][1..] == [];
    }
  }

  /** A link to a directory adds nothing, however large the directory;
      a link to a file adds the file's size. */
  lemma LinkContribution(n: string, t: Entry)
    ensures t.Dir? ==> DirSize([Node(n, Symlink(Some(t)))]) == 0
    ensures t.File? ==> DirSize([Node(n, Symlink(Some(t)))]) == t.size
  {
    DirSizeRecursive([Node(n, Symlink(Some(t)))]);
    assert [Node(n, Symlink(Some(t)))][1..] == [];
  }
}
