/**
 * `execution_env_is_dev`, the choice of paths in `main`, `process_object`,
 * `process_symlink` and `instance_check`.
 *
 * Moves and unlinks are not performed: their outcome is an input, an
 * `OsOutcome` per destination.
 */
module Mover {
  import opened Common
  import opened Fs
  import opened SizeCheck

  /** The four locations of `paths_dict`. */
  datatype Paths = Paths(sourceDir: string, archiveDir: string, graveyardDir: string, trashDir: string)

  /** The suffix the development environment adds to every location. */
  const DevSuffix := "__DEV"

  /** `os.path.join(a, b)` for a relative `b`: `a`, then one separator
      unless `a` is empty or already ends in one, then `b`. */
  function PathJoin(a: string, b: string): (r: string)
    ensures StartsWith(r, a) && EndsWith(r, b)
    ensures a != "" ==> EndsWith(r[..|r| - |b|], "/")
    ensures |r| <= |a| + 1 + |b|
  {
    if a == "" || EndsWith(a, "/") then a + b else a + "/" + b
  }

  /** The production locations, from the source volume, the archive volume and
      the home directory. */
  function ProdPaths(sourceVolume: string, archiveVolume: string, home: string): (r: Paths)
    ensures r.sourceDir == PathJoin(sourceVolume, "zzzNew")
    ensures r.archiveDir == PathJoin(archiveVolume, "Media_Archive")
    ensures r.graveyardDir == PathJoin(archiveVolume, "Graveyard")
    ensures r.trashDir == PathJoin(home, ".Trash")
    ensures EndsWith(r.sourceDir, "zzzNew") && EndsWith(r.archiveDir, "Media_Archive")
    ensures EndsWith(r.graveyardDir, "Graveyard") && EndsWith(r.trashDir, ".Trash")
  {
    Paths(PathJoin(sourceVolume, "zzzNew"), PathJoin(archiveVolume, "Media_Archive"),
          PathJoin(archiveVolume, "Graveyard"), PathJoin(home, ".Trash"))
  }

  /** `execution_env_is_dev(paths_dict)`: every location with "__DEV" appended. */
  function DevPaths(p: Paths): (r: Paths)
    ensures r.sourceDir == p.sourceDir + DevSuffix && r.archiveDir == p.archiveDir + DevSuffix
    ensures r.graveyardDir == p.graveyardDir + DevSuffix && r.trashDir == p.trashDir + DevSuffix
  {
    Paths(p.sourceDir + DevSuffix, p.archiveDir + DevSuffix,
          p.graveyardDir + DevSuffix, p.trashDir + DevSuffix)
  }

  /** The locations `main` works with: the development ones exactly when the
      script's own directory contains "__DEV". */
  function RunPaths(p: Paths, scriptDir: string): (r: Paths)
    ensures Contains(scriptDir, DevSuffix) ==> r == DevPaths(p)
    ensures !Contains(scriptDir, DevSuffix) ==> r == p
  {
    if Contains(scriptDir, DevSuffix) then DevPaths(p) else p
  }

  /** `re.sub(r'_dir|__DEV', '', s)`: scanning from the left, every "_dir" and
      every "__DEV" is deleted ("_dir" is tried first). */
  function StripTags(s: string): string
    decreases |s|
  {
    if s == [] then []
    else if StartsWith(s, "_dir") then StripTags(s[4..])
    else if StartsWith(s, DevSuffix) then StripTags(s[5..])
    else [s[0]] + StripTags(s[1..])
  }

  /** The last piece of `path.split('/')`. */
  function LastPieceOf(pieces: seq<string>): string
    requires |pieces| >= 1
  {
    pieces[|pieces| - 1]
  }

  function LastPiece(path: string): string {
    LastPieceOf(Split(path, '/'))
  }

  /** The name `process_object` reports for a destination: "Trash" for any
      path containing "Trash", otherwise its last piece without the tags. */
  function DestLabel(destPath: string): string {
    if Contains(destPath, "Trash") then "Trash" else StripTags(LastPiece(destPath))
  }

  /** The dictionary `process_object` and `process_symlink` return. */
  datatype MoveReport = MoveReport(result: Status, response: string)

  /** `process_object(obj_full_path, dest_path)`, given what the move did. */
  function ProcessObject(destPath: string, outcome: OsOutcome): (r: MoveReport)
    ensures r.result in {Success, Failed}
    ensures r.result == Success <==> outcome.Done?
    ensures outcome.Done? ==> r.response == "Object successfully moved to " + DestLabel(destPath)
    ensures outcome.OsError? ==> r.response == "Response: " + outcome.message
  {
    match outcome
    case Done => MoveReport(Success, "Object successfully moved to " + DestLabel(destPath))
    case OsError(e) => MoveReport(Failed, "Response: " + e)
  }

  /** `process_symlink(o)`, given what the unlink did. */
  function ProcessSymlink(outcome: OsOutcome): (r: MoveReport)
    ensures r.result in {Success, Failed}
    ensures r.result == Success <==> outcome.Done?
    ensures outcome.Done? ==> r.response == ""
    ensures outcome.OsError? ==> r.response == "Response: " + outcome.message
  {
    match outcome
    case Done => MoveReport(Success, "")
    case OsError(e) => MoveReport(Failed, "Response: " + e)
  }

  // ----- the development locations report the same labels -----

  lemma {:induction false} SplitAppendWithoutSep(s: string, t: string, sep: char)
    requires sep !in t
    ensures |Split(s + t, sep)| == |Split(s, sep)|
    ensures LastPieceOf(Split(s + t, sep)) == LastPieceOf(Split(s, sep)) + t
    decreases |s|
  {
    if s == [] {
      assert s + t == t;
      SplitWithoutSep(t, sep);
    } else {
      var c := s[0];
      assert (s + t)[0] == c && (s + t)[1..] == s[1..] + t;
      SplitAppendWithoutSep(s[1..], t, sep);
      var rest' := Split(s[1..] + t, sep);
      var rest := Split(s[1..], sep);
      if c == sep {
        assert Split(s + t, sep) == [""] + rest';
        assert Split(s, sep) == [""] + rest;
      } else {
        assert Split(s + t, sep) == [[c] + rest'[0]] + rest'[1..];
        assert Split(s, sep) == [[c] + rest[0]] + rest[1..];
        if |rest| == 1 {
          assert [c] + rest'[0] == [c] + rest[0] + t;
        }
      }
    }
  }

  lemma {:induction false} NoCapitalTNoTrash(s: string)
    requires 'T' !in s
    ensures !Contains(s, "Trash")
    decreases |s|
  {
    if s != [] {
      assert s[0] != 'T';
      NoCapitalTNoTrash(s[1..]);
    }
  }

  lemma {:induction false} TrashWithDevSuffix(p: string)
    ensures Contains(p + DevSuffix, "Trash") <==> Contains(p, "Trash")
    decreases |p|
  {
    var t := p + DevSuffix;
    if p == [] {
      assert t == DevSuffix;
      NoCapitalTNoTrash(t);
    } else {
      if |p| >= 5 {
        assert t[..5] == p[..5];
      } else {
        assert t[|p|] == '_';
        assert "Trash"[|p|] != '_';
      }
      assert t[1..] == p[1..] + DevSuffix;
      TrashWithDevSuffix(p[1..]);
    }
  }

  /** A tag starts at the same places of a non-empty string with or without
      "__DEV" appended: no tag can begin inside the string and end in the suffix. */
  lemma TagStartsWithDevSuffix(s: string)
    requires s != []
    ensures StartsWith(s + DevSuffix, "_dir") <==> StartsWith(s, "_dir")
    ensures StartsWith(s + DevSuffix, DevSuffix) <==> StartsWith(s, DevSuffix)
  {
    var t := s + DevSuffix;
    if |s| >= 4 {
      assert t[..4] == s[..4];
    } else {
      assert t[|s|] == '_';
      assert "_dir"[|s|] != '_';
    }
    if |s| >= 5 {
      assert t[..5] == s[..5];
    } else if |s| == 1 {
      assert t[2] == '_';
    } else {
      assert t[|s|] == '_' && t[|s|] != DevSuffix[|s|];
    }
  }

  lemma {:induction false} StripTagsDevSuffix(s: string)
    ensures StripTags(s + DevSuffix) == StripTags(s)
    decreases |s|
  {
    var t := s + DevSuffix;
    if s == [] {
      assert t == DevSuffix;
      assert t[1] != "_dir"[1];
      assert t[5..] == [];
    } else {
      TagStartsWithDevSuffix(s);
      if StartsWith(s, "_dir") {
        assert t[4..] == s[4..] + DevSuffix;
        StripTagsDevSuffix(s[4..]);
      } else if StartsWith(s, DevSuffix) {
        assert t[5..] == s[5..] + DevSuffix;
        StripTagsDevSuffix(s[5..]);
      } else {
        assert t[0] == s[0] && t[1..] == s[1..] + DevSuffix;
        StripTagsDevSuffix(s[1..]);
      }
    }
  }

  /** Appending "__DEV" to a location does not change the name reported for
      it: the tag is stripped again, and a "Trash" location stays one. */
  lemma DevLabel(destPath: string)
    ensures DestLabel(destPath + DevSuffix) == DestLabel(destPath)
  {
    TrashWithDevSuffix(destPath);
    SplitAppendWithoutSep(destPath, DevSuffix, '/');
    StripTagsDevSuffix(LastPiece(destPath));
  }

  /** So the development run reports every destination as the production run does. */
  lemma DevPathsSameLabels(p: Paths)
    ensures DestLabel(DevPaths(p).archiveDir) == DestLabel(p.archiveDir)
    ensures DestLabel(DevPaths(p).graveyardDir) == DestLabel(p.graveyardDir)
    ensures DestLabel(DevPaths(p).trashDir) == DestLabel(p.trashDir)
  {
    DevLabel(p.archiveDir);
    DevLabel(p.graveyardDir);
    DevLabel(p.trashDir);
  }

  // ----- instance_check -----

  /** Where `instance_check` may send an object. */
  datatype Dest = ArchiveDest | GraveyardDest | TrashDest

  function DestPath(p: Paths, d: Dest): string {
    match d
    case ArchiveDest => p.archiveDir
    case GraveyardDest => p.graveyardDir
    case TrashDest => p.trashDir
  }

  /** What `instance_check` did: its verdict and the moves it attempted, in order. */
  datatype Placement = Placement(status: Status, attempts: seq<Dest>)

  /** `instance_check(paths_dict, obj_full_path)` for the object called `name`
      in the source directory, `archive` being the archive directory and
      `move(d)` what moving the object to `d` does. A similar copy sends the
      object to the graveyard, falling back to the trash (the run still counts
      as failed); otherwise it goes to the archive, with no fallback. */
  function InstanceCheck(p: Paths, archive: seq<Node>, name: string, move: Dest -> OsOutcome): (r: Placement)
    ensures r.status in {Success, Failed}
    ensures |r.attempts| >= 1 && r.attempts[0] in {ArchiveDest, GraveyardDest}
    ensures r.attempts[0] == GraveyardDest <==>
              (CheckExistsAtDest(archive, name).Present? && CheckExistsAtDest(archive, name).action == Graveyard)
    ensures r.status == Success <==> move(r.attempts[0]).Done?
    ensures r.attempts == [r.attempts[0]] + (if r.attempts[0] == GraveyardDest && move(GraveyardDest).OsError?
                                            then [TrashDest] else [])
  {
    var existsDict := CheckExistsAtDest(archive, name);
    if existsDict.Present? && existsDict.action == Graveyard then
      var processObjectDict := ProcessObject(DestPath(p, GraveyardDest), move(GraveyardDest));
      if processObjectDict.result == Failed then
        var _ := ProcessObject(DestPath(p, TrashDest), move(TrashDest));
        Placement(Failed, [GraveyardDest, TrashDest])
      else
        Placement(Success, [GraveyardDest])
    else
      var processObjectDict := ProcessObject(DestPath(p, ArchiveDest), move(ArchiveDest));
      if processObjectDict.result != Success then Placement(Failed, [ArchiveDest])
      else Placement(Success, [ArchiveDest])
  }

  /** Because the archive copy is compared with itself, the size comparison never
      decides: an object goes to the graveyard exactly when its name exists
      in the archive, whatever the sizes, and to the archive otherwise. The
      trash is tried only after a failed graveyard move, and never rescues
      the verdict. */
  lemma PlacementByName(p: Paths, archive: seq<Node>, name: string, move: Dest -> OsOutcome)
    requires name != "" && name != "." && '/' !in name
    ensures InstanceCheck(p, archive, name, move).attempts[0] == GraveyardDest <==>
              name in Names(archive) && Exists(Find(archive, name))
    ensures TrashDest in InstanceCheck(p, archive, name, move).attempts ==>
              InstanceCheck(p, archive, name, move).status == Failed
    ensures InstanceCheck(p, archive, name, move).status == Success <==>
              if name in Names(archive) && Exists(Find(archive, name))
              then move(GraveyardDest).Done? else move(ArchiveDest).Done?
  {
    ExistsAtDestByName(archive, name);
    var r := InstanceCheck(p, archive, name, move);
    if TrashDest in r.attempts {
      assert r.attempts[0] == GraveyardDest;
    }
  }
}
