/**
 * `has_rar`, `list_files_from_rar`, `scrub_directory`, and the alternative
 * listing parser `list_files_from_rar2`, which nothing calls.
 *
 * The archive tool's output is an input: for `list_files_from_rar` the
 * whitespace-separated tokens of `7z l <archive>`, for `list_files_from_rar2`
 * the text printed by the `7z l | grep | awk` pipeline. The outcome of
 * `os.remove` is an input too.
 */
module RarScrub {
  import opened Common
  import opened Fs

  const RarExtension := ".rar"

  /** The start of the message of a "no such file" error (ENOENT). */
  const NoSuchFilePrefix := "[Errno 2] No such file or directory"

  /** `any(item.endswith('.rar') for item in os.listdir(path))`. */
  predicate HasRarName(names: seq<string>) {
    exists n :: n in names && EndsWith(n, RarExtension)
  }

  /** Index of the last occurrence of `c`, or -1 (Python's `rfind`). */
  function RFind(s: string, c: char): (i: int)
    ensures -1 <= i < |s|
    ensures i >= 0 ==> s[i] == c && forall j :: i < j < |s| ==> s[j] != c
    ensures i == -1 ==> c !in s
    decreases |s|
  {
    if |s| == 0 then -1
    else if s[|s| - 1] == c then |s| - 1
    else RFind(s[..|s| - 1], c)
  }

  /** `PurePosixPath(name).suffix` of a final component: from the last dot on,
      unless that dot is the first or the last character. */
  function Suffix(name: string): string {
    var i := RFind(name, '.');
    if 0 < i < |name| - 1 then name[i..] else ""
  }

  /** A name has the suffix ".rar" exactly when it ends in ".rar" and has at
      least one character before it: a file called just ".rar" ends in
      ".rar" but has no suffix. */
  lemma RarSuffix(name: string)
    ensures Suffix(name) == RarExtension <==> EndsWith(name, RarExtension) && |name| > 4
  {
    var i := RFind(name, '.');
    if EndsWith(name, RarExtension) {
      assert name[|name| - 4] == '.';
      assert name[|name| - 3..] == "rar";
      assert forall j :: |name| - 4 < j < |name| ==> name[j] != '.' by {
        forall j | |name| - 4 < j < |name| ensures name[j] != '.' {
          assert name[j] == name[|name| - 3..][j - (|name| - 3)];
        }
      }
      assert i == |name| - 4;
    }
    if Suffix(name) == RarExtension {
      assert name[i..] == RarExtension;
      assert |name| - i == 4;
    }
  }

  /** A listing token the scrubber keeps: `Path(join(dir, token)).is_file()`
      and its suffix is not ".rar". */
  predicate IsScrubTarget(dir: seq<Node>, token: string) {
    IsFile(Lookup(dir, token)) && Suffix(BaseName(token)) != RarExtension
  }

  function TargetTest(dir: seq<Node>): string -> bool {
    (t: string) => IsScrubTarget(dir, t)
  }

  /** The tokens the loop appends to `target_list`: in listing order, with
      repeated tokens kept. */
  function Targets(dir: seq<Node>, tokens: seq<string>): seq<string> {
    Filter(tokens, TargetTest(dir))
  }

  /** The four shapes `list_files_from_rar` returns, tagged: None, a name
      (str), {'file': name, 'result': 'missing'} (dict), or a list. */
  datatype RarListing = NoRar | Single(file: string) | MissingFile(file: string) | Several(files: seq<string>)

  /** How the candidate list is reported: one candidate by name, or as
      missing when `os.path.exists` fails for it; any other count as the
      list. */
  function Shape(dir: seq<Node>, candidates: seq<string>): (r: RarListing)
    ensures !r.NoRar?
    ensures r.Single? || r.MissingFile? <==> |candidates| == 1
    ensures r.Single? ==> r.file == candidates[0] && PathExists(dir, r.file)
    ensures r.MissingFile? ==> r.file == candidates[0] && !PathExists(dir, r.file)
    ensures r.Several? ==> r.files == candidates
  {
    if |candidates| == 1 then
      var result := candidates[0];
      if PathExists(dir, result) then Single(result) else MissingFile(result)
    else
      Several(candidates)
  }

  /** What `list_files_from_rar` returns for a directory and the tool's tokens. */
  function RarListingOf(dir: seq<Node>, tokens: seq<string>): RarListing {
    if !HasRarName(Names(dir)) then NoRar else Shape(dir, Targets(dir, tokens))
  }

  /** The loop of `list_files_from_rar` over the tool's tokens, for any test
      of a token. */
  method CollectTargets(tokens: seq<string>, isTarget: string -> bool) returns (targetList: seq<string>)
    ensures targetList == Filter(tokens, isTarget)
  {
    targetList := [];
    for i := 0 to |tokens|
      invariant targetList == Filter(tokens[..i], isTarget)
    {
      var item := tokens[i];
      if isTarget(item) {
        targetList := targetList + [item];
      }
      assert tokens[..i + 1] == tokens[..i] + [item];
      FilterAppend(tokens[..i], [item], isTarget);
    }
    assert tokens[..|tokens|] == tokens;
  }

  /** `list_files_from_rar(archive_path)`. */
  method ListFilesFromRar(dir: seq<Node>, tokens: seq<string>) returns (r: RarListing)
    ensures r == RarListingOf(dir, tokens)
  {
    if !HasRarName(Names(dir)) {
      return NoRar;
    }
    var targetList := CollectTargets(tokens, TargetTest(dir));
    r := Shape(dir, targetList);
  }

  /** What the listing says: None exactly when no name ends in ".rar";
      otherwise, for exactly one target, its name, or 'missing' when the
      token ends in "/" or "/." (it names a regular file, which the
      operating system does not accept with that ending); for any other
      count the whole target list (possibly empty). */
  lemma RarListingCases(dir: seq<Node>, tokens: seq<string>)
    ensures RarListingOf(dir, tokens).NoRar? <==> !HasRarName(Names(dir))
    ensures HasRarName(Names(dir)) && |Targets(dir, tokens)| == 1 ==>
              RarListingOf(dir, tokens) ==
                (if NamesDirectory(Targets(dir, tokens)[0]) then MissingFile(Targets(dir, tokens)[0])
                 else Single(Targets(dir, tokens)[0]))
    ensures HasRarName(Names(dir)) && |Targets(dir, tokens)| != 1 ==>
              RarListingOf(dir, tokens) == Several(Targets(dir, tokens))
  {
    var ts := Targets(dir, tokens);
    if HasRarName(Names(dir)) && |ts| == 1 {
      assert ts[0] in ts;
      PathToFileExists(dir, ts[0]);
    }
  }

  /** The case the 'missing' shape covers: the tool lists a regular file of
      the directory with a trailing "/". `pathlib` accepts the token as that
      file, `os.path.exists` rejects it, so nothing is removed. */
  lemma SlashTargetIsMissing(dir: seq<Node>, name: string, removal: OsOutcome)
    requires name != "" && name != "." && '/' !in name
    requires IsFile(Find(dir, name)) && Suffix(name) != RarExtension
    requires HasRarName(Names(dir))
    ensures RarListingOf(dir, [name + "/"]) == MissingFile(name + "/")
    ensures ScrubDirectory(dir, [name + "/"], removal).removed == None
    ensures ScrubDirectory(dir, [name + "/"], removal).result == Success
  {
    var token := name + "/";
    TrailingSlashLookup(dir, name);
    assert IsScrubTarget(dir, token);
    assert [token][1..] == [];
    assert Targets(dir, [token]) == [token];
    RarListingCases(dir, [token]);
  }

  /** The targets are exactly the listed tokens that name a regular file and
      do not have the ".rar" suffix, in listing order, each repeated as
      often as the listing repeats it. */
  lemma TargetsAreListedFiles(dir: seq<Node>, tokens: seq<string>)
    ensures forall t :: t in Targets(dir, tokens) <==>
              t in tokens && IsFile(Lookup(dir, t)) && Suffix(BaseName(t)) != RarExtension
    ensures IsSubsequence(Targets(dir, tokens), tokens)
    ensures forall t :: IsScrubTarget(dir, t) ==>
              multiset(Targets(dir, tokens))[t] == multiset(tokens)[t]
  {
    forall t | IsScrubTarget(dir, t)
      ensures multiset(Targets(dir, tokens))[t] == multiset(tokens)[t]
    {
      FilterKeepsCopies(tokens, TargetTest(dir), t);
    }
  }

  /** The 'scrub_file' field: a name, or the whole list in the warning case. */
  datatype ScrubFile = OneFile(name: string) | FileList(names: seq<string>)

  /** The dictionary `scrub_directory` returns, plus the member `os.remove`
      was called on, if any. */
  datatype ScrubReport = ScrubReport(scrubFile: ScrubFile, result: Status, response: string,
                                     removed: Option<string>)

  predicate IsNoSuchFile(removal: OsOutcome) {
    removal.OsError? && StartsWith(removal.message, NoSuchFilePrefix)
  }

  /** `scrub_directory(obj_full_path)`: dispatch on the listing's shape and,
      for a single target, delete it with outcome `removal`. */
  function ScrubDirectory(dir: seq<Node>, tokens: seq<string>, removal: OsOutcome): (r: ScrubReport)
    ensures HasRarName(Names(dir)) ==>
              (r.result == Warning <==> |Targets(dir, tokens)| != 1)
    ensures r.result == Warning ==> r.scrubFile == FileList(Targets(dir, tokens)) && r.removed == None
    ensures r.removed.Some? <==>
              HasRarName(Names(dir)) && |Targets(dir, tokens)| == 1 &&
              !NamesDirectory(Targets(dir, tokens)[0])
    ensures r.removed.Some? ==>
              r.removed.value == Targets(dir, tokens)[0] && r.scrubFile == OneFile(r.removed.value)
    ensures r.removed.Some? ==>
              (r.result == Success <==> removal.Done?) &&
              (r.result == Missing <==> IsNoSuchFile(removal)) &&
              (r.result == Failed <==> removal.OsError? && !IsNoSuchFile(removal))
    ensures HasRarName(Names(dir)) && |Targets(dir, tokens)| == 1 &&
            NamesDirectory(Targets(dir, tokens)[0]) ==>
              r.result == Success && r.scrubFile == OneFile(Targets(dir, tokens)[0])
    ensures !HasRarName(Names(dir)) ==> r.result == Success && r.scrubFile == OneFile("")
    ensures r.result in {Failed, Missing} ==> r.removed.Some?
  {
    RarListingCases(dir, tokens);
    match RarListingOf(dir, tokens)
    case Several(targetFile) =>
      ScrubReport(FileList(targetFile), Warning, "Found more than one video file. Skipping ...", None)
    case MissingFile(file) =>
      ScrubReport(OneFile(file), Success, "Unpacked file missing. Continue ...", None)
    case NoRar =>
      ScrubReport(OneFile(""), Success, "No rar file found. Continue ...", None)
    case Single(targetFile) =>
      match removal
      case Done =>
        ScrubReport(OneFile(targetFile), Success, "Scrubbed " + targetFile, Some(targetFile))
      case OsError(message) =>
        if StartsWith(message, NoSuchFilePrefix) then
          ScrubReport(OneFile(targetFile), Missing, "File not found", Some(targetFile))
        else
          ScrubReport(OneFile(targetFile), Failed, "Response: " + message, Some(targetFile))
  }

  /** The dictionary `has_rar` returns ('result' is '' when no archive is
      present), plus the member `os.remove` was called on, if any. */
  datatype RarCheck = RarCheck(hasRar: bool, result: Option<Status>, response: string,
                               file: ScrubFile, cont: bool, removed: Option<string>)

  /** `has_rar(obj_full_path)`: scrub only when a name ends in ".rar"; go on
      unless the scrub warned or failed. */
  function HasRar(dir: seq<Node>, tokens: seq<string>, removal: OsOutcome): (r: RarCheck)
    ensures r.hasRar <==> HasRarName(Names(dir))
    ensures r.result.Some? <==> r.hasRar
    ensures r.cont <==> !r.hasRar || r.result.value !in {Warning, Failed}
    ensures r.cont <==>
              !HasRarName(Names(dir)) ||
              (|Targets(dir, tokens)| == 1 &&
               (NamesDirectory(Targets(dir, tokens)[0]) || !(removal.OsError? && !IsNoSuchFile(removal))))
    ensures r.removed.Some? <==>
              HasRarName(Names(dir)) && |Targets(dir, tokens)| == 1 &&
              !NamesDirectory(Targets(dir, tokens)[0])
    ensures r.removed.Some? ==> r.removed.value == Targets(dir, tokens)[0]
    ensures r.hasRar ==>
              var scrubber := ScrubDirectory(dir, tokens, removal);
              r.result == Some(scrubber.result) && r.file == scrubber.scrubFile &&
              r.response == scrubber.response && r.removed == scrubber.removed
    ensures !r.hasRar ==> r.removed == None && r.file == OneFile("") && r.response == ""
  {
    if HasRarName(Names(dir)) then
      var scrubber := ScrubDirectory(dir, tokens, removal);
      RarCheck(true, Some(scrubber.result), scrubber.response, scrubber.scrubFile,
               scrubber.result !in {Warning, Failed}, scrubber.removed)
    else
      RarCheck(false, None, "", OneFile(""), true, None)
  }

  /** The file the scrubber deletes below a directory: the single target of
      its listing, unless that target can only name a directory. */
  function ScrubTargetOf(dir: seq<Node>, tokens: seq<string>): (r: Option<string>)
    ensures r.Some? <==>
              HasRarName(Names(dir)) && |Targets(dir, tokens)| == 1 &&
              !NamesDirectory(Targets(dir, tokens)[0])
    ensures r.Some? ==>
              r.value in tokens && IsFile(Lookup(dir, r.value)) &&
              Suffix(BaseName(r.value)) != RarExtension && !NamesDirectory(r.value)
  {
    var targets := Targets(dir, tokens);
    TargetsAreListedFiles(dir, tokens);
    if HasRarName(Names(dir)) && |targets| == 1 && !NamesDirectory(targets[0]) then
      assert targets[0] in targets;
      Some(targets[0])
    else None
  }

  /** Inside `has_rar` the scrubber is only run when a ".rar" name exists, and
      its listing then never takes the "no rar file found" branch. */
  lemma ScrubNeverFindsNoRar(dir: seq<Node>, tokens: seq<string>)
    requires HasRarName(Names(dir))
    ensures !RarListingOf(dir, tokens).NoRar?
    ensures ScrubDirectory(dir, tokens, Done).response != "No rar file found. Continue ..."
  {
    RarListingCases(dir, tokens);
    var r := RarListingOf(dir, tokens);
    if r.Several? {
      assert ScrubDirectory(dir, tokens, Done).response == "Found more than one video file. Skipping ...";
    } else if r.MissingFile? {
      assert ScrubDirectory(dir, tokens, Done).response == "Unpacked file missing. Continue ...";
    } else {
      assert r.Single?;
      assert ScrubDirectory(dir, tokens, Done).response == "Scrubbed " + r.file;
      assert ("Scrubbed " + r.file)[0] == 'S';
    }
  }

  // ----- list_files_from_rar2: the cleaning pipeline -----

  function NonEmpty(): string -> bool {
    (l: string) => l != ""
  }

  /** `list(dict.fromkeys(s))`: the first copy of every element, in the
      order of the first copies. */
  function Dedupe(s: seq<string>): (r: seq<string>)
    ensures forall x :: x in r <==> x in s
    ensures Distinct(r)
    ensures IsSubsequence(r, s)
    ensures forall i, j :: 0 <= i < j < |r| ==> IndexOf(s, r[i]) < IndexOf(s, r[j])
    ensures |r| <= |s|
    decreases |s|
  {
    if s == [] then []
    else
      var init := s[..|s| - 1];
      var d := Dedupe(init);
      var last := s[|s| - 1];
      assert s == init + [last];
      SubsequenceAppend(d, init, last);
      forall x | x in init
        ensures IndexOf(s, x) == IndexOf(init, x)
      {
        IndexOfAppend(init, [last], x);
      }
      if last in d then d
      else
        assert IndexOf(s, last) == |s| - 1 by {
          forall k | 0 <= k < |s| - 1
            ensures s[k] != last
          {
            assert s[k] == init[k];
          }
        }
        d + [last]
  }

  /** Every character of `s[lo..hi]` is a space. */
  predicate SpacesBetween(s: string, lo: nat, hi: nat)
    requires lo <= hi <= |s|
  {
    forall k :: lo <= k < hi ==> s[k] == ' '
  }

  /** Drops leading spaces. */
  function LStrip(s: string): (r: string)
    ensures r == [] || r[0] != ' '
    ensures |r| <= |s| && r == s[|s| - |r|..]
    decreases |s|
  {
    if s != [] && s[0] == ' ' then LStrip(s[1..]) else s
  }

  /** Drops trailing spaces. */
  function RStrip(s: string): (r: string)
    ensures r == [] || r[|r| - 1] != ' '
    ensures |r| <= |s| && r == s[..|r|]
    decreases |s|
  {
    if s != [] && s[|s| - 1] == ' ' then RStrip(s[..|s| - 1]) else s
  }

  /** Only spaces are dropped at the front. */
  lemma {:induction false} LStripDropsSpaces(s: string)
    ensures SpacesBetween(s, 0, |s| - |LStrip(s)|)
    decreases |s|
  {
    if s != [] && s[0] == ' ' {
      LStripDropsSpaces(s[1..]);
      forall k | 1 <= k < |s| - |LStrip(s)|
        ensures s[k] == ' '
      {
        assert s[k] == s[1..][k - 1];
      }
    }
  }

  /** Only spaces are dropped at the back. */
  lemma {:induction false} RStripDropsSpaces(s: string)
    ensures SpacesBetween(s, |RStrip(s)|, |s|)
    decreases |s|
  {
    if s != [] && s[|s| - 1] == ' ' {
      var init := s[..|s| - 1];
      RStripDropsSpaces(init);
      forall k | |RStrip(s)| <= k < |s| - 1
        ensures s[k] == ' '
      {
        assert s[k] == init[k];
      }
    }
  }

  /** `s.strip(' ')`. */
  function StripSpaces(s: string): string {
    RStrip(LStrip(s))
  }

  predicate HasEdgeSpace(s: string) {
    s != [] && (s[0] == ' ' || s[|s| - 1] == ' ')
  }

  /** Stripping removes every edge space, and a line without edge spaces
      is left unchanged. */
  lemma StripSpacesFacts(s: string)
    ensures !HasEdgeSpace(StripSpaces(s))
    ensures !HasEdgeSpace(s) ==> StripSpaces(s) == s
  {
    var l := LStrip(s);
    var r := RStrip(l);
    if r != [] {
      assert r[0] == l[0];
    }
  }

  /** Stripping removes spaces only: the result is the slice `s[i..j]` and
      every character outside it is a space. */
  lemma StripSpacesSlice(s: string)
    ensures var i := |s| - |LStrip(s)|; var j := i + |StripSpaces(s)|;
            j <= |s| && StripSpaces(s) == s[i..j] &&
            SpacesBetween(s, 0, i) && SpacesBetween(s, j, |s|)
  {
    StripIsSlice(s);
    LStripDropsSpaces(s);
    StripDropsTrailingSpaces(s);
  }

  lemma StripIsSlice(s: string)
    ensures var i := |s| - |LStrip(s)|;
            i + |StripSpaces(s)| <= |s| && StripSpaces(s) == s[i..i + |StripSpaces(s)|]
  {
    var l := LStrip(s);
    var r := RStrip(l);
    var i := |s| - |l|;
    assert l == s[i..] && r == l[..|r|];
    SliceOfSuffix(s, i, |r|);
  }

  lemma StripDropsTrailingSpaces(s: string)
    ensures var i := |s| - |LStrip(s)|;
            i + |StripSpaces(s)| <= |s| && SpacesBetween(s, i + |StripSpaces(s)|, |s|)
  {
    var l := LStrip(s);
    var r := RStrip(l);
    var i := |s| - |l|;
    RStripDropsSpaces(l);
    forall k | i + |r| <= k < |s|
      ensures s[k] == ' '
    {
      assert s[k] == l[k - i];
    }
  }

  lemma SliceOfSuffix(s: string, i: nat, n: nat)
    requires i + n <= |s|
    ensures s[i..][..n] == s[i..i + n]
    ensures s[i..][n..] == s[i + n..]
  {
  }

  function StripAll(s: seq<string>): (r: seq<string>)
    ensures |r| == |s| && forall i :: 0 <= i < |s| ==> r[i] == StripSpaces(s[i])
  {
    seq(|s|, i requires 0 <= i < |s| => StripSpaces(s[i]))
  }

  /** `s.remove(x)`: drops the first occurrence. */
  function RemoveFirst(s: seq<string>, x: string): (r: seq<string>)
    requires x in s
    ensures multiset(r) == multiset(s) - multiset{x}
    ensures |r| == |s| - 1
    decreases |s|
  {
    assert s == [s[0]] + s[1..];
    if s[0] == x then s[1..]
    else
      assert s == [s[0]] + s[1..];
      [s[0]] + RemoveFirst(s[1..], x)
  }

  /** What `s.remove(x)` leaves: the list without its first copy of `x`, the
      rest in order. */
  lemma {:induction false} RemoveFirstDropsFirstCopy(s: seq<string>, x: string)
    requires x in s
    ensures RemoveFirst(s, x) == s[..IndexOf(s, x)] + s[IndexOf(s, x) + 1..]
    decreases |s|
  {
    if s[0] != x {
      var tail := s[1..];
      assert s == [s[0]] + tail;
      RemoveFirstDropsFirstCopy(tail, x);
      var k := IndexOf(tail, x);
      assert IndexOf(s, x) == k + 1;
      assert RemoveFirst(s, x) == [s[0]] + RemoveFirst(tail, x);
      SkipAfterHead(s, k);
    }
  }

  lemma SkipAfterHead(s: seq<string>, k: nat)
    requires k + 1 < |s|
    ensures s[..k + 1] + s[k + 2..] == [s[0]] + (s[1..][..k] + s[1..][k + 1..])
  {
    assert s[..k + 1] == [s[0]] + s[1..][..k];
    assert s[k + 2..] == s[1..][k + 1..];
  }

  /** The cleaning of `list_files_from_rar2`: drop empty lines, keep the first
      copy of each, strip spaces, drop the first "files". */
  function CleanListing(lines: seq<string>): seq<string> {
    var stripped := StripAll(Dedupe(Filter(lines, NonEmpty())));
    if "files" in stripped then RemoveFirst(stripped, "files") else stripped
  }

  /** `list_files_from_rar2(archive_path)`, `output` being the pipeline's
      text. The candidates are not checked to be files, so here a single
      candidate that does not exist is reported as missing. */
  method ListFilesFromRar2(dir: seq<Node>, output: string) returns (r: RarListing)
    ensures r.NoRar? <==> !HasRarName(Names(dir))
    ensures !r.NoRar? ==> r == Shape(dir, CleanListing(Split(output, '\n')))
  {
    if !HasRarName(Names(dir)) {
      return NoRar;
    }
    var outputList := Split(output, '\n');
    outputList := Filter(outputList, NonEmpty());
    outputList := Dedupe(outputList);
    outputList := StripAll(outputList);
    if "files" in outputList {
      outputList := RemoveFirst(outputList, "files");
    }
    r := Shape(dir, outputList);
  }

  /** Every cleaned name is a stripped non-empty line, and cleaning never
      lengthens the list. */
  lemma CleanListingOrigins(lines: seq<string>)
    ensures |CleanListing(lines)| <= |lines|
    ensures forall y :: y in CleanListing(lines) ==>
              exists l :: l in lines && l != "" && y == StripSpaces(l)
  {
    var kept := Filter(lines, NonEmpty());
    var d := Dedupe(kept);
    var stripped := StripAll(d);
    var r := CleanListing(lines);
    if "files" in stripped {
      RemoveFirstFacts(stripped, "files");
      SubsequenceMembers(r, stripped);
    }
    forall y | y in r
      ensures exists l :: l in lines && l != "" && y == StripSpaces(l)
    {
      assert y in stripped;
      var i :| 0 <= i < |stripped| && stripped[i] == y;
      assert d[i] in kept;
    }
  }

  /** When no line has a space at either end, stripping changes nothing. */
  lemma StripAllNoEdgeSpaces(d: seq<string>)
    requires forall l :: l in d ==> !HasEdgeSpace(l)
    ensures StripAll(d) == d
  {
    forall i | 0 <= i < |d|
      ensures StripAll(d)[i] == d[i]
    {
      assert d[i] in d;
      StripSpacesFacts(d[i]);
    }
  }

  /** When no line has a space at either end, the cleaned list keeps line
      order and has no repeats, no empty name and no "files". */
  lemma CleanListingWithoutEdgeSpaces(lines: seq<string>)
    requires forall l :: l in lines ==> !HasEdgeSpace(l)
    ensures IsSubsequence(CleanListing(lines), lines)
    ensures Distinct(CleanListing(lines))
    ensures "" !in CleanListing(lines)
    ensures "files" !in CleanListing(lines)
  {
    var kept := Filter(lines, NonEmpty());
    var d := Dedupe(kept);
    assert forall l :: l in d ==> l in lines;
    StripAllNoEdgeSpaces(d);
    SubsequenceTransitive(d, kept, lines);
    var r := CleanListing(lines);
    if "files" in d {
      assert r == RemoveFirst(d, "files");
      RemoveFirstFacts(d, "files");
      SubsequenceTransitive(r, d, lines);
      SubsequenceKeepsDistinct(r, d);
      SubsequenceMembers(r, d);
    } else {
      assert r == d;
    }
  }

  lemma StripExample()
    ensures StripSpaces(" a") == "a" && StripSpaces("a") == "a"
  {
    var a := "a";
    assert a[0] != ' ' && a[|a| - 1] != ' ';
    assert LStrip(a) == a;
    assert RStrip(a) == a;
    var sa := " a";
    assert sa[0] == ' ' && sa[1..] == a;
    assert LStrip(sa) == LStrip(a);
  }

  /** Stripping comes after removing repeats, so two different non-empty
      lines that differ only in edge spaces come out as the same name twice. */
  lemma StripAfterDedupe(x: string, y: string)
    requires x != y && x != "" && y != ""
    requires StripSpaces(x) == StripSpaces(y) && StripSpaces(x) != "files"
    ensures CleanListing([x, y]) == [StripSpaces(x), StripSpaces(x)]
  {
    var lines := [x, y];
    var kept := Filter(lines, NonEmpty());
    assert kept == lines by {
      var p := NonEmpty();
      assert p(x) && p(y);
      assert lines[1..] == [y] && [y][1..] == [];
      assert Filter([y], p) == [y] + Filter([], p);
      assert Filter(lines, p) == [x] + Filter([y], p);
    }
    var d := Dedupe(kept);
    assert d == lines by {
      assert lines[..1] == [x] && [x][..0] == [];
      assert Dedupe([x]) == [x];
      assert y !in [x];
    }
    StripAllPair(x, y);
    var stripped := StripAll(d);
    assert "files" !in stripped by {
      assert stripped[0] != "files" && stripped[1] != "files";
    }
  }

  /** The lines "a" and " a" are cleaned to "a" twice. */
  lemma StripAfterDedupeExample()
    ensures CleanListing(["a", " a"]) == ["a", "a"]
  {
    var x, y := "a", " a";
    StripExample();
    assert x != y by { assert |x| != |y|; }
    assert StripSpaces(x) != "files" by { assert |StripSpaces(x)| != |"files"|; }
    StripAfterDedupe(x, y);
  }

  lemma StripAllPair(x: string, y: string)
    ensures StripAll([x, y]) == [StripSpaces(x), StripSpaces(y)]
  {
    var r := StripAll([x, y]);
    assert r[0] == StripSpaces(x) && r[1] == StripSpaces(y);
  }

  lemma {:induction false} RemoveFirstFacts(s: seq<string>, x: string)
    requires x in s
    ensures IsSubsequence(RemoveFirst(s, x), s)
    ensures Distinct(s) ==> x !in RemoveFirst(s, x)
    decreases |s|
  {
    if s[0] == x {
      DropFirstIsSubsequence(s);
      if Distinct(s) {
        DistinctTail(s);
      }
    } else {
      assert x in s[1..] by {
        assert s == [s[0]] + s[1..];
      }
      RemoveFirstFacts(s[1..], x);
      var r := RemoveFirst(s, x);
      assert r[0] == s[0] && r[1..] == RemoveFirst(s[1..], x);
    }
  }

}
