/**
 * Discovery of game titles under a library root: which listing entries are
 * titles, and which content subdirectory ("merged" before "base") each title
 * exposes. The filesystem is given as the root's listing and the set of paths
 * that exist and are directories.
 */
module Scanner {
  import opened Wrappers
  import opened Paths

  /** One entry of the root's directory listing. */
  datatype DirEntry = DirEntry(name: string, isDir: bool)

  /** A resolved title: its top-level directory and the chosen content subdirectory. */
  datatype Rom = Rom(dirPath: string, subdirName: string) {

    /** The directory exposed for this title, e.g. /library/game/merged. */
    function Parent(): (p: string)
      ensures |dirPath| + |subdirName| <= |p| <= |dirPath| + |subdirName| + 1
    {
      JoinParts(dirPath, subdirName);
      Join(dirPath, subdirName)
    }
  }

  /** Top-level names that are never titles. */
  const InvalidGameDirNames: seq<string> := ["rw", "titles"]

  /** Content subdirectory names, highest priority first. */
  const ValidSubdirNames: seq<string> := ["merged", "base"]

  predicate IsHidden(name: string) {
    |name| > 0 && name[0] == '.'
  }

  /** An entry that survives the three filters and is looked at as a title. */
  predicate Accepted(e: DirEntry) {
    e.isDir && !IsHidden(e.name) && e.name !in InvalidGameDirNames
  }

  /** The isBlacklisted closure: a scan of the block-list that returns on the first match. */
  method IsBlocklisted(name: string) returns (blocked: bool)
    ensures blocked <==> name == "rw" || name == "titles"
  {
    for k := 0 to |InvalidGameDirNames|
      invariant name !in InvalidGameDirNames[..k]
    {
      if name == InvalidGameDirNames[k] {
        return true;
      }
    }
    assert InvalidGameDirNames[..|InvalidGameDirNames|] == InvalidGameDirNames;
    return false;
  }

  /**
   * The first of the candidates whose joined path is an existing directory:
   * it exists, and it occurs no later than any existing candidate.
   */
  function FirstExisting(dirPath: string, candidates: seq<string>, dirs: set<string>): (r: Option<string>)
    ensures r.Some? ==> exists k :: 0 <= k < |candidates| && candidates[k] == r.value && Absent(dirPath, candidates[..k], dirs)
    ensures r.Some? ==> Join(dirPath, r.value) in dirs
    ensures r.None? <==> Absent(dirPath, candidates, dirs)
    decreases |candidates|
  {
    if candidates == [] then None
    else if Join(dirPath, candidates[0]) in dirs then
      assert candidates[..0] == [];
      Some(candidates[0])
    else
      var r := FirstExisting(dirPath, candidates[1..], dirs);
      assert r.None? ==> Absent(dirPath, candidates, dirs) by {
        if r.None? {
          forall j | 0 <= j < |candidates| ensures Join(dirPath, candidates[j]) !in dirs {
            if j > 0 { assert candidates[j] == candidates[1..][j - 1]; }
          }
        }
      }
      assert r.Some? ==> exists k :: 0 <= k < |candidates| && candidates[k] == r.value && Absent(dirPath, candidates[..k], dirs) by {
        if r.Some? {
          var k :| 0 <= k < |candidates[1..]| && candidates[1..][k] == r.value && Absent(dirPath, candidates[1..][..k], dirs);
          assert candidates[..k + 1] == [candidates[0]] + candidates[1..][..k];
          assert Absent(dirPath, candidates[..k + 1], dirs);
        }
      }
      r
  }

  /** None of the candidates is an existing directory under dirPath. */
  predicate Absent(dirPath: string, candidates: seq<string>, dirs: set<string>) {
    forall j :: 0 <= j < |candidates| ==> Join(dirPath, candidates[j]) !in dirs
  }

  /** Subdirectory choice for one title directory: "merged" wins over "base". */
  function SelectSubdir(dirPath: string, dirs: set<string>): (r: Option<string>)
    ensures Join(dirPath, "merged") in dirs ==> r == Some("merged")
    ensures Join(dirPath, "merged") !in dirs && Join(dirPath, "base") in dirs ==> r == Some("base")
    ensures Join(dirPath, "merged") !in dirs && Join(dirPath, "base") !in dirs ==> r == None
  {
    FirstExisting(dirPath, ValidSubdirNames, dirs)
  }

  /** What one listing entry contributes: a Rom, or nothing. */
  function Resolve(root: string, e: DirEntry, dirs: set<string>): (r: Option<Rom>)
    ensures r.Some? ==> Accepted(e) && r.value.dirPath == Join(root, e.name)
    ensures r.Some? ==> r.value.subdirName in ValidSubdirNames && r.value.Parent() in dirs
    ensures r.Some? && r.value.subdirName == "base" ==> Join(r.value.dirPath, "merged") !in dirs
    ensures r.None? <==> !Accepted(e) ||
                         (Join(Join(root, e.name), "merged") !in dirs && Join(Join(root, e.name), "base") !in dirs)
  {
    if !Accepted(e) then None
    else
      var dirPath := Join(root, e.name);
      match SelectSubdir(dirPath, dirs)
      case None => None
      case Some(sub) => Some(Rom(dirPath, sub))
  }

  /** The roms of a listing, in listing order: what createFS collects. */
  function Scanned(root: string, entries: seq<DirEntry>, dirs: set<string>): (roms: seq<Rom>)
    ensures |roms| <= |entries|
    decreases |entries|
  {
    if entries == [] then []
    else Scanned(root, entries[..|entries| - 1], dirs) + Contribution(root, entries[|entries| - 1], dirs)
  }

  /** Resolve as a sequence of zero or one Rom. */
  function Contribution(root: string, e: DirEntry, dirs: set<string>): (c: seq<Rom>)
    ensures |c| <= 1
  {
    match Resolve(root, e, dirs)
    case None => []
    case Some(rom) => [rom]
  }

  /**
   * The inner loop of createFS over the candidate subdirectories: the first
   * one that exists as a directory under dirPath, if any.
   */
  method FindSubdir(dirPath: string, dirs: set<string>) returns (found: Option<string>)
    ensures found == SelectSubdir(dirPath, dirs)
  {
    for j := 0 to |ValidSubdirNames|
      invariant forall k :: 0 <= k < j ==> Join(dirPath, ValidSubdirNames[k]) !in dirs
    {
      var subdirName := ValidSubdirNames[j];
      var romDirPath := Join(dirPath, subdirName);
      if romDirPath in dirs {
        return Some(subdirName);
      }
    }
    return None;
  }

  /** One more entry of the listing adds its contribution at the end. */
  lemma ScannedStep(root: string, entries: seq<DirEntry>, dirs: set<string>, i: nat)
    requires i < |entries|
    ensures Scanned(root, entries[..i + 1], dirs) == Scanned(root, entries[..i], dirs) + Contribution(root, entries[i], dirs)
  {
    assert entries[..i + 1][..i] == entries[..i];
  }

  /** An entry's contribution, by the filters and then the subdirectory choice. */
  lemma ContributionCases(root: string, e: DirEntry, dirs: set<string>)
    ensures !Accepted(e) ==> Contribution(root, e, dirs) == []
    ensures Accepted(e) && SelectSubdir(Join(root, e.name), dirs).None? ==> Contribution(root, e, dirs) == []
    ensures Accepted(e) && SelectSubdir(Join(root, e.name), dirs).Some? ==>
            Contribution(root, e, dirs) == [Rom(Join(root, e.name), SelectSubdir(Join(root, e.name), dirs).value)]
  {
  }

  /**
   * The scan loop of createFS: skip non-directories, hidden and block-listed
   * names, then keep the first existing candidate subdirectory.
   */
  method Scan(root: string, entries: seq<DirEntry>, dirs: set<string>) returns (roms: seq<Rom>)
    ensures roms == Scanned(root, entries, dirs)
  {
    roms := [];
    for i := 0 to |entries|
      invariant roms == Scanned(root, entries[..i], dirs)
    {
      ScannedStep(root, entries, dirs, i);
      var file := entries[i];
      ContributionCases(root, file, dirs);
      var gameDirName := file.name;
      if !file.isDir {
        continue;
      }
      if |gameDirName| > 0 && gameDirName[0] == '.' {
        continue;
      }
      var blocked := IsBlocklisted(gameDirName);
      if blocked {
        continue;
      }
      assert Accepted(file);
      var dirPath := Join(root, gameDirName);
      var found := FindSubdir(dirPath, dirs);
      if found.Some? {
        roms := roms + [Rom(dirPath, found.value)];
      }
    }
    assert entries[..|entries|] == entries;
  }

  /** Scanning a listing in two parts gives the roms of the first part, then those of the second. */
  lemma {:induction false} ScannedAppend(root: string, a: seq<DirEntry>, b: seq<DirEntry>, dirs: set<string>)
    ensures Scanned(root, a + b, dirs) == Scanned(root, a, dirs) + Scanned(root, b, dirs)
    decreases |b|
  {
    if b == [] {
      assert a + b == a;
    } else {
      var init := b[..|b| - 1];
      assert (a + b)[..|a + b| - 1] == a + init;
      ScannedAppend(root, a, init, dirs);
    }
  }

  /** Every scanned rom is what some entry of the listing resolves to. */
  lemma {:induction false} ScannedFromEntry(root: string, entries: seq<DirEntry>, dirs: set<string>, rom: Rom)
    requires rom in Scanned(root, entries, dirs)
    ensures exists i :: 0 <= i < |entries| && Resolve(root, entries[i], dirs) == Some(rom)
    decreases |entries|
  {
    var n := |entries| - 1;
    var init := entries[..n];
    var step := Contribution(root, entries[n], dirs);
    assert Scanned(root, entries, dirs) == Scanned(root, init, dirs) + step;
    if rom in step {
      assert Resolve(root, entries[n], dirs) == Some(rom);
    } else {
      ScannedFromEntry(root, init, dirs, rom);
      var i :| 0 <= i < |init| && Resolve(root, init[i], dirs) == Some(rom);
      assert entries[i] == init[i];
    }
  }

  /** Every entry that resolves contributes its rom to the scan: titles are never lost. */
  lemma {:induction false} ScannedIncludes(root: string, entries: seq<DirEntry>, dirs: set<string>, i: nat, rom: Rom)
    requires i < |entries| && Resolve(root, entries[i], dirs) == Some(rom)
    ensures rom in Scanned(root, entries, dirs)
    decreases |entries|
  {
    var n := |entries| - 1;
    var init := entries[..n];
    var step := Contribution(root, entries[n], dirs);
    assert Scanned(root, entries, dirs) == Scanned(root, init, dirs) + step;
    if i == n {
      assert rom in step;
    } else {
      assert entries[i] == init[i];
      ScannedIncludes(root, init, dirs, i, rom);
    }
  }

  /** A rom is scanned exactly when some entry of the listing resolves to it. */
  lemma ScannedMembership(root: string, entries: seq<DirEntry>, dirs: set<string>, rom: Rom)
    ensures rom in Scanned(root, entries, dirs) <==>
            exists i :: 0 <= i < |entries| && Resolve(root, entries[i], dirs) == Some(rom)
  {
    if rom in Scanned(root, entries, dirs) {
      ScannedFromEntry(root, entries, dirs, rom);
    }
    if exists i :: 0 <= i < |entries| && Resolve(root, entries[i], dirs) == Some(rom) {
      var i :| 0 <= i < |entries| && Resolve(root, entries[i], dirs) == Some(rom);
      ScannedIncludes(root, entries, dirs, i, rom);
    }
  }

  /** No rom at all exactly when no entry resolves: all are filtered out or lack both subdirectories. */
  lemma {:induction false} ScannedEmpty(root: string, entries: seq<DirEntry>, dirs: set<string>)
    ensures Scanned(root, entries, dirs) == [] <==>
            forall i :: 0 <= i < |entries| ==> Resolve(root, entries[i], dirs) == None
  {
    var roms := Scanned(root, entries, dirs);
    if roms != [] {
      ScannedFromEntry(root, entries, dirs, roms[0]);
    } else {
      forall i | 0 <= i < |entries| ensures Resolve(root, entries[i], dirs) == None {
        if Resolve(root, entries[i], dirs).Some? {
          ScannedIncludes(root, entries, dirs, i, Resolve(root, entries[i], dirs).value);
        }
      }
    }
  }

  /** A listing of only files, hidden entries and block-listed names yields no rom. */
  lemma ScannedAllFiltered(root: string, entries: seq<DirEntry>, dirs: set<string>)
    requires forall i :: 0 <= i < |entries| ==> !Accepted(entries[i])
    ensures Scanned(root, entries, dirs) == []
  {
    ScannedEmpty(root, entries, dirs);
  }

  /** Every scanned title directory comes from an accepted entry, and none is the writable "rw" directory. */
  lemma ScannedSound(root: string, entries: seq<DirEntry>, dirs: set<string>, rom: Rom)
    requires rom in Scanned(root, entries, dirs)
    ensures exists i :: 0 <= i < |entries| && Accepted(entries[i]) && rom.dirPath == Join(root, entries[i].name)
    ensures rom.dirPath != Join(root, "rw")
    ensures rom.Parent() == Join(rom.dirPath, rom.subdirName) && rom.Parent() in dirs
  {
    ScannedFromEntry(root, entries, dirs, rom);
    var i :| 0 <= i < |entries| && Resolve(root, entries[i], dirs) == Some(rom);
    if rom.dirPath == Join(root, "rw") {
      JoinInjective(root, entries[i].name, "rw");
    }
  }

  /** A rom scanned from entries that all differ from `name` does not sit at the entry `name`. */
  lemma ScannedOtherName(root: string, entries: seq<DirEntry>, dirs: set<string>, rom: Rom, name: string)
    requires rom in Scanned(root, entries, dirs)
    requires forall k :: 0 <= k < |entries| ==> entries[k].name != name
    ensures rom.dirPath != Join(root, name)
  {
    ScannedFromEntry(root, entries, dirs, rom);
    var k :| 0 <= k < |entries| && Resolve(root, entries[k], dirs) == Some(rom);
    if rom.dirPath == Join(root, name) {
      JoinInjective(root, entries[k].name, name);
    }
  }

  /** No two roms share a title directory. */
  predicate DistinctDirs(roms: seq<Rom>) {
    forall i, j :: 0 <= i < j < |roms| ==> roms[i].dirPath != roms[j].dirPath
  }

  lemma DistinctDirsSnoc(roms: seq<Rom>, last: Rom)
    requires DistinctDirs(roms)
    requires forall i :: 0 <= i < |roms| ==> roms[i].dirPath != last.dirPath
    ensures DistinctDirs(roms + [last])
  {
  }

  /** The inductive step: a last entry named unlike all earlier ones keeps the title directories distinct. */
  lemma ScannedDistinctStep(root: string, entries: seq<DirEntry>, dirs: set<string>)
    requires entries != []
    requires forall k :: 0 <= k < |entries| - 1 ==> entries[k].name != entries[|entries| - 1].name
    requires DistinctDirs(Scanned(root, entries[..|entries| - 1], dirs))
    ensures DistinctDirs(Scanned(root, entries, dirs))
  {
    var n := |entries| - 1;
    var init := entries[..n];
    var head := Scanned(root, init, dirs);
    var last := entries[n];
    match Resolve(root, last, dirs)
    case None =>
      assert Scanned(root, entries, dirs) == head;
    case Some(rom) =>
      assert Scanned(root, entries, dirs) == head + [rom];
      assert forall k :: 0 <= k < |init| ==> init[k].name != last.name by {
        forall k | 0 <= k < |init| ensures init[k].name != last.name {
          assert init[k] == entries[k];
        }
      }
      forall i | 0 <= i < |head| ensures head[i].dirPath != rom.dirPath {
        ScannedOtherName(root, init, dirs, head[i], last.name);
      }
      DistinctDirsSnoc(head, rom);
  }

  /** Distinct entry names give distinct title directories, so no title is mounted twice. */
  lemma {:induction false} ScannedDistinct(root: string, entries: seq<DirEntry>, dirs: set<string>)
    requires forall i, j :: 0 <= i < j < |entries| ==> entries[i].name != entries[j].name
    ensures DistinctDirs(Scanned(root, entries, dirs))
    decreases |entries|
  {
    if entries != [] {
      var n := |entries| - 1;
      var init := entries[..n];
      assert forall i, j :: 0 <= i < j < |init| ==> init[i].name != init[j].name;
      ScannedDistinct(root, init, dirs);
      ScannedDistinctStep(root, entries, dirs);
    }
  }

  /** The exposed directory of a title lies inside its title directory. */
  lemma ParentWithin(rom: Rom)
    requires rom.subdirName != []
    ensures |rom.dirPath| < |rom.Parent()|
    ensures rom.Parent()[..|rom.dirPath|] == rom.dirPath
    ensures DirPrefix(rom.dirPath) <= rom.Parent()
    ensures rom.Parent()[|rom.Parent()| - |rom.subdirName|..] == rom.subdirName
  {
    JoinParts(rom.dirPath, rom.subdirName);
  }

  /** With no double quote in the root or the entry's name, the exposed path it resolves to holds none. */
  lemma ResolveQuoteFree(root: string, e: DirEntry, dirs: set<string>)
    requires '"' !in root && '"' !in e.name
    requires Resolve(root, e, dirs).Some?
    ensures '"' !in Resolve(root, e, dirs).value.Parent()
  {
    var rom := Resolve(root, e, dirs).value;
    JoinAvoids('"', root, e.name);
    JoinAvoids('"', rom.dirPath, rom.subdirName);
  }

  /** With no double quote in the root or the entry names, no exposed path holds one. */
  lemma ScannedQuoteFree(root: string, entries: seq<DirEntry>, dirs: set<string>, rom: Rom)
    requires '"' !in root
    requires forall i :: 0 <= i < |entries| ==> '"' !in entries[i].name
    requires rom in Scanned(root, entries, dirs)
    ensures '"' !in rom.Parent()
  {
    ScannedFromEntry(root, entries, dirs, rom);
    var i :| 0 <= i < |entries| && Resolve(root, entries[i], dirs) == Some(rom);
    ResolveQuoteFree(root, entries[i], dirs);
  }
}
