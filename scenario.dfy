/**
 * A worked library: one hidden directory, two titles, a plain file and the
 * two reserved names. Only the titles are mounted, "merged" wins where both
 * candidates exist, and the UPSTREAMS string comes out exactly as createFS
 * writes it.
 */
module Scenario {
  import opened Wrappers
  import opened Paths
  import opened Scanner
  import opened Rclone
  import opened Overlay

  const Root: string := "/lib"

  const Listing: seq<DirEntry> := [
    DirEntry(".hidden", true),
    DirEntry("gameA", true),
    DirEntry("gameB", true),
    DirEntry("notes.txt", false),
    DirEntry("rw", true),
    DirEntry("titles", true)
  ]

  const Dirs: set<string> := {
    "/lib/.hidden/merged", "/lib/gameA/merged", "/lib/gameA/base",
    "/lib/gameB/base", "/lib/rw/base", "/lib/titles/merged"
  }

  /** The hidden directory, the plain file and the two reserved names contribute nothing. */
  lemma FilteredEntries()
    ensures Contribution(Root, Listing[0], Dirs) == []
    ensures Contribution(Root, Listing[3], Dirs) == []
    ensures Contribution(Root, Listing[4], Dirs) == []
    ensures Contribution(Root, Listing[5], Dirs) == []
  {
    assert !Accepted(Listing[0]) && !Accepted(Listing[3]) && !Accepted(Listing[4]);
    assert Listing[5].name == InvalidGameDirNames[1];
  }

  /** gameA has both candidates and exposes "merged". */
  lemma GameAMerged()
    ensures Contribution(Root, Listing[1], Dirs) == [Rom("/lib/gameA", "merged")]
  {
    assert DirPrefix(Root) == "/lib/";
    assert Join(Root, "gameA") == "/lib/gameA";
    assert DirPrefix("/lib/gameA") == "/lib/gameA/";
    assert Join("/lib/gameA", "merged") == "/lib/gameA/merged";
  }

  /** gameB has only "base". */
  lemma GameBBase()
    ensures Contribution(Root, Listing[2], Dirs) == [Rom("/lib/gameB", "base")]
  {
    assert DirPrefix(Root) == "/lib/";
    assert Join(Root, "gameB") == "/lib/gameB";
    assert DirPrefix("/lib/gameB") == "/lib/gameB/";
    assert Join("/lib/gameB", "merged") == "/lib/gameB/merged";
    assert Join("/lib/gameB", "base") == "/lib/gameB/base";
    assert "/lib/gameB/merged" !in Dirs;
  }

  /** Only the two titles are scanned, in listing order. */
  lemma ScenarioScan()
    ensures Scanned(Root, Listing, Dirs) == [Rom("/lib/gameA", "merged"), Rom("/lib/gameB", "base")]
  {
    var a, b := Rom("/lib/gameA", "merged"), Rom("/lib/gameB", "base");
    FilteredEntries();
    GameAMerged();
    GameBBase();
    assert Listing[..0] == [];
    ScannedStep(Root, Listing, Dirs, 0);
    assert Scanned(Root, Listing[..1], Dirs) == [];
    ScannedStep(Root, Listing, Dirs, 1);
    assert Scanned(Root, Listing[..2], Dirs) == [a];
    ScannedStep(Root, Listing, Dirs, 2);
    assert Scanned(Root, Listing[..3], Dirs) == [a, b];
    ScannedStep(Root, Listing, Dirs, 3);
    assert Scanned(Root, Listing[..4], Dirs) == [a, b];
    ScannedStep(Root, Listing, Dirs, 4);
    assert Scanned(Root, Listing[..5], Dirs) == [a, b];
    ScannedStep(Root, Listing, Dirs, 5);
    assert Listing[..6] == Listing;
  }

  lemma ScenarioPaths()
    ensures RwPath(Root) == "/lib/rw"
    ensures Rom("/lib/gameA", "merged").Parent() == "/lib/gameA/merged"
    ensures Rom("/lib/gameB", "base").Parent() == "/lib/gameB/base"
  {
  }

  /**
   * With writing enabled, the UPSTREAMS value: the rw upstream first, then
   * both titles read-only, every entry followed by one space.
   */
  lemma ScenarioUpstreams()
    ensures UpstreamsValue([Rom("/lib/gameA", "merged"), Rom("/lib/gameB", "base")], true, Root) ==
            Rendered(LocalRemote, "/lib/rw", []) + " " +
            Rendered(LocalRemote, "/lib/gameA/merged", ["ro"]) + " " +
            Rendered(LocalRemote, "/lib/gameB/base", ["ro"]) + " "
  {
    var roms := [Rom("/lib/gameA", "merged"), Rom("/lib/gameB", "base")];
    var ta, tb := Rendered(LocalRemote, "/lib/gameA/merged", ["ro"]), Rendered(LocalRemote, "/lib/gameB/base", ["ro"]);
    ScenarioPaths();
    assert roms[..0] == [];
    ReadOnlyTextStep(roms, 0, " ");
    assert ReadOnlyText(roms[..1], " ") == ta + " ";
    ReadOnlyTextStep(roms, 1, " ");
    assert roms[..2] == roms;
  }
}
