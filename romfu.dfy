/**
 * createFS: list the library, scan it for titles, stop on a fatal error,
 * and otherwise build the rclone configuration (a local remote and a union
 * remote whose UPSTREAMS string is grown in place) and the mount command.
 */
module RomFu {
  import opened Wrappers
  import opened Paths
  import opened Rclone
  import opened Scanner
  import opened Overlay

  /** The two log.Fatal exits of createFS before anything is mounted. */
  datatype Fatal = DirectoryReadError | NoTitlesFound

  /** What a successful run hands on: the roms, the rclone remotes, the directory it creates, and the command it runs. */
  datatype MountPlan = MountPlan(
    roms: seq<Rom>,
    config: map<string, map<string, string>>,
    createdDir: Option<string>,
    command: seq<string>)

  /** The two remotes of the rclone configuration, with the given union upstreams. */
  function RcloneConfig(upstreams: string): (c: map<string, map<string, string>>)
    ensures c.Keys == {LocalRemote, UnionRemote}
    ensures c[LocalRemote].Keys == {"TYPE"} && c[LocalRemote]["TYPE"] == "local"
    ensures c[UnionRemote].Keys == {"TYPE", "UPSTREAMS"} && c[UnionRemote]["TYPE"] == "union"
    ensures c[UnionRemote]["UPSTREAMS"] == upstreams
  {
    map[LocalRemote := map["TYPE" := "local"],
        UnionRemote := map["TYPE" := "union", "UPSTREAMS" := upstreams]]
  }

  /** Appending to UPSTREAMS in place, as `+=` does, changes nothing else in the configuration. */
  lemma ConfigAppend(upstreams: string, more: string)
    ensures UnionRemote in RcloneConfig(upstreams) && "UPSTREAMS" in RcloneConfig(upstreams)[UnionRemote]
    ensures var c := RcloneConfig(upstreams);
            c[UnionRemote := c[UnionRemote]["UPSTREAMS" := c[UnionRemote]["UPSTREAMS"] + more]] ==
            RcloneConfig(upstreams + more)
  {
    var c := RcloneConfig(upstreams);
    var d := c[UnionRemote := c[UnionRemote]["UPSTREAMS" := c[UnionRemote]["UPSTREAMS"] + more]];
    var e := RcloneConfig(upstreams + more);
    assert d[UnionRemote] == e[UnionRemote];
    assert d.Keys == e.Keys;
  }

  /**
   * The plan for a non-empty scan: UPSTREAMS as assembled from the roms, the
   * "rw" directory created only when writing is enabled, and `rclone mount`
   * of the union remote at the destination.
   */
  function Plan(roms: seq<Rom>, enableWrite: bool, root: string, dest: string): MountPlan {
    MountPlan(roms, RcloneConfig(UpstreamsValue(roms, enableWrite, root)),
              if enableWrite then Some(RwPath(root)) else None,
              ["rclone", "mount", UnionRemote + ":", dest])
  }

  /** No double quote in the library root or in any listed name. */
  predicate QuoteFree(root: string, entries: seq<DirEntry>) {
    '"' !in root && forall i :: 0 <= i < |entries| ==> '"' !in entries[i].name
  }

  /**
   * The configuration part of createFS for the scanned roms: the writable
   * upstream first when enabled (its directory is the one created), then
   * each rom's read-only upstream with the separator, appended to UPSTREAMS
   * in place.
   */
  method BuildConfig(roms: seq<Rom>, enableWrite: bool, root: string)
    returns (config: map<string, map<string, string>>, created: Option<string>)
    ensures config == RcloneConfig(UpstreamsValue(roms, enableWrite, root))
    ensures created == if enableWrite then Some(RwPath(root)) else None
  {
    config := RcloneConfig("");
    created := None;
    ghost var writable := "";
    if enableWrite {
      var rwDirPath := Join(root, "rw");
      created := Some(rwDirPath);
      var entry := FmtRclone(LocalRemote, rwDirPath, []);
      ConfigAppend("", entry + " ");
      config := config[UnionRemote := config[UnionRemote]["UPSTREAMS" := config[UnionRemote]["UPSTREAMS"] + (entry + " ")]];
      writable := WritableText(root);
      assert "" + (entry + " ") == writable;
    }

    var separator := "";
    if |roms| > 1 {
      separator := " ";
    }
    assert separator == Separator(|roms|);
    assert roms[..0] == [] && ReadOnlyText([], separator) == "";
    assert writable + "" == writable;

    for i := 0 to |roms|
      invariant config == RcloneConfig(writable + ReadOnlyText(roms[..i], separator))
    {
      var entry := FmtRclone(LocalRemote, roms[i].Parent(), ["ro"]);
      ghost var before := writable + ReadOnlyText(roms[..i], separator);
      ConfigAppend(before, entry + separator);
      config := config[UnionRemote := config[UnionRemote]["UPSTREAMS" := config[UnionRemote]["UPSTREAMS"] + (entry + separator)]];
      ReadOnlyTextStep(roms, i, separator);
      AppendAssoc(writable, ReadOnlyText(roms[..i], separator), entry + separator);
    }
    assert roms[..|roms|] == roms;
  }

  /**
   * One run of createFS against a listing of the library root (None when
   * it cannot be read) and the set of paths that are existing directories.
   */
  method CreateFS(root: string, dest: string, enableWrite: bool, listing: Option<seq<DirEntry>>, dirs: set<string>)
    returns (r: Result<MountPlan, Fatal>)
    ensures r == Err(DirectoryReadError) <==> listing.None?
    ensures listing.Some? && Scanned(root, listing.value, dirs) != [] ==> r.Ok?
    ensures listing.Some? ==> (r == Err(NoTitlesFound) <==> Scanned(root, listing.value, dirs) == [])
    ensures r.Ok? ==> listing.Some? && r.value == Plan(Scanned(root, listing.value, dirs), enableWrite, root, dest)
    ensures r.Ok? && QuoteFree(root, listing.value) ==>
              ParseUpstreams(r.value.config[UnionRemote]["UPSTREAMS"]) == Some(Build(r.value.roms, enableWrite, root))
  {
    if listing.None? {
      return Err(DirectoryReadError);
    }
    var files := listing.value;
    var roms := Scan(root, files, dirs);
    if |roms| == 0 {
      return Err(NoTitlesFound);
    }
    var config, created := BuildConfig(roms, enableWrite, root);
    r := Ok(MountPlan(roms, config, created, ["rclone", "mount", UnionRemote + ":", dest]));

    if QuoteFree(root, files) {
      forall i | 0 <= i < |roms| ensures '"' !in roms[i].Parent() {
        ScannedQuoteFree(root, files, dirs, roms[i]);
      }
      UpstreamsRoundTrip(roms, enableWrite, root);
    }
  }
}
