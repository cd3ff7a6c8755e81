# romfu: title discovery and union-overlay assembly

romfu mounts a library of Nintendo Switch game directories as one flat,
read-only (optionally writable) directory tree. It does this with rclone's
union backend. `createFS` has three steps:

- It lists the library root.
- It keeps each directory that is a title: not hidden, and not one of the
  reserved names `rw` and `titles`.
- For each title it exposes the `merged` subdirectory when that exists, and
  otherwise `base`.

Every exposed directory becomes a read-only upstream of a union remote. When
writing is enabled, the library's `rw` directory is put in front of them as
the writable upstream. The result is the configuration of two rclone remotes,
`ROMFULOCAL` and `ROMFUUNION`, and an `rclone mount` command.

The filesystem is an input to the model:
- the root's listing is `Option<seq<DirEntry>>`, where `None` means the
  directory could not be read;
- the set `dirs` holds the paths that exist and are directories.

The Go loops are Dafny methods. Each is proved equal to a function that states
the same computation declaratively:
- `FmtRclone` equals `Rendered`;
- `IsBlocklisted` equals membership in the block-list;
- `FindSubdir` equals `SelectSubdir`;
- `Scan` equals `Scanned`;
- `BuildConfig` equals `RcloneConfig(UpstreamsValue(...))`.

Lemmas then prove the following about those functions:
- which entries become titles, and which subdirectory each exposes;
- scan order, and that nothing is lost or duplicated;
- the exact shape of the UPSTREAMS string, trailing space included;
- that a reader splitting that string on quoted entries gets back exactly the
  layers of the overlay.

Modules:
- `Wrappers`: Option and Result.
- `Paths`: `path.Join`.
- `Rclone`: `fmtRclone`.
- `Scanner`: `Rom`, the name tables and the scan loop.
- `Overlay`: the layers, the UPSTREAMS text and its decoder.
- `RomFu`: `createFS`.
- `Scenario`: a worked library.

## Model

| member | source | states |
|---|---|---|
| Rclone.FmtRclone | main.go:18-25 | the loop's result is `"` + remote + `:` + path, then `:`+option for every option in order, then `"` |
| Rclone.RenderedWithoutOptions | main.go:18-25 | with no options the result is exactly `"remote:path"` |
| Rclone.RenderedReadOnly | main.go:18-25 | with the single option `ro` the result is `"remote:path:ro"`, and its last four characters are `:ro"` |
| Rclone.OptionSuffixAppend | main.go:20-22 | options are rendered independently and in order: the rendering of a concatenation of option lists is the concatenation of their renderings |
| Paths.JoinCases | main.go:133-140 | `path.Join` of a directory and a name is the directory, one '/' unless the directory is empty or already ends in '/', then the name |
| Paths.JoinParts | main.go:35 | a joined path starts with the directory, ends with the name, and adds at most one separator |
| Paths.JoinInjective | main.go:133 | joining two different names onto one directory gives two different paths |
| Paths.JoinAvoids | main.go:133 | a character other than '/' occurs in a joined path only if it occurs in the directory or the name |
| Paths.NestedOutsideSibling | main.go:133-140 | a subdirectory of dir/name never lies inside dir/other when the names differ and no name holds a '/' |
| Scanner.ParentWithin | main.go:33-36 | for a non-empty subdirectory name, a rom's exposed directory starts with its title directory and the separator `path.Join` puts after it, is strictly longer than the title directory, and ends with the chosen subdirectory name |
| Scanner.Rom.Parent | main.go:33-36 | the exposed directory is the title directory and the subdirectory name with at most one separator added between them |
| Scanner.IsBlocklisted | main.go:119-131 | the early-return loop answers true exactly for `rw` and `titles` |
| Scanner.FirstExisting | main.go:136-149 | the chosen candidate exists as a directory, and every candidate before it does not; there is none exactly when no candidate exists |
| Scanner.SelectSubdir | main.go:136-147 | `merged` is chosen whenever it exists; `base` only when `merged` does not exist and `base` does; nothing when neither exists |
| Scanner.Resolve | main.go:105-149 | an entry yields a rom only if it passes the three filters. The rom's title directory is root/name, its subdirectory is a valid name, and the exposed directory exists. `base` is used only when `merged` is absent. An entry yields nothing exactly when it is filtered or has neither subdirectory |
| Scanner.Scanned | main.go:105-151 | there are never more roms than listing entries |
| Scanner.FindSubdir | main.go:136-149 | the inner loop with `break` returns the same subdirectory as `SelectSubdir` |
| Scanner.Scan | main.go:100-151 | the loop with `continue` and `break` builds exactly `Scanned` of the listing |
| Scanner.ScannedAppend | main.go:105-151 | roms come out in listing order: scanning a concatenated listing gives the roms of the first part, then those of the second |
| Scanner.ScannedFromEntry | main.go:105-151 | every scanned rom is what some listing entry resolves to |
| Scanner.ScannedIncludes | main.go:105-151 | every entry that resolves contributes its rom, so no title is lost |
| Scanner.ScannedMembership | main.go:105-151 | a rom is scanned if and only if some entry resolves to it |
| Scanner.ScannedEmpty | main.go:105-156 | the scan is empty if and only if no entry resolves, which is when the fatal error is raised |
| Scanner.ScannedAllFiltered | main.go:109-131 | a listing of only files, hidden entries and reserved names yields no rom |
| Scanner.ScannedSound | main.go:105-145 | every scanned rom comes from an accepted entry. Its title directory is root/name and never root/rw. Its exposed directory is Join(dirPath, subdirName) and exists |
| Scanner.ScannedOtherName | main.go:133 | a rom scanned from entries that all differ from a name is not at root/name |
| Scanner.ScannedDistinct | main.go:105-151 | entries with distinct names give roms with pairwise distinct title directories |
| Scanner.ResolveQuoteFree | main.go:133-140 | with no double quote in the root or an entry's name, the exposed directory it resolves to holds none |
| Scanner.ScannedQuoteFree | main.go:133-140 | with no double quote in the root or any entry name, no scanned rom's exposed directory holds one |
| Overlay.ReadOnlyLayers | main.go:188-190 | one read-only layer per rom, with the rom's exposed directory, in scan order |
| Overlay.Build | main.go:174-190 | the overlay has one layer per rom plus one when writing is enabled. The writable `rw` layer is first, then the read-only layers in scan order |
| Overlay.BuildModes | main.go:174-190 | a layer is writable if and only if writing is enabled and it is the first layer |
| Overlay.RwNotScanned | main.go:174-176 | no scanned rom exposes the library's `rw` path |
| Overlay.BuildRwOnlyFirst | main.go:174-190 | with writing enabled, the `rw` path appears only as the first layer, never again as a read-only one |
| Overlay.ResolveOutsideRw | main.go:119-140 | an entry with a '/'-free name that resolves to a rom exposes a directory outside root/rw, because `rw` is block-listed |
| Overlay.RomOutsideRw | main.go:105-151 | no scanned rom exposes a directory inside the library's `rw` directory, for '/'-free names |
| Overlay.BuildOutsideRw | main.go:174-190 | with writing enabled, no read-only layer lies inside the writable `rw` directory, for '/'-free names |
| Overlay.ReadOnlyTextStep | main.go:188-190 | each iteration appends one `:ro` upstream followed by the separator |
| Overlay.Separator | main.go:181-185 | the separator is at most one character, and it is non-empty exactly when there are several roms |
| Overlay.TerminatedBySpace | main.go:181-190 | words each followed by one space are the space-joined words plus one trailing space |
| Overlay.ReadOnlyShape | main.go:181-190 | the read-only part is the read-only layers joined by single spaces, then the separator |
| Overlay.WritableShape | main.go:175-179 | the writable upstream and its one space in front of the read-only layers is the space-joined overlay with the writable layer first |
| Overlay.UpstreamsShape | main.go:174-190 | for a non-empty scan, UPSTREAMS is the overlay's layers joined by single spaces. One trailing space follows when there are several roms, and none when there is one |
| Overlay.UpstreamsValue | main.go:174-190 | with writing enabled UPSTREAMS starts with the writable upstream and its space; UPSTREAMS is empty exactly when writing is disabled and there are no roms |
| Overlay.ParseUpstreamText | main.go:18-25 | the text between the quotes of a layer's rendering holds no quote and reads back as that layer, mode included |
| Overlay.ParseAfterText | main.go:178-189 | a layer's rendering followed by nothing or a space is read as that layer, then whatever follows |
| Overlay.ParseSpaceJoined | main.go:174-190 | space-joined layers, with at most one trailing space, read back as exactly those layers |
| Overlay.RwDecodable | main.go:176 | the writable layer reads back when the root holds no quote |
| Overlay.BuildDecodable | main.go:174-190 | with no quote in any path, every layer of the overlay reads back |
| Overlay.UpstreamsRoundTrip | main.go:174-190 | with no quote in any path, reading UPSTREAMS back gives exactly the overlay's layers, in order and with their modes |
| RomFu.ConfigAppend | main.go:164-189 | appending to UPSTREAMS in place with `+=` changes that value only and leaves both remotes' other settings untouched |
| RomFu.RcloneConfig | main.go:164-172 | the configuration has exactly the two remotes: the local one with only `TYPE` = `local`, and the union one with `TYPE` = `union` and `UPSTREAMS` = the given value, and no other setting |
| RomFu.BuildConfig | main.go:161-190 | the loop builds exactly the two-remote configuration with the assembled UPSTREAMS. The `rw` directory is created only when writing is enabled |
| RomFu.CreateFS | main.go:85-203 | the result is `DirectoryReadError` exactly when the root cannot be read, and `NoTitlesFound` exactly when the scan is empty. A readable root with a non-empty scan always reaches the plan: the scanned roms, the configuration, the created `rw` directory and `rclone mount ROMFUUNION: dest`. Its UPSTREAMS reads back as the overlay when no path holds a quote |
| Scenario.FilteredEntries | main.go:109-131 | in a sample library, a hidden directory, a plain file, `rw` and `titles` contribute nothing |
| Scenario.GameAMerged | main.go:136-147 | a title with both `merged` and `base` exposes `merged` |
| Scenario.GameBBase | main.go:136-147 | a title with only `base` exposes `base` |
| Scenario.ScenarioScan | main.go:105-151 | the sample library scans to exactly its two titles, in listing order |
| Scenario.ScenarioUpstreams | main.go:174-190 | with writing enabled, the sample's UPSTREAMS is the rw upstream and each title's `:ro` upstream, each followed by one space |

## Left out

- Command-line parsing with kong, the `CLI` struct and `main`'s dispatch (main.go:46-83) are not modelled. They only supply the root, the destination and the write flag, which are parameters here.
- `RandString` (main.go:56-65) is not modelled. It draws on `math/rand` and nothing calls it.
- Real filesystem access is replaced by inputs.
  - `ioutil.ReadDir` becomes the listing. It already arrives in the order the model scans; `ioutil.ReadDir` sorts it by name, so the model relies on that order without re-sorting it.
  - `os.Stat(...).IsDir()` becomes membership in `dirs`.
  - `os.MkdirAll` is recorded as the plan's `createdDir`. The code ignores its error, so the model has no failure path for it: a failed `MkdirAll` is not reported.
- The coloured `detectedGames` report and the console output (main.go:144, 158-159, 208) are display only.
- Exporting the configuration as `RCLONE_CONFIG_*` environment variables (main.go:192-200) is not modelled: it is a process-global side effect in map order. The configuration is kept as a map value instead, and the `Setenv` failure path is not modelled.
- Running `rclone mount` and relaying its standard streams (main.go:202-211) is not modelled. The command is returned as a value, and the failure of the external process is not modelled.
- `log.Fatal` does not exit the process here. It is the `Err` result of `CreateFS`, with `DirectoryReadError` or `NoTitlesFound`.
- Overlay.BuildOutsideRw: stated for listed names that hold no '/', which is what a directory listing returns.
- Paths.Join: models `path.Join` of a directory and one listed name only. It avoids doubling a trailing '/' but does not clean `.`, `..` or repeated slashes.
- RomFu.CreateFS: the round trip is stated only when neither the root nor any listed name holds a double quote. `fmtRclone` (main.go:19) writes the path between double quotes without escaping it, so a quote inside a path would end that upstream early.
- The UPSTREAMS reader (`Overlay.ParseUpstreams`) is this model's own reader, not part of the program and not rclone's. It reads double-quoted entries and skips runs of spaces between them, including the trailing space described next. The round trip is proved against this reader. How rclone itself reads the value is not part of this model, and it is not known whether rclone skips a trailing space.
- The trailing space that the code leaves after the last upstream when there are several roms is modelled as written. It is stated exactly by `Overlay.UpstreamsShape`, and the reader skips it.
