/**
 * The overlay handed to rclone's union backend: an optional writable layer
 * followed by one read-only layer per resolved title, and the UPSTREAMS
 * string that createFS renders for it.
 */
module Overlay {
  import opened Wrappers
  import opened Paths
  import opened Rclone
  import opened Scanner

  /** Name of the local-type remote every upstream refers to. */
  const LocalRemote: string := "ROMFULOCAL"
  /** Name of the union-type remote that is mounted. */
  const UnionRemote: string := "ROMFUUNION"

  datatype Mode = ReadWrite | ReadOnly

  /** One layer of the union: a directory and how it is accessed. */
  datatype Upstream = Upstream(path: string, mode: Mode)

  /** Where written content goes when writing is enabled: the library's "rw" directory. */
  function RwPath(root: string): string {
    Join(root, "rw")
  }

  /** One read-only layer per rom, in scan order. */
  function ReadOnlyLayers(roms: seq<Rom>): (us: seq<Upstream>)
    ensures |us| == |roms|
    ensures forall i :: 0 <= i < |roms| ==> us[i] == Upstream(roms[i].Parent(), ReadOnly)
    decreases |roms|
  {
    if roms == [] then []
    else ReadOnlyLayers(roms[..|roms| - 1]) + [Upstream(roms[|roms| - 1].Parent(), ReadOnly)]
  }

  /** The layers of the union, highest priority first. */
  function Build(roms: seq<Rom>, enableWrite: bool, root: string): (us: seq<Upstream>)
    ensures |us| == |roms| + (if enableWrite then 1 else 0)
    ensures enableWrite ==> us[0] == Upstream(RwPath(root), ReadWrite)
    ensures forall i :: 0 <= i < |roms| ==> us[|us| - |roms| + i] == Upstream(roms[i].Parent(), ReadOnly)
  {
    var ro := ReadOnlyLayers(roms);
    if enableWrite then
      var us := [Upstream(RwPath(root), ReadWrite)] + ro;
      assert forall i :: 0 <= i < |roms| ==> us[1 + i] == ro[i];
      us
    else ro
  }

  /** Exactly one writable layer, in first position, when writing is enabled; none otherwise. */
  lemma BuildModes(roms: seq<Rom>, enableWrite: bool, root: string, i: nat)
    requires i < |Build(roms, enableWrite, root)|
    ensures Build(roms, enableWrite, root)[i].mode == ReadWrite <==> enableWrite && i == 0
  {
    var us := Build(roms, enableWrite, root);
    if !enableWrite || i > 0 {
      assert us[i] == us[|us| - |roms| + (i - (|us| - |roms|))];
    }
  }

  /**
   * The writable directory is never also a read-only layer: every scanned
   * rom exposes a path strictly longer than the library's "rw" path.
   * This rests on lengths alone (the subdirectory names have at least four
   * characters, "rw" has two), not on the block-list; RomOutsideRw and
   * BuildOutsideRw are the facts that need "rw" to be block-listed.
   */
  lemma RwNotScanned(root: string, entries: seq<DirEntry>, dirs: set<string>, rom: Rom)
    requires rom in Scanned(root, entries, dirs)
    ensures rom.Parent() != RwPath(root)
  {
    ScannedFromEntry(root, entries, dirs, rom);
    var i :| 0 <= i < |entries| && Resolve(root, entries[i], dirs) == Some(rom);
    assert |rom.subdirName| >= 4;
    assert |rom.dirPath| >= |DirPrefix(root)|;
  }

  /**
   * With writing enabled, the "rw" path appears only as the first, writable
   * layer. Like RwNotScanned, this is a length argument.
   */
  lemma BuildRwOnlyFirst(root: string, entries: seq<DirEntry>, dirs: set<string>)
    ensures var us := Build(Scanned(root, entries, dirs), true, root);
            forall i :: 0 < i < |us| ==> us[i].path != RwPath(root)
  {
    var roms := Scanned(root, entries, dirs);
    var us := Build(roms, true, root);
    forall i | 0 < i < |us| ensures us[i].path != RwPath(root) {
      assert us[i] == us[|us| - |roms| + (i - 1)];
      RwNotScanned(root, entries, dirs, roms[i - 1]);
    }
  }

  /**
   * No scanned rom exposes a directory inside the library's "rw" directory,
   * for listed names holding no '/'. This rests on "rw" being block-listed:
   * a title named "rw" would expose root/rw/merged or root/rw/base.
   */
  lemma RomOutsideRw(root: string, entries: seq<DirEntry>, dirs: set<string>, rom: Rom)
    requires forall i :: 0 <= i < |entries| ==> '/' !in entries[i].name
    requires rom in Scanned(root, entries, dirs)
    ensures !(RwPath(root) + "/" <= rom.Parent())
  {
    ScannedFromEntry(root, entries, dirs, rom);
    var i :| 0 <= i < |entries| && Resolve(root, entries[i], dirs) == Some(rom);
    ResolveOutsideRw(root, entries[i], dirs);
  }

  /** What one accepted entry with a '/'-free name resolves to lies outside root/rw. */
  lemma ResolveOutsideRw(root: string, e: DirEntry, dirs: set<string>)
    requires '/' !in e.name && Resolve(root, e, dirs).Some?
    ensures !(RwPath(root) + "/" <= Resolve(root, e, dirs).value.Parent())
  {
    var rom := Resolve(root, e, dirs).value;
    assert e.name != "rw";
    assert '/' !in rom.subdirName;
    NestedOutsideSibling(root, e.name, rom.subdirName, "rw");
  }

  /** With writing enabled, no read-only layer lies inside the writable "rw" directory. */
  lemma BuildOutsideRw(root: string, entries: seq<DirEntry>, dirs: set<string>)
    requires forall i :: 0 <= i < |entries| ==> '/' !in entries[i].name
    ensures var us := Build(Scanned(root, entries, dirs), true, root);
            forall i :: 0 < i < |us| ==> !(RwPath(root) + "/" <= us[i].path)
  {
    var roms := Scanned(root, entries, dirs);
    var us := Build(roms, true, root);
    forall i | 0 < i < |us| ensures !(RwPath(root) + "/" <= us[i].path) {
      assert us[i] == us[|us| - |roms| + (i - 1)];
      RomOutsideRw(root, entries, dirs, roms[i - 1]);
    }
  }

  /** How one layer is written in UPSTREAMS: read-only layers carry the "ro" option. */
  function UpstreamText(u: Upstream): string {
    Rendered(LocalRemote, u.path, if u.mode == ReadOnly then ["ro"] else [])
  }

  /** What createFS puts after each read-only upstream: a space only when there are several roms. */
  function Separator(count: nat): (sep: string)
    ensures |sep| <= 1
    ensures sep != "" <==> count > 1
  {
    if count > 1 then " " else ""
  }

  /** The read-only upstreams, each followed by the separator, as the loop of createFS appends them. */
  function ReadOnlyText(roms: seq<Rom>, sep: string): string
    decreases |roms|
  {
    if roms == [] then ""
    else ReadOnlyText(roms[..|roms| - 1], sep) + Rendered(LocalRemote, roms[|roms| - 1].Parent(), ["ro"]) + sep
  }

  /** One more loop iteration appends one more read-only upstream and its separator. */
  lemma ReadOnlyTextStep(roms: seq<Rom>, i: nat, sep: string)
    requires i < |roms|
    ensures ReadOnlyText(roms[..i + 1], sep) ==
            ReadOnlyText(roms[..i], sep) + (Rendered(LocalRemote, roms[i].Parent(), ["ro"]) + sep)
  {
    assert roms[..i + 1][..i] == roms[..i];
  }

  /** The writable upstream, which createFS always follows with one space. */
  function WritableText(root: string): string {
    Rendered(LocalRemote, RwPath(root), []) + " "
  }

  /** The UPSTREAMS value of the union remote as createFS assembles it. */
  function UpstreamsValue(roms: seq<Rom>, enableWrite: bool, root: string): (s: string)
    ensures enableWrite ==> WritableText(root) <= s
    ensures s == "" <==> !enableWrite && roms == []
  {
    var ro := ReadOnlyText(roms, Separator(|roms|));
    assert roms != [] ==> ro != [] by {
      if roms != [] {
        var n := |roms| - 1;
        assert |Rendered(LocalRemote, roms[n].Parent(), ["ro"])| >= 3;
      }
    }
    (if enableWrite then WritableText(root) else "") + ro
  }

  /** The text of each layer, in order. */
  function Texts(us: seq<Upstream>): (ws: seq<string>)
    ensures |ws| == |us|
    ensures forall i :: 0 <= i < |us| ==> ws[i] == UpstreamText(us[i])
    decreases |us|
  {
    if us == [] then [] else Texts(us[..|us| - 1]) + [UpstreamText(us[|us| - 1])]
  }

  lemma TextsAppend(a: seq<Upstream>, b: seq<Upstream>)
    ensures Texts(a + b) == Texts(a) + Texts(b)
  {
    var t, ta, tb := Texts(a + b), Texts(a), Texts(b);
    forall i | 0 <= i < |t| ensures t[i] == (ta + tb)[i] {
      if i < |a| {
        assert (a + b)[i] == a[i];
      } else {
        assert (a + b)[i] == b[i - |a|];
      }
    }
  }

  /** Words joined by single spaces, with nothing after the last. */
  function SpaceJoin(ws: seq<string>): string
    decreases |ws|
  {
    if ws == [] then ""
    else if |ws| == 1 then ws[0]
    else ws[0] + " " + SpaceJoin(ws[1..])
  }

  /** Words each followed by the separator. */
  function Terminated(ws: seq<string>, sep: string): string
    decreases |ws|
  {
    if ws == [] then "" else Terminated(ws[..|ws| - 1], sep) + ws[|ws| - 1] + sep
  }

  /** The layers of an overlay as UPSTREAMS text, joined by single spaces. */
  function SpaceJoined(us: seq<Upstream>): string {
    SpaceJoin(Texts(us))
  }

  lemma {:induction false} SpaceJoinSnoc(ws: seq<string>, w: string)
    requires ws != []
    ensures SpaceJoin(ws + [w]) == SpaceJoin(ws) + " " + w
    decreases |ws|
  {
    if |ws| > 1 {
      assert (ws + [w])[1..] == ws[1..] + [w];
      SpaceJoinSnoc(ws[1..], w);
    }
  }

  /** A word list each followed by a space is the space-joined list plus one trailing space. */
  lemma {:induction false} TerminatedBySpace(ws: seq<string>)
    requires ws != []
    ensures Terminated(ws, " ") == SpaceJoin(ws) + " "
    decreases |ws|
  {
    var n := |ws| - 1;
    if n > 0 {
      TerminatedBySpace(ws[..n]);
      assert ws == ws[..n] + [ws[n]];
      SpaceJoinSnoc(ws[..n], ws[n]);
    } else {
      assert ws[..n] == [];
    }
  }

  /** The read-only part createFS appends is the read-only layers' texts, each followed by the separator. */
  lemma {:induction false} ReadOnlyTextTerminated(roms: seq<Rom>, sep: string)
    ensures ReadOnlyText(roms, sep) == Terminated(Texts(ReadOnlyLayers(roms)), sep)
    decreases |roms|
  {
    if roms != [] {
      var n := |roms| - 1;
      ReadOnlyTextTerminated(roms[..n], sep);
      var ws := Texts(ReadOnlyLayers(roms));
      assert ws[..n] == Texts(ReadOnlyLayers(roms[..n]));
      assert ws[n] == Rendered(LocalRemote, roms[n].Parent(), ["ro"]);
    }
  }

  /** One word with nothing after it is the whole space-joined list. */
  lemma TerminatedSingle(ws: seq<string>)
    requires |ws| == 1
    ensures Terminated(ws, "") == SpaceJoin(ws)
  {
    assert ws[..0] == [];
  }

  /** The read-only part alone: the read-only layers space-joined, then the separator. */
  lemma ReadOnlyShape(roms: seq<Rom>, sep: string)
    requires sep == " " || (sep == "" && |roms| == 1)
    requires roms != []
    ensures ReadOnlyText(roms, sep) == SpaceJoined(ReadOnlyLayers(roms)) + sep
  {
    var ws := Texts(ReadOnlyLayers(roms));
    ReadOnlyTextTerminated(roms, sep);
    if sep == " " {
      TerminatedBySpace(ws);
    } else {
      TerminatedSingle(ws);
    }
  }

  lemma {:induction false} SpaceJoinCons(w: string, ws: seq<string>)
    requires ws != []
    ensures SpaceJoin([w] + ws) == w + " " + SpaceJoin(ws)
  {
    assert ([w] + ws)[1..] == ws;
  }

  /** Regrouping a concatenation; kept as a lemma so that callers do not pay for sequence extensionality. */
  lemma AppendAssoc(a: string, b: string, c: string)
    ensures (a + b) + c == a + (b + c)
  {
  }

  lemma WritableTextIs(root: string)
    ensures WritableText(root) == UpstreamText(Upstream(RwPath(root), ReadWrite)) + " "
  {
  }

  lemma TextsSingle(u: Upstream)
    ensures Texts([u]) == [UpstreamText(u)]
  {
  }

  /** The writable layer's text and its space in front of a non-empty space-joined list. */
  lemma WritableShape(root: string, ro: seq<Upstream>, sep: string)
    requires ro != []
    ensures WritableText(root) + (SpaceJoined(ro) + sep) ==
            SpaceJoined([Upstream(RwPath(root), ReadWrite)] + ro) + sep
  {
    var w := Upstream(RwPath(root), ReadWrite);
    var t := UpstreamText(w);
    TextsSingle(w);
    TextsAppend([w], ro);
    SpaceJoinCons(t, Texts(ro));
    WritableTextIs(root);
    AppendAssoc(t + " ", SpaceJoined(ro), sep);
  }

  /**
   * The exact shape of UPSTREAMS for a non-empty scan: the layers of Build
   * joined by single spaces, plus one trailing space when there are several
   * roms (and none when there is one).
   */
  lemma UpstreamsShape(roms: seq<Rom>, enableWrite: bool, root: string)
    requires roms != []
    ensures UpstreamsValue(roms, enableWrite, root) == SpaceJoined(Build(roms, enableWrite, root)) + Separator(|roms|)
  {
    var sep := Separator(|roms|);
    var ro := ReadOnlyLayers(roms);
    ReadOnlyShape(roms, sep);
    if enableWrite {
      WritableShape(root, ro, sep);
      assert Build(roms, enableWrite, root) == [Upstream(RwPath(root), ReadWrite)] + ro;
    } else {
      assert Build(roms, enableWrite, root) == ro;
    }
  }

  // Decoding UPSTREAMS back into layers, the way a reader of the union
  // configuration splits it: quoted entries separated by spaces.

  predicate EndsWithRo(p: string) {
    |p| >= 3 && p[|p| - 3..] == ":ro"
  }

  /** Reads `ROMFULOCAL:path[:ro]` (the text between the quotes) back into a layer. */
  function ParseUpstream(text: string): Option<Upstream> {
    var prefix := LocalRemote + ":";
    if |text| < |prefix| || text[..|prefix|] != prefix then None
    else
      var rest := text[|prefix|..];
      if EndsWithRo(rest) then Some(Upstream(rest[..|rest| - 3], ReadOnly))
      else Some(Upstream(rest, ReadWrite))
  }

  /** Index of the first double quote at or after k, or |s| if there is none. */
  function QuoteEnd(s: string, k: nat): (j: nat)
    requires k <= |s|
    ensures k <= j <= |s|
    ensures forall i :: k <= i < j ==> s[i] != '"'
    ensures j < |s| ==> s[j] == '"'
    decreases |s| - k
  {
    if k == |s| || s[k] == '"' then k else QuoteEnd(s, k + 1)
  }

  /** Splits a space-separated list of quoted upstreams; spaces around entries are skipped. */
  function ParseUpstreams(s: string): Option<seq<Upstream>>
    decreases |s|
  {
    if s == [] then Some([])
    else if s[0] == ' ' then ParseUpstreams(s[1..])
    else if s[0] != '"' then None
    else
      var j := QuoteEnd(s, 1);
      if j == |s| || (j + 1 < |s| && s[j + 1] != ' ') then None
      else
        match ParseUpstream(s[1..j])
        case None => None
        case Some(u) =>
          match ParseUpstreams(s[j + 1..])
          case None => None
          case Some(us) => Some([u] + us)
  }

  /** A layer whose text reads back unambiguously: no quote in its path, and a writable path not ending in ":ro". */
  predicate Decodable(u: Upstream) {
    '"' !in u.path && (u.mode == ReadWrite ==> !EndsWithRo(u.path))
  }

  /** What follows the path inside the quotes: ":ro" for a read-only layer. */
  function ModeSuffix(m: Mode): string {
    if m == ReadOnly then ":ro" else ""
  }

  /** A layer's text is its remote, path and mode suffix between double quotes. */
  lemma UpstreamTextQuoted(u: Upstream)
    ensures UpstreamText(u) == "\"" + (LocalRemote + ":" + u.path + ModeSuffix(u.mode)) + "\""
  {
    assert OptionSuffix(["ro"]) == ":ro" by {
      assert ["ro"][..0] == [];
    }
  }

  /** The text between the quotes reads back as the layer. */
  lemma ParseInner(u: Upstream)
    requires Decodable(u)
    ensures var inner := LocalRemote + ":" + u.path + ModeSuffix(u.mode);
            '"' !in inner && ParseUpstream(inner) == Some(u)
  {
    var prefix := LocalRemote + ":";
    var suffix := ModeSuffix(u.mode);
    var inner := prefix + u.path + suffix;
    assert inner[..|prefix|] == prefix;
    var rest := inner[|prefix|..];
    assert rest == u.path + suffix;
    if u.mode == ReadOnly {
      assert rest[|rest| - 3..] == ":ro";
      assert rest[..|rest| - 3] == u.path;
    } else {
      assert rest == u.path;
    }
  }

  /** A decodable layer's text, without its quotes, holds no quote and reads back as the layer. */
  lemma ParseUpstreamText(u: Upstream)
    requires Decodable(u)
    ensures var t := UpstreamText(u);
            '"' !in t[1..|t| - 1] && ParseUpstream(t[1..|t| - 1]) == Some(u)
  {
    UpstreamTextQuoted(u);
    var inner := LocalRemote + ":" + u.path + ModeSuffix(u.mode);
    var t := "\"" + inner + "\"";
    assert t[1..|t| - 1] == inner;
    ParseInner(u);
  }

  lemma ParseAfterText(u: Upstream, rest: string)
    requires Decodable(u)
    requires rest == [] || rest[0] == ' '
    ensures ParseUpstreams(UpstreamText(u) + rest) ==
            match ParseUpstreams(rest)
            case None => None
            case Some(us) => Some([u] + us)
  {
    var t := UpstreamText(u);
    var s := t + rest;
    ParseUpstreamText(u);
    var inner := t[1..|t| - 1];
    assert s[0] == '"';
    var j := QuoteEnd(s, 1);
    assert forall i :: 1 <= i < |t| - 1 ==> s[i] == inner[i - 1];
    assert s[|t| - 1] == '"';
    assert j == |t| - 1;
    assert s[1..j] == inner;
    assert s[j + 1..] == rest;
  }

  /** A tail of at most one space reads back as no layers. */
  lemma ParseTail(tail: string)
    requires tail == "" || tail == " "
    ensures ParseUpstreams(tail) == Some([])
  {
    if tail == " " {
      assert tail[1..] == [];
    }
  }

  /** A leading space is skipped. */
  lemma ParseLeadingSpace(x: string)
    ensures ParseUpstreams(" " + x) == ParseUpstreams(x)
  {
    assert (" " + x)[1..] == x;
  }

  /** Several layers: the first one's text, a space, then the rest joined. */
  lemma SpaceJoinedCons(us: seq<Upstream>)
    requires |us| > 1
    ensures SpaceJoined(us) == UpstreamText(us[0]) + " " + SpaceJoined(us[1..])
  {
    assert Texts(us)[1..] == Texts(us[1..]);
  }

  /** The inductive step: a decodable first layer in front of a list that reads back. */
  lemma ParseSpaceJoinedCons(us: seq<Upstream>, tail: string)
    requires |us| > 1 && Decodable(us[0])
    requires ParseUpstreams(SpaceJoined(us[1..]) + tail) == Some(us[1..])
    ensures ParseUpstreams(SpaceJoined(us) + tail) == Some(us)
  {
    var later := SpaceJoined(us[1..]) + tail;
    SpaceJoinedCons(us);
    AppendAssoc(UpstreamText(us[0]) + " ", SpaceJoined(us[1..]), tail);
    AppendAssoc(UpstreamText(us[0]), " ", later);
    ParseLeadingSpace(later);
    ParseAfterText(us[0], " " + later);
    assert [us[0]] + us[1..] == us;
  }

  /** Space-joined decodable layers, with at most one space after them, read back as those layers. */
  lemma {:induction false} ParseSpaceJoined(us: seq<Upstream>, tail: string)
    requires tail == "" || tail == " "
    requires AllDecodable(us)
    ensures ParseUpstreams(SpaceJoined(us) + tail) == Some(us)
    decreases |us|
  {
    if us == [] {
      assert SpaceJoined(us) + tail == tail;
      ParseTail(tail);
    } else if |us| == 1 {
      assert SpaceJoined(us) + tail == UpstreamText(us[0]) + tail;
      ParseTail(tail);
      ParseAfterText(us[0], tail);
      assert [us[0]] + [] == us;
    } else {
      ParseSpaceJoined(us[1..], tail);
      ParseSpaceJoinedCons(us, tail);
    }
  }

  /** The writable layer reads back: the root holds no quote and the path ends in "rw". */
  lemma RwDecodable(root: string)
    requires '"' !in root
    ensures Decodable(Upstream(RwPath(root), ReadWrite))
  {
    JoinAvoids('"', root, "rw");
    var p := RwPath(root);
    assert p[|p| - 1] == 'w';
  }

  /** Every layer reads back. */
  predicate AllDecodable(us: seq<Upstream>) {
    forall i :: 0 <= i < |us| ==> Decodable(us[i])
  }

  lemma AllDecodableAppend(a: seq<Upstream>, b: seq<Upstream>)
    requires AllDecodable(a) && AllDecodable(b)
    ensures AllDecodable(a + b)
  {
    forall i | 0 <= i < |a + b| ensures Decodable((a + b)[i]) {
      if i >= |a| {
        assert (a + b)[i] == b[i - |a|];
      }
    }
  }

  /** Every layer of Build reads back when no path holds a quote. */
  lemma BuildDecodable(roms: seq<Rom>, enableWrite: bool, root: string)
    requires '"' !in root
    requires forall i :: 0 <= i < |roms| ==> '"' !in roms[i].Parent()
    ensures AllDecodable(Build(roms, enableWrite, root))
  {
    var ro := ReadOnlyLayers(roms);
    assert AllDecodable(ro);
    if enableWrite {
      RwDecodable(root);
      AllDecodableAppend([Upstream(RwPath(root), ReadWrite)], ro);
    } else {
      assert Build(roms, enableWrite, root) == ro;
    }
  }

  /**
   * Round trip: as long as no path holds a double quote, the UPSTREAMS value
   * createFS writes reads back as exactly the layers of Build, in order and
   * with their access modes.
   */
  lemma UpstreamsRoundTrip(roms: seq<Rom>, enableWrite: bool, root: string)
    requires '"' !in root
    requires forall i :: 0 <= i < |roms| ==> '"' !in roms[i].Parent()
    ensures ParseUpstreams(UpstreamsValue(roms, enableWrite, root)) == Some(Build(roms, enableWrite, root))
  {
    var us := Build(roms, enableWrite, root);
    BuildDecodable(roms, enableWrite, root);
    if roms != [] {
      UpstreamsShape(roms, enableWrite, root);
      ParseSpaceJoined(us, Separator(|roms|));
    } else if enableWrite {
      assert us == [Upstream(RwPath(root), ReadWrite)];
      assert UpstreamsValue(roms, enableWrite, root) == SpaceJoined(us) + " ";
      ParseSpaceJoined(us, " ");
    } else {
      assert UpstreamsValue(roms, enableWrite, root) == "";
    }
  }
}
