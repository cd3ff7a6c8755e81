/**
 * The rclone remote syntax used for union upstreams: a remote name, a path
 * and zero or more options, colon-separated and enclosed in double quotes.
 */
module Rclone {

  /** ":o1:o2…" — every option preceded by a colon, in order. */
  function OptionSuffix(options: seq<string>): (s: string)
    ensures options == [] ==> s == ""
    ensures |s| >= |options|
    decreases |options|
  {
    if options == [] then ""
    else OptionSuffix(options[..|options| - 1]) + ":" + options[|options| - 1]
  }

  /** The rendering `"remote:path[:option]*"` that fmtRclone produces. */
  function Rendered(remote: string, path: string, options: seq<string>): (s: string)
    ensures |s| >= |remote| + |path| + 3
    ensures s[0] == '"' && s[|s| - 1] == '"'
  {
    "\"" + remote + ":" + path + OptionSuffix(options) + "\""
  }

  /** fmtRclone: starts from the quoted `remote:path` and appends each option in a loop. */
  method FmtRclone(remote: string, path: string, options: seq<string>) returns (formatted: string)
    ensures formatted == Rendered(remote, path, options)
  {
    formatted := "\"" + remote + ":" + path;
    for i := 0 to |options|
      invariant formatted == "\"" + remote + ":" + path + OptionSuffix(options[..i])
    {
      assert options[..i + 1][..i] == options[..i];
      formatted := formatted + ":" + options[i];
    }
    assert options[..|options|] == options;
    formatted := formatted + "\"";
  }

  /** Without options the rendering is exactly the quoted `remote:path`. */
  lemma RenderedWithoutOptions(remote: string, path: string)
    ensures Rendered(remote, path, []) == "\"" + remote + ":" + path + "\""
  {
  }

  /** A read-only upstream ends in `:ro"`, right after the path. */
  lemma RenderedReadOnly(remote: string, path: string)
    ensures Rendered(remote, path, ["ro"]) == "\"" + remote + ":" + path + ":ro" + "\""
    ensures Rendered(remote, path, ["ro"])[|remote| + |path| + 2..] == ":ro\""
  {
    assert OptionSuffix(["ro"]) == ":ro" by {
      assert ["ro"][..0] == [];
    }
  }

  /** Options are rendered one after the other: the suffix of a concatenation is the concatenation of the suffixes. */
  lemma {:induction false} OptionSuffixAppend(options: seq<string>, more: seq<string>)
    ensures OptionSuffix(options + more) == OptionSuffix(options) + OptionSuffix(more)
    decreases |more|
  {
    if more == [] {
      assert options + more == options;
    } else {
      var init := more[..|more| - 1];
      assert (options + more)[..|options + more| - 1] == options + init;
      OptionSuffixAppend(options, init);
    }
  }
}
