/**
 * Slash-separated paths as built by Go's `path.Join` on a directory and one
 * entry name. Entry names coming from a directory listing, and the fixed
 * subdirectory names, are never empty and hold no '/', so the only cleaning
 * that matters is not doubling a trailing '/' of the directory.
 */
module Paths {

  /** What `path.Join` puts in front of the name: the directory and one '/'. */
  function DirPrefix(dir: string): (pre: string)
    ensures |dir| <= |pre| && pre[..|dir|] == dir
    ensures pre != [] ==> pre[|pre| - 1] == '/'
  {
    if dir == [] then []
    else if dir[|dir| - 1] == '/' then dir
    else dir + "/"
  }

  /** `path.Join(dir, name)` */
  function Join(dir: string, name: string): string {
    DirPrefix(dir) + name
  }

  /**
   * What `Join` gives, case by case: the directory, one '/' unless the
   * directory is empty or already ends in '/', then the name.
   */
  lemma JoinCases(dir: string, name: string)
    ensures dir == [] || dir[|dir| - 1] == '/' ==> Join(dir, name) == dir + name
    ensures dir != [] && dir[|dir| - 1] != '/' ==> Join(dir, name) == dir + "/" + name
  {
  }

  /** The joined path starts with the directory, ends with the name, and adds at most one '/'. */
  lemma JoinParts(dir: string, name: string)
    ensures |dir| + |name| <= |Join(dir, name)| <= |dir| + |name| + 1
    ensures Join(dir, name)[..|dir|] == dir
    ensures Join(dir, name)[|Join(dir, name)| - |name|..] == name
  {
    var p := Join(dir, name);
    assert p[|p| - |name|..] == name;
  }

  /** Two different names joined onto the same directory give two different paths. */
  lemma JoinInjective(dir: string, a: string, b: string)
    requires Join(dir, a) == Join(dir, b)
    ensures a == b
  {
    var n := |DirPrefix(dir)|;
    assert a == Join(dir, a)[n..];
    assert b == Join(dir, b)[n..];
  }

  /** A character other than '/' is in a joined path only if it was in one of its parts. */
  lemma JoinAvoids(c: char, dir: string, name: string)
    requires c != '/' && c !in dir && c !in name
    ensures c !in Join(dir, name)
  {
    var pre := DirPrefix(dir);
    assert c !in pre by {
      if pre != dir {
        assert pre == dir + "/";
      }
    }
    assert Join(dir, name) == pre + name;
  }

  /** A directory prefix is its own directory prefix. */
  lemma DirPrefixIdempotent(dir: string)
    ensures DirPrefix(DirPrefix(dir)) == DirPrefix(dir)
  {
  }

  /** Two '/'-free names of which one is `other`: the first segment of `name + "/" + rest` is not `other`. */
  lemma SegmentDiffers(name: string, rest: string, other: string)
    requires '/' !in name && '/' !in other && name != other
    ensures !(other + "/" <= name + "/" + rest)
  {
    var s := name + "/" + rest;
    var t := other + "/";
    var m := |other|;
    if |s| > m {
      if |name| < m {
        assert s[|name|] != t[|name|];
      } else if |name| > m {
        assert s[m] != t[m];
      } else {
        assert s[..m] == name && t[..m] == other;
      }
    }
  }

  /** With an empty name, the subdirectory sits right under dir's prefix and has no '/' where the sibling would need one. */
  lemma EmptyNameOutsideSibling(dir: string, sub: string, other: string)
    requires '/' !in sub
    ensures !(Join(dir, other) + "/" <= Join(Join(dir, ""), sub))
  {
    var pre := DirPrefix(dir);
    DirPrefixIdempotent(dir);
    var p := Join(Join(dir, ""), sub);
    assert p == pre + sub;
    if |p| > |pre| + |other| {
      assert p[|pre| + |other|] == sub[|other|];
    }
  }

  /** A common front does not change whether one string starts with another. */
  lemma PrefixCancel(pre: string, x: string, y: string)
    ensures (pre + x <= pre + y) == (x <= y)
  {
    if pre + x <= pre + y {
      assert (pre + x)[|pre|..] == x;
      assert (pre + y)[|pre|..|pre| + |x|] == y[..|x|];
    }
  }

  /** With a non-empty name, the first segment after dir's prefix is that name, not the sibling. */
  lemma NamedOutsideSibling(dir: string, name: string, sub: string, other: string)
    requires name != [] && '/' !in name && '/' !in other && name != other
    ensures !(Join(dir, other) + "/" <= Join(Join(dir, name), sub))
  {
    var pre := DirPrefix(dir);
    var p := Join(Join(dir, name), sub);
    assert name[|name| - 1] != '/';
    assert p == pre + (name + "/" + sub);
    assert Join(dir, other) + "/" == pre + (other + "/");
    SegmentDiffers(name, sub, other);
    PrefixCancel(pre, other + "/", name + "/" + sub);
  }

  /**
   * A subdirectory of dir/name never lies inside dir/other, for different
   * '/'-free names and a '/'-free subdirectory name.
   */
  lemma NestedOutsideSibling(dir: string, name: string, sub: string, other: string)
    requires '/' !in name && '/' !in sub && '/' !in other && name != other
    ensures !(Join(dir, other) + "/" <= Join(Join(dir, name), sub))
  {
    if name == [] {
      EmptyNameOutsideSibling(dir, sub, other);
    } else {
      NamedOutsideSibling(dir, name, sub, other);
    }
  }
}
