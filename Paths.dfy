/** Path strings: the POSIX relative path handed to the ignore matcher for
    each entry, and the display name of the traversal root. */
module Paths {
  import opened FileTree

  /** Segments joined with '/', as a POSIX relative path is spelled. */
  function Join(segs: seq<string>): string
  {
    if segs == [] then ""
    else if |segs| == 1 then segs[0]
    else Join(segs[..|segs| - 1]) + "/" + segs[|segs| - 1]
  }

  /** The path of entry e of the directory reached from the root through the
      segments `parent`, relative to the root, POSIX-separated, with '/'
      appended when e is a directory. This is the string the ignore matcher
      is asked about. */
  function RelativePath(parent: seq<string>, e: Entry): string
  {
    Join(parent + [e.name]) + (if e.Dir? then "/" else "")
  }

  /** Joining one more segment adds a separator and the segment. */
  lemma JoinSnoc(segs: seq<string>, n: string)
    ensures Join(segs + [n]) == if segs == [] then n else Join(segs) + "/" + n
  {
    assert (segs + [n])[..|segs|] == segs;
  }

  /** The matcher sees a trailing '/' exactly for directories. */
  lemma RelativePathTrailingSlash(parent: seq<string>, e: Entry)
    requires ValidName(e.name)
    ensures var p := RelativePath(parent, e);
            p != [] && (p[|p| - 1] == '/' <==> e.Dir?)
  {
    JoinSnoc(parent, e.name);
    var n := e.name;
    assert n[|n| - 1] in n;
  }

  /** The path of an entry inside directory d is d's own matcher path
      (which ends in '/') followed by the entry's name. */
  lemma RelativePathOfChild(parent: seq<string>, d: string, c: Listing, e: Entry)
    ensures RelativePath(parent + [d], e) ==
            RelativePath(parent, Dir(d, c)) + e.name + (if e.Dir? then "/" else "")
  {
    JoinSnoc(parent, d);
    JoinSnoc(parent + [d], e.name);
  }

  /** s with every trailing occurrence of c removed (Python's str.rstrip(c)). */
  function RStrip(s: string, c: char): (r: string)
    ensures r <= s
    ensures r == [] || r[|r| - 1] != c
    ensures forall k :: |r| <= k < |s| ==> s[k] == c
  {
    if s != [] && s[|s| - 1] == c then RStrip(s[..|s| - 1], c) else s
  }

  /** The text after the last '/' of p (POSIX os.path.basename). */
  function Basename(p: string): (r: string)
    ensures '/' !in r
    ensures |r| <= |p| && p[|p| - |r|..] == r
    ensures |r| < |p| ==> p[|p| - |r| - 1] == '/'
  {
    if p == [] || p[|p| - 1] == '/' then []
    else Basename(p[..|p| - 1]) + [p[|p| - 1]]
  }

  /** The name the root line shows: the last component of the root path once
      trailing separators are stripped, or the whole path when that is empty
      (the filesystem root). */
  function RootName(rootDir: string): string
  {
    var name := Basename(RStrip(rootDir, '/'));
    if name == [] then rootDir else name
  }

  /** r occurs in path at i, starts the path or follows a separator, and
      only separators follow it: r is path's last component. */
  ghost predicate LastComponentAt(path: string, i: int, r: string) {
    0 <= i <= |path| - |r| &&
    path[i..i + |r|] == r &&
    (i == 0 || path[i - 1] == '/') &&
    forall k :: i + |r| <= k < |path| ==> path[k] == '/'
  }

  /** A root path made only of separators is shown as it is; any other root
      path is shown as its last component, which is a valid entry name. */
  lemma RootNameIsLastComponent(rootDir: string)
    ensures (forall k :: 0 <= k < |rootDir| ==> rootDir[k] == '/') ==> RootName(rootDir) == rootDir
    ensures (exists k :: 0 <= k < |rootDir| && rootDir[k] != '/') ==>
              ValidName(RootName(rootDir)) &&
              exists i :: LastComponentAt(rootDir, i, RootName(rootDir))
  {
    var s := RStrip(rootDir, '/');
    var b := Basename(s);
    if exists k :: 0 <= k < |rootDir| && rootDir[k] != '/' {
      var k :| 0 <= k < |rootDir| && rootDir[k] != '/';
      assert k < |s| && s[k] == rootDir[k];
      assert b != [];
      var i := |s| - |b|;
      assert rootDir[i..i + |b|] == s[i..];
      assert i > 0 ==> rootDir[i - 1] == s[i - 1];
      assert LastComponentAt(rootDir, i, b);
    }
  }

  /** The last segment of a joined path is recovered by Basename. */
  lemma {:induction false} BasenameOfJoin(segs: seq<string>, n: string)
    requires ValidName(n)
    ensures Basename(Join(segs + [n])) == n
  {
    JoinSnoc(segs, n);
    BasenameSuffix(if segs == [] then "" else Join(segs) + "/", n);
  }

  lemma {:induction false} BasenameSuffix(dir: string, n: string)
    requires '/' !in n
    requires dir == [] || dir[|dir| - 1] == '/'
    ensures Basename(dir + n) == n
    decreases |n|
  {
    if n == [] {
      assert dir + n == dir;
    } else {
      var m := n[..|n| - 1];
      var c := n[|n| - 1];
      var p := dir + n;
      assert c in n;
      assert p[|p| - 1] == c && c != '/';
      assert p[..|p| - 1] == dir + m;
      assert Basename(p) == Basename(dir + m) + [c];
      BasenameSuffix(dir, m);
      assert m + [c] == n;
    }
  }
}
