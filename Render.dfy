/** The tree renderer: which entries of a listing are shown, in what order,
    and the lines drawn for them, first as functions over the tree and then
    as the step-by-step procedure that produces the same lines. */
module Render {
  import opened FileTree
  import opened Ordering
  import opened Paths

  /** The display category of an output line (the renderer colours these
      differently; only the category is kept). */
  datatype Tag = RootTag | DirTag | FileTag | ErrorTag

  /** One output line. */
  datatype Line = Line(tag: Tag, text: string)

  const Tee := "├── "
  const Elbow := "└── "
  const Pipe := "│   "
  const Blank := "    "
  const DeniedMarker := "[Permission Denied]"

  /** The connector drawn before an entry: the elbow for the last shown entry
      of a directory, the tee for every other one. */
  function Connector(isLast: bool): string {
    if isLast then Elbow else Tee
  }

  /** The prefix handed to the listing of a shown subdirectory. */
  function ChildPrefix(prefix: string, isLast: bool): string {
    prefix + (if isLast then Blank else Pipe)
  }

  /** The line that shows entry e itself. */
  function Heading(e: Entry, prefix: string, isLast: bool): Line {
    match e
    case File(n) => Line(FileTag, prefix + Connector(isLast) + n)
    case Dir(n, _) => Line(DirTag, prefix + Connector(isLast) + n + "/")
  }

  /** The entries of s, in order, whose relative path the matcher does not
      exclude. */
  function Kept(parent: seq<string>, s: seq<Entry>, excluded: string -> bool): (r: seq<Entry>)
    ensures forall e :: e in r <==> e in s && !excluded(RelativePath(parent, e))
    ensures |r| <= |s|
  {
    if s == [] then []
    else
      assert s == [s[0]] + s[1..];
      (if excluded(RelativePath(parent, s[0])) then [] else [s[0]]) + Kept(parent, s[1..], excluded)
  }

  /** The entries of a listing that are shown: sorted by name, then filtered. */
  function Survivors(parent: seq<string>, es: seq<Entry>, excluded: string -> bool): (r: seq<Entry>)
    ensures forall e :: e in r <==> e in es && !excluded(RelativePath(parent, e))
    ensures |r| <= |es|
  {
    SortByNameMembers(es);
    Kept(parent, SortByName(es), excluded)
  }

  /** The lines drawn for the directory reached through `parent` whose listing
      is l, each starting with `prefix`. */
  function RenderListing(l: Listing, parent: seq<string>, prefix: string, excluded: string -> bool): seq<Line>
    decreases l, 0
  {
    match l
    case Denied => [Line(ErrorTag, prefix + Elbow + DeniedMarker)]
    case Listed(es) => RenderItems(es, 0, parent, prefix, excluded)
  }

  /** The lines drawn for the shown entries of a listing from position i on. */
  function RenderItems(es: seq<Entry>, i: nat, parent: seq<string>, prefix: string,
                       excluded: string -> bool): seq<Line>
    decreases es, |Survivors(parent, es, excluded)| - i
  {
    var items := Survivors(parent, es, excluded);
    if i >= |items| then []
    else
      assert items[i] in es;
      Block(items[i], parent, prefix, i == |items| - 1, excluded) +
      RenderItems(es, i + 1, parent, prefix, excluded)
  }

  /** The lines drawn for one shown entry: its heading and, for a directory,
      its listing drawn one level deeper. */
  function Block(e: Entry, parent: seq<string>, prefix: string, isLast: bool,
                 excluded: string -> bool): seq<Line>
    decreases e, 0
  {
    [Heading(e, prefix, isLast)] +
    match e
    case File(_) => []
    case Dir(n, sub) => RenderListing(sub, parent + [n], ChildPrefix(prefix, isLast), excluded)
  }

  /** The whole output for the root directory rootDir whose listing is root. */
  function Tree(rootDir: string, root: Listing, excluded: string -> bool): seq<Line> {
    [Line(RootTag, RootName(rootDir) + "/")] + RenderListing(root, [], "", excluded)
  }

  /** The renderer's procedure for one directory: list and sort, keep the
      entries the matcher does not exclude, then draw each kept entry and
      descend into kept subdirectories. */
  method PrintTree(l: Listing, parent: seq<string>, prefix: string, excluded: string -> bool)
    returns (lines: seq<Line>)
    ensures lines == RenderListing(l, parent, prefix, excluded)
    decreases l
  {
    if l.Denied? {
      return [Line(ErrorTag, prefix + Elbow + DeniedMarker)];
    }
    var items := SortByName(l.entries);
    var filtered := FilterItems(parent, items, excluded);
    assert filtered == Survivors(parent, l.entries, excluded);

    var total := |filtered|;
    lines := [];
    for index := 0 to total
      invariant lines + RenderItems(l.entries, index, parent, prefix, excluded) ==
                RenderItems(l.entries, 0, parent, prefix, excluded)
    {
      var item := filtered[index];
      var isLast := index == total - 1;
      RenderItemsStep(l.entries, index, parent, prefix, excluded);
      var connector := if isLast then Elbow else Tee;
      var block;
      if item.Dir? {
        var head := Line(DirTag, prefix + connector + item.name + "/");
        var newPrefix := prefix + (if isLast then Blank else Pipe);
        ContentsBelow(l, item);
        var sub := PrintTree(item.contents, parent + [item.name], newPrefix, excluded);
        BlockOfDir(item, parent, prefix, isLast, excluded);
        block := [head] + sub;
      } else {
        BlockOfFile(item, parent, prefix, isLast, excluded);
        block := [Line(FileTag, prefix + connector + item.name)];
      }
      AppendAssoc(lines, block, RenderItems(l.entries, index + 1, parent, prefix, excluded));
      lines := lines + block;
    }
  }

  /** The renderer's first pass over a sorted listing: compute each entry's
      relative path (with '/' for a directory) and keep the entry unless the
      matcher excludes that path. */
  method FilterItems(parent: seq<string>, items: seq<Entry>, excluded: string -> bool)
    returns (filtered: seq<Entry>)
    ensures filtered == Kept(parent, items, excluded)
  {
    filtered := [];
    for k := 0 to |items|
      invariant filtered == Kept(parent, items[..k], excluded)
    {
      var item := items[k];
      var rel := Join(parent + [item.name]);
      if item.Dir? {
        rel := rel + "/";
      }
      assert rel == RelativePath(parent, item);
      assert items[..k + 1] == items[..k] + [item];
      KeptSnoc(parent, items[..k], item, excluded);
      if excluded(rel) {
        continue;
      }
      filtered := filtered + [item];
    }
    assert items[..|items|] == items;
  }

  /** Concatenation is associative. */
  lemma AppendAssoc<T>(a: seq<T>, b: seq<T>, c: seq<T>)
    ensures (a + b) + c == a + (b + c)
  {}

  /** The listing of a subdirectory is structurally smaller than the listing
      that contains it, so the descent terminates. */
  lemma ContentsBelow(l: Listing, e: Entry)
    requires l.Listed? && e in l.entries && e.Dir?
    ensures e.contents < l
  {}

  /** The entry point: the root line, then the root's listing. */
  method TreeCommand(rootDir: string, root: Listing, excluded: string -> bool)
    returns (lines: seq<Line>)
    ensures lines == Tree(rootDir, root, excluded)
  {
    var rootName := Basename(RStrip(rootDir, '/'));
    if rootName == [] {
      rootName := rootDir;
    }
    lines := [Line(RootTag, rootName + "/")];
    var rest := PrintTree(root, [], "", excluded);
    lines := lines + rest;
  }

  /** One step of the enumeration: the block of the entry at position i,
      then the rest. */
  lemma RenderItemsStep(es: seq<Entry>, i: nat, parent: seq<string>, prefix: string, excluded: string -> bool)
    requires i < |Survivors(parent, es, excluded)|
    ensures var items := Survivors(parent, es, excluded);
            RenderItems(es, i, parent, prefix, excluded) ==
            Block(items[i], parent, prefix, i == |items| - 1, excluded) + RenderItems(es, i + 1, parent, prefix, excluded)
  {
  }

  /** A shown directory: its heading, then its own listing one level deeper. */
  lemma BlockOfDir(e: Entry, parent: seq<string>, prefix: string, isLast: bool, excluded: string -> bool)
    requires e.Dir?
    ensures Block(e, parent, prefix, isLast, excluded) ==
            [Line(DirTag, prefix + Connector(isLast) + e.name + "/")] +
            RenderListing(e.contents, parent + [e.name], ChildPrefix(prefix, isLast), excluded)
  {
  }

  /** A shown file: its heading only. */
  lemma BlockOfFile(e: Entry, parent: seq<string>, prefix: string, isLast: bool, excluded: string -> bool)
    requires e.File?
    ensures Block(e, parent, prefix, isLast, excluded) == [Line(FileTag, prefix + Connector(isLast) + e.name)]
  {
  }

  /** Filtering one more entry appends it exactly when it is not excluded. */
  lemma {:induction false} KeptSnoc(parent: seq<string>, s: seq<Entry>, x: Entry, excluded: string -> bool)
    ensures Kept(parent, s + [x], excluded) ==
            Kept(parent, s, excluded) + (if excluded(RelativePath(parent, x)) then [] else [x])
  {
    var kx := if excluded(RelativePath(parent, x)) then [] else [x];
    if s != [] {
      var t := s[1..];
      var k0 := if excluded(RelativePath(parent, s[0])) then [] else [s[0]];
      assert (s + [x])[0] == s[0];
      assert (s + [x])[1..] == t + [x];
      KeptSnoc(parent, t, x, excluded);
      assert Kept(parent, s + [x], excluded) == k0 + (Kept(parent, t, excluded) + kx);
      assert Kept(parent, s, excluded) == k0 + Kept(parent, t, excluded);
      AppendAssoc(k0, Kept(parent, t, excluded), kx);
    } else {
      assert [x][1..] == [];
      assert Kept(parent, [x], excluded) == kx + Kept(parent, [], excluded);
    }
  }
}
