/** What the renderer's output looks like: every line sits under its
    directory's prefix, the headings of a directory are its surviving
    entries in name order with the elbow on the last one, excluded subtrees
    are never looked at, and the number of lines is the number of entries
    shown. */
module Layout {
  import opened FileTree
  import opened Ordering
  import opened Paths
  import opened Render

  // ---------------------------------------------------------------------
  // Prefixes

  /** Every line starts with the given prefix. */
  ghost predicate AllUnder(lines: seq<Line>, prefix: string) {
    forall k :: 0 <= k < |lines| ==> prefix <= lines[k].text
  }

  lemma AllUnderConcat(a: seq<Line>, b: seq<Line>, prefix: string)
    requires AllUnder(a, prefix) && AllUnder(b, prefix)
    ensures AllUnder(a + b, prefix)
  {
    forall k | 0 <= k < |a + b| ensures prefix <= (a + b)[k].text {
      if k < |a| { assert (a + b)[k] == a[k]; } else { assert (a + b)[k] == b[k - |a|]; }
    }
  }

  lemma AllUnderWeaken(lines: seq<Line>, prefix: string, longer: string)
    requires prefix <= longer && AllUnder(lines, longer)
    ensures AllUnder(lines, prefix)
  {
    forall k | 0 <= k < |lines| ensures prefix <= lines[k].text {
      assert lines[k].text[..|prefix|] == longer[..|prefix|];
    }
  }

  /** Every line drawn for a directory, at any depth below it, begins with
      the prefix that directory was drawn with. */
  lemma {:induction false} ListingUnderPrefix(l: Listing, parent: seq<string>, prefix: string,
                                              excluded: string -> bool)
    ensures AllUnder(RenderListing(l, parent, prefix, excluded), prefix)
    decreases l, 0
  {
    match l
    case Denied =>
    case Listed(es) => ItemsUnderPrefix(es, 0, parent, prefix, excluded);
  }

  lemma {:induction false} ItemsUnderPrefix(es: seq<Entry>, i: nat, parent: seq<string>, prefix: string,
                                            excluded: string -> bool)
    ensures AllUnder(RenderItems(es, i, parent, prefix, excluded), prefix)
    decreases es, |Survivors(parent, es, excluded)| - i
  {
    var items := Survivors(parent, es, excluded);
    if i < |items| {
      var e := items[i];
      assert e in es;
      var isLast := i == |items| - 1;
      RenderItemsStep(es, i, parent, prefix, excluded);
      BlockUnderPrefix(e, parent, prefix, isLast, excluded);
      ItemsUnderPrefix(es, i + 1, parent, prefix, excluded);
      AllUnderConcat(Block(e, parent, prefix, isLast, excluded), RenderItems(es, i + 1, parent, prefix, excluded), prefix);
    }
  }

  lemma {:induction false} BlockUnderPrefix(e: Entry, parent: seq<string>, prefix: string, isLast: bool,
                                            excluded: string -> bool)
    ensures AllUnder(Block(e, parent, prefix, isLast, excluded), prefix)
    decreases e, 0
  {
    var h := Heading(e, prefix, isLast);
    assert h.text[..|prefix|] == prefix;
    assert AllUnder([h], prefix);
    if e.Dir? {
      var deeper := ChildPrefix(prefix, isLast);
      var sub := RenderListing(e.contents, parent + [e.name], deeper, excluded);
      BlockOfDir(e, parent, prefix, isLast, excluded);
      ListingUnderPrefix(e.contents, parent + [e.name], deeper, excluded);
      AllUnderWeaken(sub, prefix, deeper);
      AllUnderConcat([h], sub, prefix);
    } else {
      BlockOfFile(e, parent, prefix, isLast, excluded);
    }
  }

  // ---------------------------------------------------------------------
  // Headings: the lines that show an entry of the directory drawn with a
  // given prefix (the prefix followed directly by a connector)

  predicate IsHeading(line: Line, prefix: string) {
    |prefix| < |line.text| && prefix <= line.text &&
    (line.text[|prefix|] == Tee[0] || line.text[|prefix|] == Elbow[0])
  }

  function Headings(lines: seq<Line>, prefix: string): seq<Line> {
    if lines == [] then []
    else (if IsHeading(lines[0], prefix) then [lines[0]] else []) + Headings(lines[1..], prefix)
  }

  lemma {:induction false} HeadingsConcat(a: seq<Line>, b: seq<Line>, prefix: string)
    ensures Headings(a + b, prefix) == Headings(a, prefix) + Headings(b, prefix)
  {
    if a != [] {
      assert (a + b)[1..] == a[1..] + b;
      HeadingsConcat(a[1..], b, prefix);
    } else {
      assert a + b == b;
    }
  }

  /** Lines drawn under a subdirectory's prefix are never headings of the
      directory that contains it. */
  lemma {:induction false} NoHeadingsBelow(lines: seq<Line>, prefix: string, isLast: bool)
    requires AllUnder(lines, ChildPrefix(prefix, isLast))
    ensures Headings(lines, prefix) == []
  {
    if lines != [] {
      var t := lines[0].text;
      assert t[|prefix|] == ChildPrefix(prefix, isLast)[|prefix|];
      assert !IsHeading(lines[0], prefix);
      NoHeadingsBelow(lines[1..], prefix, isLast);
    }
  }

  lemma HeadingIsHeading(e: Entry, prefix: string, isLast: bool)
    ensures IsHeading(Heading(e, prefix, isLast), prefix)
  {
    var t := Heading(e, prefix, isLast).text;
    assert t[..|prefix|] == prefix;
    assert t[|prefix|] == Connector(isLast)[0];
  }

  /** The only heading among the lines drawn for one entry is its own. */
  lemma HeadingsOfBlock(e: Entry, parent: seq<string>, prefix: string, isLast: bool, excluded: string -> bool)
    ensures Headings(Block(e, parent, prefix, isLast, excluded), prefix) == [Heading(e, prefix, isLast)]
  {
    var h := Heading(e, prefix, isLast);
    HeadingIsHeading(e, prefix, isLast);
    assert Headings([h], prefix) == [h];
    if e.Dir? {
      BlockOfDir(e, parent, prefix, isLast, excluded);
      var sub := RenderListing(e.contents, parent + [e.name], ChildPrefix(prefix, isLast), excluded);
      ListingUnderPrefix(e.contents, parent + [e.name], ChildPrefix(prefix, isLast), excluded);
      NoHeadingsBelow(sub, prefix, isLast);
      HeadingsConcat([h], sub, prefix);
    } else {
      BlockOfFile(e, parent, prefix, isLast, excluded);
    }
  }

  /** The headings expected for items[i..]: one per item, the elbow on the
      last item of the whole list. */
  function ExpectedHeadings(items: seq<Entry>, i: nat, prefix: string): seq<Line>
    decreases |items| - i
  {
    if i >= |items| then []
    else [Heading(items[i], prefix, i == |items| - 1)] + ExpectedHeadings(items, i + 1, prefix)
  }

  lemma {:induction false} ExpectedHeadingsAt(items: seq<Entry>, i: nat, prefix: string)
    requires i <= |items|
    ensures var hs := ExpectedHeadings(items, i, prefix);
            |hs| == |items| - i &&
            forall k :: 0 <= k < |hs| ==> hs[k] == Heading(items[i + k], prefix, i + k == |items| - 1)
    decreases |items| - i
  {
    if i < |items| {
      ExpectedHeadingsAt(items, i + 1, prefix);
      var hs := ExpectedHeadings(items, i, prefix);
      var tail := ExpectedHeadings(items, i + 1, prefix);
      assert hs == [Heading(items[i], prefix, i == |items| - 1)] + tail;
      forall k | 0 < k < |hs| ensures hs[k] == Heading(items[i + k], prefix, i + k == |items| - 1) {
        assert hs[k] == tail[k - 1];
        assert i + k == (i + 1) + (k - 1);
      }
    }
  }

  lemma {:induction false} HeadingsFrom(es: seq<Entry>, i: nat, parent: seq<string>, prefix: string,
                                        excluded: string -> bool)
    ensures Headings(RenderItems(es, i, parent, prefix, excluded), prefix) ==
            ExpectedHeadings(Survivors(parent, es, excluded), i, prefix)
    decreases |Survivors(parent, es, excluded)| - i
  {
    var items := Survivors(parent, es, excluded);
    if i < |items| {
      var e := items[i];
      var isLast := i == |items| - 1;
      RenderItemsStep(es, i, parent, prefix, excluded);
      HeadingsOfBlock(e, parent, prefix, isLast, excluded);
      HeadingsConcat(Block(e, parent, prefix, isLast, excluded), RenderItems(es, i + 1, parent, prefix, excluded), prefix);
      HeadingsFrom(es, i + 1, parent, prefix, excluded);
    }
  }

  /** The headings of a listed directory are its surviving entries in
      ascending name order, one each: the last gets the elbow connector and
      every other one the tee. A directory whose entries are all excluded
      draws no line at all. */
  lemma ConnectorLayout(es: seq<Entry>, parent: seq<string>, prefix: string, excluded: string -> bool)
    ensures var items := Survivors(parent, es, excluded);
            var hs := Headings(RenderListing(Listed(es), parent, prefix, excluded), prefix);
            Sorted(items) &&
            |hs| == |items| &&
            (forall k :: 0 <= k < |hs| ==> hs[k] == Heading(items[k], prefix, k == |items| - 1)) &&
            (items == [] <==> RenderListing(Listed(es), parent, prefix, excluded) == [])
  {
    var items := Survivors(parent, es, excluded);
    HeadingsFrom(es, 0, parent, prefix, excluded);
    ExpectedHeadingsAt(items, 0, prefix);
    SurvivorsAreSortedKept(parent, es, excluded);
    if items != [] {
      RenderItemsStep(es, 0, parent, prefix, excluded);
    }
  }

  /** Two equal headings show entries with the same matcher path. */
  lemma HeadingDeterminesPath(a: Entry, c: Entry, parent: seq<string>, prefix: string, b1: bool, b2: bool)
    ensures Heading(a, prefix, b1) == Heading(c, prefix, b2) ==> RelativePath(parent, a) == RelativePath(parent, c)
  {
    if Heading(a, prefix, b1) == Heading(c, prefix, b2) {
      var n := |prefix| + |Tee|;
      var ta := Heading(a, prefix, b1).text;
      var tc := Heading(c, prefix, b2).text;
      assert ta[n..] == a.name + (if a.Dir? then "/" else "");
      assert tc[n..] == c.name + (if c.Dir? then "/" else "");
      if a.Dir? {
        assert a.name == ta[n..|ta| - 1];
      }
    }
  }

  /** An entry whose relative path the matcher excludes gets no heading. */
  lemma ExcludedEntryNotShown(es: seq<Entry>, e: Entry, parent: seq<string>, prefix: string,
                              excluded: string -> bool)
    requires excluded(RelativePath(parent, e))
    ensures e !in Survivors(parent, es, excluded)
    ensures forall line :: line in Headings(RenderListing(Listed(es), parent, prefix, excluded), prefix) ==>
              line != Heading(e, prefix, true) && line != Heading(e, prefix, false)
  {
    var items := Survivors(parent, es, excluded);
    var hs := Headings(RenderListing(Listed(es), parent, prefix, excluded), prefix);
    ConnectorLayout(es, parent, prefix, excluded);
    forall line | line in hs
      ensures line != Heading(e, prefix, true) && line != Heading(e, prefix, false)
    {
      var k :| 0 <= k < |hs| && hs[k] == line;
      var c := items[k];
      HeadingDeterminesPath(c, e, parent, prefix, k == |items| - 1, true);
      HeadingDeterminesPath(c, e, parent, prefix, k == |items| - 1, false);
    }
  }

  // ---------------------------------------------------------------------
  // Filtering and sorting commute

  lemma KeptInsertFront(parent: seq<string>, x: Entry, s: seq<Entry>, excluded: string -> bool)
    requires Sorted(s) && s != [] && LexLe(x.name, s[0].name)
    ensures Kept(parent, Insert(x, s), excluded) ==
            if excluded(RelativePath(parent, x)) then Kept(parent, s, excluded)
            else Insert(x, Kept(parent, s, excluded))
  {
    var k := Kept(parent, s, excluded);
    assert Insert(x, s) == [x] + s;
    assert ([x] + s)[1..] == s;
    assert Kept(parent, [x] + s, excluded) ==
           (if excluded(RelativePath(parent, x)) then [] else [x]) + k;
    if k != [] {
      assert k[0] in s;
      var j :| 0 <= j < |s| && s[j] == k[0];
      if j > 0 {
        LexLeTransitive(x.name, s[0].name, s[j].name);
      }
    }
  }

  lemma KeptInsertBehind(parent: seq<string>, x: Entry, s: seq<Entry>, excluded: string -> bool)
    requires s != [] && !LexLe(x.name, s[0].name)
    requires Kept(parent, Insert(x, s[1..]), excluded) ==
             if excluded(RelativePath(parent, x)) then Kept(parent, s[1..], excluded)
             else Insert(x, Kept(parent, s[1..], excluded))
    ensures Kept(parent, Insert(x, s), excluded) ==
            if excluded(RelativePath(parent, x)) then Kept(parent, s, excluded)
            else Insert(x, Kept(parent, s, excluded))
  {
    var t := s[1..];
    var kt := Kept(parent, t, excluded);
    assert Insert(x, s) == [s[0]] + Insert(x, t);
    assert ([s[0]] + Insert(x, t))[1..] == Insert(x, t);
    var k0 := if excluded(RelativePath(parent, s[0])) then [] else [s[0]];
    assert Kept(parent, Insert(x, s), excluded) == k0 + Kept(parent, Insert(x, t), excluded);
    assert Kept(parent, s, excluded) == k0 + kt;
    if !excluded(RelativePath(parent, x)) {
      if k0 == [] {
        assert k0 + Insert(x, kt) == Insert(x, kt);
        assert k0 + kt == kt;
      } else {
        assert ([s[0]] + kt)[0] == s[0] && ([s[0]] + kt)[1..] == kt;
        assert Insert(x, [s[0]] + kt) == [s[0]] + Insert(x, kt);
      }
    }
  }

  lemma {:induction false} KeptInsert(parent: seq<string>, x: Entry, s: seq<Entry>, excluded: string -> bool)
    requires Sorted(s)
    ensures Kept(parent, Insert(x, s), excluded) ==
            if excluded(RelativePath(parent, x)) then Kept(parent, s, excluded)
            else Insert(x, Kept(parent, s, excluded))
  {
    if s == [] {
      assert [x][1..] == [];
    } else if LexLe(x.name, s[0].name) {
      KeptInsertFront(parent, x, s, excluded);
    } else {
      KeptInsert(parent, x, s[1..], excluded);
      KeptInsertBehind(parent, x, s, excluded);
    }
  }

  /** Sorting then filtering, as the renderer does, gives the same list as
      filtering then sorting. */
  lemma {:induction false} SurvivorsAreSortedKept(parent: seq<string>, es: seq<Entry>, excluded: string -> bool)
    ensures Survivors(parent, es, excluded) == SortByName(Kept(parent, es, excluded))
  {
    if es != [] {
      var rest := es[1..];
      SurvivorsAreSortedKept(parent, rest, excluded);
      KeptInsert(parent, es[0], SortByName(rest), excluded);
      var kr := Kept(parent, rest, excluded);
      if !excluded(RelativePath(parent, es[0])) {
        assert Kept(parent, es, excluded) == [es[0]] + kr;
        assert ([es[0]] + kr)[1..] == kr;
      } else {
        assert Kept(parent, es, excluded) == kr;
      }
    }
  }

  // ---------------------------------------------------------------------
  // Excluded subtrees are pruned

  lemma {:induction false} KeptReplaceExcluded(parent: seq<string>, s: seq<Entry>, k: nat, e: Entry,
                                               excluded: string -> bool)
    requires k < |s|
    requires excluded(RelativePath(parent, s[k])) && excluded(RelativePath(parent, e))
    ensures Kept(parent, s[k := e], excluded) == Kept(parent, s, excluded)
  {
    if k > 0 {
      assert s[k := e][1..] == s[1..][k - 1 := e];
      KeptReplaceExcluded(parent, s[1..], k - 1, e, excluded);
    } else {
      assert s[k := e][1..] == s[1..];
    }
  }

  lemma {:induction false} SameSurvivorsSameLines(es: seq<Entry>, fs: seq<Entry>, i: nat, parent: seq<string>,
                                                  prefix: string, excluded: string -> bool)
    requires Survivors(parent, es, excluded) == Survivors(parent, fs, excluded)
    ensures RenderItems(es, i, parent, prefix, excluded) == RenderItems(fs, i, parent, prefix, excluded)
    decreases |Survivors(parent, es, excluded)| - i
  {
    if i < |Survivors(parent, es, excluded)| {
      RenderItemsStep(es, i, parent, prefix, excluded);
      RenderItemsStep(fs, i, parent, prefix, excluded);
      SameSurvivorsSameLines(es, fs, i + 1, parent, prefix, excluded);
    }
  }

  /** When the matcher excludes a subdirectory, nothing inside it is ever
      looked at: replacing its contents by anything at all leaves the lines
      drawn for its parent unchanged. */
  lemma PrunedSubtreeNotVisited(es: seq<Entry>, k: nat, other: Listing, parent: seq<string>,
                                prefix: string, excluded: string -> bool)
    requires k < |es| && es[k].Dir? && excluded(RelativePath(parent, es[k]))
    ensures RenderListing(Listed(es[k := Dir(es[k].name, other)]), parent, prefix, excluded) ==
            RenderListing(Listed(es), parent, prefix, excluded)
  {
    var fs := es[k := Dir(es[k].name, other)];
    assert RelativePath(parent, fs[k]) == RelativePath(parent, es[k]);
    KeptReplaceExcluded(parent, es, k, fs[k], excluded);
    SurvivorsAreSortedKept(parent, es, excluded);
    SurvivorsAreSortedKept(parent, fs, excluded);
    SameSurvivorsSameLines(fs, es, 0, parent, prefix, excluded);
  }

  // ---------------------------------------------------------------------
  // Permission denied

  /** A shown subdirectory that cannot be listed is drawn as its heading and
      a single marker line under its prefix, and drawing goes on with the
      entries after it. */
  lemma DeniedBranch(es: seq<Entry>, i: nat, parent: seq<string>, prefix: string, excluded: string -> bool)
    requires i < |Survivors(parent, es, excluded)|
    requires Survivors(parent, es, excluded)[i].Dir? && Survivors(parent, es, excluded)[i].contents == Denied
    ensures var items := Survivors(parent, es, excluded);
            var isLast := i == |items| - 1;
            RenderItems(es, i, parent, prefix, excluded) ==
            [Line(DirTag, prefix + Connector(isLast) + items[i].name + "/"),
             Line(ErrorTag, prefix + (if isLast then Blank else Pipe) + Elbow + DeniedMarker)] +
            RenderItems(es, i + 1, parent, prefix, excluded)
  {
    var items := Survivors(parent, es, excluded);
    RenderItemsStep(es, i, parent, prefix, excluded);
    BlockOfDir(items[i], parent, prefix, i == |items| - 1, excluded);
  }

  // ---------------------------------------------------------------------
  // Counting

  /** The number of lines a directory is expected to draw, counted over the
      listings in the order they are returned: one per entry reachable
      without passing through an excluded directory and not excluded itself,
      and one for the marker of each such directory that cannot be listed.
      A tree with no unreadable directory among those counts just its
      visible entries. */
  function Visible(l: Listing, parent: seq<string>, excluded: string -> bool): nat
    decreases l
  {
    match l
    case Denied => 1
    case Listed(es) => VisibleAll(es, parent, excluded)
  }

  function VisibleAll(es: seq<Entry>, parent: seq<string>, excluded: string -> bool): nat
    decreases es
  {
    if es == [] then 0 else VisibleOne(es[0], parent, excluded) + VisibleAll(es[1..], parent, excluded)
  }

  function VisibleOne(e: Entry, parent: seq<string>, excluded: string -> bool): nat
    decreases e
  {
    if excluded(RelativePath(parent, e)) then 0
    else 1 + match e
             case File(_) => 0
             case Dir(n, sub) => Visible(sub, parent + [n], excluded)
  }

  /** The count of two listings drawn one after the other adds up. */
  lemma {:induction false} VisibleAllConcat(a: seq<Entry>, b: seq<Entry>, parent: seq<string>,
                                            excluded: string -> bool)
    ensures VisibleAll(a + b, parent, excluded) == VisibleAll(a, parent, excluded) + VisibleAll(b, parent, excluded)
  {
    if a != [] {
      assert (a + b)[0] == a[0];
      assert (a + b)[1..] == a[1..] + b;
      VisibleAllConcat(a[1..], b, parent, excluded);
    } else {
      assert a + b == b;
    }
  }

  /** The count does not depend on the order of a listing: any two orders of
      the same entries count the same. */
  lemma {:induction false} VisiblePermutation(es: seq<Entry>, fs: seq<Entry>, parent: seq<string>,
                                              excluded: string -> bool)
    requires multiset(es) == multiset(fs)
    ensures VisibleAll(es, parent, excluded) == VisibleAll(fs, parent, excluded)
    decreases |es|
  {
    if es == [] {
      assert |fs| == |multiset(fs)| == 0;
    } else {
      var x := es[0];
      assert x in multiset(fs);
      var j :| 0 <= j < |fs| && fs[j] == x;
      var rest := fs[..j] + fs[j + 1..];
      assert fs == fs[..j] + ([x] + fs[j + 1..]);
      assert es == [x] + es[1..];
      assert multiset(fs) == multiset(fs[..j]) + multiset([x] + fs[j + 1..]);
      assert multiset([x] + fs[j + 1..]) == multiset{x} + multiset(fs[j + 1..]);
      assert multiset(rest) == multiset(fs[..j]) + multiset(fs[j + 1..]);
      assert multiset(es) == multiset{x} + multiset(es[1..]);
      assert multiset(es[1..]) == multiset(es) - multiset{x};
      assert multiset(rest) == multiset(fs) - multiset{x};
      VisiblePermutation(es[1..], rest, parent, excluded);
      VisibleAllConcat(fs[..j], [x] + fs[j + 1..], parent, excluded);
      VisibleAllConcat(fs[..j], fs[j + 1..], parent, excluded);
      assert ([x] + fs[j + 1..])[1..] == fs[j + 1..];
    }
  }

  lemma {:induction false} VisibleKept(s: seq<Entry>, parent: seq<string>, excluded: string -> bool)
    ensures VisibleAll(Kept(parent, s, excluded), parent, excluded) == VisibleAll(s, parent, excluded)
  {
    if s != [] {
      VisibleKept(s[1..], parent, excluded);
      var rest := Kept(parent, s[1..], excluded);
      if !excluded(RelativePath(parent, s[0])) {
        assert Kept(parent, s, excluded) == [s[0]] + rest;
        assert ([s[0]] + rest)[1..] == rest;
      } else {
        assert Kept(parent, s, excluded) == rest;
        assert VisibleOne(s[0], parent, excluded) == 0;
      }
    }
  }

  /** A directory draws exactly one line per entry that is reachable and not
      excluded, plus one marker line per such directory that cannot be
      listed; excluded directories are never listed and so count nothing,
      whatever their permissions. */
  lemma {:induction false} LineCount(l: Listing, parent: seq<string>, prefix: string, excluded: string -> bool)
    ensures |RenderListing(l, parent, prefix, excluded)| == Visible(l, parent, excluded)
    decreases l, 0
  {
    if l.Listed? {
      var es := l.entries;
      var items := Survivors(parent, es, excluded);
      ItemsCount(es, 0, parent, prefix, excluded);
      assert items[0..] == items;
      VisibleKept(SortByName(es), parent, excluded);
      VisiblePermutation(SortByName(es), es, parent, excluded);
    }
  }

  lemma {:induction false} ItemsCount(es: seq<Entry>, i: nat, parent: seq<string>, prefix: string,
                                      excluded: string -> bool)
    requires i <= |Survivors(parent, es, excluded)|
    ensures var items := Survivors(parent, es, excluded);
            |RenderItems(es, i, parent, prefix, excluded)| == VisibleAll(items[i..], parent, excluded)
    decreases es, |Survivors(parent, es, excluded)| - i
  {
    var items := Survivors(parent, es, excluded);
    if i < |items| {
      var e := items[i];
      assert e in es;
      var isLast := i == |items| - 1;
      RenderItemsStep(es, i, parent, prefix, excluded);
      if e.Dir? {
        BlockOfDir(e, parent, prefix, isLast, excluded);
        LineCount(e.contents, parent + [e.name], ChildPrefix(prefix, isLast), excluded);
      } else {
        BlockOfFile(e, parent, prefix, isLast, excluded);
      }
      ItemsCount(es, i + 1, parent, prefix, excluded);
      assert items[i..][1..] == items[i + 1..];
    } else {
      assert items[i..] == [];
    }
  }

  // ---------------------------------------------------------------------
  // The whole output

  /** The first line shows the root's display name followed by '/', the
      rest is the root's listing drawn with an empty prefix, so the output
      has one line more than the root's count. */
  lemma TreeShape(rootDir: string, root: Listing, excluded: string -> bool)
    ensures var t := Tree(rootDir, root, excluded);
            |t| >= 1 &&
            t[0] == Line(RootTag, RootName(rootDir) + "/") &&
            t[1..] == RenderListing(root, [], "", excluded) &&
            |t| == 1 + Visible(root, [], excluded)
  {
    var t := Tree(rootDir, root, excluded);
    assert t[1..] == RenderListing(root, [], "", excluded);
    LineCount(root, [], "", excluded);
  }
}
