# tree: a verified model of the directory-tree renderer

`tree.py` prints the directory hierarchy below the current working
directory as a tree: the root's name, then for every directory its entries
sorted by name, each drawn after a connector (`├── `, or `└── ` for the last
one), with subdirectories drawn one level deeper under a prefix that grows
by `│   ` or four spaces. Entries whose path relative to the root matches the
ignore patterns of a `.treeignore` file are skipped, and an excluded
directory is never entered. A directory that cannot be listed shows a single
`└── [Permission Denied]` line.

This project models that renderer in Dafny:

- `FileTree.dfy`: the hierarchy as a value. An `Entry` is a `File(name)` or a
  `Dir(name, contents)`; a `Listing` is `Denied` (listing raised a permission
  error) or `Listed(entries)` in the order the operating system returns them.
- `Ordering.dfy`: the string order of the sort (code points, a proper prefix
  first) and `SortByName`, an insertion sort proved sorted and a permutation.
- `Paths.dfy`: `RelativePath`, the POSIX relative path given to the ignore
  matcher (segments joined by `/`, plus `/` for a directory), and `RootName`,
  the root's display name (trailing separators stripped, last component, or
  the whole path when that is empty).
- `Render.dfy`: the output as a sequence of `Line(tag, text)` values, where
  the tag (root, directory, file, error) stands for the colour. The functions
  `RenderListing`, `RenderItems` and `Block` say what a directory draws. The
  methods `PrintTree` and `FilterItems` do it step by step as the source does:
  sort, filter in one loop, then enumerate the kept entries in a second loop
  and recurse into subdirectories. Each method is proved to produce exactly
  what the functions say. `TreeCommand` is the entry point.
- `Layout.dfy`: what the output looks like, proved about those functions.

The ignore test is the parameter `excluded: string -> bool`. It is any
predicate on relative paths; nothing is assumed about it.

The source's `main` computes the root's display name as the last path
component and falls back to the whole path when that is empty. For the
filesystem root `/` this gives `/`, so the root line reads `//`. The model
keeps this behaviour.

Failing to list the traversal root is not fatal. The root is listed by the
same `print_tree` call that catches the permission error, so a root that
cannot be listed prints the marker line under the root line and nothing is
raised. The model does the same: `RenderListing(Denied, ...)` applies to the
root as well.

## Model

| member | source | states |
|---|---|---|
| `Ordering.SortByName` | tree.py:50 | the listing sorted in ascending name order, and a permutation of the listing |
| `Paths.RelativePathTrailingSlash` | tree.py:58-66 | the path handed to the matcher ends in `/` exactly when the entry is a directory |
| `Paths.RelativePathOfChild` | tree.py:58-66 | an entry's matcher path inside directory d is d's own matcher path (ending in `/`) followed by the entry's name |
| `Paths.BasenameOfJoin` | tree.py:58-62 | the last component of an entry's relative path is the entry's name |
| `Paths.RStrip` | tree.py:102 | strips exactly the trailing separators: the result is a prefix, does not end in one, and only separators were removed |
| `Paths.Basename` | tree.py:102 | the text after the last separator: a separator-free suffix preceded by a separator or the start of the path |
| `Paths.RootNameIsLastComponent` | tree.py:101-105 | a path made only of separators is shown whole; otherwise the display name is a valid name that is the path's last component |
| `Render.Kept` | tree.py:56-71 | an entry is kept exactly when it is listed and the matcher does not exclude its relative path |
| `Render.Survivors` | tree.py:50-71 | the shown entries of a listing are exactly those listed and not excluded |
| `Render.FilterItems` | tree.py:56-71 | the filtering loop keeps, in order, the entries whose relative path is not excluded |
| `Render.PrintTree` | tree.py:38-94 | the procedure's lines equal `RenderListing`: the marker line on permission denied, else the block of each shown entry in order with recursion into directories |
| `Render.TreeCommand` | tree.py:96-115 | the entry point's lines are the root line followed by the root's listing |
| `Layout.ListingUnderPrefix` | tree.py:89-91 | every line drawn for a directory, at any depth, begins with that directory's prefix |
| `Layout.ConnectorLayout` | tree.py:73-94 | the headings of a directory are its shown entries, sorted by name, one each; the last gets `└── `, all others `├── `; directories get `/` and the directory tag; no shown entries means no lines |
| `Layout.ExcludedEntryNotShown` | tree.py:68-69 | an entry whose relative path is excluded is not among the shown entries and no heading line shows it |
| `Layout.SurvivorsAreSortedKept` | tree.py:50-71 | sorting then filtering gives the same entries in the same order as filtering then sorting |
| `Layout.PrunedSubtreeNotVisited` | tree.py:68-91 | the contents of an excluded subdirectory are never looked at: replacing them leaves the parent's lines unchanged |
| `Layout.DeniedBranch` | tree.py:48-53 | a shown subdirectory that cannot be listed draws its heading and exactly one marker line under its prefix, and drawing continues with its later siblings |
| `Layout.VisiblePermutation` | tree.py:50 | any two orders of the same entries give the same count, so the count does not depend on the order the operating system lists them in |
| `Layout.LineCount` | tree.py:48-94 | a directory draws one line per entry that is reachable and not excluded, plus one marker line per such directory that cannot be listed; unreadable directories inside excluded subtrees add nothing, and a tree with no unreadable reachable directory draws exactly one line per visible entry |
| `Layout.TreeShape` | tree.py:112-115 | the whole output is one line longer than the root's count (`LineCount` applied to the root); its other two conjuncts, the root line and the root's listing after it, only repeat the definition of `Tree` |

## Left out

- Ignore-pattern compilation and matching (`PathSpec.from_lines` with the gitwildmatch syntax, `match_file`) belong to a third-party library. The matcher is a parameter `excluded: string -> bool`, so the model holds for every matcher.
- Reading `.treeignore` and checking whether it exists (`load_treeignore_patterns`) is file I/O.
- `os.listdir`, `os.path.isdir`, `os.path.join`, `os.path.relpath` and `Path.as_posix` are operating-system calls. They are replaced by the `Entry`/`Listing` tree and by joining name segments with `/`. Symbolic links, and entries changing between the two passes over a listing, are not modelled.
- Python's recursion limit: `print_tree` calls itself once per directory level (tree.py:91). A hierarchy about 1000 levels deep raises `RecursionError` after partial output, and nothing catches it. The model has no depth limit and draws every level.
- Only the permission error of a listing is modelled. Other errors raised by `os.listdir` propagate out of the program and are not represented.
- Paths are POSIX only: the separator is `/` (`os.sep` on POSIX).
- Names are sequences of Unicode scalar values. A filename whose bytes do not decode, which `os.listdir` returns with lone surrogates U+DC80–U+DCFF, cannot be represented. So its place in the sort and the encoding error `print` can raise on it (tree.py:87, 94) are not modelled. A name containing a line break is one `Line` in the model, but the terminal shows it as several lines, so `LineCount` counts `print` calls, not terminal rows.
- Colour codes (`colorama`) are replaced by a tag on each line.
- Printing is modelled as returning the sequence of lines in print order.
- Resolving the working directory (`os.path.abspath('.')`) and the `__main__` guard are left out. The root path is a parameter of `TreeCommand`.
