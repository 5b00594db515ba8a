# tox index core in Dafny

A model of the core of `tox`, a directory-bookmarking tool, as found in
`tox_core.py`: reading a `.tox-index` file into a protect flag and a list of
directory entries, and finding the nearest `.tox-index` by walking from a
directory toward the root.

- `strings.dfy` (module `Strings`): Python's `str.split(sep)` for a
  one-character separator (`Split`), `sep.join(parts)` (`Join`) and
  `str.startswith` (`StartsWith`), with the two round trips between split
  and join and the fact that joining all pieces but the last keeps exactly the
  text before the last separator. The code never calls `str.endswith`;
  `EndsWith` is only a helper for stating the locator's contracts.
- `index_content.dfy` (module `IndexFile`): the index parser. `ParseIndex`
  is the pure meaning of `IndexContent.__init__` on a file text; the class
  `IndexContent` holds the fields `__init__` sets (`path`, `protect`) and the
  list contents (`items`); the method `Open` follows `__init__` step by step
  (create the object, filter the lines with the loop `KeepNonEmpty`, test the
  first line, `extend`) and is proved to produce exactly `ParseIndex`.
  A text with no non-empty line makes `all[0]` raise IndexError; the model
  returns `Failure(NoLines)` for it.
- `find_index.dfy` (module `IndexLocator`): `getParent`, `testFile` and
  `findIndex`. The filesystem is a predicate `present` on paths (what
  `os.path.exists` answers) and the working directory is the parameter `cwd`.

How `findIndex` behaves. `getParent("/a")` is `""`, which is falsy, so the
recursive call `findIndex("")` starts again at the working directory instead
of checking `"/"`. `FindPass` models one pass from a directory until that
happens (`Restart`), until `"/"` was checked (`AtRoot`, Python's `None`), or
until an index is found (`Hit`). It terminates because `getParent` shortens
every non-empty path. `FindIndex` composes the passes: a restart runs the pass
from the working directory, and if that pass restarts too, every later pass
repeats it, so the recursion never returns (`Diverges`). `FindIndexWithin` is
the recursion of `findIndex` (tox_core.py:31-41) as written, cut off after a number of calls, and
`FindIndexIsTheRecursion` proves that the two agree. With paths in the usual
form, `None` comes only from a search starting at `"/"` or with working
directory `"/"`; a path that begins with `"//"` also reaches `"/"` through
its parents (`getParent("//a") == "/"`).

Three facts about the code shape the model:

- The protect marker is a prefix test (`startswith('#protect')`) on the first
  non-empty line; a marker on any later line is an ordinary entry.
- Entries are kept in file order, neither sorted nor deduplicated.
- The locator only walks parents and restarts from the working directory; it
  has no root boundary, no owner check and no fallback to the home directory.

## Model

| member | source | states |
|---|---|---|
| `Strings.IndexOf` | tox_core.py:13 | the position found is at most the length and holds the separator when inside the string |
| `Strings.IndexOfIsFirst` | tox_core.py:13 | no separator comes before the position `IndexOf` finds, so splitting cuts at the first one |
| `Strings.Split` | tox_core.py:13 | a split always has at least one piece, even of "" |
| `Strings.SplitPiecesLackSeparator` | tox_core.py:13 | no piece of a split contains the separator |
| `Strings.JoinSplit` | tox_core.py:13 | joining the pieces of `s.split(sep)` with `sep` gives back `s`, so no character of the file is lost or added |
| `Strings.SplitJoin` | tox_core.py:28 | splitting the join of separator-free pieces gives back exactly those pieces |
| `Strings.JoinAllButLast` | tox_core.py:28 | `sep.join(s.split(sep)[:-1])` is "" when `s` has no separator, and otherwise the prefix of `s` that ends where the last separator of `s` stands |
| `Strings.Join` | tox_core.py:28 | no contract of its own (the same join builds paths at lines 23 and 37): `JoinSplit` and `SplitJoin` state that `sep.join` undoes `split` and that `split` undoes it on separator-free pieces |
| `Strings.StartsWith` | tox_core.py:15 | no contract of its own: `ProtectIsPrefixTest` and `LateMarkerIsEntry` state what the prefix test on the first non-empty line decides |
| `Strings.AllButLast` | tox_core.py:28 | no contract of its own: `JoinAllButLast` states which prefix of the text it keeps |
| `IndexFile.Lines` | tox_core.py:13 | the file's text splits into at least one line, and joining the lines with newlines gives the text back |
| `IndexFile.NonEmptyLines` | tox_core.py:14 | the filtered lines are at most as many as the lines, and each is non-empty and one of the lines |
| `IndexFile.NonEmptyLinesFilters` | tox_core.py:14 | the filter keeps the lines in their order and keeps each non-empty line as often as it occurs, dropping only empty lines |
| `IndexFile.KeepNonEmpty` | tox_core.py:14 | the comprehension's loop builds exactly the filtered list |
| `IndexFile.NoLinesIffBlank` | tox_core.py:13-15 | a text has no non-empty line exactly when all its characters are newlines |
| `IndexFile.ParseIndex` | tox_core.py:13-19 | parsing fails exactly when the text is newlines only (where `all[0]` raises IndexError); every entry of a parsed index is non-empty and holds no newline |
| `IndexFile.ParseIndexMeaning` | tox_core.py:10-19 | parsing fails exactly on a text of newlines only; otherwise `protect` holds iff the first non-empty line starts with `#protect`, that line is then dropped and the entries are all other non-empty lines, else the entries are all non-empty lines; entries keep file order, are non-empty and hold no newline |
| `IndexFile.ProtectIsPrefixTest` | tox_core.py:15-17 | a first line `#protectX` protects the index and is not an entry |
| `IndexFile.LateMarkerIsEntry` | tox_core.py:15-19 | in the text `"\n" + entry + "\n#protect"`, with an entry that does not start with the marker, the late `#protect` line is an ordinary entry and `protect` stays false (for every text this follows from `ParseIndexMeaning`: only the first non-empty line is tested and the rest are entries) |
| `IndexFile.IndexContent.constructor` | tox_core.py:8-10 | a new object has the given path, `protect` false and no entries |
| `IndexFile.IndexContent.Extend` | tox_core.py:17-19 | `extend` appends the given lines and changes no other field |
| `IndexFile.Open` | tox_core.py:7-19 | constructing from a text fails exactly when parsing fails; on success the fresh object has the given path, holds only entries that are non-empty and free of newlines, and its protect flag and entries are those of `ParseIndex` |
| `IndexLocator.PathJoin` | tox_core.py:23 | the join also used at line 37: `'/'.join([dir, name])` starts with the directory, ends with `/` followed by the name, and is exactly one character longer than the two together, so it is `dir + "/" + name` |
| `IndexLocator.TestFile` | tox_core.py:22-25 | no contract of its own: `HitIsOnWalk` and `MissCoversWalk` state that a pass hits exactly at the first directory of its walk for which `testFile` holds |
| `IndexLocator.GetParent` | tox_core.py:27-28 | the parent is a prefix of the path, strictly shorter when the path is non-empty |
| `IndexLocator.ParentDropsLastComponent` | tox_core.py:27-28 | the parent is "" for a path without `/`; otherwise the path continues after the parent with a `/` and a last component that holds no `/` |
| `IndexLocator.TopLevelParentIsEmpty` | tox_core.py:27-28 | the parent of `/name` (and of `/`) is "" |
| `IndexLocator.FindPass` | tox_core.py:22-41 | a hit is an existing path ending in `/.tox-index` whose directory is a prefix of the start; an index in the start directory itself is returned before any ancestor; reaching the root needs the start to be `/` or to begin with `//`; `HitIsOnWalk` and `RootedNeverRestarts` give the converse directions |
| `IndexLocator.Walk` | tox_core.py:38-41 | the walk starts at the directory, each next element is the previous one's parent, every element is a prefix of the start, and it ends at `/` or at a directory whose parent is "" |
| `IndexLocator.HitIsOnWalk` | tox_core.py:36-41 | every hit is the index path of some directory of the walk for which `testFile` holds |
| `IndexLocator.RootedNeverRestarts` | tox_core.py:38-41 | a pass from `/` or from a path beginning with `//` never restarts: it ends at `/` or with a hit |
| `IndexLocator.NearestIndexWins` | tox_core.py:36-41 | if the k-th directory of the walk is the first holding an index, the pass returns exactly that directory joined with `.tox-index` |
| `IndexLocator.MissCoversWalk` | tox_core.py:36-41 | a pass without a hit found no index in any directory of its walk, and it returns None exactly when the walk reached `/` |
| `IndexLocator.StartDir` | tox_core.py:33-34 | a given non-empty directory is kept as the start; otherwise (None or "") the start is the cwd, so the start is "" only when the cwd is "" |
| `IndexLocator.FindIndex` | tox_core.py:31-41 | a found path exists and ends in `/.tox-index`; an index in the start directory (the cwd when none or "" is given) is returned at once; None needs the start or the cwd to be `/` or to begin with `//` |
| `IndexLocator.NoIndexAnywhereDiverges` | tox_core.py:33-41 | with no index anywhere and a start and cwd other than `/` and not beginning with `//`, the search never returns |
| `IndexLocator.FindIndexWithin` | tox_core.py:31-41 | the recursion as written returns only after at least one call, and any path it returns exists and ends in `/.tox-index` |
| `IndexLocator.PassReturns` | tox_core.py:36-41 | a pass that does not restart is what the recursion returns within one call more than the length of the start |
| `IndexLocator.RestartReturns` | tox_core.py:33-34 | after a restart, the recursion returns what the pass from the cwd finds |
| `IndexLocator.RestartLoops` | tox_core.py:33-41 | when the passes from the start and from the cwd both restart, the recursion has not returned after any number of calls |
| `IndexLocator.WithinMonotone` | tox_core.py:31-41 | once the recursion has returned, allowing more calls does not change its result |
| `IndexLocator.FindIndexIsTheRecursion` | tox_core.py:31-41 | whatever the recursion returns is `FindIndex`'s answer; when `FindIndex` does not diverge the recursion returns it within a bound given by the lengths of the start and the cwd; when it diverges the recursion never returns |

## Left out

- File reading in `IndexContent.__init__` (tox_core.py:12-13): the file's text is a parameter of `Open` and `ParseIndex`.
- `os.path.exists` (tox_core.py:23): replaced by the predicate `present`; `os.getcwd()` (tox_core.py:34): replaced by the parameter `cwd`.
- `loadIndex` (tox_core.py:45-50): glue that passes `findIndex()` to `IndexContent` and prints the result; console output is out of scope.
- Python's recursion limit is not modelled at any depth: `findIndex` raises a recursion-depth error (RuntimeError in Python 2, RecursionError in Python 3) once its calls exceed the interpreter's limit (about 1000). The model reports `Diverges` for a search that never returns, and `Found` or `NoIndex` for one that returns after any number of calls, even when its walk from the start (and, after a restart, from the cwd) is deeper than that limit.
- The rest of the `list` behaviour `IndexContent` inherits: only `extend`, the one list operation the core uses, is modelled.
- Strings are sequences of characters; Python 2's byte strings and any encoding are not modelled.
- test_tox.py: its tests call functions and settings that are not part of this model (`tox_core_root`, `set_file_sys_root`, `matchPaths`, `loadIndex` with an argument).
