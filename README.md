# GitHub repository crawler: the page-entry pipeline of `WebUtils`

This project models the core of the crawler service `WebUtils` in Dafny and proves properties of the model. The service walks a
GitHub repository's directory pages and hands every file it finds to the statistics service. These are its four steps:

1. **Line filter** (`getGithubRepositoryElementsList`). Read a page line by line and keep, in page order, the lines that carry
   the marker `data-pjax="#repo-content-pjax-container"`.
2. **Classifier** (`getUnprocessedElementsDTO`). Drop null and blank lines. Tag a line `File` when it contains `blob`, otherwise
   `Directory`. Build its address as `https://www.github.com` followed by the text between the first `href="` and the next `">`.
   This uses the semantics of commons-lang3 `substringBetween`. A missing delimiter gives Java's `null`, which string
   concatenation renders as `https://www.github.comnull`. The model reproduces that address.
3. **Dispatch and partition** (`transformRawElementsToUnprocessedElements`). Start one job per `File` entry, in list order.
   Then remove the files with `removeIf` and return the directories.
4. **Walk** (`recursive`, `mapRepository`). Depth first: for each directory in list order, fetch its page, classify it,
   dispatch its files, and recurse only when sub-directories remain. `mapRepository` does nothing further when the root page
   has no marker line.

Modules:

- `Wrappers` holds `Option` (Java's null) and `Result` (Java's exceptions).
- `Seqs` holds an order-preserving `Filter` and its lemmas.
- `JavaStrings` holds `indexOf`, `contains`, `substringBetween`, `isBlank` and null-concatenation, over strings of code points.
- `WebUtils` holds the pipeline, a walk specification (`ExpandDir`, `WalkDirs`, `Trace`) and the class `WebUtils.WebUtils`,
  whose methods change two ghost logs:
  - `dispatched`: one address per started `persistElementInfo` thread, in start order;
  - `fetched`: every address passed to `getGithubRepositoryElementsList`, in call order.
- `WalkTree` compares the walk with an explicit directory tree.

The network is an oracle, `Site(wellFormed, pages)`:

- An address outside `wellFormed` is one that `java.net.URL` refuses with `MalformedURLException`. `getUrl` turns that into
  `InvalidGitHubRepositoryURL`, modelled as `InvalidUrl`.
- A well-formed address without a page stands for an `IOException`. The `catch` in `getGithubRepositoryElementsList` turns that
  into `GitHubRepositoryNotFound`, modelled as `NotFound`.

The walk methods take two ghost arguments: a rank `rank: Url -> nat` and a bound. `WellRanked(site, rank, top)` says that from
every page ranked below `top`, the rank decreases to each sub-directory entry that page lists. A walk from a page below `top` only
reads pages below `top` (`ExpandIgnoresHighPage`). Pages ranked at or above `top` are unconstrained, including any cycle among
them (`HighPageKeepsRanked`). So any site whose pages reachable from the root hold no directory cycle has such a rank: give
those pages their height in the directory graph and every other page `top`.

These are behaviours of the code, modelled as written:

- A fetch exception escapes `forEach` and aborts the whole walk, later siblings included. `mapRepository` throws it
  (`Then`, `WalkDirsAppend`, `FailureIsLast`).
- `mapRepository`'s only wait for the dispatched jobs is `Thread.sleep(5000)`.
- Only null and blank lines are dropped. A marker line without an `href="…">` is kept, with the address `https://www.github.comnull`.

## Model

| member | source | states |
|---|---|---|
| `JavaStrings.IndexOf` | src/main/java/dev/gustavoteixeira/githubstats/api/util/WebUtils.java:74 | the result is an occurrence at or after `from` and no earlier occurrence exists at or after `from`; `None` means there is no occurrence at or after `from` |
| `JavaStrings.Contains` | src/main/java/dev/gustavoteixeira/githubstats/api/util/WebUtils.java:73 | `contains` is true exactly when the text occurs at some index |
| `JavaStrings.SubstringBetween` | src/main/java/dev/gustavoteixeira/githubstats/api/util/WebUtils.java:74 | a result is the text between the first `open` and the first `close` that starts after that `open`; `None` exactly when no such text exists |
| `WebUtils.MarkerLinesExact` | src/main/java/dev/gustavoteixeira/githubstats/api/util/WebUtils.java:104-108 | the kept lines are exactly the page lines containing the marker; filtering a page split in two gives the two filtered parts in page order; one line is kept exactly when it has the marker |
| `WebUtils.GetGithubRepositoryElementsList` | src/main/java/dev/gustavoteixeira/githubstats/api/util/WebUtils.java:99-115 | the read loop returns the fetch error, or exactly the marker lines of the page in page order |
| `WebUtils.ElementOf` | src/main/java/dev/gustavoteixeira/githubstats/api/util/WebUtils.java:72-78 | the type is `File` exactly when the line contains `blob`; the address starts with `https://www.github.com`; the rest is the text between the first `href="` and the next `">`, or `null` when none exists |
| `WebUtils.ClassifiedKeepsEntryLines` | src/main/java/dev/gustavoteixeira/githubstats/api/util/WebUtils.java:71-79 | there is one entry per non-null, non-blank element, so the output is no longer than the input; entry k is built from the k-th kept element |
| `WebUtils.ClassifiedAppend` | src/main/java/dev/gustavoteixeira/githubstats/api/util/WebUtils.java:71-80 | classifying two lists one after the other gives the two results in the same order |
| `WebUtils.GetUnprocessedElementsDTO` | src/main/java/dev/gustavoteixeira/githubstats/api/util/WebUtils.java:68-83 | the `forEach`/`add` loop builds exactly the classification of the whole list |
| `WebUtils.ClassifiedMarkerLines` | src/main/java/dev/gustavoteixeira/githubstats/api/util/WebUtils.java:72 | no marker line is blank, so every line from the filter yields exactly one entry |
| `WebUtils.RemoveFiles` | src/main/java/dev/gustavoteixeira/githubstats/api/util/WebUtils.java:95 | `removeIf` keeps exactly the non-file entries, in order |
| `WebUtils.PartitionEntries` | src/main/java/dev/gustavoteixeira/githubstats/api/util/WebUtils.java:88-96 | the dispatched files and the returned directories together hold every entry exactly once; no file is returned |
| `WebUtils.FileEntriesDispatched` | src/main/java/dev/gustavoteixeira/githubstats/api/util/WebUtils.java:88-93 | every file entry's address is among the dispatched addresses |
| `WebUtils.WebUtils.DispatchFiles` | src/main/java/dev/gustavoteixeira/githubstats/api/util/WebUtils.java:88-93 | the dispatch log grows by the file addresses, in order; the fetch log is unchanged |
| `WebUtils.WebUtils.TransformRawElementsToUnprocessedElements` | src/main/java/dev/gustavoteixeira/githubstats/api/util/WebUtils.java:85-97 | each file entry is dispatched once, in classifier order, and the result is exactly the directory entries in their order |
| `WebUtils.WalkDirsAppend` | src/main/java/dev/gustavoteixeira/githubstats/api/util/WebUtils.java:58-66 | walking `a + b` walks `a` and then, unless `a` threw, `b`: list order, and a failure aborts the rest |
| `WebUtils.WalkDirsStep` | src/main/java/dev/gustavoteixeira/githubstats/api/util/WebUtils.java:59-65 | the walk of a prefix extended by one directory expands that directory after the prefix; if it throws, the walk of the whole list stops there |
| `WebUtils.EmptyPage` | src/main/java/dev/gustavoteixeira/githubstats/api/util/WebUtils.java:36-37 | a page with no marker line dispatches nothing, fetches nothing more, and does not fail |
| `WebUtils.LeafDirectory` | src/main/java/dev/gustavoteixeira/githubstats/api/util/WebUtils.java:62-64 | a directory without sub-directories fetches only itself and dispatches exactly its page's files |
| `WebUtils.FailureIsLast` | src/main/java/dev/gustavoteixeira/githubstats/api/util/WebUtils.java:60 | when an expansion fails, the last address fetched is one whose listing fails with exactly that error |
| `WebUtils.WalkFailureIsLast` | src/main/java/dev/gustavoteixeira/githubstats/api/util/WebUtils.java:59-65 | the same holds for the walk of a list of directories |
| `WebUtils.ExpandDispatchesListedFiles` | src/main/java/dev/gustavoteixeira/githubstats/api/util/WebUtils.java:59-64 | every dispatched address is a file entry of some page the walk fetched |
| `WebUtils.WalkDispatchesListedFiles` | src/main/java/dev/gustavoteixeira/githubstats/api/util/WebUtils.java:58-66 | the same holds for the walk of a list of directories |
| `WebUtils.UnreadableDirectory` | src/main/java/dev/gustavoteixeira/githubstats/api/util/WebUtils.java:109-127 | a directory whose page cannot be read fails with the fetch's own error, having fetched only itself and dispatched nothing; the error is `InvalidUrl` exactly when the address is malformed |
| `WebUtils.HighPageKeepsRanked` | src/main/java/dev/gustavoteixeira/githubstats/api/util/WebUtils.java:58-65 | replacing the page at an address ranked at or above the bound, even with a page that lists itself, keeps the pages below the bound free of cycles |
| `WebUtils.ExpandIgnoresHighPage` | src/main/java/dev/gustavoteixeira/githubstats/api/util/WebUtils.java:59-65 | replacing a page ranked at or above the bound does not change the expansion of any directory below it: the walk never reads that page |
| `WebUtils.WalkIgnoresHighPage` | src/main/java/dev/gustavoteixeira/githubstats/api/util/WebUtils.java:58-66 | the same holds for the walk of a list of directories |
| `WebUtils.WebUtils.ExpandDirectory` | src/main/java/dev/gustavoteixeira/githubstats/api/util/WebUtils.java:59-65 | fetching, dispatching and recursing for one directory changes the logs and the outcome exactly as `ExpandDir` says |
| `WebUtils.WebUtils.Recursive` | src/main/java/dev/gustavoteixeira/githubstats/api/util/WebUtils.java:58-66 | the loop expands the directories in list order and changes the logs and the outcome exactly as `WalkDirs` says |
| `WebUtils.WebUtils.MapRepository` | src/main/java/dev/gustavoteixeira/githubstats/api/util/WebUtils.java:32-56 | the root fetch, the empty-root guard and the walk have the effect of expanding the root as a directory |
| `WalkTree.ExpandMatchesTree` | src/main/java/dev/gustavoteixeira/githubstats/api/util/WebUtils.java:36-42 | over a site a tree describes, the walk from the root dispatches exactly the tree's files and fetches exactly its directories, each as often as the tree holds it, depth first, and never fails |
| `WalkTree.WalkMatchesTrees` | src/main/java/dev/gustavoteixeira/githubstats/api/util/WebUtils.java:58-65 | walking the sub-directory entries of a described tree walks its subtrees in order |
| `WalkTree.WalkFetchCount` | src/main/java/dev/gustavoteixeira/githubstats/api/util/WebUtils.java:36-42 | over a site a tree describes, the walk from the root fetches exactly as many pages as the tree has directories |
| `WalkTree.DirsSize` | src/main/java/dev/gustavoteixeira/githubstats/api/util/WebUtils.java:58-65 | the number of directories the walk of a tree fetches equals the tree's number of directories |

## Left out

- HTTP transport: `URL.openStream`, `BufferedReader` and `IOException`. The page is an oracle that either has all its lines or
  fails as `NotFound`. An exception part-way through reading is not modelled, so partially read pages do not occur.
- `java.net.URL`'s grammar: well-formedness is the oracle's `wellFormed` set.
- Threads and `ProcessorService.persistElementInfo`: a started job is an entry in the ghost log `dispatched`. The jobs' own
  work, their completion order and any failure inside them are outside the model.
- `Thread.sleep(5000)` in `mapRepository` and the `ProcessingError` raised on interruption: timing and concurrency.
- Logging and the timing through `System.currentTimeMillis` and `getTimeDifference`: they have no behaviour to verify.
- `JavaStrings.IndexOf`: for an empty search text and a start index past the end, Java answers the string's length and the
  model answers `None`. The core only searches for the non-empty constants `href="` and `">`, from an index within the string.
- Strings are sequences of Unicode code points, not UTF-16 units, and `IsWhitespace` lists `Character.isWhitespace`'s code
  points directly.
- The tag strings `"File"` and `"Directory"` are the datatype `ElementType`. The code only ever sets these two.
- `mapRepository` returns nothing: here its outcome is an `Option<FetchError>` that stands for the exception it throws.
- Directory cycles reachable from the root. There `recursive` and the `forEach` lambda call each other until a
  `StackOverflowError` escapes `mapRepository`. The model does not represent the call stack, so every walk member requires a
  `WellRanked` rank below its bound. Such a rank exists whenever the pages reachable from the root hold no cycle.
  Unreachable cycles are allowed.
- `Trace` keeps separate logs for dispatched files and fetched pages. It records the order within each log but not how the
  two interleave. In the code, a page's thread starts all come before the fetches of its sub-directories.
