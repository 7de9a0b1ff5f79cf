/** The page-entry pipeline of the crawler service `WebUtils`: keep the
    repository-content lines of a page, classify them into files and
    directories with absolute addresses, hand every file to the statistics
    service and walk the remaining directories depth first.

    The network is an oracle `Site`; starting a thread that calls
    `ProcessorService.persistElementInfo(address)` is recorded by appending
    the address to the ghost log `dispatched`, and every page request by
    appending its address to the ghost log `fetched`. */
module WebUtils {
  import opened Wrappers
  import opened JavaStrings
  import opened Seqs

  type Url = string

  /** The structural marker of a repository content link. */
  const Marker := "data-pjax=\"#repo-content-pjax-container\""
  /** The host prefixed to every link target. */
  const Host := "https://www.github.com"
  const HrefOpen := "href=\""
  const HrefClose := "\">"
  /** A link containing this text is taken for a file. */
  const BlobTag := "blob"

  // ---------------------------------------------------------------------------
  // The page oracle

  /** `InvalidGitHubRepositoryURL` (the address is not a URL) and
      `GitHubRepositoryNotFound` (the page cannot be read). */
  datatype FetchError = InvalidUrl | NotFound

  /** What the remote host answers: the addresses `java.net.URL` accepts, and
      the lines of every page that can be opened. */
  datatype Site = Site(wellFormed: set<Url>, pages: map<Url, seq<string>>)

  /** Opening the page at `url`. */
  function Fetch(site: Site, url: Url): (r: Result<seq<string>, FetchError>)
    ensures r == Failure(InvalidUrl) <==> url !in site.wellFormed
    ensures r == Failure(NotFound) <==> url in site.wellFormed && url !in site.pages
    ensures r.Success? ==> url in site.pages && r.value == site.pages[url]
  {
    if url !in site.wellFormed then Failure(InvalidUrl)
    else if url !in site.pages then Failure(NotFound)
    else Success(site.pages[url])
  }

  // ---------------------------------------------------------------------------
  // Line filter

  predicate IsMarkerLine(line: string) {
    Contains(line, Marker)
  }

  /** The lines of a page that carry the marker, in page order. */
  function MarkerLines(page: seq<string>): seq<string> {
    Filter(page, IsMarkerLine)
  }

  /** The marker lines keep exactly the page lines with the marker: none is
      lost, none is added, and the page order is kept (filtering a page
      split in two gives the two filtered halves, one after the other). */
  lemma MarkerLinesExact(page: seq<string>, front: seq<string>, back: seq<string>)
    requires page == front + back
    ensures forall line :: line in MarkerLines(page) <==> line in page && Contains(line, Marker)
    ensures MarkerLines(page) == MarkerLines(front) + MarkerLines(back)
    ensures MarkerLines([]) == [] && forall line :: MarkerLines([line]) == if Contains(line, Marker) then [line] else []
  {
    forall line | line in page && Contains(line, Marker)
      ensures line in MarkerLines(page)
    {
      FilterComplete(page, IsMarkerLine, line);
    }
    FilterAppend(front, back, IsMarkerLine);
  }

  /** What `getGithubRepositoryElementsList(url)` returns or throws. */
  function ElementsList(site: Site, url: Url): Result<seq<string>, FetchError> {
    match Fetch(site, url)
    case Failure(e) => Failure(e)
    case Success(page) => Success(MarkerLines(page))
  }

  /** `getGithubRepositoryElementsList`: read the page line by line and keep
      the lines that carry the marker. */
  method GetGithubRepositoryElementsList(site: Site, fullUrl: Url) returns (r: Result<seq<string>, FetchError>)
    ensures r == ElementsList(site, fullUrl)
  {
    var page := Fetch(site, fullUrl);
    if page.Failure? {
      return Failure(page.error);
    }
    var lines := page.value;
    var elements: seq<string> := [];
    var i := 0;
    while i < |lines|
      invariant 0 <= i <= |lines|
      invariant elements == Filter(lines[..i], IsMarkerLine)
    {
      var line := lines[i];
      assert lines[..i + 1] == lines[..i] + [line];
      FilterSnoc(lines[..i], line, IsMarkerLine);
      if Contains(line, Marker) {
        elements := elements + [line];
      }
      i := i + 1;
    }
    assert lines[..i] == lines;
    return Success(elements);
  }

  // ---------------------------------------------------------------------------
  // Classifier

  /** The `type` field of `UnprocessedElementDTO` ("File" or "Directory"). */
  datatype ElementType = File | Directory

  /** `UnprocessedElementDTO`. */
  datatype UnprocessedElement = UnprocessedElement(elementType: ElementType, address: Url)

  /** A list element the classifier keeps: not null and not blank. */
  predicate IsEntryLine(element: Option<string>) {
    element.Some? && !IsBlank(element.value)
  }

  /** The entry built from one kept line. */
  function ElementOf(line: string): (e: UnprocessedElement)
    ensures e.elementType == File <==> Contains(line, BlobTag)
    ensures |Host| <= |e.address| && e.address[..|Host|] == Host
    ensures var rest := e.address[|Host|..];
      || (exists i: nat :: Between(line, HrefOpen, HrefClose, i, rest))
      || (rest == "null" && forall i: nat, x: string :: !Between(line, HrefOpen, HrefClose, i, x))
  {
    var elementType := if Contains(line, BlobTag) then File else Directory;
    UnprocessedElement(elementType, ConcatNullable(Host, SubstringBetween(line, HrefOpen, HrefClose)))
  }

  /** The entries `getUnprocessedElementsDTO` builds from a list that may hold nulls. */
  function Classified(elementList: seq<Option<string>>): seq<UnprocessedElement> {
    if elementList == [] then []
    else
      (if IsEntryLine(elementList[0]) then [ElementOf(elementList[0].value)] else [])
      + Classified(elementList[1..])
  }

  lemma {:induction false} ClassifiedAppend(a: seq<Option<string>>, b: seq<Option<string>>)
    ensures Classified(a + b) == Classified(a) + Classified(b)
  {
    if a == [] {
      assert a + b == b;
    } else {
      assert (a + b)[1..] == a[1..] + b;
      ClassifiedAppend(a[1..], b);
    }
  }

  /** The classifier drops exactly the null and blank elements and turns every
      other element, in order, into one entry. */
  lemma {:induction false} ClassifiedKeepsEntryLines(elementList: seq<Option<string>>)
    ensures var kept := Filter(elementList, IsEntryLine);
      && |Classified(elementList)| == |kept| <= |elementList|
      && forall k :: 0 <= k < |kept| ==> kept[k].Some? && Classified(elementList)[k] == ElementOf(kept[k].value)
  {
    if elementList != [] {
      var head, tail := elementList[0], elementList[1..];
      ClassifiedKeepsEntryLines(tail);
      var kept, keptTail := Filter(elementList, IsEntryLine), Filter(tail, IsEntryLine);
      var here := if IsEntryLine(head) then [head] else [];
      assert kept == here + keptTail;
      assert Classified(elementList) == (if IsEntryLine(head) then [ElementOf(head.value)] else []) + Classified(tail);
      forall k | 0 <= k < |kept|
        ensures kept[k].Some? && Classified(elementList)[k] == ElementOf(kept[k].value)
      {
        if k >= |here| {
          assert kept[k] == keptTail[k - |here|];
        }
      }
    }
  }

  /** `getUnprocessedElementsDTO`. */
  method GetUnprocessedElementsDTO(elementList: seq<Option<string>>) returns (unprocessedElementsList: seq<UnprocessedElement>)
    ensures unprocessedElementsList == Classified(elementList)
  {
    unprocessedElementsList := [];
    var i := 0;
    while i < |elementList|
      invariant 0 <= i <= |elementList|
      invariant unprocessedElementsList == Classified(elementList[..i])
    {
      var element := elementList[i];
      assert elementList[..i + 1] == elementList[..i] + [element];
      ClassifiedAppend(elementList[..i], [element]);
      if element.Some? && !IsBlank(element.value) {
        unprocessedElementsList := unprocessedElementsList + [ElementOf(element.value)];
      }
      i := i + 1;
    }
    assert elementList[..i] == elementList;
  }

  /** The lines of a page as a Java list of non-null strings. */
  function Lift(lines: seq<string>): (r: seq<Option<string>>)
    ensures |r| == |lines| && forall k :: 0 <= k < |r| ==> r[k] == Some(lines[k])
  {
    if lines == [] then [] else [Some(lines[0])] + Lift(lines[1..])
  }

  /** Every marker line becomes an entry: none of them is blank. */
  lemma {:induction false} ClassifiedMarkerLines(lines: seq<string>)
    requires forall k :: 0 <= k < |lines| ==> Contains(lines[k], Marker)
    ensures |Classified(Lift(lines))| == |lines|
    ensures forall k :: 0 <= k < |lines| ==> Classified(Lift(lines))[k] == ElementOf(lines[k])
  {
    if lines != [] {
      assert !IsWhitespace(Marker[0]);
      ContainsNonBlank(lines[0], Marker);
      assert Lift(lines)[1..] == Lift(lines[1..]);
      ClassifiedMarkerLines(lines[1..]);
    }
  }

  // ---------------------------------------------------------------------------
  // Partition

  predicate IsFile(e: UnprocessedElement) {
    e.elementType == File
  }

  /** What `removeIf(e -> e.getType().equals("File"))` keeps. */
  predicate IsDirectory(e: UnprocessedElement) {
    e.elementType != File
  }

  /** The addresses of a list of entries, in order. */
  function Addresses(es: seq<UnprocessedElement>): (r: seq<Url>)
    ensures |r| == |es| && forall k :: 0 <= k < |r| ==> r[k] == es[k].address
  {
    if es == [] then [] else [es[0].address] + Addresses(es[1..])
  }

  lemma AddressesAppend(a: seq<UnprocessedElement>, b: seq<UnprocessedElement>)
    ensures Addresses(a + b) == Addresses(a) + Addresses(b)
  {
  }

  /** The addresses of the file entries, in order: what is dispatched. */
  function FileAddresses(es: seq<UnprocessedElement>): seq<Url> {
    Addresses(Filter(es, IsFile))
  }

  lemma FileAddressesSnoc(es: seq<UnprocessedElement>, e: UnprocessedElement)
    ensures FileAddresses(es + [e]) == FileAddresses(es) + (if e.elementType == File then [e.address] else [])
  {
    FilterSnoc(es, e, IsFile);
    AddressesAppend(Filter(es, IsFile), if IsFile(e) then [e] else []);
  }

  /** `list.removeIf(e -> e.getType().equals("File"))`. */
  method RemoveFiles(list: seq<UnprocessedElement>) returns (kept: seq<UnprocessedElement>)
    ensures kept == Filter(list, IsDirectory)
  {
    kept := [];
    var j := 0;
    while j < |list|
      invariant 0 <= j <= |list|
      invariant kept == Filter(list[..j], IsDirectory)
    {
      var element := list[j];
      assert list[..j + 1] == list[..j] + [element];
      FilterSnoc(list[..j], element, IsDirectory);
      if !(element.elementType == File) {
        kept := kept + [element];
      }
      j := j + 1;
    }
    assert list[..j] == list;
  }

  /** Files and directories partition the entries: every entry is dispatched
      or returned, never both, and the returned list holds no file. */
  lemma PartitionEntries(es: seq<UnprocessedElement>)
    ensures |FileAddresses(es)| + |Filter(es, IsDirectory)| == |es|
    ensures multiset(Filter(es, IsFile)) + multiset(Filter(es, IsDirectory)) == multiset(es)
    ensures forall e :: e in Filter(es, IsDirectory) ==> e.elementType == Directory
  {
    FilterPartition(es, IsFile, IsDirectory);
  }

  /** Every file entry is dispatched. */
  lemma FileEntriesDispatched(es: seq<UnprocessedElement>)
    ensures forall e :: e in es && e.elementType == File ==> e.address in FileAddresses(es)
  {
    forall e | e in es && e.elementType == File
      ensures e.address in FileAddresses(es)
    {
      FilterComplete(es, IsFile, e);
      var k :| 0 <= k < |Filter(es, IsFile)| && Filter(es, IsFile)[k] == e;
      assert FileAddresses(es)[k] == e.address;
    }
  }

  // ---------------------------------------------------------------------------
  // The directory walk, as a specification

  /** The sub-directory entries of the page at `url` (none if it cannot be read). */
  function Children(site: Site, url: Url): seq<UnprocessedElement> {
    match ElementsList(site, url)
    case Failure(_) => []
    case Success(lines) => Filter(Classified(Lift(lines)), IsDirectory)
  }

  /** The pages ranked below `top` hold no directory cycle: from each of them
      `rank` decreases to every sub-directory entry its page lists. A walk
      started at a page ranked below `top` reads only such pages, so pages
      ranked at or above `top` are not constrained, cycles among them included. */
  ghost predicate WellRanked(site: Site, rank: Url -> nat, top: nat) {
    forall u: Url, k :: rank(u) < top && 0 <= k < |Children(site, u)| ==> rank(Children(site, u)[k].address) < rank(u)
  }

  /** What part of the walk did: the addresses dispatched and fetched, in
      order, and the exception that stopped it, if any. */
  datatype Trace = Trace(dispatched: seq<Url>, fetched: seq<Url>, failure: Option<FetchError>)

  const NoWork := Trace([], [], None)

  /** `a` followed by `b`; an exception in `a` means `b` never runs. */
  function Then(a: Trace, b: Trace): (r: Trace)
    ensures a.failure.Some? ==> r == a
    ensures a.failure.None? ==> r.failure == b.failure
    ensures a.failure.None? ==> r.dispatched == a.dispatched + b.dispatched && r.fetched == a.fetched + b.fetched
  {
    if a.failure.Some? then a
    else Trace(a.dispatched + b.dispatched, a.fetched + b.fetched, b.failure)
  }

  /** One element of `recursive`'s list: fetch the page at `url`, classify it,
      dispatch its files and walk its sub-directories. */
  ghost function ExpandDir(site: Site, rank: Url -> nat, url: Url, bound: nat): Trace
    requires WellRanked(site, rank, bound) && rank(url) < bound
    decreases bound, 0
  {
    match ElementsList(site, url)
    case Failure(e) => Trace([], [url], Some(e))
    case Success(lines) =>
      var es := Classified(Lift(lines));
      var here := Trace(FileAddresses(es), [url], None);
      var remaining := Filter(es, IsDirectory);
      assert remaining == Children(site, url);
      if remaining == [] then here else Then(here, WalkDirs(site, rank, remaining, rank(url)))
  }

  /** `ExpandDir` in terms of the page's own entries and its sub-directories. */
  lemma ExpandDirUnfold(site: Site, rank: Url -> nat, url: Url, bound: nat)
    requires WellRanked(site, rank, bound) && rank(url) < bound
    ensures ElementsList(site, url).Failure? ==>
      ExpandDir(site, rank, url, bound) == Trace([], [url], Some(ElementsList(site, url).error))
    ensures ElementsList(site, url).Success? ==>
      var here := Trace(FileAddresses(Classified(Lift(ElementsList(site, url).value))), [url], None);
      var remaining := Children(site, url);
      ExpandDir(site, rank, url, bound) == if remaining == [] then here else Then(here, WalkDirs(site, rank, remaining, rank(url)))
  {
  }

  /** `recursive(dirs)`: expand the directories in list order. */
  ghost function WalkDirs(site: Site, rank: Url -> nat, dirs: seq<UnprocessedElement>, bound: nat): Trace
    requires WellRanked(site, rank, bound)
    requires forall k :: 0 <= k < |dirs| ==> rank(dirs[k].address) < bound
    decreases bound, |dirs|
  {
    if dirs == [] then NoWork
    else Then(ExpandDir(site, rank, dirs[0].address, bound), WalkDirs(site, rank, dirs[1..], bound))
  }

  lemma ThenAssoc(a: Trace, b: Trace, c: Trace)
    ensures Then(Then(a, b), c) == Then(a, Then(b, c))
  {
  }

  /** Walking `a + b` walks `a`, then, unless `a` threw, `b`. */
  lemma {:induction false} WalkDirsAppend(site: Site, rank: Url -> nat, a: seq<UnprocessedElement>, b: seq<UnprocessedElement>, bound: nat)
    requires WellRanked(site, rank, bound)
    requires forall k :: 0 <= k < |a| ==> rank(a[k].address) < bound
    requires forall k :: 0 <= k < |b| ==> rank(b[k].address) < bound
    ensures WalkDirs(site, rank, a + b, bound) == Then(WalkDirs(site, rank, a, bound), WalkDirs(site, rank, b, bound))
  {
    if a == [] {
      assert a + b == b;
    } else {
      assert (a + b)[0] == a[0] && (a + b)[1..] == a[1..] + b;
      WalkDirsAppend(site, rank, a[1..], b, bound);
      ThenAssoc(ExpandDir(site, rank, a[0].address, bound), WalkDirs(site, rank, a[1..], bound), WalkDirs(site, rank, b, bound));
    }
  }

  /** A list of one directory walks just that directory. */
  lemma WalkDirsSingle(site: Site, rank: Url -> nat, d: UnprocessedElement, bound: nat)
    requires WellRanked(site, rank, bound) && rank(d.address) < bound
    ensures WalkDirs(site, rank, [d], bound) == ExpandDir(site, rank, d.address, bound)
  {
  }

  /** One more directory of the list: walk it after the ones before it; if it
      throws, nothing after it is walked. */
  lemma WalkDirsStep(site: Site, rank: Url -> nat, dirs: seq<UnprocessedElement>, i: nat, bound: nat)
    requires WellRanked(site, rank, bound)
    requires forall k :: 0 <= k < |dirs| ==> rank(dirs[k].address) < bound
    requires i < |dirs|
    ensures var sofar := Then(WalkDirs(site, rank, dirs[..i], bound), ExpandDir(site, rank, dirs[i].address, bound));
      && WalkDirs(site, rank, dirs[..i + 1], bound) == sofar
      && (sofar.failure.Some? ==> WalkDirs(site, rank, dirs, bound) == sofar)
  {
    var front, back := dirs[..i + 1], dirs[i + 1..];
    assert front == dirs[..i] + [dirs[i]];
    assert front + back == dirs;
    WalkDirsAppend(site, rank, dirs[..i], [dirs[i]], bound);
    WalkDirsSingle(site, rank, dirs[i], bound);
    WalkDirsAppend(site, rank, front, back, bound);
  }

  /** `site` with the page at `x` replaced by `lines`. */
  function WithPage(site: Site, x: Url, lines: seq<string>): Site {
    Site(site.wellFormed + {x}, site.pages[x := lines])
  }

  /** Replacing one page leaves every other page's listing as it was. */
  lemma ListingElsewhere(site: Site, x: Url, lines: seq<string>, u: Url)
    requires u != x
    ensures ElementsList(WithPage(site, x, lines), u) == ElementsList(site, u)
    ensures Children(WithPage(site, x, lines), u) == Children(site, u)
  {
  }

  /** Whatever page sits at an address ranked at or above `top`, one that
      lists itself included, the pages below `top` stay free of cycles. */
  lemma HighPageKeepsRanked(site: Site, rank: Url -> nat, top: nat, x: Url, lines: seq<string>)
    requires WellRanked(site, rank, top) && rank(x) >= top
    ensures WellRanked(WithPage(site, x, lines), rank, top)
  {
    var site' := WithPage(site, x, lines);
    forall u: Url, k | rank(u) < top && 0 <= k < |Children(site', u)|
      ensures rank(Children(site', u)[k].address) < rank(u)
    {
      ListingElsewhere(site, x, lines, u);
    }
  }

  /** The walk from a page below `bound` never reads a page ranked at or above
      `bound`: replacing such a page does not change what the walk does. */
  lemma {:induction false} ExpandIgnoresHighPage(site: Site, rank: Url -> nat, x: Url, lines: seq<string>, url: Url, bound: nat)
    requires WellRanked(site, rank, bound) && rank(url) < bound && rank(x) >= bound
    ensures WellRanked(WithPage(site, x, lines), rank, bound)
    ensures ExpandDir(WithPage(site, x, lines), rank, url, bound) == ExpandDir(site, rank, url, bound)
    decreases bound, 0
  {
    var site' := WithPage(site, x, lines);
    HighPageKeepsRanked(site, rank, bound, x, lines);
    ListingElsewhere(site, x, lines, url);
    ExpandDirUnfold(site, rank, url, bound);
    ExpandDirUnfold(site', rank, url, bound);
    if ElementsList(site, url).Success? && Children(site, url) != [] {
      WalkIgnoresHighPage(site, rank, x, lines, Children(site, url), rank(url));
    }
  }

  lemma {:induction false} WalkIgnoresHighPage(site: Site, rank: Url -> nat, x: Url, lines: seq<string>, dirs: seq<UnprocessedElement>, bound: nat)
    requires WellRanked(site, rank, bound) && rank(x) >= bound
    requires forall k :: 0 <= k < |dirs| ==> rank(dirs[k].address) < bound
    ensures WellRanked(WithPage(site, x, lines), rank, bound)
    ensures WalkDirs(WithPage(site, x, lines), rank, dirs, bound) == WalkDirs(site, rank, dirs, bound)
    decreases bound, |dirs|
  {
    HighPageKeepsRanked(site, rank, bound, x, lines);
    if dirs != [] {
      ExpandIgnoresHighPage(site, rank, x, lines, dirs[0].address, bound);
      WalkIgnoresHighPage(site, rank, x, lines, dirs[1..], bound);
    }
  }

  /** A directory whose page cannot be read fails with the fetch's own error
      before anything is dispatched: `InvalidUrl` exactly when the address is
      malformed. */
  lemma UnreadableDirectory(site: Site, rank: Url -> nat, url: Url, bound: nat)
    requires WellRanked(site, rank, bound) && rank(url) < bound
    requires Fetch(site, url).Failure?
    ensures ExpandDir(site, rank, url, bound) == Trace([], [url], Some(Fetch(site, url).error))
    ensures ExpandDir(site, rank, url, bound).failure == Some(InvalidUrl) <==> url !in site.wellFormed
  {
  }

  /** A page with no marker line dispatches nothing and fetches nothing more. */
  lemma EmptyPage(site: Site, rank: Url -> nat, url: Url, bound: nat)
    requires WellRanked(site, rank, bound) && rank(url) < bound
    requires ElementsList(site, url) == Success([])
    ensures ExpandDir(site, rank, url, bound) == Trace([], [url], None)
  {
  }

  /** A directory without sub-directories ends its branch: its own fetch is
      the only one, and it dispatches exactly the files of its page. */
  lemma LeafDirectory(site: Site, rank: Url -> nat, url: Url, bound: nat)
    requires WellRanked(site, rank, bound) && rank(url) < bound
    requires ElementsList(site, url).Success? && Children(site, url) == []
    ensures ExpandDir(site, rank, url, bound) == Trace(FileAddresses(Classified(Lift(ElementsList(site, url).value))), [url], None)
  {
  }

  /** A fetch failure stops the walk at once: the failing directory is the last
      address fetched, and none of its files is dispatched. */
  lemma {:induction false} FailureIsLast(site: Site, rank: Url -> nat, url: Url, bound: nat)
    requires WellRanked(site, rank, bound) && rank(url) < bound
    ensures var t := ExpandDir(site, rank, url, bound);
      t.failure.Some? ==> |t.fetched| > 0 && ElementsList(site, t.fetched[|t.fetched| - 1]) == Failure(t.failure.value)
    ensures ElementsList(site, url).Failure? ==> ExpandDir(site, rank, url, bound) == Trace([], [url], Some(ElementsList(site, url).error))
    decreases bound, 0
  {
    ExpandDirUnfold(site, rank, url, bound);
    var remaining := Children(site, url);
    if ElementsList(site, url).Success? && remaining != [] {
      var here := Trace(FileAddresses(Classified(Lift(ElementsList(site, url).value))), [url], None);
      var rest := WalkDirs(site, rank, remaining, rank(url));
      WalkFailureIsLast(site, rank, remaining, rank(url));
      if rest.failure.Some? {
        LastOfAppend(here.fetched, rest.fetched);
      }
    }
  }

  lemma {:induction false} WalkFailureIsLast(site: Site, rank: Url -> nat, dirs: seq<UnprocessedElement>, bound: nat)
    requires WellRanked(site, rank, bound)
    requires forall k :: 0 <= k < |dirs| ==> rank(dirs[k].address) < bound
    ensures var t := WalkDirs(site, rank, dirs, bound);
      t.failure.Some? ==> |t.fetched| > 0 && ElementsList(site, t.fetched[|t.fetched| - 1]) == Failure(t.failure.value)
    decreases bound, |dirs|
  {
    if dirs != [] {
      var first := ExpandDir(site, rank, dirs[0].address, bound);
      var rest := WalkDirs(site, rank, dirs[1..], bound);
      assert WalkDirs(site, rank, dirs, bound) == Then(first, rest);
      if first.failure.Some? {
        FailureIsLast(site, rank, dirs[0].address, bound);
      } else {
        WalkFailureIsLast(site, rank, dirs[1..], bound);
        if rest.failure.Some? {
          LastOfAppend(first.fetched, rest.fetched);
        }
      }
    }
  }

  /** The file addresses listed on the page at `url` (none if it cannot be read). */
  function PageFiles(site: Site, url: Url): seq<Url> {
    match ElementsList(site, url)
    case Failure(_) => []
    case Success(lines) => FileAddresses(Classified(Lift(lines)))
  }

  /** Every address dispatched in `t` is a file entry of a page fetched in `t`. */
  ghost predicate DispatchesListedFiles(site: Site, t: Trace) {
    forall a :: a in t.dispatched ==> exists u :: u in t.fetched && a in PageFiles(site, u)
  }

  lemma ThenDispatchesListedFiles(site: Site, a: Trace, b: Trace)
    requires DispatchesListedFiles(site, a) && DispatchesListedFiles(site, b)
    ensures DispatchesListedFiles(site, Then(a, b))
  {
    var t := Then(a, b);
    if a.failure.None? {
      forall x | x in t.dispatched
        ensures exists u :: u in t.fetched && x in PageFiles(site, u)
      {
        if x in a.dispatched {
          var u :| u in a.fetched && x in PageFiles(site, u);
          assert u in t.fetched;
        } else {
          var u :| u in b.fetched && x in PageFiles(site, u);
          assert u in t.fetched;
        }
      }
    }
  }

  /** Nothing is dispatched that is not a file entry of a page the walk fetched. */
  lemma {:induction false} ExpandDispatchesListedFiles(site: Site, rank: Url -> nat, url: Url, bound: nat)
    requires WellRanked(site, rank, bound) && rank(url) < bound
    ensures DispatchesListedFiles(site, ExpandDir(site, rank, url, bound))
    decreases bound, 0
  {
    ExpandDirUnfold(site, rank, url, bound);
    if ElementsList(site, url).Success? {
      var here := Trace(PageFiles(site, url), [url], None);
      forall a | a in here.dispatched
        ensures exists u :: u in here.fetched && a in PageFiles(site, u)
      {
        assert url in here.fetched;
      }
      var remaining := Children(site, url);
      if remaining != [] {
        WalkDispatchesListedFiles(site, rank, remaining, rank(url));
        ThenDispatchesListedFiles(site, here, WalkDirs(site, rank, remaining, rank(url)));
      }
    }
  }

  lemma {:induction false} WalkDispatchesListedFiles(site: Site, rank: Url -> nat, dirs: seq<UnprocessedElement>, bound: nat)
    requires WellRanked(site, rank, bound)
    requires forall k :: 0 <= k < |dirs| ==> rank(dirs[k].address) < bound
    ensures DispatchesListedFiles(site, WalkDirs(site, rank, dirs, bound))
    decreases bound, |dirs|
  {
    if dirs != [] {
      var first := ExpandDir(site, rank, dirs[0].address, bound);
      var rest := WalkDirs(site, rank, dirs[1..], bound);
      assert WalkDirs(site, rank, dirs, bound) == Then(first, rest);
      ExpandDispatchesListedFiles(site, rank, dirs[0].address, bound);
      WalkDispatchesListedFiles(site, rank, dirs[1..], bound);
      ThenDispatchesListedFiles(site, first, rest);
    }
  }

  // ---------------------------------------------------------------------------
  // The service

  /** The `WebUtils` service with the effects it has on the outside world. */
  class WebUtils {
    /** Addresses handed to `persistElementInfo`, one per started thread, in start order. */
    ghost var dispatched: seq<Url>
    /** Addresses whose page was requested, in request order. */
    ghost var fetched: seq<Url>

    constructor ()
      ensures dispatched == [] && fetched == []
    {
      dispatched := [];
      fetched := [];
    }

    /** The `forEach` of `transformRawElementsToUnprocessedElements`: one
        thread per file entry, in list order. */
    method DispatchFiles(all: seq<UnprocessedElement>)
      modifies this
      ensures dispatched == old(dispatched) + FileAddresses(all)
      ensures fetched == old(fetched)
    {
      var i := 0;
      while i < |all|
        invariant 0 <= i <= |all|
        invariant dispatched == old(dispatched) + FileAddresses(all[..i])
        invariant fetched == old(fetched)
      {
        var element := all[i];
        assert all[..i + 1] == all[..i] + [element];
        FileAddressesSnoc(all[..i], element);
        if element.elementType == File {
          dispatched := dispatched + [element.address];
        }
        i := i + 1;
      }
      assert all[..i] == all;
    }

    /** `transformRawElementsToUnprocessedElements`: classify, start one job
        per file in list order, then drop the files from the list. */
    method TransformRawElementsToUnprocessedElements(elementListOfTheFirstPage: seq<string>)
      returns (filesAndDirectories: seq<UnprocessedElement>)
      modifies this
      ensures var es := Classified(Lift(elementListOfTheFirstPage));
        && dispatched == old(dispatched) + FileAddresses(es)
        && filesAndDirectories == Filter(es, IsDirectory)
      ensures fetched == old(fetched)
    {
      var all := GetUnprocessedElementsDTO(Lift(elementListOfTheFirstPage));
      DispatchFiles(all);
      filesAndDirectories := RemoveFiles(all);
    }

    /** `recursive`: for each directory in list order, fetch its page, dispatch
        its files and walk its sub-directories if there are any. A fetch
        exception ends the whole walk. */
    method Recursive(site: Site, ghost rank: Url -> nat, remainingDirectory: seq<UnprocessedElement>, ghost bound: nat)
      returns (failure: Option<FetchError>)
      requires WellRanked(site, rank, bound)
      requires forall k :: 0 <= k < |remainingDirectory| ==> rank(remainingDirectory[k].address) < bound
      modifies this
      ensures var t := WalkDirs(site, rank, remainingDirectory, bound);
        && dispatched == old(dispatched) + t.dispatched
        && fetched == old(fetched) + t.fetched
        && failure == t.failure
      decreases bound, 1
    {
      var i := 0;
      while i < |remainingDirectory|
        invariant 0 <= i <= |remainingDirectory|
        invariant var t := WalkDirs(site, rank, remainingDirectory[..i], bound);
          && t.failure.None?
          && dispatched == old(dispatched) + t.dispatched
          && fetched == old(fetched) + t.fetched
      {
        ghost var done := WalkDirs(site, rank, remainingDirectory[..i], bound);
        ghost var step := ExpandDir(site, rank, remainingDirectory[i].address, bound);
        WalkDirsStep(site, rank, remainingDirectory, i, bound);
        AppendAssoc(old(dispatched), done.dispatched, step.dispatched);
        AppendAssoc(old(fetched), done.fetched, step.fetched);
        var f := ExpandDirectory(site, rank, remainingDirectory[i].address, bound);
        if f.Some? {
          return f;
        }
        i := i + 1;
      }
      assert remainingDirectory[..i] == remainingDirectory;
      return None;
    }

    /** The body of `recursive`'s `forEach`: fetch one directory page,
        dispatch its files and walk its sub-directories if there are any. */
    method ExpandDirectory(site: Site, ghost rank: Url -> nat, address: Url, ghost bound: nat)
      returns (failure: Option<FetchError>)
      requires WellRanked(site, rank, bound) && rank(address) < bound
      modifies this
      ensures var t := ExpandDir(site, rank, address, bound);
        && dispatched == old(dispatched) + t.dispatched
        && fetched == old(fetched) + t.fetched
        && failure == t.failure
      decreases bound, 0
    {
      ghost var t := ExpandDir(site, rank, address, bound);
      ExpandDirUnfold(site, rank, address, bound);
      fetched := fetched + [address];
      var elementList := GetGithubRepositoryElementsList(site, address);
      if elementList.Failure? {
        return Some(elementList.error);
      }
      ghost var here := Trace(FileAddresses(Classified(Lift(elementList.value))), [address], None);
      var newlyRemainingDirectory := TransformRawElementsToUnprocessedElements(elementList.value);
      assert newlyRemainingDirectory == Children(site, address);
      if |newlyRemainingDirectory| != 0 {
        ghost var rest := WalkDirs(site, rank, newlyRemainingDirectory, rank(address));
        assert t == Then(here, rest);
        AppendAssoc(old(dispatched), here.dispatched, rest.dispatched);
        AppendAssoc(old(fetched), here.fetched, rest.fetched);
        failure := Recursive(site, rank, newlyRemainingDirectory, rank(address));
        return;
      }
      assert t == here;
      return None;
    }

    /** `mapRepository`: fetch the root page; if it has marker lines, dispatch
        its files and walk its directories. */
    method MapRepository(site: Site, ghost rank: Url -> nat, repositoryUrl: Url)
      returns (failure: Option<FetchError>)
      requires WellRanked(site, rank, rank(repositoryUrl) + 1)
      modifies this
      ensures var t := ExpandDir(site, rank, repositoryUrl, rank(repositoryUrl) + 1);
        && dispatched == old(dispatched) + t.dispatched
        && fetched == old(fetched) + t.fetched
        && failure == t.failure
    {
      ghost var t := ExpandDir(site, rank, repositoryUrl, rank(repositoryUrl) + 1);
      ExpandDirUnfold(site, rank, repositoryUrl, rank(repositoryUrl) + 1);
      fetched := fetched + [repositoryUrl];
      var elementListOfTheFirstPage := GetGithubRepositoryElementsList(site, repositoryUrl);
      if elementListOfTheFirstPage.Failure? {
        return Some(elementListOfTheFirstPage.error);
      }
      ghost var here := Trace(FileAddresses(Classified(Lift(elementListOfTheFirstPage.value))), [repositoryUrl], None);
      if |elementListOfTheFirstPage.value| != 0 {
        var remainingDirectories := TransformRawElementsToUnprocessedElements(elementListOfTheFirstPage.value);
        assert remainingDirectories == Children(site, repositoryUrl);
        assert dispatched == old(dispatched) + here.dispatched;
        if |remainingDirectories| != 0 {
          ghost var rest := WalkDirs(site, rank, remainingDirectories, rank(repositoryUrl));
          assert t == Then(here, rest);
          ghost var dispatchedBefore, fetchedBefore := dispatched, fetched;
          failure := Recursive(site, rank, remainingDirectories, rank(repositoryUrl));
          AppendAssoc(old(dispatched), here.dispatched, rest.dispatched);
          AppendAssoc(old(fetched), [repositoryUrl], rest.fetched);
          return;
        }
        assert t == here;
      } else {
        assert Lift([]) == [];
        assert t == here && here.dispatched == [];
      }
      return None;
    }
  }
}
