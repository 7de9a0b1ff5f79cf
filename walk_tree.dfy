/** The walk of `mapRepository` and `recursive` compared with the directory
    tree the site lays out: when every directory page of a tree lists exactly
    its files and sub-directories, the walk dispatches every file of the tree
    and fetches every directory of the tree exactly as often as the tree holds
    it, in depth-first order with the files of a page before its
    sub-directories. */
module WalkTree {
  import opened Wrappers
  import opened Seqs
  import opened WebUtils

  /** A directory: its address, the file addresses its page lists and its
      sub-directories, in page order. */
  datatype DirTree = DirTree(address: Url, files: seq<Url>, subdirs: seq<DirTree>)

  /** The files of a tree, depth first, those of a page before those below it. */
  function Files(t: DirTree): seq<Url>
    decreases t
  {
    t.files + FilesOf(t.subdirs)
  }

  function FilesOf(ts: seq<DirTree>): seq<Url>
    decreases ts
  {
    if ts == [] then [] else Files(ts[0]) + FilesOf(ts[1..])
  }

  /** The directories of a tree in depth-first preorder. */
  function Dirs(t: DirTree): seq<Url>
    decreases t
  {
    [t.address] + DirsOf(t.subdirs)
  }

  function DirsOf(ts: seq<DirTree>): seq<Url>
    decreases ts
  {
    if ts == [] then [] else Dirs(ts[0]) + DirsOf(ts[1..])
  }

  /** The number of directories in a tree. */
  function Size(t: DirTree): nat
    decreases t
  {
    1 + SizeOf(t.subdirs)
  }

  function SizeOf(ts: seq<DirTree>): nat
    decreases ts
  {
    if ts == [] then 0 else Size(ts[0]) + SizeOf(ts[1..])
  }

  /** Entry k of `dirs` names the root of tree k of `ts`. */
  predicate AddressesMatch(dirs: seq<UnprocessedElement>, ts: seq<DirTree>) {
    |dirs| == |ts| && forall k :: 0 <= k < |dirs| ==> dirs[k].address == ts[k].address
  }

  /** The page of every directory of `t` can be read, and it lists exactly the
      tree's files and, in order, the addresses of its sub-directories. */
  ghost predicate Describes(site: Site, t: DirTree)
    decreases t
  {
    && ElementsList(site, t.address).Success?
    && FileAddresses(Classified(Lift(ElementsList(site, t.address).value))) == t.files
    && AddressesMatch(Children(site, t.address), t.subdirs)
    && forall k :: 0 <= k < |t.subdirs| ==> Describes(site, t.subdirs[k])
  }

  /** Expanding the root of a described tree dispatches the tree's files and
      fetches its directories, in depth-first order, and throws nothing. */
  lemma {:induction false} ExpandMatchesTree(site: Site, rank: Url -> nat, t: DirTree, bound: nat)
    requires WellRanked(site, rank, bound) && rank(t.address) < bound
    requires Describes(site, t)
    ensures ExpandDir(site, rank, t.address, bound) == Trace(Files(t), Dirs(t), None)
    decreases t
  {
    ExpandDirUnfold(site, rank, t.address, bound);
    var remaining := Children(site, t.address);
    if remaining == [] {
      assert t.subdirs == [];
    } else {
      WalkMatchesTrees(site, rank, remaining, t.subdirs, rank(t.address));
    }
  }

  /** Walking the sub-directory entries of a described tree walks its subtrees. */
  lemma {:induction false} WalkMatchesTrees(site: Site, rank: Url -> nat, dirs: seq<UnprocessedElement>, ts: seq<DirTree>, bound: nat)
    requires WellRanked(site, rank, bound)
    requires forall k :: 0 <= k < |dirs| ==> rank(dirs[k].address) < bound
    requires AddressesMatch(dirs, ts)
    requires forall k :: 0 <= k < |ts| ==> Describes(site, ts[k])
    ensures WalkDirs(site, rank, dirs, bound) == Trace(FilesOf(ts), DirsOf(ts), None)
    decreases ts
  {
    if dirs != [] {
      assert dirs[0].address == ts[0].address;
      ExpandMatchesTree(site, rank, ts[0], bound);
      WalkMatchesTrees(site, rank, dirs[1..], ts[1..], bound);
    }
  }

  /** The walk of a described tree expands as many directories as the tree has. */
  lemma {:induction false} DirsSize(t: DirTree)
    ensures |Dirs(t)| == Size(t)
    decreases t
  {
    DirsOfSize(t.subdirs);
  }

  /** Over a site a tree describes, the walk from the root fetches one page per
      directory of the tree. */
  lemma WalkFetchCount(site: Site, rank: Url -> nat, t: DirTree, bound: nat)
    requires WellRanked(site, rank, bound) && rank(t.address) < bound
    requires Describes(site, t)
    ensures |ExpandDir(site, rank, t.address, bound).fetched| == Size(t)
  {
    ExpandMatchesTree(site, rank, t, bound);
    DirsSize(t);
  }

  lemma {:induction false} DirsOfSize(ts: seq<DirTree>)
    ensures |DirsOf(ts)| == SizeOf(ts)
    decreases ts
  {
    if ts != [] {
      DirsSize(ts[0]);
      DirsOfSize(ts[1..]);
    }
  }
}
