/** The work-list directory traversal of dir_walker.rs, for one worker.

    The file system below the root is a finite tree value, `FsNode`: what
    `read_dir`, `is_dir` and `is_file` report for each path. A directory's
    listing is either unreadable or a sequence of entries, each of which may
    itself fail to read. The pending list holds the nodes of the pushed
    paths, in push order; the last one is popped first. */
module DirWalk {

  datatype FsNode =
    | File(path: string)
    | Dir(path: string, listing: Listing)
    /** neither `is_dir` nor `is_file`: a dangling link, a socket, ... */
    | Other(path: string)

  datatype Listing = Unreadable | Listed(entries: seq<DirEntry>)

  datatype DirEntry = BadEntry | Entry(node: FsNode)

  /** `fs::read_dir(path)`: the entries of a readable directory, else an error. */
  predicate Readable(n: FsNode)
  {
    n.Dir? && n.listing.Listed?
  }

  /** The number of nodes `n` has, counting through readable directories. */
  function Size(n: FsNode): nat
    decreases n, 1
  {
    if Readable(n) then 1 + SizeFrom(n, |n.listing.entries|) else 1
  }

  /** The sizes of the first `k` entries of directory `d`, added up. */
  function SizeFrom(d: FsNode, k: nat): nat
    requires Readable(d) && k <= |d.listing.entries|
    decreases d, 0, k
  {
    if k == 0 then 0
    else
      var e := d.listing.entries[k - 1];
      SizeFrom(d, k - 1) + (if e.Entry? then Size(e.node) else 0)
  }

  function StackSize(stack: seq<FsNode>): nat
  {
    if stack == [] then 0 else StackSize(stack[..|stack| - 1]) + Size(stack[|stack| - 1])
  }

  /** The entries `walk_apply` pushes, in listing order: those that are directories. */
  function SubDirs(es: seq<DirEntry>): seq<FsNode>
  {
    if es == [] then [] else SubDirs(es[..|es| - 1]) + PushedBy(es[|es| - 1])
  }

  function PushedBy(e: DirEntry): seq<FsNode>
  {
    if e.Entry? && e.node.Dir? then [e.node] else []
  }

  /** The paths `walk_apply` passes to `f`, in listing order: those of the files. */
  function DirectFiles(es: seq<DirEntry>): seq<string>
  {
    if es == [] then [] else DirectFiles(es[..|es| - 1]) + CalledWith(es[|es| - 1])
  }

  function CalledWith(e: DirEntry): seq<string>
  {
    if e.Entry? && e.node.File? then [e.node.path] else []
  }

  /** What one worker does from a pending list: the paths it pops (and tries
      to read), and the file paths it hands to the callback, in call order. */
  datatype Trace = Trace(read: seq<string>, files: seq<string>)

  function Then(a: Trace, b: Trace): Trace
  {
    Trace(a.read + b.read, a.files + b.files)
  }

  lemma ThenAssociates(a: Trace, b: Trace, c: Trace)
    ensures Then(Then(a, b), c) == Then(a, Then(b, c))
  {
    assert (a.read + b.read) + c.read == a.read + (b.read + c.read);
    assert (a.files + b.files) + c.files == a.files + (b.files + c.files);
  }

  lemma {:induction false} StackSizeAppend(a: seq<FsNode>, b: seq<FsNode>)
    ensures StackSize(a + b) == StackSize(a) + StackSize(b)
    decreases |b|
  {
    if b == [] {
      assert a + b == a;
    } else {
      assert (a + b)[..|a + b| - 1] == a + b[..|b| - 1];
      StackSizeAppend(a, b[..|b| - 1]);
    }
  }

  lemma {:induction false} SubDirsSize(d: FsNode, k: nat)
    requires Readable(d) && k <= |d.listing.entries|
    ensures StackSize(SubDirs(d.listing.entries[..k])) <= SizeFrom(d, k)
  {
    if k > 0 {
      var es := d.listing.entries;
      assert es[..k][..k - 1] == es[..k - 1];
      SubDirsSize(d, k - 1);
      var e := es[k - 1];
      StackSizeAppend(SubDirs(es[..k - 1]), PushedBy(e));
      if e.Entry? && e.node.Dir? {
        assert [e.node][..0] == [];
      }
    }
  }

  /** Popping `n` and pushing its sub-directories leaves less to do. */
  lemma PopShrinks(rest: seq<FsNode>, n: FsNode)
    requires Readable(n)
    ensures StackSize(rest + SubDirs(n.listing.entries)) < StackSize(rest + [n])
  {
    StackSizeAppend(rest, SubDirs(n.listing.entries));
    StackSizeAppend(rest, [n]);
    SubDirsSize(n, |n.listing.entries|);
    assert n.listing.entries[..|n.listing.entries|] == n.listing.entries;
    assert [n][..0] == [];
  }

  /** The pending list after one pop: the last node is removed and, when
      it can be listed, its sub-directories are pushed. */
  function Next(stack: seq<FsNode>): seq<FsNode>
    requires stack != []
  {
    var n, rest := stack[|stack| - 1], stack[..|stack| - 1];
    if Readable(n) then rest + SubDirs(n.listing.entries) else rest
  }

  /** What one pop records: the path read and the files handed over. */
  function Step(n: FsNode): Trace
  {
    Trace([n.path], if Readable(n) then DirectFiles(n.listing.entries) else [])
  }

  lemma NextShrinks(stack: seq<FsNode>)
    requires stack != []
    ensures StackSize(Next(stack)) < StackSize(stack)
  {
    var n, rest := stack[|stack| - 1], stack[..|stack| - 1];
    if Readable(n) {
      assert stack == rest + [n];
      PopShrinks(rest, n);
    }
  }

  /** The whole traversal from a pending list, one pop at a time. */
  function WalkTrace(stack: seq<FsNode>): Trace
    decreases StackSize(stack)
  {
    if stack == [] then Trace([], [])
    else
      NextShrinks(stack);
      Then(Step(stack[|stack| - 1]), WalkTrace(Next(stack)))
  }

  /** The files an entry for `n` leads to: itself when it is a file, else
      the files inside it. */
  function FilesUnder(n: FsNode): multiset<string>
    decreases n, 2
  {
    if n.File? then multiset{n.path} else FilesInside(n)
  }

  /** Every file reachable below `n` through readable directories; nothing
      when `n` cannot be listed (a file given as the root among them). */
  function FilesInside(n: FsNode): multiset<string>
    decreases n, 1
  {
    if Readable(n) then FilesFrom(n, |n.listing.entries|) else multiset{}
  }

  function FilesFrom(d: FsNode, k: nat): multiset<string>
    requires Readable(d) && k <= |d.listing.entries|
    decreases d, 0, k
  {
    if k == 0 then multiset{}
    else
      var e := d.listing.entries[k - 1];
      FilesFrom(d, k - 1) + (if e.Entry? then FilesUnder(e.node) else multiset{})
  }

  function StackFiles(stack: seq<FsNode>): multiset<string>
  {
    if stack == [] then multiset{} else StackFiles(stack[..|stack| - 1]) + FilesInside(stack[|stack| - 1])
  }

  /** The paths of `n` and of every directory below it reachable through
      readable directories: each is pushed once, so read once. */
  function DirsUnder(n: FsNode): multiset<string>
    decreases n, 1
  {
    multiset{n.path} + (if Readable(n) then DirsFrom(n, |n.listing.entries|) else multiset{})
  }

  function DirsFrom(d: FsNode, k: nat): multiset<string>
    requires Readable(d) && k <= |d.listing.entries|
    decreases d, 0, k
  {
    if k == 0 then multiset{}
    else
      var e := d.listing.entries[k - 1];
      DirsFrom(d, k - 1) + (if e.Entry? && e.node.Dir? then DirsUnder(e.node) else multiset{})
  }

  function StackDirs(stack: seq<FsNode>): multiset<string>
  {
    if stack == [] then multiset{} else StackDirs(stack[..|stack| - 1]) + DirsUnder(stack[|stack| - 1])
  }

  lemma {:induction false} StackFilesAppend(a: seq<FsNode>, b: seq<FsNode>)
    ensures StackFiles(a + b) == StackFiles(a) + StackFiles(b)
    decreases |b|
  {
    if b == [] {
      assert a + b == a;
    } else {
      assert (a + b)[..|a + b| - 1] == a + b[..|b| - 1];
      StackFilesAppend(a, b[..|b| - 1]);
    }
  }

  lemma {:induction false} StackDirsAppend(a: seq<FsNode>, b: seq<FsNode>)
    ensures StackDirs(a + b) == StackDirs(a) + StackDirs(b)
    decreases |b|
  {
    if b == [] {
      assert a + b == a;
    } else {
      assert (a + b)[..|a + b| - 1] == a + b[..|b| - 1];
      StackDirsAppend(a, b[..|b| - 1]);
    }
  }

  /** What one entry contributes below a directory: the file it names, or
      what lies below the sub-directory it names. */
  lemma EntryContributes(e: DirEntry)
    ensures (if e.Entry? then FilesUnder(e.node) else multiset{}) == multiset(CalledWith(e)) + StackFiles(PushedBy(e))
    ensures (if e.Entry? && e.node.Dir? then DirsUnder(e.node) else multiset{}) == StackDirs(PushedBy(e))
  {
    if e.Entry? && e.node.Dir? {
      assert [e.node][..0] == [];
    }
  }

  /** The files below the first `k` entries of a directory are the files
      among them plus those below the sub-directories among them. */
  lemma {:induction false} FilesSplit(d: FsNode, k: nat)
    requires Readable(d) && k <= |d.listing.entries|
    ensures FilesFrom(d, k) == multiset(DirectFiles(d.listing.entries[..k])) + StackFiles(SubDirs(d.listing.entries[..k]))
  {
    if k > 0 {
      var es := d.listing.entries;
      var e := es[k - 1];
      assert es[..k][..k - 1] == es[..k - 1];
      FilesSplit(d, k - 1);
      EntryContributes(e);
      assert DirectFiles(es[..k]) == DirectFiles(es[..k - 1]) + CalledWith(e);
      assert SubDirs(es[..k]) == SubDirs(es[..k - 1]) + PushedBy(e);
      StackFilesAppend(SubDirs(es[..k - 1]), PushedBy(e));
    }
  }

  /** Likewise the directories below the first `k` entries of a directory. */
  lemma {:induction false} DirsSplit(d: FsNode, k: nat)
    requires Readable(d) && k <= |d.listing.entries|
    ensures DirsFrom(d, k) == StackDirs(SubDirs(d.listing.entries[..k]))
  {
    if k > 0 {
      var es := d.listing.entries;
      var e := es[k - 1];
      assert es[..k][..k - 1] == es[..k - 1];
      DirsSplit(d, k - 1);
      EntryContributes(e);
      assert SubDirs(es[..k]) == SubDirs(es[..k - 1]) + PushedBy(e);
      StackDirsAppend(SubDirs(es[..k - 1]), PushedBy(e));
    }
  }

  /** What one pop hands over, plus the files still reachable from the new
      pending list, are the files reachable from the old one. */
  lemma FilesAfterStep(stack: seq<FsNode>)
    requires stack != []
    ensures StackFiles(stack) == multiset(Step(stack[|stack| - 1]).files) + StackFiles(Next(stack))
  {
    var n, rest := stack[|stack| - 1], stack[..|stack| - 1];
    assert StackFiles(stack) == StackFiles(rest) + FilesInside(n);
    if Readable(n) {
      var es := n.listing.entries;
      StackFilesAppend(rest, SubDirs(es));
      FilesSplit(n, |es|);
      assert es[..|es|] == es;
    }
  }

  /** Likewise for the paths read. */
  lemma DirsAfterStep(stack: seq<FsNode>)
    requires stack != []
    ensures StackDirs(stack) == multiset(Step(stack[|stack| - 1]).read) + StackDirs(Next(stack))
  {
    var n, rest := stack[|stack| - 1], stack[..|stack| - 1];
    assert StackDirs(stack) == StackDirs(rest) + DirsUnder(n);
    assert multiset(Step(n).read) == multiset{n.path};
    if Readable(n) {
      var below := SubDirs(n.listing.entries);
      assert Next(stack) == rest + below;
      StackDirsAppend(rest, below);
      DirsOfReadable(n);
      UnionShuffle(StackDirs(rest), multiset{n.path}, StackDirs(below));
    }
  }

  /** A readable directory's own path, plus the directories below those it
      pushes. */
  lemma DirsOfReadable(n: FsNode)
    requires Readable(n)
    ensures DirsUnder(n) == multiset{n.path} + StackDirs(SubDirs(n.listing.entries))
  {
    var es := n.listing.entries;
    DirsSplit(n, |es|);
    assert es[..|es|] == es;
  }

  lemma UnionShuffle<T>(a: multiset<T>, b: multiset<T>, c: multiset<T>)
    ensures a + (b + c) == b + (a + c)
  {
  }

  /** With one worker over a finite tree, every reachable file is passed to
      the callback exactly once. */
  lemma {:induction false} WalkCallsEachFileOnce(stack: seq<FsNode>)
    ensures multiset(WalkTrace(stack).files) == StackFiles(stack)
    decreases StackSize(stack)
  {
    if stack != [] {
      NextShrinks(stack);
      WalkCallsEachFileOnce(Next(stack));
      FilesAfterStep(stack);
    }
  }

  /** ... and every pushed path is popped and read exactly once. */
  lemma {:induction false} WalkReadsEachDirOnce(stack: seq<FsNode>)
    ensures multiset(WalkTrace(stack).read) == StackDirs(stack)
    decreases StackSize(stack)
  {
    if stack != [] {
      NextShrinks(stack);
      WalkReadsEachDirOnce(Next(stack));
      DirsAfterStep(stack);
    }
  }

  /** One pop of the traversal, after whatever was done before it. */
  lemma WalkStep(done: Trace, stack: seq<FsNode>)
    requires stack != []
    ensures Then(done, WalkTrace(stack)) == Then(Then(done, Step(stack[|stack| - 1])), WalkTrace(Next(stack)))
  {
    ThenAssociates(done, Step(stack[|stack| - 1]), WalkTrace(Next(stack)));
  }

  /** A walk from an empty root directory reads it once and calls nothing. */
  lemma EmptyRootReadOnce(p: string)
    ensures WalkTrace([Dir(p, Listed([]))]) == Trace([p], [])
  {
    assert [Dir(p, Listed([]))][..0] == [];
  }

  class DirWalker {
    /** The shared list of pending directories. */
    var dirs: seq<FsNode>

    /** `DirWalker::new(path)`: the pending list holds only the root (the
        constructor never fails). */
    constructor (root: FsNode)
      ensures dirs == [root]
    {
      dirs := [root];
    }

    /** `walk_apply(f)` with one worker: pop the last pending path until none
        is left; push each entry that is a directory, hand each file to `f`,
        skip other entries, unreadable entries and unreadable directories.
        `files` is the sequence of calls to `f`; `read` the popped paths. */
    method WalkApply() returns (ghost read: seq<string>, files: seq<string>)
      modifies this
      ensures dirs == []
      ensures Trace(read, files) == WalkTrace(old(dirs))
    {
      read, files := [], [];
      while dirs != []
        invariant Then(Trace(read, files), WalkTrace(dirs)) == WalkTrace(old(dirs))
        decreases StackSize(dirs)
      {
        WalkStep(Trace(read, files), dirs);
        NextShrinks(dirs);
        var dir := dirs[|dirs| - 1];
        dirs := dirs[..|dirs| - 1];
        read := read + [dir.path];
        if Readable(dir) {
          var found := PushEntries(dir.listing.entries);
          files := files + found;
        }
      }
    }

    /** The handling of one listing: each entry that is a directory is
        pushed, each file is handed to the callback (`found`, in order),
        anything else and every unreadable entry is skipped. */
    method PushEntries(entries: seq<DirEntry>) returns (found: seq<string>)
      modifies this
      ensures dirs == old(dirs) + SubDirs(entries)
      ensures found == DirectFiles(entries)
    {
      found := [];
      for i := 0 to |entries|
        invariant dirs == old(dirs) + SubDirs(entries[..i])
        invariant found == DirectFiles(entries[..i])
      {
        assert entries[..i + 1][..i] == entries[..i];
        match entries[i] {
          case BadEntry =>
          case Entry(node) =>
            if node.Dir? {
              dirs := dirs + [node];
            } else if node.File? {
              found := found + [node.path];
            }
        }
      }
      assert entries[..|entries|] == entries;
    }

    /** `walk()`: the same traversal, printing each file path instead of
        calling a callback; `printed` is the printed lines. */
    method Walk() returns (printed: seq<string>)
      modifies this
      ensures dirs == []
      ensures printed == WalkTrace(old(dirs)).files
    {
      ghost var read;
      read, printed := WalkApply();
    }
  }
}
