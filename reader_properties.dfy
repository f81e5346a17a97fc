/** What the reader promises about one task's listing. */
module ReaderProperties {
  import opened Types
  import opened Seqs
  import opened Providers

  /**
   * The inclusion rules, in order: a directory matching a negative pattern is out
   * whatever the patterns say; then the onlyFiles / onlyDirectories options; then
   * the entry is in exactly when its path matches every pattern.
   */
  lemma FilterRules(reader: Reader, e: DirEntry, patterns: seq<string>, negative: seq<string>, isMatch: Matcher)
    ensures e.isDirectory && AnyMatch(e.path, negative, isMatch) ==> !reader.Filter(e, patterns, negative, isMatch)
    ensures reader.options.onlyFiles && !e.isFile ==> !reader.Filter(e, patterns, negative, isMatch)
    ensures reader.options.onlyDirectories && !e.isDirectory ==> !reader.Filter(e, patterns, negative, isMatch)
    ensures reader.Filter(e, patterns, negative, isMatch) ==> forall p :: p in patterns ==> isMatch(e.path, p)
    ensures !(e.isDirectory && AnyMatch(e.path, negative, isMatch))
        && !(reader.options.onlyFiles && !e.isFile)
        && !(reader.options.onlyDirectories && !e.isDirectory)
        ==> (reader.Filter(e, patterns, negative, isMatch) <==> forall p :: p in patterns ==> isMatch(e.path, p))
  {
  }

  /**
   * The recursion rules: nothing is entered when `deep` is falsy (false or 0); with a
   * number of levels, no directory of more segments is entered; no directory matching
   * a negative pattern is entered. Otherwise the directory is entered: with `deep:
   * true` exactly when no negative pattern matches it, and with a non-zero number of
   * levels exactly when it also lies within that many segments.
   */
  lemma DeepRules(reader: Reader, e: DirEntry, negative: seq<string>, isMatch: Matcher)
    ensures reader.options.deep == DeepFlag(false) ==> !reader.Deep(e, negative, isMatch)
    ensures reader.options.deep == DeepLevels(0) ==> !reader.Deep(e, negative, isMatch)
    ensures reader.options.deep.DeepLevels? && reader.Deep(e, negative, isMatch)
        ==> Segments(e.path) <= reader.options.deep.levels
    ensures AnyMatch(e.path, negative, isMatch) ==> !reader.Deep(e, negative, isMatch)
    ensures reader.options.deep == DeepFlag(true)
        ==> (reader.Deep(e, negative, isMatch) <==> forall p :: p in negative ==> !isMatch(e.path, p))
    ensures reader.options.deep.DeepLevels? && reader.options.deep.levels != 0
        ==> (reader.Deep(e, negative, isMatch) <==>
               Segments(e.path) <= reader.options.deep.levels && forall p :: p in negative ==> !isMatch(e.path, p))
  {
  }

  /** More negative patterns can only turn `filter` and `deep` from true to false. */
  lemma NegativeMonotone(reader: Reader, e: DirEntry, patterns: seq<string>, fewer: seq<string>, more: seq<string>, isMatch: Matcher)
    requires forall p :: p in fewer ==> p in more
    ensures reader.Filter(e, patterns, more, isMatch) ==> reader.Filter(e, patterns, fewer, isMatch)
    ensures reader.Deep(e, more, isMatch) ==> reader.Deep(e, fewer, isMatch)
  {
    if AnyMatch(e.path, fewer, isMatch) {
      var p :| p in fewer && isMatch(e.path, p);
      assert p in more;
    }
  }

  /** The base path handed to the enumerator: "" for the task base ".", the base otherwise. */
  lemma BasePath(reader: Reader, task: Task, isMatch: Matcher)
    ensures var opts := reader.GetReaderOptions(task, isMatch);
      && opts.sep == "/"
      && (opts.basePath == "" <==> task.base == "." || task.base == "")
      && (opts.basePath != "" ==> opts.basePath == task.base)
  {
  }

  /** Every listed entry matches every pattern of the task and is not a directory matching a negative one. */
  lemma ListingSound(reader: Reader, task: Task, nodes: seq<Node>, isMatch: Matcher)
    ensures forall e :: e in Listing(reader, task, nodes, isMatch) ==>
      && reader.Filter(e, task.patterns, task.negative, isMatch)
      && AllMatch(e.path, task.patterns, isMatch)
      && !(e.isDirectory && AnyMatch(e.path, task.negative, isMatch))
  {
    var opts := reader.GetReaderOptions(task, isMatch);
    WalkSound(opts, opts.basePath, nodes);
  }

  /**
   * Adding negative patterns to a task (same base, same patterns) can only remove
   * entries from its listing; the ones left keep their order.
   */
  lemma ListingMonotone(reader: Reader, task: Task, more: seq<string>, nodes: seq<Node>, isMatch: Matcher)
    requires forall p :: p in task.negative ==> p in more
    ensures IsSubseq(Listing(reader, task.(negative := more), nodes, isMatch), Listing(reader, task, nodes, isMatch))
  {
    var wide := reader.GetReaderOptions(task, isMatch);
    var narrow := reader.GetReaderOptions(task.(negative := more), isMatch);
    forall e ensures narrow.filter(e) ==> wide.filter(e) {
      NegativeMonotone(reader, e, task.patterns, task.negative, more, isMatch);
    }
    forall e ensures narrow.deep(e) ==> wide.deep(e) {
      NegativeMonotone(reader, e, task.patterns, task.negative, more, isMatch);
    }
    WalkSubseq(wide, narrow, wide.basePath, nodes);
  }

  /**
   * With a numeric `deep` of `n` levels, no listed path has more than `n` + 1
   * segments (or one more than the base path, when that is deeper).
   */
  lemma ListingDepth(reader: Reader, task: Task, nodes: seq<Node>, isMatch: Matcher, n: int)
    requires reader.options.deep == DeepLevels(n)
    requires forall c :: c in nodes ==> WellNamed(c)
    ensures var opts := reader.GetReaderOptions(task, isMatch);
      forall e :: e in Listing(reader, task, nodes, isMatch) ==> Segments(e.path) <= Max(n, Depth(opts.basePath)) + 1
  {
    var opts := reader.GetReaderOptions(task, isMatch);
    forall e | opts.deep(e) ensures Segments(e.path) <= n {
      DeepRules(reader, e, task.negative, isMatch);
    }
    WalkDepthBound(opts, opts.basePath, nodes, n);
  }

  /** With a falsy `deep`, only the base directory's own entries are listed. */
  lemma ListingShallow(reader: Reader, task: Task, nodes: seq<Node>, isMatch: Matcher)
    requires !Truthy(reader.options.deep)
    ensures var opts := reader.GetReaderOptions(task, isMatch);
      Listing(reader, task, nodes, isMatch) == Filter(opts.filter, TopEntries(opts.basePath, "/", nodes))
  {
    var opts := reader.GetReaderOptions(task, isMatch);
    WalkShallow(opts, opts.basePath, nodes);
  }

  /**
   * With `deep` true and no negative pattern, the listing is exactly the entries of
   * the whole tree that `filter` accepts, in tree order.
   */
  lemma ListingComplete(reader: Reader, task: Task, nodes: seq<Node>, isMatch: Matcher)
    requires reader.options.deep == DeepFlag(true) && task.negative == []
    ensures var opts := reader.GetReaderOptions(task, isMatch);
      Listing(reader, task, nodes, isMatch) == Filter(opts.filter, AllEntries("/", opts.basePath, nodes))
  {
    var opts := reader.GetReaderOptions(task, isMatch);
    WalkUnpruned(opts, opts.basePath, nodes);
  }

  /** A directory matching a negative pattern contributes nothing: neither itself nor anything below it. */
  lemma PrunedDirectory(reader: Reader, task: Task, dir: string, node: Node, isMatch: Matcher)
    requires node.isDirectory
    requires AnyMatch(EntryAt(dir, "/", node).path, task.negative, isMatch)
    ensures WalkNode(reader.GetReaderOptions(task, isMatch), dir, node) == []
  {
    var e := EntryAt(dir, "/", node);
    DeepRules(reader, e, task.negative, isMatch);
  }

  /**
   * The synchronous read: an ENOENT error gives an empty result, any other error is
   * rethrown, and otherwise every listed entry, as a path or a stat record, goes
   * through the transform when one is set.
   */
  lemma SyncReaderResult(reader: Reader, task: Task, fs: Result<seq<Node>, IoError>, isMatch: Matcher)
    ensures var r := reader.SyncReader(task, fs, isMatch);
      && (fs.Failure? ==> (r.Success? <==> fs.error.code == "ENOENT"))
      && (fs.Failure? && r.Success? ==> r.value == [])
      && (fs.Failure? && r.Failure? ==> r.error == fs.error)
      && (fs.Success? ==> var listed := Listing(reader, task, fs.value, isMatch);
          && r.Success? && |r.value| == |listed|
          && forall i :: 0 <= i < |listed| ==>
               r.value[i] == match reader.options.transform
                             case Some(f) => f(reader.ToEntry(listed[i]))
                             case None => reader.ToEntry(listed[i]))
  {
  }

  /** With no transform and `stats` off, the result is the listed paths. */
  lemma SyncReaderPaths(reader: Reader, task: Task, nodes: seq<Node>, isMatch: Matcher)
    requires reader.options.transform.None? && !reader.options.stats
    ensures var r := reader.SyncReader(task, Success(nodes), isMatch);
      var listed := Listing(reader, task, nodes, isMatch);
      r.Success? && |r.value| == |listed|
      && forall i :: 0 <= i < |listed| ==> r.value[i] == PathEntry(listed[i].path)
  {
    SyncReaderResult(reader, task, Success(nodes), isMatch);
  }

  // ---------------------------------------------------------------------------
  // Scenarios over the fixture tree: `base` holds a file `s` and a directory `c`,
  // which holds the directories `h` and `f`, each holding one file.

  function FixtureTree(s: string, c: string, h: string, f: string, x: string, y: string): seq<Node> {
    [Node(s, true, false, []),
     Node(c, false, true, [Node(h, false, true, [Node(x, true, false, [])]),
                           Node(f, false, true, [Node(y, true, false, [])])])]
  }

  /** A listed node that is not entered contributes exactly its own entry. */
  lemma WalkLeaf(opts: ReaderOptions, dir: string, node: Node)
    requires opts.filter(EntryAt(dir, opts.sep, node))
    requires !node.isDirectory || !opts.deep(EntryAt(dir, opts.sep, node))
    ensures WalkNode(opts, dir, node) == [EntryAt(dir, opts.sep, node)]
  {
  }

  lemma WalkPair(opts: ReaderOptions, dir: string, a: Node, b: Node)
    ensures WalkNodes(opts, dir, [a, b]) == WalkNode(opts, dir, a) + WalkNode(opts, dir, b)
  {
    assert [a, b][..1] == [a];
    assert [a][..0] == [];
    assert WalkNodes(opts, dir, [a]) == [] + WalkNode(opts, dir, a);
    assert [] + WalkNode(opts, dir, a) == WalkNode(opts, dir, a);
  }

  predicate Segment(name: string) {
    name != "" && '/' !in name
  }

  /** The reader options of the fixture scenarios: nothing is excluded by type, and the base is one segment. */
  predicate FixtureReader(reader: Reader, task: Task, base: string) {
    && !reader.options.onlyFiles && !reader.options.onlyDirectories
    && task.base == base && Segment(base) && base != "."
  }

  /**
   * The walk of the fixture tree when every entry down to `h` and `f` is accepted,
   * `c` is entered and `h` and `f` are not.
   */
  lemma FixtureWalkTwoLevels(opts: ReaderOptions, base: string, s: string, c: string, h: string, f: string, x: string, y: string)
    requires var tree := FixtureTree(s, c, h, f, x, y);
      var cEntry := EntryAt(base, opts.sep, tree[1]);
      && opts.filter(EntryAt(base, opts.sep, tree[0]))
      && opts.filter(cEntry) && opts.deep(cEntry)
      && opts.filter(EntryAt(cEntry.path, opts.sep, tree[1].children[0]))
      && !opts.deep(EntryAt(cEntry.path, opts.sep, tree[1].children[0]))
      && opts.filter(EntryAt(cEntry.path, opts.sep, tree[1].children[1]))
      && !opts.deep(EntryAt(cEntry.path, opts.sep, tree[1].children[1]))
    ensures var tree := FixtureTree(s, c, h, f, x, y);
      var cEntry := EntryAt(base, opts.sep, tree[1]);
      WalkNodes(opts, base, tree) == [
        EntryAt(base, opts.sep, tree[0]),
        cEntry,
        EntryAt(cEntry.path, opts.sep, tree[1].children[0]),
        EntryAt(cEntry.path, opts.sep, tree[1].children[1])]
  {
    var tree := FixtureTree(s, c, h, f, x, y);
    var nc, nh, nf := tree[1], tree[1].children[0], tree[1].children[1];
    var cEntry := EntryAt(base, opts.sep, nc);
    WalkPair(opts, base, tree[0], nc);
    WalkLeaf(opts, base, tree[0]);
    WalkPair(opts, cEntry.path, nh, nf);
    WalkLeaf(opts, cEntry.path, nh);
    WalkLeaf(opts, cEntry.path, nf);
    assert nc.children == [nh, nf];
  }

  /**
   * With `deep` 2 from the base directory, the directories two levels down are
   * listed but not read.
   */
  lemma DeepTwoLevels(reader: Reader, task: Task, base: string, s: string, c: string, h: string, f: string, x: string, y: string, isMatch: Matcher)
    requires FixtureReader(reader, task, base) && task.negative == []
    requires reader.options.deep == DeepLevels(2)
    requires Segment(s) && Segment(c) && Segment(h) && Segment(f)
    requires forall p :: p in task.patterns ==>
      && isMatch(base + "/" + s, p) && isMatch(base + "/" + c, p)
      && isMatch(base + "/" + c + "/" + h, p) && isMatch(base + "/" + c + "/" + f, p)
    ensures Listing(reader, task, FixtureTree(s, c, h, f, x, y), isMatch) == [
      DirEntry(base + "/" + s, true, false),
      DirEntry(base + "/" + c, false, true),
      DirEntry(base + "/" + c + "/" + h, false, true),
      DirEntry(base + "/" + c + "/" + f, false, true)]
  {
    var opts := reader.GetReaderOptions(task, isMatch);
    var cPath := base + "/" + c;
    SegmentsOfChild("", base);
    SegmentsOfChild(base, c);
    SegmentsOfChild(cPath, h);
    SegmentsOfChild(cPath, f);
    assert opts.basePath == base;
    FixtureWalkTwoLevels(opts, base, s, c, h, f, x, y);
  }

  /**
   * A negative pattern naming the directory `c` leaves only the base's file: `c`
   * is neither listed nor read.
   */
  lemma NegativeDirectoryPruned(reader: Reader, task: Task, base: string, s: string, c: string, h: string, f: string, x: string, y: string, isMatch: Matcher)
    requires FixtureReader(reader, task, base)
    requires forall p :: p in task.patterns ==> isMatch(base + "/" + s, p)
    requires exists p :: p in task.negative && isMatch(base + "/" + c, p)
    requires Segment(s) && Segment(c)
    ensures Listing(reader, task, FixtureTree(s, c, h, f, x, y), isMatch) == [DirEntry(base + "/" + s, true, false)]
  {
    var opts := reader.GetReaderOptions(task, isMatch);
    var tree := FixtureTree(s, c, h, f, x, y);
    WalkPair(opts, base, tree[0], tree[1]);
    WalkLeaf(opts, base, tree[0]);
    PrunedDirectory(reader, task, base, tree[1], isMatch);
  }
}
