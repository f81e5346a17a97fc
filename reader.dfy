/**
 * The per-task directory reader: the inclusion predicate (`filter`), the recursion
 * predicate (`deep`), the options handed to the directory enumerator, and the
 * synchronous read with its ENOENT rule.
 *
 * The enumerator itself (readdir-enhanced) is a foreign library; here it is an
 * abstract walk over a tree of directory nodes: every entry of a directory is
 * offered to `filter`, and a sub-directory is entered only when `deep` accepts it.
 * Pattern matching (micromatch) is the parameter `isMatch`; `any` and `all` over a
 * pattern list are an existential and a universal over it.
 */
module Providers {
  import opened Types
  import opened Seqs

  /** micromatch.isMatch(path, pattern). */
  type Matcher = (string, string) -> bool

  /** micromatch.any: the path matches at least one of the patterns. */
  predicate AnyMatch(path: string, patterns: seq<string>, isMatch: Matcher) {
    exists p :: p in patterns && isMatch(path, p)
  }

  /** micromatch.all: the path matches every pattern. */
  predicate AllMatch(path: string, patterns: seq<string>, isMatch: Matcher) {
    forall p :: p in patterns ==> isMatch(path, p)
  }

  // ---------------------------------------------------------------------------
  // String.prototype.split with a one-character separator

  /** Number of occurrences of `c` in `s`. */
  function Occurrences(s: string, c: char): nat {
    if s == [] then 0 else (if s[0] == c then 1 else 0) + Occurrences(s[1..], c)
  }

  /** `s.split(sep)`: the pieces between separators, empty pieces included; "" gives [""]. */
  function Split(s: string, sep: char): (r: seq<string>)
    ensures |r| >= 1
    ensures forall i :: 0 <= i < |r| ==> sep !in r[i]
  {
    if s == [] then [""]
    else
      var rest := Split(s[1..], sep);
      if s[0] == sep then [""] + rest
      else [[s[0]] + rest[0]] + rest[1..]
  }

  /** `pieces.join(sep)`. */
  function JoinWith(pieces: seq<string>, sep: char): string
    requires |pieces| >= 1
  {
    if |pieces| == 1 then pieces[0] else pieces[0] + [sep] + JoinWith(pieces[1..], sep)
  }

  lemma {:induction false} JoinSplit(s: string, sep: char)
    ensures JoinWith(Split(s, sep), sep) == s
  {
    if s != [] {
      var rest := Split(s[1..], sep);
      JoinSplit(s[1..], sep);
      if s[0] == sep {
        assert Split(s, sep)[1..] == rest;
      } else {
        var r := Split(s, sep);
        assert r[0] == [s[0]] + rest[0];
        if |rest| == 1 {
          assert s == [s[0]] + s[1..];
        } else {
          assert r[1..] == rest[1..];
          assert JoinWith(rest, sep) == rest[0] + [sep] + JoinWith(rest[1..], sep);
          ConcatAssoc([s[0]], rest[0], [sep] + JoinWith(rest[1..], sep));
        }
      }
    }
  }

  /** The number of pieces is one more than the number of separators. */
  lemma {:induction false} SplitLength(s: string, sep: char)
    ensures |Split(s, sep)| == Occurrences(s, sep) + 1
  {
    if s != [] {
      SplitLength(s[1..], sep);
    }
  }

  lemma {:induction false} OccurrencesAppend(a: string, b: string, c: char)
    ensures Occurrences(a + b, c) == Occurrences(a, c) + Occurrences(b, c)
  {
    if a == [] {
      assert a + b == b;
    } else {
      assert (a + b)[1..] == a[1..] + b;
      OccurrencesAppend(a[1..], b, c);
    }
  }

  lemma {:induction false} OccurrencesAbsent(s: string, c: char)
    requires c !in s
    ensures Occurrences(s, c) == 0
  {
    if s != [] {
      assert forall x :: x in s[1..] ==> x in s;
      OccurrencesAbsent(s[1..], c);
    }
  }

  /** `path.split('/').length`. */
  function Segments(path: string): nat {
    |Split(path, '/')|
  }

  /** Joining a directory and a name without '/' adds exactly one segment. */
  lemma SegmentsOfChild(dir: string, name: string)
    requires '/' !in name
    ensures Segments(dir + "/" + name) == Segments(dir) + 1
    ensures Segments(name) == 1
  {
    SplitLength(dir + "/" + name, '/');
    SplitLength(dir, '/');
    SplitLength(name, '/');
    OccurrencesAppend(dir + "/", name, '/');
    OccurrencesAppend(dir, "/", '/');
    OccurrencesAbsent(name, '/');
    assert Occurrences("/", '/') == 1 by {
      assert "/"[1..] == [];
    }
  }

  // ---------------------------------------------------------------------------
  // The directory enumerator

  /** A directory entry on disk, with its contents when it is a directory. */
  datatype Node = Node(name: string, isFile: bool, isDirectory: bool, children: seq<Node>)

  /** A node's name is a single non-empty path segment, and so are its descendants'. */
  predicate WellNamed(node: Node)
    decreases node
  {
    && node.name != "" && '/' !in node.name
    && forall c :: c in node.children ==> WellNamed(c)
  }

  /** The options handed to the enumerator (readdir-enhanced's IReaddirOptions). */
  datatype ReaderOptions = ReaderOptions(
    basePath: string,
    filter: DirEntry -> bool,
    deep: DirEntry -> bool,
    sep: string)

  /** The entry the enumerator reports for `node` inside the directory path `dir`. */
  function EntryAt(dir: string, sep: string, node: Node): (e: DirEntry)
    ensures e.isFile == node.isFile && e.isDirectory == node.isDirectory
    ensures dir == "" ==> e.path == node.name
    ensures dir != "" ==> e.path == dir + sep + node.name
  {
    DirEntry(if dir == "" then node.name else dir + sep + node.name, node.isFile, node.isDirectory)
  }

  /** The entries listed from the nodes of directory `dir`, each followed by what is listed under it. */
  function WalkNodes(opts: ReaderOptions, dir: string, nodes: seq<Node>): seq<DirEntry>
    decreases nodes
  {
    if nodes == [] then []
    else WalkNodes(opts, dir, nodes[..|nodes| - 1]) + WalkNode(opts, dir, nodes[|nodes| - 1])
  }

  /** A node is listed when `filter` accepts it; a directory is entered when `deep` accepts it. */
  function WalkNode(opts: ReaderOptions, dir: string, node: Node): seq<DirEntry>
    decreases node
  {
    var e := EntryAt(dir, opts.sep, node);
    (if opts.filter(e) then [e] else [])
      + (if node.isDirectory && opts.deep(e) then WalkNodes(opts, e.path, node.children) else [])
  }

  /** Every entry of the tree, in the same order, with nothing filtered and nothing pruned. */
  function AllEntries(sep: string, dir: string, nodes: seq<Node>): seq<DirEntry>
    decreases nodes
  {
    if nodes == [] then []
    else AllEntries(sep, dir, nodes[..|nodes| - 1]) + AllEntriesOf(sep, dir, nodes[|nodes| - 1])
  }

  function AllEntriesOf(sep: string, dir: string, node: Node): seq<DirEntry>
    decreases node
  {
    var e := EntryAt(dir, sep, node);
    [e] + (if node.isDirectory then AllEntries(sep, e.path, node.children) else [])
  }

  /** Every listed entry was accepted by `filter`. */
  lemma {:induction false} WalkSound(opts: ReaderOptions, dir: string, nodes: seq<Node>)
    ensures forall e :: e in WalkNodes(opts, dir, nodes) ==> opts.filter(e)
    decreases nodes
  {
    if nodes != [] {
      WalkSound(opts, dir, nodes[..|nodes| - 1]);
      WalkNodeSound(opts, dir, nodes[|nodes| - 1]);
    }
  }

  lemma {:induction false} WalkNodeSound(opts: ReaderOptions, dir: string, node: Node)
    ensures forall e :: e in WalkNode(opts, dir, node) ==> opts.filter(e)
    decreases node
  {
    var e := EntryAt(dir, opts.sep, node);
    if node.isDirectory && opts.deep(e) {
      WalkSound(opts, e.path, node.children);
    }
  }

  /**
   * When no directory is pruned, the walk lists exactly the entries of the tree that
   * `filter` accepts, in tree order.
   */
  lemma {:induction false} WalkUnpruned(opts: ReaderOptions, dir: string, nodes: seq<Node>)
    requires forall e :: opts.deep(e)
    ensures WalkNodes(opts, dir, nodes) == Filter(opts.filter, AllEntries(opts.sep, dir, nodes))
    decreases nodes
  {
    if nodes != [] {
      var init, last := nodes[..|nodes| - 1], nodes[|nodes| - 1];
      WalkUnpruned(opts, dir, init);
      WalkNodeUnpruned(opts, dir, last);
      FilterAppend(opts.filter, AllEntries(opts.sep, dir, init), AllEntriesOf(opts.sep, dir, last));
    }
  }

  lemma {:induction false} WalkNodeUnpruned(opts: ReaderOptions, dir: string, node: Node)
    requires forall e :: opts.deep(e)
    ensures WalkNode(opts, dir, node) == Filter(opts.filter, AllEntriesOf(opts.sep, dir, node))
    decreases node
  {
    var e := EntryAt(dir, opts.sep, node);
    var below := if node.isDirectory then AllEntries(opts.sep, e.path, node.children) else [];
    if node.isDirectory {
      WalkUnpruned(opts, e.path, node.children);
    }
    FilterAppend(opts.filter, [e], below);
    assert Filter(opts.filter, [e]) == if opts.filter(e) then [e] else [] by {
      FilterSnoc(opts.filter, [], e);
    }
  }

  /** The entries of the directory `dir` itself, without descending. */
  function TopEntries(dir: string, sep: string, nodes: seq<Node>): (r: seq<DirEntry>)
    ensures |r| == |nodes|
    ensures forall i :: 0 <= i < |nodes| ==> r[i] == EntryAt(dir, sep, nodes[i])
  {
    Map(n => EntryAt(dir, sep, n), nodes)
  }

  lemma TopEntriesSnoc(dir: string, sep: string, nodes: seq<Node>)
    requires nodes != []
    ensures TopEntries(dir, sep, nodes)
      == TopEntries(dir, sep, nodes[..|nodes| - 1]) + [EntryAt(dir, sep, nodes[|nodes| - 1])]
  {
    MapAppend(n => EntryAt(dir, sep, n), nodes[..|nodes| - 1], [nodes[|nodes| - 1]]);
    assert nodes == nodes[..|nodes| - 1] + [nodes[|nodes| - 1]];
  }

  /** When `deep` accepts nothing, only the base directory's own entries are considered. */
  lemma {:induction false} WalkShallow(opts: ReaderOptions, dir: string, nodes: seq<Node>)
    requires forall e :: !opts.deep(e)
    ensures WalkNodes(opts, dir, nodes) == Filter(opts.filter, TopEntries(dir, opts.sep, nodes))
    decreases nodes
  {
    if nodes != [] {
      var init, last := nodes[..|nodes| - 1], nodes[|nodes| - 1];
      var e := EntryAt(dir, opts.sep, last);
      var before := TopEntries(dir, opts.sep, init);
      WalkShallow(opts, dir, init);
      assert WalkNode(opts, dir, last) == if opts.filter(e) then [e] else [];
      TopEntriesSnoc(dir, opts.sep, nodes);
      FilterSnoc(opts.filter, before, e);
    }
  }

  /**
   * A stricter enumerator lists a subsequence: when every entry the second options
   * accept (or enter) the first accept (or enter) too, the second walk is a
   * subsequence of the first.
   */
  lemma {:induction false} WalkSubseq(wide: ReaderOptions, narrow: ReaderOptions, dir: string, nodes: seq<Node>)
    requires wide.sep == narrow.sep
    requires forall e :: narrow.filter(e) ==> wide.filter(e)
    requires forall e :: narrow.deep(e) ==> wide.deep(e)
    ensures IsSubseq(WalkNodes(narrow, dir, nodes), WalkNodes(wide, dir, nodes))
    decreases nodes
  {
    if nodes == [] {
      IsSubseqRefl<DirEntry>([]);
    } else {
      WalkSubseq(wide, narrow, dir, nodes[..|nodes| - 1]);
      WalkNodeSubseq(wide, narrow, dir, nodes[|nodes| - 1]);
      IsSubseqAppend(WalkNodes(narrow, dir, nodes[..|nodes| - 1]), WalkNode(narrow, dir, nodes[|nodes| - 1]),
        WalkNodes(wide, dir, nodes[..|nodes| - 1]), WalkNode(wide, dir, nodes[|nodes| - 1]));
    }
  }

  lemma {:induction false} WalkNodeSubseq(wide: ReaderOptions, narrow: ReaderOptions, dir: string, node: Node)
    requires wide.sep == narrow.sep
    requires forall e :: narrow.filter(e) ==> wide.filter(e)
    requires forall e :: narrow.deep(e) ==> wide.deep(e)
    ensures IsSubseq(WalkNode(narrow, dir, node), WalkNode(wide, dir, node))
    decreases node
  {
    var e := EntryAt(dir, wide.sep, node);
    var headN: seq<DirEntry> := if narrow.filter(e) then [e] else [];
    var headW: seq<DirEntry> := if wide.filter(e) then [e] else [];
    var tailN := if node.isDirectory && narrow.deep(e) then WalkNodes(narrow, e.path, node.children) else [];
    var tailW := if node.isDirectory && wide.deep(e) then WalkNodes(wide, e.path, node.children) else [];
    if narrow.filter(e) {
      IsSubseqRefl(headN);
    } else {
      IsSubseqEmptyLeft(headW);
    }
    if node.isDirectory && narrow.deep(e) {
      WalkSubseq(wide, narrow, e.path, node.children);
    } else {
      IsSubseqEmptyLeft(tailW);
    }
    IsSubseqAppend(headN, tailN, headW, tailW);
  }

  function Max(a: int, b: int): int {
    if a < b then b else a
  }

  /** Segments of a directory path, the empty base path having none. */
  function Depth(dir: string): nat {
    if dir == "" then 0 else Segments(dir)
  }

  /**
   * When `deep` only enters directories of at most `n` segments, nothing deeper than
   * one segment below that bound (or below the base) is listed.
   */
  lemma {:induction false} WalkDepthBound(opts: ReaderOptions, dir: string, nodes: seq<Node>, n: int)
    requires opts.sep == "/"
    requires forall e :: opts.deep(e) ==> Segments(e.path) <= n
    requires forall c :: c in nodes ==> WellNamed(c)
    ensures forall e :: e in WalkNodes(opts, dir, nodes) ==> Segments(e.path) <= Max(n, Depth(dir)) + 1
    decreases nodes
  {
    if nodes != [] {
      WalkDepthBound(opts, dir, nodes[..|nodes| - 1], n);
      WalkNodeDepthBound(opts, dir, nodes[|nodes| - 1], n);
    }
  }

  lemma {:induction false} WalkNodeDepthBound(opts: ReaderOptions, dir: string, node: Node, n: int)
    requires opts.sep == "/"
    requires forall e :: opts.deep(e) ==> Segments(e.path) <= n
    requires WellNamed(node)
    ensures forall e :: e in WalkNode(opts, dir, node) ==> Segments(e.path) <= Max(n, Depth(dir)) + 1
    decreases node
  {
    var e := EntryAt(dir, opts.sep, node);
    SegmentsOfChild(dir, node.name);
    assert Segments(e.path) == Depth(dir) + 1;
    if node.isDirectory && opts.deep(e) {
      assert e.path != "";
      WalkDepthBound(opts, e.path, node.children, n);
    }
  }

  // ---------------------------------------------------------------------------
  // The reader

  /** JavaScript truthiness of the `deep` option. */
  predicate Truthy(deep: DeepOption) {
    match deep
    case DeepFlag(enabled) => enabled
    case DeepLevels(levels) => levels != 0
  }

  /** A reader over fixed options. */
  datatype Reader = Reader(options: Options) {

    /** Whether an entry goes into the result. */
    predicate Filter(entry: DirEntry, patterns: seq<string>, negative: seq<string>, isMatch: Matcher)
      ensures Filter(entry, patterns, negative, isMatch) ==>
        && (forall p :: p in patterns ==> isMatch(entry.path, p))
        && (entry.isDirectory ==> forall n :: n in negative ==> !isMatch(entry.path, n))
        && (options.onlyFiles ==> entry.isFile)
        && (options.onlyDirectories ==> entry.isDirectory)
    {
      if entry.isDirectory && AnyMatch(entry.path, negative, isMatch) then false
      else if (options.onlyFiles && !entry.isFile) || (options.onlyDirectories && !entry.isDirectory) then false
      else AllMatch(entry.path, patterns, isMatch)
    }

    /** Whether a directory is read. */
    predicate Deep(entry: DirEntry, negative: seq<string>, isMatch: Matcher)
      ensures Deep(entry, negative, isMatch) ==>
        && options.deep != DeepFlag(false) && options.deep != DeepLevels(0)
        && (options.deep.DeepLevels? ==> |Split(entry.path, '/')| <= options.deep.levels)
        && forall n :: n in negative ==> !isMatch(entry.path, n)
      ensures (options.deep == DeepFlag(true) || (options.deep.DeepLevels? && options.deep.levels != 0 && Segments(entry.path) <= options.deep.levels))
          && (forall n :: n in negative ==> !isMatch(entry.path, n))
          ==> Deep(entry, negative, isMatch)
    {
      if !Truthy(options.deep) then false
      else if options.deep.DeepLevels? && Segments(entry.path) > options.deep.levels then false
      else !AnyMatch(entry.path, negative, isMatch)
    }

    /** The enumerator options for one task. */
    function GetReaderOptions(task: Task, isMatch: Matcher): (r: ReaderOptions)
      ensures r.sep == "/"
      ensures task.base == "." ==> r.basePath == ""
      ensures task.base != "." ==> r.basePath == task.base
      ensures forall e :: r.filter(e) == Filter(e, task.patterns, task.negative, isMatch)
      ensures forall e :: r.deep(e) == Deep(e, task.negative, isMatch)
    {
      ReaderOptions(
        if task.base == "." then "" else task.base,
        e => Filter(e, task.patterns, task.negative, isMatch),
        e => Deep(e, task.negative, isMatch),
        "/")
    }

    predicate IsEnoentCodeError(err: IoError)
      ensures IsEnoentCodeError(err) <==> err == IoError("ENOENT")
    {
      err.code == "ENOENT"
    }

    /** What the enumerator returns: plain paths, or stat records when `stats` is on. */
    function ToEntry(e: DirEntry): (r: Entry)
      ensures options.stats <==> r.StatEntry?
      ensures r.PathEntry? ==> r.path == e.path
      ensures r.StatEntry? ==> r.stat == e
    {
      if options.stats then StatEntry(e) else PathEntry(e.path)
    }

    /**
     * The synchronous read of one task. `fs` is the base directory's contents, or the
     * error reading it raises; the enumerator's result is transformed when a
     * transform is set.
     */
    function SyncReader(task: Task, fs: Result<seq<Node>, IoError>, isMatch: Matcher): (r: Result<seq<Entry>, IoError>)
      ensures fs.Failure? && IsEnoentCodeError(fs.error) ==> r == Success([])
      ensures fs.Failure? && !IsEnoentCodeError(fs.error) ==> r == Failure(fs.error)
      ensures fs.Success? ==>
        r.Success? && |r.value| == |WalkNodes(GetReaderOptions(task, isMatch), GetReaderOptions(task, isMatch).basePath, fs.value)|
    {
      match fs
      case Failure(err) => if IsEnoentCodeError(err) then Success([]) else Failure(err)
      case Success(nodes) =>
        var opts := GetReaderOptions(task, isMatch);
        var entries := Map(ToEntry, WalkNodes(opts, opts.basePath, nodes));
        match options.transform
        case Some(transform) => Success(Map(transform, entries))
        case None => Success(entries)
    }
  }

  /** The listing of one task: the walk from the task's base path with the task's options. */
  function Listing(reader: Reader, task: Task, nodes: seq<Node>, isMatch: Matcher): seq<DirEntry> {
    var opts := reader.GetReaderOptions(task, isMatch);
    WalkNodes(opts, opts.basePath, nodes)
  }
}
