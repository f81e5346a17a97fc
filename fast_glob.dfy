/**
 * The entry points (src/fast-glob.ts): the source is wrapped into a pattern list and
 * validated, the options are defaulted, the tasks are planned and read one by one,
 * and the per-task results are merged, either by concatenation or as a union without
 * repetitions.
 *
 * The world outside the program (the process's working directory, glob-parent,
 * micromatch and the file system) is the parameter `env`.
 */
module FastGlob {
  import opened Types
  import opened Seqs
  import opened TaskManager
  import opened Providers

  /** The JavaScript values a caller can pass as the source. */
  datatype JsValue = JsString(s: string) | JsArray(items: seq<JsValue>) | JsNull | JsNumber(n: int)

  /** What a call can fail with: the input check's TypeError, or an error a read rethrows. */
  datatype Error = TypeError(message: string) | ReadError(io: IoError)

  const PatternsMessage := "patterns must be a string or an array of strings"

  /** The world the entry points run in. `fs(cwd, base)` is the contents of `base` resolved against `cwd`. */
  datatype Environment = Environment(
    processCwd: string,
    parent: ParentFn,
    isMatch: Matcher,
    fs: (string, string) -> Result<seq<Node>, IoError>)

  /** `[].concat(source)`: an array gives its elements, any other value a one-element list. */
  function ConcatSource(source: JsValue): (r: seq<JsValue>)
    ensures source.JsArray? ==> r == source.items
    ensures !source.JsArray? ==> r == [source]
  {
    match source
    case JsArray(items) => items
    case _ => [source]
  }

  /** The strings of a list of strings. */
  function Strings(values: seq<JsValue>): (r: seq<string>)
    requires forall v :: v in values ==> v.JsString?
    ensures |r| == |values|
    ensures forall i :: 0 <= i < |values| ==> values[i] == JsString(r[i])
  {
    if values == [] then [] else [values[0].s] + Strings(values[1..])
  }

  /** assertPatternsInput: the list is accepted exactly when every element is a string. */
  function AssertPatternsInput(patterns: seq<JsValue>): (r: Result<seq<string>, Error>)
    ensures r.Success? <==> forall v :: v in patterns ==> v.JsString?
    ensures r.Failure? ==> r.error == TypeError(PatternsMessage)
    ensures r.Success? ==> |r.value| == |patterns| && forall i :: 0 <= i < |patterns| ==> patterns[i] == JsString(r.value[i])
  {
    if forall v :: v in patterns ==> v.JsString? then Success(Strings(patterns))
    else Failure(TypeError(PatternsMessage))
  }

  /** The default transform: every entry unchanged. */
  function Identity(entry: Entry): Entry {
    entry
  }

  /** The defaults, under the process's working directory. */
  function DefaultOptions(processCwd: string): Options {
    Options(processCwd, DeepFlag(true), [], false, false, false, Some(Identity), true)
  }

  function OrElse<T>(given: Option<T>, default: T): (r: T)
    ensures given.Some? ==> r == given.value
    ensures given.None? ==> r == default
  {
    match given
    case Some(v) => v
    case None => default
  }

  /** prepareOptions: every key the caller gives overrides its default. */
  function PrepareOptions(options: PartialOptions, processCwd: string): (r: Options)
    ensures var d := DefaultOptions(processCwd);
      && (options.cwd.None? ==> r.cwd == d.cwd) && (options.cwd.Some? ==> r.cwd == options.cwd.value)
      && (options.deep.None? ==> r.deep == d.deep) && (options.deep.Some? ==> r.deep == options.deep.value)
      && (options.ignore.None? ==> r.ignore == d.ignore) && (options.ignore.Some? ==> r.ignore == options.ignore.value)
      && (options.stats.None? ==> r.stats == d.stats) && (options.stats.Some? ==> r.stats == options.stats.value)
      && (options.onlyFiles.None? ==> r.onlyFiles == d.onlyFiles) && (options.onlyFiles.Some? ==> r.onlyFiles == options.onlyFiles.value)
      && (options.onlyDirectories.None? ==> r.onlyDirectories == d.onlyDirectories)
      && (options.onlyDirectories.Some? ==> r.onlyDirectories == options.onlyDirectories.value)
      && (options.transform.None? ==> r.transform == d.transform) && (options.transform.Some? ==> r.transform == options.transform.value)
      && (options.uniq.None? ==> r.uniq == d.uniq) && (options.uniq.Some? ==> r.uniq == options.uniq.value)
  {
    var d := DefaultOptions(processCwd);
    Options(
      OrElse(options.cwd, d.cwd),
      OrElse(options.deep, d.deep),
      OrElse(options.ignore, d.ignore),
      OrElse(options.stats, d.stats),
      OrElse(options.onlyFiles, d.onlyFiles),
      OrElse(options.onlyDirectories, d.onlyDirectories),
      OrElse(options.transform, d.transform),
      OrElse(options.uniq, d.uniq))
  }

  /** No option given. */
  const NoOptions := PartialOptions(None, None, None, None, None, None, None, None)

  /** Every option given, with the values of `o`. */
  function AllGiven(o: Options): PartialOptions {
    PartialOptions(Some(o.cwd), Some(o.deep), Some(o.ignore), Some(o.stats), Some(o.onlyFiles),
      Some(o.onlyDirectories), Some(o.transform), Some(o.uniq))
  }

  /** One task's syncReader call, on the contents of its base directory. */
  function ReadTask(reader: Reader, task: Task, env: Environment): Result<seq<Entry>, IoError> {
    reader.SyncReader(task, env.fs(reader.options.cwd, task.base), env.isMatch)
  }

  /**
   * Reads the tasks one after the other (`tasks.map` over syncReader): the first read
   * that throws ends the call with its error.
   */
  function ReadTasks(reader: Reader, tasks: seq<Task>, env: Environment): (r: Result<seq<seq<Entry>>, IoError>)
    ensures r.Success? ==>
      && |r.value| == |tasks|
      && forall i :: 0 <= i < |tasks| ==> ReadTask(reader, tasks[i], env) == Success(r.value[i])
    ensures r.Failure? ==>
      exists i ::
        && 0 <= i < |tasks|
        && ReadTask(reader, tasks[i], env) == Failure(r.error)
        && forall j :: 0 <= j < i ==> ReadTask(reader, tasks[j], env).Success?
  {
    if tasks == [] then Success([])
    else
      match ReadTask(reader, tasks[0], env)
      case Failure(err) => Failure(err)
      case Success(first) =>
        match ReadTasks(reader, tasks[1..], env)
        case Failure(err) =>
          var i :|
            && 0 <= i < |tasks| - 1
            && ReadTask(reader, tasks[1..][i], env) == Failure(err)
            && forall j :: 0 <= j < i ==> ReadTask(reader, tasks[1..][j], env).Success?;
          assert forall j :: 0 < j <= i ==> tasks[j] == tasks[1..][j - 1];
          Failure(err)
        case Success(rest) => Success([first] + rest)
  }

  /** The union of the per-task results: their concatenation without repetitions (arr-union). */
  function Union(results: seq<seq<Entry>>): (r: seq<Entry>)
    ensures forall x :: x in r <==> x in Flatten(results)
    ensures Distinct(r)
  {
    Dedup(Flatten(results))
  }

  /** The merge the `uniq` option selects: the union, or the plain concatenation in task order. */
  function Merge(uniq: bool, results: seq<seq<Entry>>): (r: seq<Entry>)
    ensures forall x :: x in r <==> x in Flatten(results)
    ensures uniq ==> Distinct(r)
    ensures !uniq ==> |r| == TotalLength(results)
  {
    FlattenLength(results);
    if uniq then Union(results) else Flatten(results)
  }

  /** The wrapped, checked patterns and the defaulted options of a call. */
  function Prepare(source: JsValue, options: PartialOptions, env: Environment): Result<(seq<string>, Options), Error> {
    match AssertPatternsInput(ConcatSource(source))
    case Failure(e) => Failure(e)
    case Success(patterns) => Success((patterns, PrepareOptions(options, env.processCwd)))
  }

  /** The tasks a call reads, or the input error that stops it before any planning or reading. */
  function PlannedTasks(source: JsValue, options: PartialOptions, env: Environment): Result<seq<Task>, Error> {
    match Prepare(source, options, env)
    case Failure(e) => Failure(e)
    case Success((patterns, opts)) => Success(PlanTasks(patterns, opts.ignore, env.parent))
  }

  /** Reads the tasks with a reader over `opts` and merges their results. */
  function ReadAndMerge(opts: Options, tasks: seq<Task>, env: Environment): Result<seq<Entry>, Error> {
    match ReadTasks(Reader(opts), tasks, env)
    case Failure(err) => Failure(ReadError(err))
    case Success(results) => Success(Merge(opts.uniq, results))
  }

  /** sync: wrap and check the source, default the options, plan, read every task, merge. */
  function Sync(source: JsValue, options: PartialOptions, env: Environment): (r: Result<seq<Entry>, Error>)
    ensures (exists v :: v in ConcatSource(source) && !v.JsString?) ==> r == Failure(TypeError(PatternsMessage))
  {
    match Prepare(source, options, env)
    case Failure(e) => Failure(e)
    case Success((patterns, opts)) => ReadAndMerge(opts, PlanTasks(patterns, opts.ignore, env.parent), env)
  }

  /** The enumerator hands at least one entry to the task's read. */
  ghost predicate ListsEntry(reader: Reader, task: Task, env: Environment) {
    var fs := env.fs(reader.options.cwd, task.base);
    fs.Success? && Listing(reader, task, fs.value, env.isMatch) != []
  }

  /**
   * asyncReader applies the transform to every entry unconditionally; with no
   * transform set (`transform: null`), the first entry of any task makes the data
   * listener throw a TypeError outside the promise.
   */
  ghost predicate TransformThrows(opts: Options, tasks: seq<Task>, env: Environment) {
    opts.transform.None? && exists t :: t in tasks && ListsEntry(Reader(opts), t, env)
  }

  /** Some task's read fails with an error other than ENOENT. */
  ghost predicate SomeReadFails(opts: Options, tasks: seq<Task>, env: Environment) {
    exists t :: t in tasks && ReadTask(Reader(opts), t, env).Failure?
  }

  /**
   * The outcomes reading `tasks` concurrently may settle with. A failing read may
   * reject the call whatever else happens, since its error can come before the
   * missing transform throws. Otherwise, when the missing transform throws, the
   * call settles with nothing; and when every read succeeds, with the merge of all
   * results.
   */
  ghost predicate ConcurrentReadMaySettle(opts: Options, tasks: seq<Task>, env: Environment, r: Result<seq<Entry>, Error>) {
    var reader := Reader(opts);
    if TransformThrows(opts, tasks, env) then
      exists t :: t in tasks && ReadTask(reader, t, env).Failure? && r == Failure(ReadError(ReadTask(reader, t, env).error))
    else if forall t :: t in tasks ==> ReadTask(reader, t, env).Success? then
      r == Success(Merge(opts.uniq, seq(|tasks|, i requires 0 <= i < |tasks| => ReadTask(reader, tasks[i], env).value)))
    else
      exists t :: t in tasks && ReadTask(reader, t, env).Failure? && r == Failure(ReadError(ReadTask(reader, t, env).error))
  }

  /**
   * async: the same preparation and merge, but the tasks are read concurrently, so
   * when several reads fail, which error rejects the call depends on timing. Holds of
   * every outcome the call may have: the input check's TypeError, which async throws
   * synchronously before any promise exists, or a value or read error the returned
   * promise settles with.
   */
  ghost predicate AsyncMaySettle(source: JsValue, options: PartialOptions, env: Environment, r: Result<seq<Entry>, Error>)
    ensures (exists v :: v in ConcatSource(source) && !v.JsString?) ==>
      (AsyncMaySettle(source, options, env, r) <==> r == Failure(TypeError(PatternsMessage)))
  {
    match Prepare(source, options, env)
    case Failure(e) => r == Failure(e)
    case Success((patterns, opts)) => ConcurrentReadMaySettle(opts, PlanTasks(patterns, opts.ignore, env.parent), env, r)
  }
}
