/** The data shapes shared by the planner, the reader and the entry points (IOptions, ITask, IEntry). */
module Types {

  datatype Option<+T> = None | Some(value: T)

  datatype Result<+T, +E> = Success(value: T) | Failure(error: E)

  /** The `deep` option: a boolean (recurse or not) or a number of path segments. */
  datatype DeepOption = DeepFlag(enabled: bool) | DeepLevels(levels: int)

  /** What the directory reader hands to the filter and depth callbacks: a stat record with its path. */
  datatype DirEntry = DirEntry(path: string, isFile: bool, isDirectory: bool)

  /** An entry of the result: a bare path, or the stat record when the `stats` option is on. */
  datatype Entry = PathEntry(path: string) | StatEntry(stat: DirEntry)

  /** The caller's entry transform. */
  type Transform = Entry -> Entry

  /** The options after defaulting; `transform` is None when the caller passed null. */
  datatype Options = Options(
    cwd: string,
    deep: DeepOption,
    ignore: seq<string>,
    stats: bool,
    onlyFiles: bool,
    onlyDirectories: bool,
    transform: Option<Transform>,
    uniq: bool)

  /** The caller's options: each field is None when the key is absent. */
  datatype PartialOptions = PartialOptions(
    cwd: Option<string>,
    deep: Option<DeepOption>,
    ignore: Option<seq<string>>,
    stats: Option<bool>,
    onlyFiles: Option<bool>,
    onlyDirectories: Option<bool>,
    transform: Option<Option<Transform>>,
    uniq: Option<bool>)

  /** One traversal: its base directory, all its patterns, and the positive and stripped negative ones. */
  datatype Task = Task(base: string, patterns: seq<string>, positive: seq<string>, negative: seq<string>)

  /** The error a failed directory read carries (its `code`, such as "ENOENT"). */
  datatype IoError = IoError(code: string)
}
