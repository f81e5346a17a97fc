# fast-glob core, modelled in Dafny

fast-glob finds the file-system entries that match a list of glob patterns.
It works in three stages, and each has a model here:

- **Planning** (`src/managers/task.ts`, module `TaskManager`). The patterns are split into positive and
  negative ones (a negative pattern starts with `!`). Each group is keyed by its base directory, as
  glob-parent computes it. The negative groups, together with the `ignore` option, are appended to every
  positive group they apply to: the group with the same base directory, and every group when their own
  base is `.`. Each resulting group becomes one task `{ base, patterns, positive, negative }`.
- **Reading** (`src/providers/reader.ts`, module `Providers`). A task is read by walking its base
  directory. `filter` decides which entries are listed. `deep` decides which directories are entered,
  and it prunes those that a negative pattern matches or that lie deeper than the numeric `deep` bound.
  A missing base directory (`ENOENT`) reads as no entries. Any other error is rethrown. The entries go
  through the `transform` option.
- **Entry points** (`src/fast-glob.ts`, module `FastGlob`). The source is wrapped into a list and
  checked to hold only strings. The options are defaulted. The tasks are planned and read. Their
  results are merged: either concatenated in task order, or (`uniq`) as a union without repetitions.

A JavaScript object used as a dictionary (the planner's `TGroups`) is modelled in module `JsRecord`:

- a value `Record` holds the insertion order and the values;
- `Object.keys` order puts array-index keys first, ascending, then the other keys in insertion order;
- the in-place object is the class `Dict`.

The planner's loops, which mutate lists and objects inside `forEach`, are methods. Each is proved
equal to a specification function (`GetNegativePatterns`, `GroupPatternsByParent`,
`CombineGroupByParent`, `BuildTasksFromGroups`, `GenerateTasks`). The properties of those functions
are proved as lemmas in `TaskProperties`, `ReaderProperties` and `FastGlobProperties`. `Seqs` holds
the generic sequence functions and their lemmas.

The world outside the program is passed in as parameters:

- glob-parent is `parent: string -> string`;
- micromatch's single-pattern test is `isMatch(path, pattern)` (`any` and `all` are exists and forall
  over it);
- the directory tree a read sees is `fs(cwd, base)`, which yields a tree of `Node`s or an I/O error;
- the process's working directory is `processCwd`.

All of these are gathered in `FastGlob.Environment`.

## Model

| member | source | states |
|---|---|---|
| TaskManager.IsNegativePattern | src/managers/task.ts:14-16 | a pattern is negative exactly when it starts with `!` |
| TaskManager.GetPositivePatterns | src/managers/task.ts:24-26 | the result holds exactly the input patterns that do not start with `!`, and is no longer than the input |
| TaskManager.GetPositivePatternsAsNegative | src/managers/task.ts:34-36 | one result per pattern, in order: each is negative, and is the original with `!` in front |
| TaskManager.TrimGlobStars | src/managers/task.ts:53-57 | the result is a prefix of the pattern and does not end with `/**` |
| TaskManager.StripNegative | src/managers/task.ts:53-57 | both branches of the endsWith test give the pattern after its first character with its trailing `/**` run removed; the result is a prefix of that and does not end with `/**` |
| TaskProperties.PositiveNegativePartition | src/managers/task.ts:14-26 | every pattern is either positive (`getPositivePatterns`) or negative (starts with `!`); together they are a permutation of the input, so none is lost or repeated |
| TaskProperties.MarkedRoundTrip | src/managers/task.ts:34-36 | the patterns `getPositivePatternsAsNegative` marks are all negative; unmarking them gives back the originals; `getNegativePatterns` turns them into the originals without their trailing `/**` run |
| TaskManager.GetNegativePatterns | src/managers/task.ts:45-61 | the forEach loop returns exactly `NegativePatterns(patterns)`, the specification function the lemmas below characterise |
| TaskProperties.NegativePatternsReference | src/managers/task.ts:45-61 | getNegativePatterns keeps the negative patterns in input order, each stripped of its `!` and its trailing globstar run, and drops the positive ones |
| TaskProperties.NegativePatternsAppend | src/managers/task.ts:45-61 | getNegativePatterns distributes over concatenation, as it does for a pattern list followed by `ignore` |
| TaskProperties.NegativePatternsOfPositive | src/managers/task.ts:45-61 | a list with only positive patterns has no negative patterns |
| TaskProperties.TrimGlobStarsRemovesRun | src/managers/task.ts:53-57 | the `/(\/\*\*)+$/` replacement leaves no trailing `/**`, and what it removed is a run of `/**` groups |
| TaskProperties.TrimGlobStarsUnique | src/managers/task.ts:53-57 | the replacement removes the whole trailing run: a stem without a trailing `/**` followed by n groups trims to that stem |
| TaskProperties.TrimGlobStarsIdempotent | src/managers/task.ts:53-57 | trimming twice is trimming once |
| TaskProperties.StripNegativeIsTrim | src/managers/task.ts:53-57 | both branches of the endsWith test give the pattern without `!` and without its trailing run |
| TaskProperties.StripNegativeExamples | src/managers/task.ts:53-57 | `!**/.git/**` gives `**/.git`, `!a/**/**` gives `a`, and `!**/*.txt` gives `**/*.txt` |
| TaskManager.GroupByParent | src/managers/task.ts:80-97 | the groups built by appending pattern after pattern, looking keys up among own keys only, are a well-formed object (distinct insertion order, the same keys as the value map) |
| TaskManager.GroupPatternsByParent | src/managers/task.ts:80-97 | the forEach loop builds a fresh object whose contents are `GroupByParent(patterns, parent)` |
| TaskProperties.GroupByParentSpec | src/managers/task.ts:80-97 | one key per distinct base directory, in order of first appearance; each group holds the patterns with that base directory, in input order |
| TaskProperties.GroupKeys | src/managers/task.ts:80-97 | a base directory has a group exactly when some pattern has that base directory |
| TaskProperties.WithParentEmpty | src/managers/task.ts:80-97 | no pattern is filed under a base directory that no pattern has |
| TaskManager.CombineByParent | src/managers/task.ts:113-130 | combining two well-formed groups objects yields a well-formed object |
| TaskManager.CombineGroupByParent | src/managers/task.ts:113-130 | the loop mutates the positive object in place and returns that same object; its contents become `CombineByParent` of the old positive and the negative groups |
| TaskManager.AppendNegativeGroups | src/managers/task.ts:119-127 | the outer loop keeps the keys and their order; each positive group becomes its old patterns followed by the marked patterns of every applicable negative group, in the order of the negative keys |
| TaskManager.AppendToApplicableGroups | src/managers/task.ts:122-126 | the inner loop appends the marked patterns to the group with the same base directory, or to every group when the negative base is `.`, and leaves the other groups and the keys unchanged |
| TaskManager.CombineStep | src/managers/task.ts:119-127 | one pass of the inner loop keeps the outer loop's invariant |
| TaskProperties.AppendedInKeyOrder | src/managers/task.ts:119-127 | what a group gains is the concatenation of each negative key's contribution in negative-key order: an applicable group's marked patterns exactly once, nothing from the others (also for base `.` with negative key `.`) |
| TaskProperties.AppendedAroundKey | src/managers/task.ts:119-127 | each negative key's contribution sits between what the keys before it and the keys after it append |
| TaskProperties.AppendedAppend | src/managers/task.ts:119-127 | merging the negative keys of two lists appends what the first list appends, then what the second appends |
| TaskProperties.AppendedMembers | src/managers/task.ts:113-130 | what a positive group gains is exactly the marked patterns of the negative groups that apply to it, all negative, and they unmark to the trimmed patterns of those groups |
| TaskProperties.GroupedToPattern | src/managers/task.ts:113-130 | a pattern taken from an applicable negative group comes from a negative pattern whose base directory applies |
| TaskProperties.PatternToGrouped | src/managers/task.ts:113-130 | every negative pattern whose base directory applies is found in an applicable negative group |
| JsRecord.ObjectKeys | src/managers/task.ts:116-117 | `Object.keys` lists exactly the object's own keys, without repetition |
| JsRecord.SortIndexKeys | src/managers/task.ts:135 | the array-index keys come out ascending, with the same members and no repetition |
| JsRecord.InsertIndexKeyKeepsOrder | src/managers/task.ts:135 | inserting an index key keeps the index keys in ascending numeric order |
| JsRecord.ObjectKeysWithoutIndices | src/managers/task.ts:135 | when no key looks like an array index, `Object.keys` is the insertion order |
| JsRecord.Record.Put | src/managers/task.ts:93 | assigning a key keeps the object well-formed |
| JsRecord.Dict.constructor | src/managers/task.ts:81 | `{}` is the empty object |
| JsRecord.Dict.Put | src/managers/task.ts:93 | an assignment in place changes the object to the assigned record |
| TaskManager.BuildTasksFromGroups | src/managers/task.ts:132-147 | the loop returns `BuildTasks` of the groups: one task per key, in `Object.keys` order |
| TaskManager.TasksForKeys | src/managers/task.ts:135-144 | the loop returns one task per key, in key order |
| TaskProperties.TasksForSpec | src/managers/task.ts:132-147 | task `i` has the `i`-th key as its base, and is built from that key's group |
| TaskManager.MakeTask | src/managers/task.ts:138-143 | the task of a group keeps the group's key as its base and the group's patterns as they are; its positive list holds exactly the group's patterns without a leading `!` |
| TaskProperties.TaskOfGroup | src/managers/task.ts:138-143 | a group made of positive patterns followed by negative ones gives a task whose positive list is the first part and whose negative list is the unmarked second part |
| TaskManager.GenerateTasks | src/managers/task.ts:149-159 | the planner returns `PlanTasks(patterns, ignore, parent)`, which the lemmas below characterise |
| TaskProperties.PlannedGroups | src/managers/task.ts:149-159 | the negative groups are built from the negative patterns followed by `ignore`; there is one task per key of the combined groups, in `Object.keys` order of the distinct base directories of the positive patterns, task `i` built from key `i` and its combined group |
| TaskProperties.GroupTaskContents | src/managers/task.ts:149-159 | the task of one base directory holds that directory's positive patterns, then the marked applicable negatives; its negative list holds exactly their trimmed forms |
| TaskProperties.PlanTaskContents | src/managers/task.ts:149-159 | every planned task's positive patterns are the caller's positive patterns with its base directory, in order; its patterns are those followed by the marked negatives and ignore entries that apply (same base directory, or base `.`); its negative list holds exactly their unmarked, trimmed forms |
| TaskProperties.PlanTaskBaseKeys | src/managers/task.ts:149-159 | the task bases are `Object.keys` of the distinct base directories of the positive patterns |
| TaskProperties.PlanTaskBases | src/managers/task.ts:149-159 | there is one task per distinct base directory of the positive patterns, and none for a base directory that only negative patterns or `ignore` entries have; no positive pattern means no task |
| TaskProperties.PlanTaskOrder | src/managers/task.ts:149-159 | when no base directory is an array index, tasks follow the first appearance of their base directories |
| TaskProperties.TwoTasksPlan | src/managers/task.spec.ts:50-61 | two positive patterns in directories `a` and `b`, a `.`-based negative pattern, a `b`-based negative pattern and an ignore entry give the two tasks the test expects |
| TaskProperties.TwoTasksExample | src/managers/task.spec.ts:50-61 | the test's own patterns give task `a` with `!**/*.txt`, `!**/*.js`, and task `b` with those plus `!b/**/*.md` |
| Providers.Split | src/providers/reader.ts:96 | `split('/')` yields at least one piece, and no piece holds the separator |
| Providers.JoinSplit | src/providers/reader.ts:96 | joining the pieces of a split with the separator gives the path back |
| Providers.SplitLength | src/providers/reader.ts:96 | a path splits into one more piece than it has separators |
| Providers.SegmentsOfChild | src/providers/reader.ts:96 | an entry inside a directory has one more segment than the directory |
| Providers.Reader.Filter | src/providers/reader.ts:72-85 | an entry that is listed matches every pattern of the task, is not a directory matched by a negative pattern, and is a file under `onlyFiles` and a directory under `onlyDirectories` |
| Providers.Reader.Deep | src/providers/reader.ts:90-102 | a directory that is entered has a truthy `deep`, at most `deep` path segments when `deep` is a number, and no negative pattern matching it; conversely a directory is entered when `deep` is `true`, or a non-zero number at least its segment count, and no negative pattern matches it |
| Providers.Reader.IsEnoentCodeError | src/providers/reader.ts:65-67 | exactly the error whose code is `ENOENT` |
| ReaderProperties.FilterRules | src/providers/reader.ts:72-85 | a directory that a negative pattern matches is not listed; `onlyFiles` and `onlyDirectories` drop the other kind; a listed entry matches every pattern of the task; an entry passing the first two tests is listed exactly when it matches all patterns |
| ReaderProperties.DeepRules | src/providers/reader.ts:90-102 | `deep: false` and `deep: 0` read no directory; a numeric bound reads only directories with at most that many path segments; a directory a negative pattern matches is never read; with `deep: true`, a directory is read exactly when no negative pattern matches it; with a non-zero numeric `deep`, exactly when it also has at most that many path segments |
| ReaderProperties.NegativeMonotone | src/providers/reader.ts:72-102 | more negative patterns never list or read an entry that fewer would not |
| Providers.Reader.GetReaderOptions | src/providers/reader.ts:54-61 | the separator is `/`; the base path is empty for base `.` and the task's base otherwise; the filter and deep callbacks are the reader's Filter and Deep over the task's patterns and negative patterns |
| ReaderProperties.BasePath | src/providers/reader.ts:54-61 | the separator is `/`; the base path is empty exactly when the base is `.` (or itself empty), and is the task's base otherwise |
| Providers.Reader.ToEntry | src/providers/reader.ts:35-38 | with `stats` an entry is the stat record, without it the entry's path |
| Providers.Reader.SyncReader | src/providers/reader.ts:34-49 | an ENOENT error gives an empty result; any other error is rethrown; a successful read gives one result per listed entry |
| ReaderProperties.SyncReaderResult | src/providers/reader.ts:34-49 | a successful read is the walk's entries, mapped to paths or stats and then through the transform |
| ReaderProperties.SyncReaderPaths | src/providers/reader.ts:34-49 | without `stats` and without a transform, the result is the listed paths in walk order |
| Providers.WalkSound | src/providers/reader.ts:57 | the enumerator lists only entries that the filter accepts |
| Providers.WalkNodeSound | src/providers/reader.ts:57 | the walk of one node lists only entries that the filter accepts |
| Providers.WalkUnpruned | src/providers/reader.ts:57-58 | when every directory is read, the listing is the filtered full tree in walk order |
| Providers.WalkNodeUnpruned | src/providers/reader.ts:57-58 | when every directory is read, one node's listing is its filtered subtree |
| Providers.WalkShallow | src/providers/reader.ts:57-58 | when no directory is read, the listing is the filtered top level |
| Providers.WalkSubseq | src/providers/reader.ts:57-58 | a stricter filter and a stricter deep callback give a listing that is a subsequence of the looser one's |
| Providers.WalkDepthBound | src/providers/reader.ts:58 | when deep admits only directories of at most n segments, no listed entry has more segments than one more than the larger of n and the starting directory's segments |
| ReaderProperties.ListingSound | src/providers/reader.ts:57-85 | every entry a task lists passes the task's filter: it matches all the task's patterns, respects `onlyFiles` and `onlyDirectories`, and is not a directory a negative pattern matches |
| ReaderProperties.ListingMonotone | src/providers/reader.ts:57-102 | adding negative patterns to a task yields a subsequence of its listing |
| ReaderProperties.ListingDepth | src/providers/reader.ts:95-99 | with numeric `deep` n, no listed entry has more path segments than one more than the larger of n and the base path's segments |
| ReaderProperties.ListingShallow | src/providers/reader.ts:91-93 | with a falsy `deep`, only the base directory's own entries are listed |
| ReaderProperties.ListingComplete | src/providers/reader.ts:57-102 | with `deep: true` and no negative patterns, every entry of the tree that passes the filter is listed |
| ReaderProperties.PrunedDirectory | src/providers/reader.ts:74-76 | a directory a negative pattern matches contributes nothing: neither itself nor anything below it |
| ReaderProperties.FixtureWalkTwoLevels | src/providers/reader.spec.ts:299-321 | the test fixture's walk, with directories read up to the second level, lists the top file, the directory, and its two subdirectories, without reading those |
| ReaderProperties.DeepTwoLevels | src/providers/reader.spec.ts:299-321 | with `deep: 2` and base `.tmp`, the listing is the top file, `components`, and its two subdirectories, and no entry inside them; the patterns need to match only those four paths |
| ReaderProperties.NegativeDirectoryPruned | src/providers/reader.spec.ts:119-130 | a negative pattern matching `components` leaves only the top-level file; the patterns need to match only that file's path |
| FastGlob.ConcatSource | src/fast-glob.ts:28 | `[].concat(source)` gives an array's elements, and any other value as a one-element list |
| FastGlob.Strings | src/fast-glob.ts:8-12 | a list of string values gives their strings, element by element |
| FastGlob.AssertPatternsInput | src/fast-glob.ts:8-12 | the list is accepted exactly when every element is a string, and then gives the strings unchanged; otherwise the call fails with the TypeError and its message |
| FastGlobProperties.StringSourceWrapped | src/fast-glob.ts:42-45 | a single string behaves exactly as the one-element list holding it |
| FastGlobProperties.InvalidInputRejected | src/fast-glob.ts:27-30 | a source holding a non-string fails with the TypeError before planning or reading, in both sync and async |
| FastGlobProperties.NullRejected | src/fast-glob.ts:42-45 | `null` is rejected with the TypeError |
| FastGlobProperties.StringsAccepted | src/fast-glob.ts:8-12 | every list of strings passes the check unchanged |
| FastGlob.OrElse | src/fast-glob.ts:14-25 | a given value wins over the default |
| FastGlob.PrepareOptions | src/fast-glob.ts:14-25 | every option the caller gives is taken as given; every other option takes its default |
| FastGlobProperties.PrepareDefaults | src/fast-glob.ts:15-24 | the defaults are the process's cwd, `deep: true`, no ignore, `uniq: true`, not only files or directories, no stats, and the identity transform |
| FastGlobProperties.PrepareOverrides | src/fast-glob.ts:14-25 | options given in full are taken as they are |
| FastGlobProperties.PrepareIdempotent | src/fast-glob.ts:14-25 | defaulting already-defaulted options changes nothing, whatever the working directory |
| FastGlobProperties.IdentityTransform | src/fast-glob.ts:23 | the default transform leaves every entry unchanged |
| FastGlob.ReadTasks | src/fast-glob.ts:52 | reading the tasks one by one gives one result per task, in task order; or the error of the first read that fails, with every earlier read successful |
| FastGlob.Sync | src/fast-glob.ts:42-55 | a source with a non-string element fails with the TypeError |
| FastGlobProperties.ReadEveryTask | src/fast-glob.ts:52-54 | when every read succeeds, the result is the merge of all results in task order; otherwise it is the error of the first failing read |
| FastGlob.Union | src/fast-glob.ts:54 | the union holds exactly the entries of the results, none twice |
| FastGlob.Merge | src/fast-glob.ts:37-39 | both merges hold exactly the entries of the results; with `uniq` none repeats, and without it the length is the sum of the results' lengths |
| FastGlobProperties.ConcatMerge | src/fast-glob.ts:54 | without `uniq`, the reduce concatenates the results in task order, each whole and in its own order, so the length is the sum of their lengths |
| FastGlobProperties.UnionMerge | src/fast-glob.ts:54 | with `uniq`, the union holds every entry of every result and nothing else, none twice, in the order of first appearance |
| FastGlobProperties.MergeOfDistinct | src/fast-glob.ts:54 | when no entry repeats, the union and the concatenation agree |
| FastGlobProperties.MissingBaseDirectories | src/fast-glob.ts:52 | when every task's base directory is missing, the call returns no entries and no error |
| FastGlobProperties.UniqueEntries | src/fast-glob.ts:52-54 | with `uniq`, a successful call never returns an entry twice, and every entry comes from some task's read |
| FastGlobProperties.SyncPlansThenReads | src/fast-glob.ts:42-55 | a call whose input passes the check reads exactly the tasks planned from its patterns and defaulted options |
| FastGlob.AsyncMaySettle | src/fast-glob.ts:27-40 | a source with a non-string element makes async throw the TypeError synchronously, and nothing else can happen |
| FastGlobProperties.SequentialIsAConcurrentOutcome | src/fast-glob.ts:37-39 | reading the tasks one by one settles in a way the concurrent `Promise.all` may also settle, exactly when no missing transform throws or some read fails; when a missing transform throws and every read succeeds, the concurrent read settles in no way at all |
| FastGlobProperties.SyncIsAnAsyncOutcome | src/fast-glob.ts:27-40 | sync returns an outcome async may also settle with (the input error, the same merge, or one of the failing reads' errors), exactly when async's unconditional transform call does not throw or some read fails |
| FastGlobProperties.NullTransformDiverges | src/providers/reader.ts:26 | with `transform: null`, an entry to list and every read succeeding, async settles with no outcome at all (asyncReader calls the transform unconditionally) |
| Findings.Lookup | src/managers/task.ts:87 | `groups[parent]` finds an own value, else an inherited member of Object.prototype, else nothing |
| Findings.GroupStepAsWritten | src/managers/task.ts:84-93 | one pass of the forEach as written: it throws exactly when the base's own key holds an inherited member; an own list gains the pattern at its end; a new `__proto__` base changes nothing; any other new base becomes a key at the end of the insertion order, holding the inherited member when named like an Object.prototype member and the one-pattern list otherwise |
| Findings.GroupAsWritten | src/managers/task.ts:80-97 | groupPatternsByParent as written, when it does not throw: the own keys are the inserted keys, only a key named like an Object.prototype member holds an inherited member (`Inherited`), and every pattern whose base is named like none of them is in a group |
| Findings.ConstructorPatternLost | src/managers/task.ts:80-97 | as written, a lone pattern whose base directory is `constructor` is put in no group; its key holds the inherited Object function |
| Findings.ProtoPatternLost | src/managers/task.ts:80-97 | as written, a lone pattern whose base directory is `__proto__` leaves the groups empty, so no task reads it |
| Findings.EveryPatternGrouped | src/managers/task.ts:80-97 | corrected: every pattern is in the group of its own base directory, whatever that directory is called |
| Findings.ConstructorPatternKept | src/managers/task.ts:80-97 | corrected: the lone `constructor` pattern forms its own group |

## Left out

- The stream and promise readers (`asyncReader` and the `reader-stream`, `reader-promise` and
  `reader-sync` wrappers) are not modelled as streams. Async is modelled as the set of outcomes it may
  settle with (`FastGlob.AsyncMaySettle`). Each task's read is taken to be the walk `syncReader` sees.
  One difference is modelled: `asyncReader` calls the transform on every entry unconditionally, so
  with `transform: null` the first entry throws (`FastGlob.TransformThrows`). A read failing with
  another error may still reject the call first; when every read succeeds, async settles with no
  outcome. What the thrown TypeError then does to the process is not modelled.
- readdir-enhanced's own traversal order and its I/O are not modelled. The enumerator is a pre-order
  walk over a `Node` tree: an entry is listed when the filter accepts it, and a directory is entered
  when deep accepts it. Its other options are not modelled.
- micromatch and glob-parent are parameters, not implementations; no glob syntax is modelled.
- arr-union is not part of this model. It is modelled as the concatenation without repetitions,
  keeping first occurrences. Repetition is decided by value equality, while JavaScript compares stat
  objects by identity.
- FastGlob.Merge, FastGlob.Union, FastGlobProperties.UnionMerge, FastGlobProperties.UniqueEntries: the model also
  removes repetitions within the first task's result. arr-union keeps its first argument as it is and
  skips only the later elements that are already present. So the source's `uniq` output can repeat an
  entry that one task's read returns twice, which happens with a transform that maps two entries to the
  same value.
- The transform's results are restricted to entries (`Transform = Entry -> Entry`), while the source
  lets it return any value.
- With no task at all (no positive pattern), `uniq` hands the union no argument. What arr-union does
  then is not part of this model: the model's union of no results is the empty list.
- `path.resolve(cwd, base)` and `process.cwd()` are not modelled: the file system parameter receives
  `cwd` and `base` as they are, and the working directory is a parameter.
- `fs.Stats` is reduced to a path and the file and directory flags.
- `Promise.all` timing is not modelled. When several reads fail, any one of their errors may reject
  the call.
- An option passed explicitly as `undefined` is not modelled. `Object.assign` would copy it over the
  default; the model only distinguishes given from absent.
- A numeric `deep` is an integer: NaN and fractions are not modelled.
- FastGlob.AsyncMaySettle: the model does not distinguish the synchronous throw of the input check
  (src/fast-glob.ts:30, before any promise exists) from a rejection of the returned promise; both are
  a `Failure` outcome.
- FastGlob.Sync: its contract states only the input-check failure; what a valid call returns is stated
  by `FastGlobProperties.SyncPlansThenReads` and `FastGlobProperties.ReadEveryTask`.
- Providers.Reader.SyncReader: its contract states the result's length only; the entries themselves are
  stated by `ReaderProperties.SyncReaderResult`.
- The numeric `deep` bound counts the path segments of the entry's whole path, base directory
  included (`entry.path.split('/').length`, src/providers/reader.ts:96).
- `src/managers/task.spec.ts` expects tasks with an `ignore` field; the code builds `positive` and
  `negative`, and the model follows the code.
- TaskManager.GroupByParent, TaskManager.GroupPatternsByParent: they look a key up among the object's
  own keys only. The code as written (`groups[parent] || [pattern]`, src/managers/task.ts:87) also sees
  the members of Object.prototype. It therefore loses or misfiles patterns whose base directory is named
  like one of them (`constructor`, `toString`, `__proto__`, ...). For `constructor`, the Object function
  is stored under the key and generateTasks then throws when it calls `forEach` on it. The planner
  modelled here, and so `TaskManager.PlanTasks`, `TaskManager.GenerateTasks` and `FastGlob.Sync`, is
  the corrected one. `Findings.GroupAsWritten` models the code as written (see "## Findings").
- The benchmark, the fixtures and the type declarations are not part of this model.

## Findings

| source | as written | input that shows it | evidently intended | confidence | as-written member | corrected member |
|---|---|---|---|---|---|---|
| src/managers/task.ts:87-93 | `groups[parent] \|\| [pattern]` on a plain `{}` also finds the members inherited from Object.prototype, and `hasOwnProperty` is then false, so nothing is pushed and the inherited member is stored under the key | the lone pattern `constructor/*.js`, whose base directory is `constructor`: its key ends up holding the Object function instead of a list, and a second such pattern throws on `push` | every pattern is in the group of its own base directory | not executed | Findings.ConstructorPatternLost | Findings.ConstructorPatternKept |
| src/managers/task.ts:87-93 | the same lookup finds the prototype under `__proto__`, and assigning `groups["__proto__"]` sets the prototype instead of creating a key | the lone pattern `__proto__/*.js`: the groups stay empty, so no task reads the pattern | every pattern is in the group of its own base directory | not executed | Findings.ProtoPatternLost | Findings.EveryPatternGrouped |
