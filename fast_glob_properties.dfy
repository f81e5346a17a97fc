/** What the entry points promise: input checking, option defaults, and the merge of per-task results. */
module FastGlobProperties {
  import opened Types
  import opened Seqs
  import opened TaskManager
  import opened Providers
  import opened FastGlob

  /** A single string is read as the one-pattern list holding it. */
  lemma StringSourceWrapped(pattern: string, options: PartialOptions, env: Environment)
    ensures ConcatSource(JsString(pattern)) == [JsString(pattern)]
    ensures Sync(JsString(pattern), options, env) == Sync(JsArray([JsString(pattern)]), options, env)
    ensures PlannedTasks(JsString(pattern), options, env) == PlannedTasks(JsArray([JsString(pattern)]), options, env)
  {
  }

  /**
   * A source holding anything but strings fails with the TypeError before any task is
   * planned or read, whatever the file system holds; `null` is such a source.
   */
  lemma InvalidInputRejected(source: JsValue, options: PartialOptions, env: Environment)
    requires exists v :: v in ConcatSource(source) && !v.JsString?
    ensures PlannedTasks(source, options, env) == Failure(TypeError(PatternsMessage))
    ensures Sync(source, options, env) == Failure(TypeError(PatternsMessage))
    ensures forall r :: AsyncMaySettle(source, options, env, r) <==> r == Failure(TypeError(PatternsMessage))
  {
  }

  lemma NullRejected(options: PartialOptions, env: Environment)
    ensures Sync(JsNull, options, env) == Failure(TypeError(PatternsMessage))
  {
    assert JsNull in ConcatSource(JsNull);
  }

  function StringValue(s: string): JsValue {
    JsString(s)
  }

  /** A list of strings passes the check unchanged. */
  lemma StringsAccepted(patterns: seq<string>)
    ensures AssertPatternsInput(Map(StringValue, patterns)) == Success(patterns)
  {
    var values := Map(StringValue, patterns);
    assert forall v :: v in values ==> v.JsString?;
    var r := AssertPatternsInput(values);
    assert r.value == patterns;
  }

  /** With no option given, every option takes its default. */
  lemma PrepareDefaults(processCwd: string)
    ensures var o := PrepareOptions(NoOptions, processCwd);
      && o.cwd == processCwd && o.deep == DeepFlag(true) && o.ignore == []
      && o.uniq && !o.onlyDirectories && !o.onlyFiles && !o.stats
      && o.transform == Some(Identity)
  {
  }

  /** Options given in full are taken as they are, whatever the defaults. */
  lemma PrepareOverrides(o: Options, processCwd: string)
    ensures PrepareOptions(AllGiven(o), processCwd) == o
  {
  }

  /** Defaulting twice changes nothing. */
  lemma PrepareIdempotent(options: PartialOptions, processCwd: string, otherCwd: string)
    ensures var o := PrepareOptions(options, processCwd);
      PrepareOptions(AllGiven(o), otherCwd) == o
  {
    PrepareOverrides(PrepareOptions(options, processCwd), otherCwd);
  }

  /** The default transform hands every entry through unchanged. */
  lemma IdentityTransform(entries: seq<Entry>)
    ensures Map(Identity, entries) == entries
  {
  }

  /**
   * Without `uniq`: the per-task results one after the other, each whole and in its
   * own order, so the length is the sum of their lengths.
   */
  lemma ConcatMerge(results: seq<seq<Entry>>)
    ensures Merge(false, results) == Flatten(results)
    ensures |Flatten(results)| == TotalLength(results)
    ensures forall i :: 0 <= i < |results| ==>
      Flatten(results) == Flatten(results[..i]) + results[i] + Flatten(results[i + 1..])
  {
    FlattenLength(results);
    forall i | 0 <= i < |results|
      ensures Flatten(results) == Flatten(results[..i]) + results[i] + Flatten(results[i + 1..])
    {
      var rest := results[i..];
      FlattenPrefix(results, i);
      FlattenPrefix(rest, 1);
      assert rest[..1] == [results[i]];
      assert Flatten([results[i]]) == results[i] by {
        assert [results[i]][..0] == [];
      }
      assert rest[1..] == results[i + 1..];
    }
  }

  /**
   * With `uniq`: every entry of every task's result is there, nothing else, none
   * twice, in the order of first appearance.
   */
  lemma UnionMerge(results: seq<seq<Entry>>)
    ensures Distinct(Merge(true, results))
    ensures forall x :: x in Merge(true, results) <==> exists i :: 0 <= i < |results| && x in results[i]
    ensures var u := Merge(true, results);
      forall i, j :: 0 <= i < j < |u| ==> FirstIndex(Flatten(results), u[i]) < FirstIndex(Flatten(results), u[j])
  {
    forall x ensures x in Flatten(results) <==> exists i :: 0 <= i < |results| && x in results[i] {
      FlattenMembership(results, x);
    }
    DedupFirstOccurrenceOrder(Flatten(results));
  }

  /** When no entry repeats across or within the results, both merges agree. */
  lemma MergeOfDistinct(results: seq<seq<Entry>>)
    requires Distinct(Flatten(results))
    ensures Merge(true, results) == Merge(false, results)
  {
    DedupOfDistinct(Flatten(results));
  }

  /**
   * Reading tasks one by one: when every read succeeds, the merge of their results in
   * task order; otherwise the error of the first read that fails.
   */
  lemma ReadEveryTask(opts: Options, tasks: seq<Task>, env: Environment)
    ensures var reader := Reader(opts);
      var r := ReadAndMerge(opts, tasks, env);
      && ((forall i :: 0 <= i < |tasks| ==> ReadTask(reader, tasks[i], env).Success?) ==>
            r == Success(Merge(opts.uniq, seq(|tasks|, i requires 0 <= i < |tasks| => ReadTask(reader, tasks[i], env).value))))
      && ((exists i :: 0 <= i < |tasks| && ReadTask(reader, tasks[i], env).Failure?) ==>
            exists i ::
              && 0 <= i < |tasks|
              && ReadTask(reader, tasks[i], env).Failure?
              && r == Failure(ReadError(ReadTask(reader, tasks[i], env).error))
              && forall j :: 0 <= j < i ==> ReadTask(reader, tasks[j], env).Success?)
  {
    var reader := Reader(opts);
    var read := ReadTasks(reader, tasks, env);
    if read.Success? {
      assert read.value == seq(|tasks|, i requires 0 <= i < |tasks| => ReadTask(reader, tasks[i], env).value);
    }
  }

  /**
   * Reading the tasks one by one settles in a way reading them concurrently may too,
   * except when the missing transform throws and every read succeeds: then the
   * concurrent read settles in no way at all.
   */
  lemma SequentialIsAConcurrentOutcome(opts: Options, tasks: seq<Task>, env: Environment)
    ensures (!TransformThrows(opts, tasks, env) || SomeReadFails(opts, tasks, env)) <==>
      ConcurrentReadMaySettle(opts, tasks, env, ReadAndMerge(opts, tasks, env))
    ensures TransformThrows(opts, tasks, env) && !SomeReadFails(opts, tasks, env) ==>
      forall r :: !ConcurrentReadMaySettle(opts, tasks, env, r)
  {
    var reader := Reader(opts);
    ReadEveryTask(opts, tasks, env);
    if !(forall t :: t in tasks ==> ReadTask(reader, t, env).Success?) {
      var t :| t in tasks && !ReadTask(reader, t, env).Success?;
      var k :| 0 <= k < |tasks| && tasks[k] == t;
      assert ReadTask(reader, tasks[k], env).Failure?;
      var i :|
        && 0 <= i < |tasks|
        && ReadTask(reader, tasks[i], env).Failure?
        && ReadAndMerge(opts, tasks, env) == Failure(ReadError(ReadTask(reader, tasks[i], env).error))
        && forall j :: 0 <= j < i ==> ReadTask(reader, tasks[j], env).Success?;
      assert tasks[i] in tasks;
    } else {
      forall i | 0 <= i < |tasks| ensures ReadTask(reader, tasks[i], env).Success? {
        assert tasks[i] in tasks;
      }
    }
  }

  /**
   * The synchronous call settles in a way the asynchronous one may too, exactly when
   * the asynchronous one does not throw on a missing transform with every read
   * succeeding.
   */
  lemma SyncIsAnAsyncOutcome(source: JsValue, options: PartialOptions, env: Environment)
    ensures Prepare(source, options, env).Failure? ==> AsyncMaySettle(source, options, env, Sync(source, options, env))
    ensures Prepare(source, options, env).Success? ==>
      var (patterns, opts) := Prepare(source, options, env).value;
      var tasks := PlanTasks(patterns, opts.ignore, env.parent);
      ((!TransformThrows(opts, tasks, env) || SomeReadFails(opts, tasks, env)) <==>
         AsyncMaySettle(source, options, env, Sync(source, options, env)))
  {
    if Prepare(source, options, env).Success? {
      var (patterns, opts) := Prepare(source, options, env).value;
      SequentialIsAConcurrentOutcome(opts, PlanTasks(patterns, opts.ignore, env.parent), env);
    }
  }

  /**
   * With `transform: null`, an entry to list and every read succeeding, the
   * asynchronous call never settles.
   */
  lemma NullTransformDiverges(patterns: seq<string>, options: PartialOptions, env: Environment)
    requires PrepareOptions(options, env.processCwd).transform.None?
    requires var opts := PrepareOptions(options, env.processCwd);
      exists t :: t in PlanTasks(patterns, opts.ignore, env.parent) && ListsEntry(Reader(opts), t, env)
    requires var opts := PrepareOptions(options, env.processCwd);
      forall t :: t in PlanTasks(patterns, opts.ignore, env.parent) ==> ReadTask(Reader(opts), t, env).Success?
    ensures forall r :: !AsyncMaySettle(JsArray(Map(StringValue, patterns)), options, env, r)
  {
    StringsAccepted(patterns);
    var opts := PrepareOptions(options, env.processCwd);
    SequentialIsAConcurrentOutcome(opts, PlanTasks(patterns, opts.ignore, env.parent), env);
  }

  lemma {:induction false} FlattenOfEmpties(results: seq<seq<Entry>>)
    requires forall i :: 0 <= i < |results| ==> results[i] == []
    ensures Flatten(results) == []
  {
    if results != [] {
      FlattenOfEmpties(results[..|results| - 1]);
    }
  }

  /** When every task's base directory is missing, reading them gives no entries and no error. */
  lemma MissingBaseDirectories(opts: Options, tasks: seq<Task>, env: Environment)
    requires forall t :: t in tasks ==> env.fs(opts.cwd, t.base) == Failure(IoError("ENOENT"))
    ensures ReadAndMerge(opts, tasks, env) == Success([])
  {
    var reader := Reader(opts);
    forall i | 0 <= i < |tasks| ensures ReadTask(reader, tasks[i], env) == Success([]) {
      assert tasks[i] in tasks;
    }
    ReadEveryTask(opts, tasks, env);
    var results := seq(|tasks|, i requires 0 <= i < |tasks| => ReadTask(reader, tasks[i], env).value);
    FlattenOfEmpties(results);
  }

  /**
   * With `uniq` on, a successful read of the tasks never returns an entry twice, and
   * every entry it returns came from one of the tasks' reads.
   */
  lemma UniqueEntries(opts: Options, tasks: seq<Task>, env: Environment)
    requires ReadAndMerge(opts, tasks, env).Success?
    ensures var entries := ReadAndMerge(opts, tasks, env).value;
      && (opts.uniq ==> Distinct(entries))
      && forall x :: x in entries ==>
           exists i :: 0 <= i < |tasks| && ReadTask(Reader(opts), tasks[i], env).Success?
             && x in ReadTask(Reader(opts), tasks[i], env).value
  {
    var results := ReadTasks(Reader(opts), tasks, env).value;
    forall x ensures x in Flatten(results) <==> exists i :: 0 <= i < |results| && x in results[i] {
      FlattenMembership(results, x);
    }
  }

  /** A call whose input passes the check reads the tasks planned from its patterns and options. */
  lemma SyncPlansThenReads(source: JsValue, options: PartialOptions, env: Environment)
    requires Prepare(source, options, env).Success?
    ensures var (patterns, opts) := Prepare(source, options, env).value;
      && PlannedTasks(source, options, env) == Success(PlanTasks(patterns, opts.ignore, env.parent))
      && Sync(source, options, env) == ReadAndMerge(opts, PlanTasks(patterns, opts.ignore, env.parent), env)
  {
  }
}
