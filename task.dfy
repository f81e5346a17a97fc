/**
 * The task planner (src/managers/task.ts): splits the caller's patterns into
 * positive and negative ones, groups both by base directory and emits one
 * task per base directory of the positive patterns.
 *
 * The base directory of a pattern (the glob-parent library) is a parameter
 * `parent`; nothing here depends on how it is computed.
 */
module TaskManager {
  import opened Types
  import opened Seqs
  import opened JsRecord

  /** glob-parent: the static directory prefix of a pattern, "." when there is none. */
  type ParentFn = string -> string

  /** The pattern starts with the negation marker `!`. */
  predicate IsNegativePattern(pattern: string)
    ensures IsNegativePattern(pattern) <==> "!" <= pattern
  {
    |pattern| > 0 && pattern[0] == '!'
  }

  predicate IsPositivePattern(pattern: string) {
    !IsNegativePattern(pattern)
  }

  /** The patterns without a leading `!`, in input order (getPositivePatterns). */
  function GetPositivePatterns(patterns: seq<string>): (r: seq<string>)
    ensures forall p :: p in r <==> p in patterns && !("!" <= p)
    ensures |r| <= |patterns|
  {
    Filter(IsPositivePattern, patterns)
  }

  /** The patterns with a leading `!`, in input order, still marked. */
  function NegativeInputs(patterns: seq<string>): seq<string> {
    Filter(IsNegativePattern, patterns)
  }

  /** The pattern with the negation marker put in front. */
  function MarkNegative(pattern: string): string {
    "!" + pattern
  }

  /** Every pattern with `!` put in front (getPositivePatternsAsNegative). */
  function GetPositivePatternsAsNegative(patterns: seq<string>): (r: seq<string>)
    ensures |r| == |patterns|
    ensures forall i :: 0 <= i < |patterns| ==> IsNegativePattern(r[i]) && r[i][1..] == patterns[i]
  {
    Map(MarkNegative, patterns)
  }

  /** String.prototype.slice(1): everything after the first character. */
  function SliceFrom1(s: string): string {
    if s == [] then [] else s[1..]
  }

  predicate EndsWithGlobStar(s: string) {
    |s| >= 3 && s[|s| - 3..] == "/**"
  }

  /** s.replace(/(\/\*\*)+$/, ''): removes the whole trailing run of globstar groups (slash, star, star). */
  function TrimGlobStars(s: string): (r: string)
    ensures r <= s
    ensures !EndsWithGlobStar(r)
    decreases |s|
  {
    if EndsWithGlobStar(s) then TrimGlobStars(s[..|s| - 3]) else s
  }

  /** What getNegativePatterns pushes for one negative pattern. */
  function StripNegative(pattern: string): (r: string)
    ensures r == TrimGlobStars(SliceFrom1(pattern))
    ensures r <= SliceFrom1(pattern) && !EndsWithGlobStar(r)
  {
    if EndsWithGlobStar(pattern) then TrimGlobStars(SliceFrom1(pattern))
    else
      assert !EndsWithGlobStar(SliceFrom1(pattern)) by {
        if |pattern| >= 4 {
          assert SliceFrom1(pattern)[|pattern| - 4..] == pattern[|pattern| - 3..];
        }
      }
      SliceFrom1(pattern)
  }

  /** The negative patterns, unmarked and without trailing globstar groups (slash, star, star), in input order. */
  function NegativePatterns(patterns: seq<string>): seq<string> {
    if patterns == [] then []
    else
      var pattern := patterns[|patterns| - 1];
      NegativePatterns(patterns[..|patterns| - 1]) + (if IsNegativePattern(pattern) then [StripNegative(pattern)] else [])
  }

  /** getNegativePatterns: pushes into a fresh list inside a forEach. */
  method GetNegativePatterns(patterns: seq<string>) returns (negative: seq<string>)
    ensures negative == NegativePatterns(patterns)
  {
    negative := [];
    for i := 0 to |patterns|
      invariant negative == NegativePatterns(patterns[..i])
    {
      var pattern := patterns[i];
      assert patterns[..i + 1][..i] == patterns[..i];
      if !IsNegativePattern(pattern) {
        continue;
      }
      if EndsWithGlobStar(pattern) {
        negative := negative + [TrimGlobStars(SliceFrom1(pattern))];
      } else {
        negative := negative + [SliceFrom1(pattern)];
      }
    }
    assert patterns[..|patterns|] == patterns;
  }

  // ---------------------------------------------------------------------------
  // Grouping by base directory

  /** The object groupPatternsByParent builds, as a value. */
  function GroupByParent(patterns: seq<string>, parent: ParentFn): (groups: Record)
    ensures groups.Valid()
  {
    if patterns == [] then EmptyRecord
    else
      var groups := GroupByParent(patterns[..|patterns| - 1], parent);
      var pattern := patterns[|patterns| - 1];
      var key := parent(pattern);
      groups.Put(key, if key in groups.values then groups.values[key] + [pattern] else [pattern])
  }

  /** groupPatternsByParent: fills a fresh object in a forEach. */
  method GroupPatternsByParent(patterns: seq<string>, parent: ParentFn) returns (groups: Dict)
    ensures fresh(groups)
    ensures groups.Model() == GroupByParent(patterns, parent)
  {
    groups := new Dict();
    for i := 0 to |patterns|
      invariant groups.Model() == GroupByParent(patterns[..i], parent)
    {
      var pattern := patterns[i];
      assert patterns[..i + 1][..i] == patterns[..i];
      var key := parent(pattern);
      var groupPatterns := if groups.HasOwnProperty(key) then groups.Get(key) else [pattern];
      if groups.HasOwnProperty(key) {
        groupPatterns := groupPatterns + [pattern];
      }
      groups.Put(key, groupPatterns);
    }
    assert patterns[..|patterns|] == patterns;
  }

  // ---------------------------------------------------------------------------
  // Merging negative groups into positive groups

  /** A negative group keyed `negativeParent` is merged into the positive group keyed `positiveParent`. */
  predicate AppliesTo(negativeParent: string, positiveParent: string) {
    negativeParent == positiveParent || negativeParent == "."
  }

  /** The marked negative patterns appended to the group `positiveParent`, negative keys taken in order. */
  function Appended(positiveParent: string, negativeKeys: seq<string>, negative: Record): seq<string>
    requires forall k :: k in negativeKeys ==> k in negative.values
  {
    if negativeKeys == [] then []
    else
      var negativeParent := negativeKeys[|negativeKeys| - 1];
      Appended(positiveParent, negativeKeys[..|negativeKeys| - 1], negative)
        + (if AppliesTo(negativeParent, positiveParent) then GetPositivePatternsAsNegative(negative.values[negativeParent]) else [])
  }

  lemma AppendedStep(positiveParent: string, negativeKeys: seq<string>, i: nat, negative: Record)
    requires i < |negativeKeys|
    requires forall k :: k in negativeKeys ==> k in negative.values
    ensures Appended(positiveParent, negativeKeys[..i + 1], negative)
      == Appended(positiveParent, negativeKeys[..i], negative)
        + (if AppliesTo(negativeKeys[i], positiveParent) then GetPositivePatternsAsNegative(negative.values[negativeKeys[i]]) else [])
  {
    assert negativeKeys[..i + 1][..i] == negativeKeys[..i];
  }

  /** One round of the outer loop of combineGroupByParent keeps its invariant. */
  lemma CombineStep(
    original: map<string, seq<string>>, before: map<string, seq<string>>, after: map<string, seq<string>>,
    negativeKeys: seq<string>, i: nat, negative: Record, negativePatterns: seq<string>)
    requires i < |negativeKeys|
    requires forall k :: k in negativeKeys ==> k in negative.values
    requires negativePatterns == GetPositivePatternsAsNegative(negative.values[negativeKeys[i]])
    requires after.Keys == before.Keys == original.Keys
    requires forall k :: k in before ==> before[k] == original[k] + Appended(k, negativeKeys[..i], negative)
    requires forall k :: k in after ==>
      after[k] == before[k] + (if AppliesTo(negativeKeys[i], k) then negativePatterns else [])
    ensures forall k :: k in after ==> after[k] == original[k] + Appended(k, negativeKeys[..i + 1], negative)
  {
    forall k | k in after
      ensures after[k] == original[k] + Appended(k, negativeKeys[..i + 1], negative)
    {
      AppendedStep(k, negativeKeys, i, negative);
      var extra := if AppliesTo(negativeKeys[i], k) then negativePatterns else [];
      ConcatAssoc(original[k], Appended(k, negativeKeys[..i], negative), extra);
    }
  }

  /** The object combineGroupByParent returns, as a value. */
  function CombineByParent(positive: Record, negative: Record): (groups: Record)
    requires positive.Valid() && negative.Valid()
    ensures groups.Valid()
  {
    Record(positive.inserted, map k | k in positive.values :: positive.values[k] + Appended(k, negative.Keys(), negative))
  }

  /** The inner forEach of combineGroupByParent: appends the marked patterns to every group they apply to. */
  method AppendToApplicableGroups(groups: Dict, positiveKeys: seq<string>, negativeParent: string, negativePatterns: seq<string>)
    requires Distinct(positiveKeys)
    requires forall k :: k in positiveKeys ==> k in groups.values
    modifies groups
    ensures groups.inserted == old(groups.inserted)
    ensures groups.values.Keys == old(groups.values.Keys)
    ensures forall k :: k in groups.values ==>
      groups.values[k] == old(groups.values[k]) + (if k in positiveKeys && AppliesTo(negativeParent, k) then negativePatterns else [])
  {
    for j := 0 to |positiveKeys|
      invariant groups.inserted == old(groups.inserted)
      invariant groups.values.Keys == old(groups.values.Keys)
      invariant forall k :: k in groups.values ==>
        groups.values[k] == old(groups.values[k]) + (if k in positiveKeys[..j] && AppliesTo(negativeParent, k) then negativePatterns else [])
    {
      var positiveParent := positiveKeys[j];
      assert positiveKeys[..j + 1] == positiveKeys[..j] + [positiveParent];
      assert positiveParent !in positiveKeys[..j];
      if negativeParent == positiveParent || negativeParent == "." {
        groups.Put(positiveParent, groups.Get(positiveParent) + negativePatterns);
      }
    }
    assert positiveKeys[..|positiveKeys|] == positiveKeys;
  }

  /**
   * combineGroupByParent: `Object.assign(positive)` returns `positive` itself, so the
   * result is the positive object, updated in place by the nested loops.
   */
  method CombineGroupByParent(positive: Dict, negative: Dict) returns (groups: Dict)
    requires positive != negative
    requires positive.Model().Valid() && negative.Model().Valid()
    modifies positive
    ensures groups == positive
    ensures groups.Model() == CombineByParent(old(positive.Model()), negative.Model())
  {
    groups := positive;
    var positiveKeys := positive.Keys();
    var negativeKeys := negative.Keys();
    AppendNegativeGroups(groups, positiveKeys, negative, negativeKeys);
  }

  /** The outer forEach of combineGroupByParent, over the keys of the negative object. */
  method AppendNegativeGroups(groups: Dict, positiveKeys: seq<string>, negative: Dict, negativeKeys: seq<string>)
    requires groups != negative
    requires Distinct(positiveKeys)
    requires forall k :: k in groups.values <==> k in positiveKeys
    requires forall k :: k in negativeKeys ==> k in negative.values
    modifies groups
    ensures groups.inserted == old(groups.inserted)
    ensures groups.values == map k | k in old(groups.values) :: old(groups.values)[k] + Appended(k, negativeKeys, negative.Model())
  {
    ghost var original := groups.values;
    ghost var neg := negative.Model();
    for i := 0 to |negativeKeys|
      invariant groups.inserted == old(groups.inserted)
      invariant groups.values.Keys == original.Keys
      invariant forall k :: k in groups.values ==>
        groups.values[k] == original[k] + Appended(k, negativeKeys[..i], neg)
    {
      var negativeParent := negativeKeys[i];
      var negativePatterns := GetPositivePatternsAsNegative(negative.Get(negativeParent));
      ghost var before := groups.values;
      AppendToApplicableGroups(groups, positiveKeys, negativeParent, negativePatterns);
      CombineStep(original, before, groups.values, negativeKeys, i, neg, negativePatterns);
    }
    assert negativeKeys[..|negativeKeys|] == negativeKeys;
  }

  // ---------------------------------------------------------------------------
  // Tasks

  /** The task for one group: its positive patterns and its unmarked negative patterns. */
  function MakeTask(base: string, patterns: seq<string>): (r: Task)
    ensures r.base == base && r.patterns == patterns
    ensures forall p :: p in r.positive <==> p in patterns && !IsNegativePattern(p)
  {
    Task(base, patterns, GetPositivePatterns(patterns), NegativePatterns(patterns))
  }

  /** One task per key, in key order. */
  function TasksFor(keys: seq<string>, groups: Record): seq<Task>
    requires forall k :: k in keys ==> k in groups.values
  {
    if keys == [] then []
    else
      var key := keys[|keys| - 1];
      TasksFor(keys[..|keys| - 1], groups) + [MakeTask(key, groups.values[key])]
  }

  lemma TasksForStep(keys: seq<string>, i: nat, groups: Record)
    requires i < |keys|
    requires forall k :: k in keys ==> k in groups.values
    ensures TasksFor(keys[..i + 1], groups) == TasksFor(keys[..i], groups) + [MakeTask(keys[i], groups.values[keys[i]])]
  {
    assert keys[..i + 1][..i] == keys[..i];
  }

  /** The list buildTasksFromGroups returns, as a value. */
  function BuildTasks(groups: Record): seq<Task>
    requires groups.Valid()
  {
    TasksFor(groups.Keys(), groups)
  }

  /** buildTasksFromGroups: pushes one task per key of the object. */
  method BuildTasksFromGroups(groups: Dict) returns (tasks: seq<Task>)
    requires groups.Model().Valid()
    ensures tasks == BuildTasks(groups.Model())
  {
    var keys := groups.Keys();
    tasks := TasksForKeys(groups, keys);
  }

  method TasksForKeys(groups: Dict, keys: seq<string>) returns (tasks: seq<Task>)
    requires forall k :: k in keys ==> k in groups.values
    ensures tasks == TasksFor(keys, groups.Model())
  {
    tasks := [];
    for i := 0 to |keys|
      invariant tasks == TasksFor(keys[..i], groups.Model())
    {
      var group := keys[i];
      var patterns := groups.Get(group);
      var negative := GetNegativePatterns(patterns);
      TasksForStep(keys, i, groups.Model());
      tasks := tasks + [Task(group, patterns, GetPositivePatterns(patterns), negative)];
    }
    assert keys[..|keys|] == keys;
  }

  /** The tasks generateTasks returns, as a value. */
  function PlanTasks(patterns: seq<string>, ignore: seq<string>, parent: ParentFn): seq<Task> {
    var positive := GetPositivePatterns(patterns);
    var negative := NegativePatterns(patterns) + ignore;
    BuildTasks(CombineByParent(GroupByParent(positive, parent), GroupByParent(negative, parent)))
  }

  /** generateTasks */
  method GenerateTasks(patterns: seq<string>, options: Options, parent: ParentFn) returns (tasks: seq<Task>)
    ensures tasks == PlanTasks(patterns, options.ignore, parent)
  {
    var positive := GetPositivePatterns(patterns);
    var negative := GetNegativePatterns(patterns);
    negative := negative + options.ignore;
    var positiveGroup := GroupPatternsByParent(positive, parent);
    var negativeGroup := GroupPatternsByParent(negative, parent);
    var groups := CombineGroupByParent(positiveGroup, negativeGroup);
    tasks := BuildTasksFromGroups(groups);
  }
}
