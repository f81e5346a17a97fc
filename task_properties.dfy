/**
 * What the task planner promises: how patterns are split into positive and
 * negative ones, how negative patterns are unmarked, how groups are formed and
 * merged, and what every planned task holds.
 */
module TaskProperties {
  import opened Types
  import opened Seqs
  import opened JsRecord
  import opened TaskManager

  // ---------------------------------------------------------------------------
  // Positive and negative patterns

  /** Every pattern is either positive or negative, and none is lost or duplicated. */
  lemma PositiveNegativePartition(patterns: seq<string>)
    ensures multiset(GetPositivePatterns(patterns)) + multiset(NegativeInputs(patterns)) == multiset(patterns)
    ensures |GetPositivePatterns(patterns)| + |NegativeInputs(patterns)| == |patterns|
  {
    FilterPartition(IsPositivePattern, IsNegativePattern, patterns);
    FilterPartitionLength(IsPositivePattern, IsNegativePattern, patterns);
  }

  /** `n` copies of the globstar group (slash, star, star). */
  function GlobStars(n: nat): string {
    if n == 0 then "" else GlobStars(n - 1) + "/**"
  }

  /** Trimming removes a run of globstar groups and leaves none at the end. */
  lemma {:induction false} TrimGlobStarsRemovesRun(s: string)
    ensures !EndsWithGlobStar(TrimGlobStars(s))
    ensures exists n: nat :: TrimGlobStars(s) + GlobStars(n) == s
    decreases |s|
  {
    if EndsWithGlobStar(s) {
      var init := s[..|s| - 3];
      TrimGlobStarsRemovesRun(init);
      var n: nat :| TrimGlobStars(init) + GlobStars(n) == init;
      assert s == init + "/**";
      ConcatAssoc(TrimGlobStars(init), GlobStars(n), "/**");
      assert TrimGlobStars(s) + GlobStars(n + 1) == s;
    } else {
      assert s + GlobStars(0) == s;
    }
  }

  /** Trimming removes the WHOLE trailing run: any split into a stem without a trailing group and a run is the one it finds. */
  lemma {:induction false} TrimGlobStarsUnique(stem: string, n: nat)
    requires !EndsWithGlobStar(stem)
    ensures TrimGlobStars(stem + GlobStars(n)) == stem
  {
    if n == 0 {
      assert stem + GlobStars(0) == stem;
    } else {
      var t := stem + GlobStars(n - 1);
      ConcatAssoc(stem, GlobStars(n - 1), "/**");
      TrimGlobStarsStep(t);
      TrimGlobStarsUnique(stem, n - 1);
    }
  }

  /** One trailing globstar group is trimmed away. */
  lemma TrimGlobStarsStep(t: string)
    ensures TrimGlobStars(t + "/**") == TrimGlobStars(t)
  {
    var s := t + "/**";
    assert s[|s| - 3..] == "/**";
    assert s[..|s| - 3] == t;
  }

  lemma TrimGlobStarsIdempotent(s: string)
    ensures TrimGlobStars(TrimGlobStars(s)) == TrimGlobStars(s)
  {
    TrimGlobStarsRemovesRun(s);
  }

  /** The two branches of getNegativePatterns agree: a negative pattern loses its marker and its trailing run. */
  lemma StripNegativeIsTrim(pattern: string)
    requires IsNegativePattern(pattern)
    ensures StripNegative(pattern) == TrimGlobStars(pattern[1..])
  {
  }

  lemma StripNegativeExamples()
    ensures StripNegative("!**/.git/**") == "**/.git"
    ensures StripNegative("!a/**/**") == "a"
    ensures StripNegative("!**/*.txt") == "**/*.txt"
  {
    assert EndsWithGlobStar("!**/.git/**");
    assert ("**/.git/**")[..7] == "**/.git";
    assert !EndsWithGlobStar("**/.git");
    assert EndsWithGlobStar("!a/**/**");
    assert ("a/**/**")[..4] == "a/**";
    assert ("a/**")[..1] == "a";
    assert !EndsWithGlobStar("!**/*.txt");
  }

  /** getNegativePatterns against a reference: unmark every negative input, in order. */
  lemma {:induction false} NegativePatternsReference(patterns: seq<string>)
    ensures NegativePatterns(patterns) == Map(StripNegative, NegativeInputs(patterns))
  {
    if patterns != [] {
      var init, last := patterns[..|patterns| - 1], patterns[|patterns| - 1];
      NegativePatternsReference(init);
      MapAppend(StripNegative, NegativeInputs(init), if IsNegativePattern(last) then [last] else []);
    }
  }

  lemma {:induction false} NegativePatternsAppend(a: seq<string>, b: seq<string>)
    ensures NegativePatterns(a + b) == NegativePatterns(a) + NegativePatterns(b)
    decreases |b|
  {
    if b == [] {
      assert a + b == a;
    } else {
      var init, last := b[..|b| - 1], b[|b| - 1];
      NegativePatternsAppend(a, init);
      assert (a + b)[..|a + b| - 1] == a + init;
    }
  }

  lemma {:induction false} NegativePatternsOfPositive(patterns: seq<string>)
    requires forall p :: p in patterns ==> IsPositivePattern(p)
    ensures NegativePatterns(patterns) == []
  {
    if patterns != [] {
      assert patterns[|patterns| - 1] in patterns;
      NegativePatternsOfPositive(patterns[..|patterns| - 1]);
    }
  }

  /** Marking then unmarking: the marked patterns are all negative and unmark to the trimmed originals. */
  lemma MarkedRoundTrip(patterns: seq<string>)
    ensures GetPositivePatterns(GetPositivePatternsAsNegative(patterns)) == []
    ensures NegativePatterns(GetPositivePatternsAsNegative(patterns)) == Map(TrimGlobStars, patterns)
    ensures Map(SliceFrom1, GetPositivePatternsAsNegative(patterns)) == patterns
  {
    var marked := GetPositivePatternsAsNegative(patterns);
    forall x | x in marked ensures !IsPositivePattern(x) {
      var i :| 0 <= i < |marked| && marked[i] == x;
    }
    FilterNone(IsPositivePattern, marked);
    MarkedUnmark(patterns);
    MarkedStrip(patterns);
  }

  lemma MarkedUnmark(patterns: seq<string>)
    ensures Map(SliceFrom1, GetPositivePatternsAsNegative(patterns)) == patterns
  {
    var marked := GetPositivePatternsAsNegative(patterns);
    forall i | 0 <= i < |patterns| ensures Map(SliceFrom1, marked)[i] == patterns[i] {
      assert SliceFrom1(marked[i]) == marked[i][1..];
    }
  }

  lemma {:induction false} MarkedStrip(patterns: seq<string>)
    ensures NegativePatterns(GetPositivePatternsAsNegative(patterns)) == Map(TrimGlobStars, patterns)
  {
    if patterns != [] {
      var init, last := patterns[..|patterns| - 1], patterns[|patterns| - 1];
      var marked := GetPositivePatternsAsNegative(patterns);
      MarkedStrip(init);
      MapAppend(MarkNegative, init, [last]);
      MapAppend(TrimGlobStars, init, [last]);
      assert patterns == init + [last];
      assert marked[..|marked| - 1] == GetPositivePatternsAsNegative(init);
      assert marked[|marked| - 1] == "!" + last;
      assert StripNegative("!" + last) == TrimGlobStars(last) by {
        assert SliceFrom1("!" + last) == last;
      }
    }
  }

  // ---------------------------------------------------------------------------
  // Groups

  /** The patterns whose base directory is `base`, in input order. */
  function WithParent(patterns: seq<string>, parent: ParentFn, base: string): seq<string> {
    Filter(p => parent(p) == base, patterns)
  }

  /**
   * groupPatternsByParent: one key per distinct base directory, keys in order of
   * first appearance, each group the patterns with that base directory, in input order.
   */
  lemma {:induction false} GroupByParentSpec(patterns: seq<string>, parent: ParentFn)
    ensures GroupByParent(patterns, parent).inserted == Dedup(Map(parent, patterns))
    ensures forall k :: k in GroupByParent(patterns, parent).values ==>
      GroupByParent(patterns, parent).values[k] == WithParent(patterns, parent, k) != []
  {
    if patterns != [] {
      var init, last := patterns[..|patterns| - 1], patterns[|patterns| - 1];
      var before := GroupByParent(init, parent);
      var key := parent(last);
      GroupByParentSpec(init, parent);
      var parents := Map(parent, patterns);
      MapAppend(parent, init, [last]);
      assert patterns == init + [last];
      assert parents[..|parents| - 1] == Map(parent, init);
      assert key in Map(parent, init) <==> key in before.values;
      if key !in before.values {
        WithParentEmpty(init, parent, key);
      }
    }
  }

  lemma {:induction false} WithParentEmpty(patterns: seq<string>, parent: ParentFn, base: string)
    requires base !in Map(parent, patterns)
    ensures WithParent(patterns, parent, base) == []
  {
    if patterns != [] {
      var init := patterns[..|patterns| - 1];
      MapAppend(parent, init, [patterns[|patterns| - 1]]);
      assert patterns == init + [patterns[|patterns| - 1]];
      WithParentEmpty(init, parent, base);
    }
  }

  /** A base directory has a group exactly when some pattern has it. */
  lemma GroupKeys(patterns: seq<string>, parent: ParentFn, k: string)
    ensures k in GroupByParent(patterns, parent).values <==> exists p :: p in patterns && parent(p) == k
  {
    var g := GroupByParent(patterns, parent);
    GroupByParentSpec(patterns, parent);
    if k in g.values {
      assert g.values[k] != [];
      assert g.values[k][0] in WithParent(patterns, parent, k);
    }
  }

  // ---------------------------------------------------------------------------
  // Merging

  /** What the negative group keyed `key` contributes to the group `base`: its marked patterns when it applies, else nothing. */
  function Contribution(base: string, key: string, negative: Record): seq<string>
    requires key in negative.values
  {
    if AppliesTo(key, base) then GetPositivePatternsAsNegative(negative.values[key]) else []
  }

  /** The contributions of the negative keys, one per key, in key order. */
  function Contributions(base: string, keys: seq<string>, negative: Record): (r: seq<seq<string>>)
    requires forall k :: k in keys ==> k in negative.values
    ensures |r| == |keys|
    ensures forall j :: 0 <= j < |keys| ==> r[j] == Contribution(base, keys[j], negative)
  {
    seq(|keys|, j requires 0 <= j < |keys| => Contribution(base, keys[j], negative))
  }

  /** Merging the negative keys `a` and then `b` appends what `a` appends, then what `b` appends. */
  lemma {:induction false} AppendedAppend(base: string, a: seq<string>, b: seq<string>, negative: Record)
    requires forall k :: k in a + b ==> k in negative.values
    ensures Appended(base, a + b, negative) == Appended(base, a, negative) + Appended(base, b, negative)
    decreases |b|
  {
    if b == [] {
      assert a + b == a;
    } else {
      var init, last := b[..|b| - 1], b[|b| - 1];
      assert a + b == (a + init) + [last];
      assert b == init + [last];
      AppendedAppend(base, a, init, negative);
      AppendedSnoc(base, a + init, last, negative);
      AppendedSnoc(base, init, last, negative);
    }
  }

  /**
   * combineGroupByParent appends, in negative-key order, each applicable negative
   * group's marked patterns exactly once (also when both the group and the negative
   * key are `.`): the appended list is the concatenation of the per-key contributions.
   */
  lemma {:induction false} AppendedInKeyOrder(base: string, keys: seq<string>, negative: Record)
    requires forall k :: k in keys ==> k in negative.values
    ensures Appended(base, keys, negative) == Flatten(Contributions(base, keys, negative))
    ensures |Appended(base, keys, negative)| == TotalLength(Contributions(base, keys, negative))
  {
    AppendedFlatten(base, keys, negative);
    FlattenLength(Contributions(base, keys, negative));
  }

  /** Key `keys[j]`'s contribution sits between what the keys before it and after it append. */
  lemma {:induction false} AppendedAroundKey(base: string, keys: seq<string>, negative: Record, j: int)
    requires forall k :: k in keys ==> k in negative.values
    requires 0 <= j < |keys|
    ensures Appended(base, keys, negative)
      == Appended(base, keys[..j], negative) + Contribution(base, keys[j], negative) + Appended(base, keys[j + 1..], negative)
  {
    assert keys == (keys[..j] + [keys[j]]) + keys[j + 1..];
    AppendedAppend(base, keys[..j] + [keys[j]], keys[j + 1..], negative);
    AppendedSnoc(base, keys[..j], keys[j], negative);
  }

  lemma {:induction false} AppendedFlatten(base: string, keys: seq<string>, negative: Record)
    requires forall k :: k in keys ==> k in negative.values
    ensures Appended(base, keys, negative) == Flatten(Contributions(base, keys, negative))
  {
    if keys != [] {
      var init := keys[..|keys| - 1];
      AppendedFlatten(base, init, negative);
      assert Contributions(base, keys, negative)[..|keys| - 1] == Contributions(base, init, negative);
    }
  }

  /** What the merge appends to the group `base`: the marked patterns of every negative group that applies. */
  lemma {:induction false} AppendedMembers(base: string, negativeKeys: seq<string>, negative: Record, x: string)
    requires forall k :: k in negativeKeys ==> k in negative.values
    ensures x in Appended(base, negativeKeys, negative) ==> IsNegativePattern(x)
    ensures x in Appended(base, negativeKeys, negative) <==>
      exists k :: k in negativeKeys && AppliesTo(k, base) && x in Map(MarkNegative, negative.values[k])
    ensures x in NegativePatterns(Appended(base, negativeKeys, negative)) <==>
      exists k :: k in negativeKeys && AppliesTo(k, base) && x in Map(TrimGlobStars, negative.values[k])
  {
    if negativeKeys != [] {
      var init, last := negativeKeys[..|negativeKeys| - 1], negativeKeys[|negativeKeys| - 1];
      assert forall k :: k in negativeKeys <==> k in init || k == last by {
        assert negativeKeys == init + [last];
      }
      AppendedMembers(base, init, negative, x);
      var extra := if AppliesTo(last, base) then GetPositivePatternsAsNegative(negative.values[last]) else [];
      NegativePatternsAppend(Appended(base, init, negative), extra);
      MarkedRoundTrip(negative.values[last]);
      if x in extra {
        var i :| 0 <= i < |extra| && extra[i] == x;
        assert x == MarkNegative(negative.values[last][i]);
      }
    }
  }

  // ---------------------------------------------------------------------------
  // Tasks

  /** buildTasksFromGroups: task `i` is built from the `i`-th key and its group. */
  lemma {:induction false} TasksForSpec(keys: seq<string>, groups: Record)
    requires forall k :: k in keys ==> k in groups.values
    ensures |TasksFor(keys, groups)| == |keys|
    ensures forall i :: 0 <= i < |keys| ==> TasksFor(keys, groups)[i] == MakeTask(keys[i], groups.values[keys[i]])
  {
    if keys != [] {
      var init := keys[..|keys| - 1];
      TasksForSpec(init, groups);
      var last := MakeTask(keys[|keys| - 1], groups.values[keys[|keys| - 1]]);
      assert TasksFor(keys, groups) == TasksFor(init, groups) + [last];
      forall i | 0 <= i < |keys|
        ensures TasksFor(keys, groups)[i] == MakeTask(keys[i], groups.values[keys[i]])
      {
        if i < |init| {
          assert keys[i] == init[i];
        }
      }
    }
  }

  /** A group made of positive patterns followed by negative ones splits back into the two. */
  lemma TaskOfGroup(base: string, positive: seq<string>, appended: seq<string>)
    requires forall p :: p in positive ==> IsPositivePattern(p)
    requires forall x :: x in appended ==> IsNegativePattern(x)
    ensures MakeTask(base, positive + appended).positive == positive
    ensures MakeTask(base, positive + appended).negative == NegativePatterns(appended)
  {
    FilterAppend(IsPositivePattern, positive, appended);
    FilterAll(IsPositivePattern, positive);
    FilterNone(IsPositivePattern, appended);
    NegativePatternsAppend(positive, appended);
    NegativePatternsOfPositive(positive);
  }

  function TaskBase(task: Task): string {
    task.base
  }

  /** `x` is `form(y)` for a negative pattern (or ignore entry) `y` whose base directory applies to `base`. */
  ghost predicate FromApplicable(x: string, negative: seq<string>, parent: ParentFn, base: string, form: string -> string) {
    exists y :: y in negative && AppliesTo(parent(y), base) && x == form(y)
  }

  /** `x` is `form(y)` for a pattern `y` of a negative group whose key applies to `base`. */
  ghost predicate FromApplicableGroup(x: string, groups: Record, base: string, form: string -> string)
    requires groups.Valid()
  {
    exists k :: k in groups.Keys() && AppliesTo(k, base) && x in Map(form, groups.values[k])
  }

  lemma GroupedToPattern(negative: seq<string>, parent: ParentFn, base: string, x: string, form: string -> string)
    requires FromApplicableGroup(x, GroupByParent(negative, parent), base, form)
    ensures FromApplicable(x, negative, parent, base, form)
  {
    var groups := GroupByParent(negative, parent);
    GroupByParentSpec(negative, parent);
    var k :| k in groups.Keys() && AppliesTo(k, base) && x in Map(form, groups.values[k]);
    var j :| 0 <= j < |groups.values[k]| && Map(form, groups.values[k])[j] == x;
    assert groups.values[k][j] in WithParent(negative, parent, k);
  }

  lemma PatternToGrouped(negative: seq<string>, parent: ParentFn, base: string, x: string, form: string -> string)
    requires FromApplicable(x, negative, parent, base, form)
    ensures FromApplicableGroup(x, GroupByParent(negative, parent), base, form)
  {
    var groups := GroupByParent(negative, parent);
    var y :| y in negative && AppliesTo(parent(y), base) && x == form(y);
    GroupKeys(negative, parent, parent(y));
    GroupByParentSpec(negative, parent);
    var group := groups.values[parent(y)];
    assert y in WithParent(negative, parent, parent(y));
    var j :| 0 <= j < |group| && group[j] == y;
    assert Map(form, group)[j] == x;
  }

  /** The groups generateTasks builds tasks from, with the facts about them that every task relies on. */
  lemma PlannedGroups(patterns: seq<string>, ignore: seq<string>, parent: ParentFn)
    ensures var positive := GroupByParent(GetPositivePatterns(patterns), parent);
      var negative := GroupByParent(NegativePatterns(patterns) + ignore, parent);
      var groups := CombineByParent(positive, negative);
      && PlanTasks(patterns, ignore, parent) == TasksFor(groups.Keys(), groups)
      && groups.Keys() == ObjectKeys(Dedup(Map(parent, GetPositivePatterns(patterns))))
      && |PlanTasks(patterns, ignore, parent)| == |groups.Keys()|
      && forall i :: 0 <= i < |groups.Keys()| ==>
        PlanTasks(patterns, ignore, parent)[i] == MakeTask(groups.Keys()[i], groups.values[groups.Keys()[i]])
  {
    var positive := GroupByParent(GetPositivePatterns(patterns), parent);
    var negative := GroupByParent(NegativePatterns(patterns) + ignore, parent);
    var groups := CombineByParent(positive, negative);
    GroupByParentSpec(GetPositivePatterns(patterns), parent);
    TasksForSpec(groups.Keys(), groups);
  }

  /** The task of one group: its own positive patterns, then whatever the negative groups contribute. */
  lemma GroupTaskContents(base: string, own: seq<string>, negatives: seq<string>, parent: ParentFn)
    requires forall p :: p in own ==> IsPositivePattern(p)
    ensures var negative := GroupByParent(negatives, parent);
      var task := MakeTask(base, own + Appended(base, negative.Keys(), negative));
      && task.positive == own
      && own <= task.patterns
      && (forall x :: x in task.patterns[|own|..] <==> FromApplicable(x, negatives, parent, base, MarkNegative))
      && (forall x :: x in task.negative <==> FromApplicable(x, negatives, parent, base, TrimGlobStars))
  {
    var negative := GroupByParent(negatives, parent);
    var appended := Appended(base, negative.Keys(), negative);
    var task := MakeTask(base, own + appended);
    forall x | x in appended ensures IsNegativePattern(x) {
      AppendedMembers(base, negative.Keys(), negative, x);
    }
    TaskOfGroup(base, own, appended);
    assert task.patterns[|own|..] == appended;
    forall x ensures x in appended <==> FromApplicable(x, negatives, parent, base, MarkNegative) {
      AppendedMembers(base, negative.Keys(), negative, x);
      if x in appended {
        GroupedToPattern(negatives, parent, base, x, MarkNegative);
      } else if FromApplicable(x, negatives, parent, base, MarkNegative) {
        PatternToGrouped(negatives, parent, base, x, MarkNegative);
      }
    }
    forall x ensures x in task.negative <==> FromApplicable(x, negatives, parent, base, TrimGlobStars) {
      AppendedMembers(base, negative.Keys(), negative, x);
      if x in task.negative {
        GroupedToPattern(negatives, parent, base, x, TrimGlobStars);
      } else if FromApplicable(x, negatives, parent, base, TrimGlobStars) {
        PatternToGrouped(negatives, parent, base, x, TrimGlobStars);
      }
    }
  }

  /**
   * Every planned task: its positive patterns are exactly the caller's positive
   * patterns with its base directory, in order; its pattern list is those followed
   * by the marked negative patterns and ignore entries that apply to it (those
   * with the same base directory, and those with base directory "."); its negative
   * list holds exactly their unmarked, trimmed forms.
   */
  lemma PlanTaskContents(patterns: seq<string>, ignore: seq<string>, parent: ParentFn, i: nat)
    requires i < |PlanTasks(patterns, ignore, parent)|
    ensures var task := PlanTasks(patterns, ignore, parent)[i];
      var negative := NegativePatterns(patterns) + ignore;
      && task.positive == WithParent(GetPositivePatterns(patterns), parent, task.base) != []
      && task.positive <= task.patterns
      && (forall x :: x in task.patterns[|task.positive|..] <==> FromApplicable(x, negative, parent, task.base, MarkNegative))
      && (forall x :: x in task.negative <==> FromApplicable(x, negative, parent, task.base, TrimGlobStars))
  {
    var positives := GetPositivePatterns(patterns);
    var negatives := NegativePatterns(patterns) + ignore;
    var positive := GroupByParent(positives, parent);
    var negative := GroupByParent(negatives, parent);
    var groups := CombineByParent(positive, negative);
    PlannedGroups(patterns, ignore, parent);
    GroupByParentSpec(positives, parent);
    var base := groups.Keys()[i];
    var own := positive.values[base];
    assert PlanTasks(patterns, ignore, parent)[i] == MakeTask(base, own + Appended(base, negative.Keys(), negative));
    GroupTaskContents(base, own, negatives, parent);
  }

  lemma PlanTaskBaseKeys(patterns: seq<string>, ignore: seq<string>, parent: ParentFn)
    ensures Map(TaskBase, PlanTasks(patterns, ignore, parent)) == ObjectKeys(Dedup(Map(parent, GetPositivePatterns(patterns))))
  {
    PlannedGroups(patterns, ignore, parent);
  }

  /**
   * One task per distinct base directory of the positive patterns, in the order
   * Object.keys gives them: no positive pattern, no task.
   */
  lemma PlanTaskBases(patterns: seq<string>, ignore: seq<string>, parent: ParentFn)
    ensures var bases := Map(TaskBase, PlanTasks(patterns, ignore, parent));
      var positives := GetPositivePatterns(patterns);
      && bases == ObjectKeys(Dedup(Map(parent, positives)))
      && Distinct(bases)
      && (forall b :: b in bases <==> exists p :: p in positives && parent(p) == b)
      && (PlanTasks(patterns, ignore, parent) == [] <==> positives == [])
  {
    var positives := GetPositivePatterns(patterns);
    var bases := Map(TaskBase, PlanTasks(patterns, ignore, parent));
    PlanTaskBaseKeys(patterns, ignore, parent);
    forall b ensures b in bases <==> exists p :: p in positives && parent(p) == b {
      MapMembers(parent, positives, b);
    }
    if positives != [] {
      MapMembers(parent, positives, parent(positives[0]));
    }
  }

  /** When no base directory looks like an array index, tasks follow the first appearance of their base directory. */
  lemma PlanTaskOrder(patterns: seq<string>, ignore: seq<string>, parent: ParentFn)
    requires forall p :: p in GetPositivePatterns(patterns) ==> !IsIndexKey(parent(p))
    ensures Map(TaskBase, PlanTasks(patterns, ignore, parent)) == Dedup(Map(parent, GetPositivePatterns(patterns)))
  {
    var positives := GetPositivePatterns(patterns);
    PlanTaskBases(patterns, ignore, parent);
    forall k | k in Dedup(Map(parent, positives)) ensures !IsIndexKey(k) {
      var j :| 0 <= j < |positives| && Map(parent, positives)[j] == k;
      assert positives[j] in positives;
    }
    ObjectKeysWithoutIndices(Dedup(Map(parent, positives)));
  }

  // ---------------------------------------------------------------------------
  // Scenarios

  lemma PrependTo2(x: string, y: string, z: string)
    ensures [x] + [y, z] == [x, y, z]
  {
  }

  lemma PrependTo3(w: string, x: string, y: string, z: string)
    ensures [w] + [x, y, z] == [w, x, y, z]
  {
  }

  lemma CombineValue(positive: Record, negative: Record, key: string)
    requires positive.Valid() && negative.Valid() && key in positive.values
    ensures CombineByParent(positive, negative).values[key] == positive.values[key] + Appended(key, negative.Keys(), negative)
  {
  }

  lemma GroupByParentSnoc(patterns: seq<string>, pattern: string, parent: ParentFn)
    ensures var groups := GroupByParent(patterns, parent);
      var key := parent(pattern);
      GroupByParent(patterns + [pattern], parent)
        == groups.Put(key, if key in groups.values then groups.values[key] + [pattern] else [pattern])
  {
    assert (patterns + [pattern])[..|patterns|] == patterns;
  }

  lemma AppendedSnoc(base: string, keys: seq<string>, key: string, negative: Record)
    requires forall k :: k in keys + [key] ==> k in negative.values
    ensures Appended(base, keys + [key], negative) == Appended(base, keys, negative)
      + (if AppliesTo(key, base) then GetPositivePatternsAsNegative(negative.values[key]) else [])
  {
    assert (keys + [key])[..|keys|] == keys;
  }

  lemma NegativePatternsSnoc(patterns: seq<string>, pattern: string)
    ensures NegativePatterns(patterns + [pattern])
      == NegativePatterns(patterns) + (if IsNegativePattern(pattern) then [StripNegative(pattern)] else [])
  {
    assert (patterns + [pattern])[..|patterns|] == patterns;
  }

  /**
   * The shape of the "two tasks" case: positive patterns `a` and `b` under two
   * base directories, a negative pattern `!t` under ".", a negative pattern `!m`
   * under b's directory and an ignore entry `j` under ".". The "." patterns
   * apply to both tasks, `m` only to the second.
   */
  predicate TwoTasksShape(a: string, b: string, t: string, m: string, j: string, parent: ParentFn) {
    && IsPositivePattern(a) && IsPositivePattern(b)
    && parent(a) != parent(b) && parent(a) != "." && parent(b) != "."
    && !IsIndexKey(parent(a)) && !IsIndexKey(parent(b))
    && parent(t) == "." && parent(j) == "." && parent(m) == parent(b)
    && !EndsWithGlobStar(t) && !EndsWithGlobStar(m) && !EndsWithGlobStar(j)
  }

  lemma MarkedSnoc(prefix: seq<string>, y: string)
    requires !EndsWithGlobStar(y)
    ensures GetPositivePatterns(prefix + [MarkNegative(y)]) == GetPositivePatterns(prefix)
    ensures NegativePatterns(prefix + [MarkNegative(y)]) == NegativePatterns(prefix) + [y]
  {
    assert MarkNegative(y)[1..] == y;
    FilterSnoc(IsPositivePattern, prefix, MarkNegative(y));
    StripNegativeIsTrim(MarkNegative(y));
    NegativePatternsSnoc(prefix, MarkNegative(y));
  }

  lemma PositivePair(a: string, b: string)
    requires IsPositivePattern(a) && IsPositivePattern(b)
    ensures GetPositivePatterns([a, b]) == [a, b]
    ensures NegativePatterns([a, b]) == []
  {
    assert [a] == [] + [a];
    assert [a, b] == [a] + [b];
    FilterSnoc(IsPositivePattern, [], a);
    FilterSnoc(IsPositivePattern, [a], b);
    NegativePatternsSnoc([], a);
    NegativePatternsSnoc([a], b);
  }

  lemma TwoTasksSplit(a: string, b: string, t: string, m: string)
    requires IsPositivePattern(a) && IsPositivePattern(b)
    requires !EndsWithGlobStar(t) && !EndsWithGlobStar(m)
    ensures GetPositivePatterns([a, b, MarkNegative(t), MarkNegative(m)]) == [a, b]
    ensures NegativePatterns([a, b, MarkNegative(t), MarkNegative(m)]) == [t, m]
  {
    var p3 := [a, b] + [MarkNegative(t)];
    assert [a, b, MarkNegative(t), MarkNegative(m)] == p3 + [MarkNegative(m)];
    PositivePair(a, b);
    MarkedSnoc([a, b], t);
    MarkedSnoc(p3, m);
    assert [] + [t] + [m] == [t, m];
  }

  lemma TwoTasksPositiveGroups(a: string, b: string, parent: ParentFn)
    requires parent(a) != parent(b)
    ensures GroupByParent([a, b], parent) == Record([parent(a), parent(b)], map[parent(a) := [a], parent(b) := [b]])
  {
    GroupByParentSnoc([], a, parent);
    assert [a] == [] + [a];
    assert GroupByParent([a], parent) == Record([parent(a)], map[parent(a) := [a]]);
    assert [a, b] == [a] + [b];
    GroupByParentSnoc([a], b, parent);
  }

  lemma TwoTasksNegativeGroups(t: string, m: string, j: string, parent: ParentFn)
    requires parent(t) == "." && parent(j) == "." && parent(m) != "."
    ensures GroupByParent([t, m, j], parent) == Record([".", parent(m)], map["." := [t, j], parent(m) := [m]])
  {
    TwoTasksPositiveGroups(t, m, parent);
    assert [t, m, j] == [t, m] + [j];
    GroupByParentSnoc([t, m], j, parent);
    AddToDotGroup(t, m, j, parent(m));
  }

  lemma AddToDotGroup(t: string, m: string, j: string, own: string)
    requires own != "."
    ensures var two := Record([".", own], map["." := [t], own := [m]]);
      two.Put(".", two.values["."] + [j]) == Record([".", own], map["." := [t, j], own := [m]])
  {
    var two := Record([".", own], map["." := [t], own := [m]]);
    assert two.values["."] + [j] == [t, j];
    assert two.values["." := [t, j]] == map["." := [t, j], own := [m]];
  }

  lemma TwoTasksNegativeKeys(negative: Record, own: string)
    requires negative.inserted == [".", own] && !IsIndexKey(own)
    ensures negative.Keys() == [".", own]
  {
    assert !IsIndexKey(".") by {
      assert !IsDigit(".."[0]);
    }
    ObjectKeysWithoutIndices([".", own]);
  }

  lemma TwoTasksAppended(negative: Record, first: string, second: string, t: string, m: string, j: string)
    requires negative == Record([".", second], map["." := [t, j], second := [m]])
    requires first != second && first != "." && second != "."
    ensures Appended(first, [".", second], negative) == [MarkNegative(t), MarkNegative(j)]
    ensures Appended(second, [".", second], negative) == [MarkNegative(t), MarkNegative(j), MarkNegative(m)]
  {
    assert [".", second] == ["."] + [second];
    assert ["."] == [] + ["."];
    var dot, own := GetPositivePatternsAsNegative([t, j]), GetPositivePatternsAsNegative([m]);
    assert dot == [MarkNegative(t), MarkNegative(j)];
    assert own == [MarkNegative(m)];
    AppendedSnoc(first, [], ".", negative);
    AppendedSnoc(first, ["."], second, negative);
    AppendedSnoc(second, [], ".", negative);
    AppendedSnoc(second, ["."], second, negative);
  }

  lemma TwoTasksCombinedFirst(positive: Record, negative: Record, a: string, b: string, t: string, m: string, j: string, first: string, second: string)
    requires positive == Record([first, second], map[first := [a], second := [b]])
    requires negative == Record([".", second], map["." := [t, j], second := [m]])
    requires first != second && first != "." && second != "." && !IsIndexKey(second)
    requires positive.Valid() && negative.Valid()
    ensures CombineByParent(positive, negative).values[first] == [a, MarkNegative(t), MarkNegative(j)]
  {
    TwoTasksNegativeKeys(negative, second);
    TwoTasksAppended(negative, first, second, t, m, j);
    CombineValue(positive, negative, first);
    PrependTo2(a, MarkNegative(t), MarkNegative(j));
  }


  lemma TwoTasksCombinedSecond(positive: Record, negative: Record, a: string, b: string, t: string, m: string, j: string, first: string, second: string)
    requires positive == Record([first, second], map[first := [a], second := [b]])
    requires negative == Record([".", second], map["." := [t, j], second := [m]])
    requires first != second && first != "." && second != "." && !IsIndexKey(second)
    requires positive.Valid() && negative.Valid()
    ensures CombineByParent(positive, negative).values[second] == [b, MarkNegative(t), MarkNegative(j), MarkNegative(m)]
  {
    TwoTasksNegativeKeys(negative, second);
    TwoTasksAppended(negative, first, second, t, m, j);
    CombineValue(positive, negative, second);
    PrependTo3(b, MarkNegative(t), MarkNegative(j), MarkNegative(m));
  }


  lemma TwoElements<T>(s: seq<T>, x: T, y: T)
    requires |s| == 2 && s[0] == x && s[1] == y
    ensures s == [x, y]
  {
  }

  /** The task of a group made of one positive pattern and the marked forms of `negatives`. */
  lemma MakeTaskMarked(base: string, pattern: string, negatives: seq<string>)
    requires IsPositivePattern(pattern)
    requires forall y :: y in negatives ==> !EndsWithGlobStar(y)
    ensures var patterns := [pattern] + GetPositivePatternsAsNegative(negatives);
      MakeTask(base, patterns) == Task(base, patterns, [pattern], negatives)
  {
    var marked := GetPositivePatternsAsNegative(negatives);
    MarkedRoundTrip(negatives);
    forall x | x in marked ensures IsNegativePattern(x) {
      var i :| 0 <= i < |marked| && marked[i] == x;
    }
    TaskOfGroup(base, [pattern], marked);
    assert Map(TrimGlobStars, negatives) == negatives;
  }

  lemma BuildTwoTasks(groups: Record, first: string, second: string)
    requires groups.Valid() && groups.inserted == [first, second]
    requires !IsIndexKey(first) && !IsIndexKey(second)
    ensures BuildTasks(groups) == [MakeTask(first, groups.values[first]), MakeTask(second, groups.values[second])]
  {
    ObjectKeysWithoutIndices([first, second]);
    TasksForSpec(groups.Keys(), groups);
    var tasks := BuildTasks(groups);
    TwoElements(tasks, tasks[0], tasks[1]);
  }

  lemma TaskOfTwoMarked(base: string, a: string, t: string, j: string)
    requires IsPositivePattern(a)
    requires !EndsWithGlobStar(t) && !EndsWithGlobStar(j)
    ensures MakeTask(base, [a, MarkNegative(t), MarkNegative(j)])
         == Task(base, [a, MarkNegative(t), MarkNegative(j)], [a], [t, j])
  {
    assert GetPositivePatternsAsNegative([t, j]) == [MarkNegative(t), MarkNegative(j)];
    PrependTo2(a, MarkNegative(t), MarkNegative(j));
    MakeTaskMarked(base, a, [t, j]);
  }

  lemma TaskOfThreeMarked(base: string, b: string, t: string, j: string, m: string)
    requires IsPositivePattern(b)
    requires !EndsWithGlobStar(t) && !EndsWithGlobStar(j) && !EndsWithGlobStar(m)
    ensures MakeTask(base, [b, MarkNegative(t), MarkNegative(j), MarkNegative(m)])
         == Task(base, [b, MarkNegative(t), MarkNegative(j), MarkNegative(m)], [b], [t, j, m])
  {
    assert GetPositivePatternsAsNegative([t, j, m]) == [MarkNegative(t), MarkNegative(j), MarkNegative(m)];
    PrependTo3(b, MarkNegative(t), MarkNegative(j), MarkNegative(m));
    MakeTaskMarked(base, b, [t, j, m]);
  }

  lemma TwoTasksBuild(combined: Record, a: string, b: string, t: string, m: string, j: string, first: string, second: string)
    requires combined.Valid() && combined.inserted == [first, second]
    requires !IsIndexKey(first) && !IsIndexKey(second)
    requires IsPositivePattern(a) && IsPositivePattern(b)
    requires !EndsWithGlobStar(t) && !EndsWithGlobStar(m) && !EndsWithGlobStar(j)
    requires combined.values[first] == [a, MarkNegative(t), MarkNegative(j)]
    requires combined.values[second] == [b, MarkNegative(t), MarkNegative(j), MarkNegative(m)]
    ensures BuildTasks(combined) == [
      Task(first, [a, MarkNegative(t), MarkNegative(j)], [a], [t, j]),
      Task(second, [b, MarkNegative(t), MarkNegative(j), MarkNegative(m)], [b], [t, j, m])]
  {
    BuildTwoTasks(combined, first, second);
    TaskOfTwoMarked(first, a, t, j);
    TaskOfThreeMarked(second, b, t, j, m);
  }

  /** The two-task case end to end: group order, pattern lists, positive and negative lists. */
  lemma TwoTasksPlan(a: string, b: string, t: string, m: string, j: string, parent: ParentFn)
    requires TwoTasksShape(a, b, t, m, j, parent)
    ensures PlanTasks([a, b, MarkNegative(t), MarkNegative(m)], [j], parent) == [
      Task(parent(a), [a, MarkNegative(t), MarkNegative(j)], [a], [t, j]),
      Task(parent(b), [b, MarkNegative(t), MarkNegative(j), MarkNegative(m)], [b], [t, j, m])]
  {
    var positive := GroupByParent([a, b], parent);
    var negative := GroupByParent([t, m, j], parent);
    var combined := CombineByParent(positive, negative);
    assert PlanTasks([a, b, MarkNegative(t), MarkNegative(m)], [j], parent) == BuildTasks(combined) by {
      TwoTasksSplit(a, b, t, m);
      assert [t, m] + [j] == [t, m, j];
    }
    TwoTasksPositiveGroups(a, b, parent);
    TwoTasksNegativeGroups(t, m, j, parent);
    TwoTasksCombinedFirst(positive, negative, a, b, t, m, j, parent(a), parent(b));
    TwoTasksCombinedSecond(positive, negative, a, b, t, m, j, parent(a), parent(b));
    TwoTasksBuild(combined, a, b, t, m, j, parent(a), parent(b));
  }

  /** glob-parent on the patterns of the test suite: a pattern "x/..." has base "x", the others ".". */
  function ScenarioParent(pattern: string): (base: string)
    ensures base == "." || (|pattern| > 0 && base == pattern[..1])
  {
    if |pattern| >= 2 && pattern[1] == '/' && pattern[0] != '*' then [pattern[0]] else "."
  }

  lemma ScenarioShape()
    ensures TwoTasksShape("a/**/*", "b/**/*", "**/*.txt", "b/**/*.md", "**/*.js", ScenarioParent)
  {
    assert ScenarioParent("a/**/*") == "a" && ScenarioParent("b/**/*") == "b";
    assert ScenarioParent("**/*.txt") == "." && ScenarioParent("**/*.js") == "." && ScenarioParent("b/**/*.md") == "b";
    assert !IsDigit("a"[0]) && !IsDigit("b"[0]);
  }

  /** The "two tasks" case with the patterns of the planner's own test suite. */
  lemma TwoTasksExample()
    ensures PlanTasks(["a/**/*", "b/**/*", "!**/*.txt", "!b/**/*.md"], ["**/*.js"], ScenarioParent) == [
      Task("a", ["a/**/*", "!**/*.txt", "!**/*.js"], ["a/**/*"], ["**/*.txt", "**/*.js"]),
      Task("b", ["b/**/*", "!**/*.txt", "!**/*.js", "!b/**/*.md"], ["b/**/*"], ["**/*.txt", "**/*.js", "b/**/*.md"])]
  {
    ScenarioShape();
    assert MarkNegative("**/*.txt") == "!**/*.txt" && MarkNegative("b/**/*.md") == "!b/**/*.md";
    assert MarkNegative("**/*.js") == "!**/*.js";
    TwoTasksPlan("a/**/*", "b/**/*", "**/*.txt", "b/**/*.md", "**/*.js", ScenarioParent);
  }
}
