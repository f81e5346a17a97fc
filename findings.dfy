/**
 * groupPatternsByParent (src/managers/task.ts:80-97) reads `groups[parent]` on a plain
 * object literal, so the lookup also sees the members every object inherits from
 * Object.prototype. A base directory spelled like one of them ("constructor",
 * "__proto__", ...) finds the inherited member instead of nothing: the pattern is
 * not put in a group of its own. The model of the planner (TaskManager) keeps
 * groups as own keys only; this module models the lookup as written and shows the
 * pattern that is lost.
 */
module Findings {
  import opened Types
  import opened Seqs
  import opened TaskManager

  /** The names every plain object inherits from Object.prototype. */
  const PrototypeMembers: set<string> := {
    "constructor", "__proto__", "hasOwnProperty", "isPrototypeOf", "propertyIsEnumerable",
    "toLocaleString", "toString", "valueOf",
    "__defineGetter__", "__defineSetter__", "__lookupGetter__", "__lookupSetter__"}

  /** What a key of the groups object holds: a list of patterns, or an inherited member (a function or the prototype). */
  datatype Slot = Patterns(patterns: seq<string>) | Inherited

  /** The groups object as written: its own keys in insertion order and their values. */
  datatype JsGroups = JsGroups(inserted: seq<string>, own: map<string, Slot>)

  /** `groups[key]`: the own value, else the inherited member, else undefined. */
  function Lookup(groups: JsGroups, key: string): (r: Option<Slot>)
    ensures key in groups.own ==> r == Some(groups.own[key])
    ensures key !in groups.own && key in PrototypeMembers ==> r == Some(Inherited)
    ensures key !in groups.own && key !in PrototypeMembers ==> r == None
  {
    if key in groups.own then Some(groups.own[key])
    else if key in PrototypeMembers then Some(Inherited)
    else None
  }

  /**
   * One step of the forEach as written. An inherited member is truthy, so it is kept
   * instead of a fresh list; it is not an own property, so nothing is pushed; then
   * it is assigned back (assigning to "__proto__" sets the prototype and creates no
   * key). Pushing onto an inherited member that became an own key throws.
   */
  function GroupStepAsWritten(groups: JsGroups, pattern: string, parent: ParentFn): (r: Result<JsGroups, string>)
    ensures r.Failure? <==> parent(pattern) in groups.own && groups.own[parent(pattern)].Inherited?
    ensures parent(pattern) in groups.own && groups.own[parent(pattern)].Patterns? ==>
      r == Success(JsGroups(groups.inserted,
        groups.own[parent(pattern) := Patterns(groups.own[parent(pattern)].patterns + [pattern])]))
    ensures parent(pattern) !in groups.own && parent(pattern) == "__proto__" ==> r == Success(groups)
    ensures parent(pattern) !in groups.own && parent(pattern) != "__proto__" ==>
      && r.Success? && r.value.inserted == groups.inserted + [parent(pattern)]
      && r.value.own == groups.own[parent(pattern) := if parent(pattern) in PrototypeMembers then Inherited else Patterns([pattern])]
  {
    var key := parent(pattern);
    var slot := match Lookup(groups, key) case Some(s) => s case None => Patterns([pattern]);
    if key in groups.own then
      match slot
      case Inherited => Failure("push is not a function")
      case Patterns(ps) => Success(JsGroups(groups.inserted, groups.own[key := Patterns(ps + [pattern])]))
    else if key == "__proto__" then Success(groups)
    else Success(JsGroups(groups.inserted + [key], groups.own[key := slot]))
  }

  /**
   * groupPatternsByParent as written. When it does not throw, the own keys are the
   * inserted ones, only a key named like an Object.prototype member can hold an
   * inherited member, and every pattern whose base directory is named like none of
   * them is in a group.
   */
  function GroupAsWritten(patterns: seq<string>, parent: ParentFn): (r: Result<JsGroups, string>)
    ensures r.Success? ==> forall k :: k in r.value.own <==> k in r.value.inserted
    ensures r.Success? ==> forall k :: k in r.value.own && r.value.own[k].Inherited? ==> k in PrototypeMembers
    ensures r.Success? ==> forall i :: 0 <= i < |patterns| && parent(patterns[i]) !in PrototypeMembers ==> Grouped(r.value, patterns[i])
  {
    if patterns == [] then Success(JsGroups([], map[]))
    else
      match GroupAsWritten(patterns[..|patterns| - 1], parent)
      case Failure(e) => Failure(e)
      case Success(groups) =>
        assert patterns == patterns[..|patterns| - 1] + [patterns[|patterns| - 1]];
        GroupStepKeeps(groups, patterns[..|patterns| - 1], patterns[|patterns| - 1], parent);
        GroupStepAsWritten(groups, patterns[|patterns| - 1], parent)
  }

  /** The facts GroupAsWritten promises about its groups. */
  ghost predicate WellGrouped(groups: JsGroups, patterns: seq<string>, parent: ParentFn) {
    && (forall k :: k in groups.own <==> k in groups.inserted)
    && (forall k :: k in groups.own && groups.own[k].Inherited? ==> k in PrototypeMembers)
    && (forall i :: 0 <= i < |patterns| && parent(patterns[i]) !in PrototypeMembers ==> Grouped(groups, patterns[i]))
  }

  /** One step as written keeps the groups well-formed and groups the new pattern when its base is ordinary. */
  lemma GroupStepKeeps(groups: JsGroups, done: seq<string>, pattern: string, parent: ParentFn)
    requires WellGrouped(groups, done, parent)
    ensures GroupStepAsWritten(groups, pattern, parent).Success? ==>
      WellGrouped(GroupStepAsWritten(groups, pattern, parent).value, done + [pattern], parent)
  {
    var r := GroupStepAsWritten(groups, pattern, parent);
    if r.Success? {
      var key, after := parent(pattern), r.value;
      var all := done + [pattern];
      forall k | k in groups.own && groups.own[k].Patterns?
        ensures k in after.own && after.own[k].Patterns? && groups.own[k].patterns <= after.own[k].patterns
      {
      }
      forall i | 0 <= i < |all| && parent(all[i]) !in PrototypeMembers
        ensures Grouped(after, all[i])
      {
        if i < |done| {
          assert all[i] == done[i];
          var k :| k in groups.own && groups.own[k].Patterns? && done[i] in groups.own[k].patterns;
          assert done[i] in after.own[k].patterns;
        } else {
          assert all[i] == pattern;
          assert key in after.own && after.own[key].Patterns? && pattern in after.own[key].patterns;
        }
      }
    }
  }

  /** A pattern is in the groups when some own key holds a list containing it. */
  predicate Grouped(groups: JsGroups, pattern: string) {
    exists k :: k in groups.own && groups.own[k].Patterns? && pattern in groups.own[k].patterns
  }

  /**
   * As written: a lone pattern whose base directory is "constructor" ends up in no
   * group; its key holds the inherited Object function instead of a list.
   */
  lemma ConstructorPatternLost(pattern: string, parent: ParentFn)
    requires parent(pattern) == "constructor"
    ensures GroupAsWritten([pattern], parent) == Success(JsGroups(["constructor"], map["constructor" := Inherited]))
    ensures !Grouped(GroupAsWritten([pattern], parent).value, pattern)
  {
    assert [pattern][..0] == [];
    var empty := JsGroups([], map[]);
    assert "constructor" in PrototypeMembers;
    assert Lookup(empty, "constructor") == Some(Inherited);
    assert empty.inserted + ["constructor"] == ["constructor"];
    assert empty.own["constructor" := Inherited] == map["constructor" := Inherited];
    assert GroupStepAsWritten(empty, pattern, parent) == Success(JsGroups(["constructor"], map["constructor" := Inherited]));
  }

  /** As written: a lone pattern whose base directory is "__proto__" leaves the groups empty, so no task is built. */
  lemma ProtoPatternLost(pattern: string, parent: ParentFn)
    requires parent(pattern) == "__proto__"
    ensures GroupAsWritten([pattern], parent) == Success(JsGroups([], map[]))
  {
    assert [pattern][..0] == [];
  }

  /**
   * As intended, and as TaskManager.GroupByParent does: every pattern is in the
   * group of its own base directory, whatever that directory is called.
   */
  lemma {:induction false} EveryPatternGrouped(patterns: seq<string>, parent: ParentFn)
    ensures forall p :: p in patterns ==>
      parent(p) in GroupByParent(patterns, parent).values && p in GroupByParent(patterns, parent).values[parent(p)]
  {
    if patterns != [] {
      var init, last := patterns[..|patterns| - 1], patterns[|patterns| - 1];
      EveryPatternGrouped(init, parent);
      var before := GroupByParent(init, parent);
      var after := GroupByParent(patterns, parent);
      forall p | p in patterns
        ensures parent(p) in after.values && p in after.values[parent(p)]
      {
        if p == last {
        } else {
          assert patterns == init + [last];
          assert p in init;
        }
      }
    }
  }

  /** The corrected grouping of the lone "constructor" pattern. */
  lemma ConstructorPatternKept(pattern: string, parent: ParentFn)
    requires parent(pattern) == "constructor"
    ensures GroupByParent([pattern], parent).values["constructor"] == [pattern]
  {
    assert [pattern][..0] == [];
  }
}
