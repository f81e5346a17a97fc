/**
 * A plain JavaScript object used as a dictionary from strings to string lists
 * (the planner's `Record<string, string[]>`), with the enumeration order of
 * Object.keys: keys that are canonical array indices come first in ascending
 * numeric order, every other key follows in the order it was first assigned.
 */
module JsRecord {
  import opened Seqs

  predicate IsDigit(c: char) {
    '0' <= c <= '9'
  }

  /** The decimal value of a digit string (non-digits count as 0). */
  function DecimalValue(s: string): nat {
    if s == [] then 0
    else DecimalValue(s[..|s| - 1]) * 10 + (if IsDigit(s[|s| - 1]) then s[|s| - 1] as int - '0' as int else 0)
  }

  /** A canonical array index: the decimal form of an integer from 0 to 2^32 - 2, without leading zeros. */
  predicate IsIndexKey(k: string) {
    && |k| > 0
    && (forall i :: 0 <= i < |k| ==> IsDigit(k[i]))
    && (k[0] != '0' || |k| == 1)
    && DecimalValue(k) < 0xFFFF_FFFF
  }

  predicate Ascending(s: seq<string>) {
    forall i, j :: 0 <= i < j < |s| ==> DecimalValue(s[i]) <= DecimalValue(s[j])
  }

  /** `sorted` with `k` inserted before the first key of no smaller value. */
  function InsertIndexKey(k: string, sorted: seq<string>): (r: seq<string>)
    ensures forall x :: x in r <==> x == k || x in sorted
    ensures |r| == |sorted| + 1
  {
    if sorted == [] || DecimalValue(k) <= DecimalValue(sorted[0]) then [k] + sorted
    else [sorted[0]] + InsertIndexKey(k, sorted[1..])
  }

  lemma {:induction false} InsertIndexKeyKeepsOrder(k: string, sorted: seq<string>)
    requires Ascending(sorted)
    ensures Ascending(InsertIndexKey(k, sorted))
  {
    if sorted != [] && DecimalValue(sorted[0]) < DecimalValue(k) {
      var rest := InsertIndexKey(k, sorted[1..]);
      InsertIndexKeyKeepsOrder(k, sorted[1..]);
      forall i | 0 <= i < |rest|
        ensures DecimalValue(sorted[0]) <= DecimalValue(rest[i])
      {
        AscendingHead(k, sorted, rest[i]);
      }
    } else if sorted != [] {
      forall i | 0 < i < |sorted| ensures DecimalValue(k) <= DecimalValue(sorted[i]) {
        assert DecimalValue(sorted[0]) <= DecimalValue(sorted[i]);
      }
    }
  }

  /** Every key of a sorted list, and `k` itself when it is larger, is no smaller than the head. */
  lemma AscendingHead(k: string, sorted: seq<string>, x: string)
    requires Ascending(sorted) && sorted != [] && DecimalValue(sorted[0]) < DecimalValue(k)
    requires x == k || x in sorted[1..]
    ensures DecimalValue(sorted[0]) <= DecimalValue(x)
  {
    if x != k {
      var j :| 0 <= j < |sorted[1..]| && sorted[1..][j] == x;
      assert sorted[j + 1] == x;
    }
  }

  lemma {:induction false} InsertIndexKeyKeepsDistinct(k: string, sorted: seq<string>)
    requires Distinct(sorted) && k !in sorted
    ensures Distinct(InsertIndexKey(k, sorted))
  {
    if sorted != [] && DecimalValue(sorted[0]) < DecimalValue(k) {
      InsertIndexKeyKeepsDistinct(k, sorted[1..]);
      DistinctAppend([sorted[0]], InsertIndexKey(k, sorted[1..]));
    } else {
      DistinctAppend([k], sorted);
    }
  }

  /** The keys in ascending numeric order. */
  function SortIndexKeys(ks: seq<string>): (r: seq<string>)
    ensures forall x :: x in r <==> x in ks
    ensures Distinct(ks) ==> Distinct(r)
    ensures Ascending(r)
  {
    if ks == [] then []
    else
      var sorted := SortIndexKeys(ks[..|ks| - 1]);
      InsertIndexKeyKeepsOrder(ks[|ks| - 1], sorted);
      assert Distinct(ks) ==> Distinct(InsertIndexKey(ks[|ks| - 1], sorted)) by {
        if Distinct(ks) {
          assert ks[|ks| - 1] !in ks[..|ks| - 1];
          InsertIndexKeyKeepsDistinct(ks[|ks| - 1], sorted);
        }
      }
      InsertIndexKey(ks[|ks| - 1], sorted)
  }

  /** Object.keys of an object whose keys were first assigned in the order `inserted`. */
  function ObjectKeys(inserted: seq<string>): (r: seq<string>)
    ensures forall k :: k in r <==> k in inserted
    ensures Distinct(inserted) ==> Distinct(r)
  {
    var indices := Filter(IsIndexKey, inserted);
    var others := Filter(k => !IsIndexKey(k), inserted);
    assert Distinct(inserted) ==> Distinct(indices) && Distinct(others) by {
      if Distinct(inserted) {
        FilterDistinct(IsIndexKey, inserted);
        FilterDistinct(k => !IsIndexKey(k), inserted);
      }
    }
    assert Distinct(inserted) ==> Distinct(SortIndexKeys(indices) + others) by {
      if Distinct(inserted) {
        DistinctAppend(SortIndexKeys(indices), others);
      }
    }
    SortIndexKeys(indices) + others
  }

  lemma {:induction false} FilterDistinct(keep: string -> bool, s: seq<string>)
    requires Distinct(s)
    ensures Distinct(Filter(keep, s))
  {
    if s != [] {
      FilterDistinct(keep, s[..|s| - 1]);
    }
  }

  /** When no key is an array index, Object.keys is the order of first assignment. */
  lemma ObjectKeysWithoutIndices(inserted: seq<string>)
    requires forall k :: k in inserted ==> !IsIndexKey(k)
    ensures ObjectKeys(inserted) == inserted
  {
    FilterNone(IsIndexKey, inserted);
    FilterAll(k => !IsIndexKey(k), inserted);
  }

  /** The own properties of the object: first-assignment order and values. */
  datatype Record = Record(inserted: seq<string>, values: map<string, seq<string>>) {

    ghost predicate Valid() {
      Distinct(inserted) && forall k :: k in values <==> k in inserted
    }

    /** Object.keys(this). */
    function Keys(): seq<string> {
      ObjectKeys(inserted)
    }

    /** The object after `this[key] = value`: a new key goes last, an existing key keeps its place. */
    function Put(key: string, value: seq<string>): (r: Record)
      ensures Valid() ==> r.Valid()
    {
      Record(if key in values then inserted else inserted + [key], values[key := value])
    }
  }

  const EmptyRecord := Record([], map[])

  /** An object the planner updates in place. */
  class Dict {
    var inserted: seq<string>
    var values: map<string, seq<string>>

    function Model(): Record
      reads this
    {
      Record(inserted, values)
    }

    constructor ()
      ensures Model() == EmptyRecord
    {
      inserted := [];
      values := map[];
    }

    predicate HasOwnProperty(key: string)
      reads this
    {
      key in values
    }

    function Get(key: string): seq<string>
      reads this
      requires key in values
    {
      values[key]
    }

    /** this[key] = value */
    method Put(key: string, value: seq<string>)
      modifies this
      ensures Model() == old(Model()).Put(key, value)
    {
      if key !in values {
        inserted := inserted + [key];
      }
      values := values[key := value];
    }

    /** Object.keys(this) */
    function Keys(): seq<string>
      reads this
    {
      ObjectKeys(inserted)
    }
  }
}
