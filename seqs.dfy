/** Sequence helpers shared by the task planner, the directory walk and the result merge. */
module Seqs {

  /** No element occurs twice. */
  predicate Distinct<T(==)>(s: seq<T>) {
    forall i, j :: 0 <= i < j < |s| ==> s[i] != s[j]
  }

  /** The elements of `s` that satisfy `keep`, in their original order (Array.prototype.filter). */
  function Filter<T(!new)>(keep: T -> bool, s: seq<T>): (r: seq<T>)
    ensures forall x :: x in r <==> x in s && keep(x)
    ensures |r| <= |s|
  {
    if s == [] then []
    else Filter(keep, s[..|s| - 1]) + (if keep(s[|s| - 1]) then [s[|s| - 1]] else [])
  }

  lemma FilterSnoc<T(!new)>(keep: T -> bool, s: seq<T>, x: T)
    ensures Filter(keep, s + [x]) == Filter(keep, s) + (if keep(x) then [x] else [])
  {
    assert (s + [x])[..|s|] == s;
  }

  /** `f` applied to every element (Array.prototype.map). */
  function Map<T, U>(f: T -> U, s: seq<T>): (r: seq<U>)
    ensures |r| == |s|
    ensures forall i :: 0 <= i < |s| ==> r[i] == f(s[i])
  {
    seq(|s|, i requires 0 <= i < |s| => f(s[i]))
  }

  lemma MapAppend<T, U>(f: T -> U, a: seq<T>, b: seq<T>)
    ensures Map(f, a + b) == Map(f, a) + Map(f, b)
  {
    assert forall i :: 0 <= i < |a + b| ==> Map(f, a + b)[i] == (Map(f, a) + Map(f, b))[i];
  }

  lemma MapMembers<T, U>(f: T -> U, s: seq<T>, y: U)
    ensures y in Map(f, s) <==> exists x :: x in s && f(x) == y
  {
    if y in Map(f, s) {
      var j :| 0 <= j < |s| && Map(f, s)[j] == y;
      assert s[j] in s;
    }
    if x :| x in s && f(x) == y {
      var j :| 0 <= j < |s| && s[j] == x;
      assert Map(f, s)[j] == y;
    }
  }

  /** The elements of `s` without repetitions, each kept at its first occurrence. */
  function Dedup<T(==,!new)>(s: seq<T>): (r: seq<T>)
    ensures forall x :: x in r <==> x in s
    ensures Distinct(r)
  {
    if s == [] then []
    else if s[|s| - 1] in s[..|s| - 1] then Dedup(s[..|s| - 1])
    else Dedup(s[..|s| - 1]) + [s[|s| - 1]]
  }

  /** The position of the first occurrence of `x` in `s`. */
  function FirstIndex<T(==)>(s: seq<T>, x: T): (r: nat)
    requires x in s
    ensures r < |s| && s[r] == x && x !in s[..r]
  {
    if s[0] == x then 0
    else
      var r := 1 + FirstIndex(s[1..], x);
      assert s[..r] == [s[0]] + s[1..][..r - 1];
      r
  }

  /** The concatenation of all lists, left to right (a reduce with concat). */
  function Flatten<T>(ss: seq<seq<T>>): seq<T> {
    if ss == [] then [] else Flatten(ss[..|ss| - 1]) + ss[|ss| - 1]
  }

  /** The sum of the lengths of all lists. */
  function TotalLength<T>(ss: seq<seq<T>>): nat {
    if ss == [] then 0 else TotalLength(ss[..|ss| - 1]) + |ss[|ss| - 1]|
  }

  /** `a` is obtained from `b` by deleting elements. */
  predicate IsSubseq<T(==)>(a: seq<T>, b: seq<T>)
    decreases |b|
  {
    if a == [] then true
    else if b == [] then false
    else if a[0] == b[0] then IsSubseq(a[1..], b[1..])
    else IsSubseq(a, b[1..])
  }

  lemma ConcatAssoc<T>(a: seq<T>, b: seq<T>, c: seq<T>)
    ensures (a + b) + c == a + (b + c)
  {
  }

  lemma DistinctAppend<T>(a: seq<T>, b: seq<T>)
    requires Distinct(a) && Distinct(b)
    requires forall x :: x in a ==> x !in b
    ensures Distinct(a + b)
  {
    forall i, j | 0 <= i < j < |a + b|
      ensures (a + b)[i] != (a + b)[j]
    {
      if j >= |a| && i < |a| {
        assert (a + b)[i] in a && (a + b)[j] in b;
      }
    }
  }

  // ---------------------------------------------------------------------------
  // Filter

  lemma {:induction false} FilterAppend<T(!new)>(keep: T -> bool, a: seq<T>, b: seq<T>)
    ensures Filter(keep, a + b) == Filter(keep, a) + Filter(keep, b)
    decreases |b|
  {
    if b == [] {
      assert a + b == a;
    } else {
      var b' := b[..|b| - 1];
      assert (a + b)[..|a + b| - 1] == a + b';
      FilterAppend(keep, a, b');
    }
  }

  /** An element that `keep` accepts sits in the result right after the kept elements before it. */
  lemma FilterPosition<T(!new)>(keep: T -> bool, s: seq<T>, i: nat)
    requires i < |s| && keep(s[i])
    ensures |Filter(keep, s[..i])| < |Filter(keep, s)|
    ensures Filter(keep, s)[|Filter(keep, s[..i])|] == s[i]
  {
    assert s == s[..i] + [s[i]] + s[i + 1..];
    FilterAppend(keep, s[..i] + [s[i]], s[i + 1..]);
    FilterAppend(keep, s[..i], [s[i]]);
    assert Filter(keep, [s[i]]) == [s[i]] by {
      assert [s[i]][..0] == [];
    }
  }

  /** Kept positions grow with the input position, so the result keeps input order. */
  lemma FilterPrefixMonotone<T(!new)>(keep: T -> bool, s: seq<T>, i: nat, j: nat)
    requires i < j <= |s| && keep(s[i])
    ensures |Filter(keep, s[..i])| < |Filter(keep, s[..j])|
  {
    assert s[..j] == s[..i] + [s[i]] + s[i + 1..j];
    FilterAppend(keep, s[..i] + [s[i]], s[i + 1..j]);
    FilterAppend(keep, s[..i], [s[i]]);
    assert Filter(keep, [s[i]]) == [s[i]] by {
      assert [s[i]][..0] == [];
    }
  }

  /** Filtering by a predicate and by its complement splits the list. */
  lemma {:induction false} FilterPartition<T(!new)>(keep: T -> bool, drop: T -> bool, s: seq<T>)
    requires forall x :: drop(x) == !keep(x)
    ensures multiset(Filter(keep, s)) + multiset(Filter(drop, s)) == multiset(s)
  {
    if s != [] {
      var init, last := s[..|s| - 1], s[|s| - 1];
      var kept, dropped := Filter(keep, init), Filter(drop, init);
      FilterPartition(keep, drop, init);
      assert s == init + [last];
      assert multiset(s) == multiset(init) + multiset{last};
      if keep(last) {
        assert Filter(keep, s) == kept + [last];
        assert multiset(kept + [last]) == multiset(kept) + multiset{last};
      } else {
        assert Filter(drop, s) == dropped + [last];
        assert multiset(dropped + [last]) == multiset(dropped) + multiset{last};
      }
    }
  }

  lemma FilterPartitionLength<T(!new)>(keep: T -> bool, drop: T -> bool, s: seq<T>)
    requires forall x :: drop(x) == !keep(x)
    ensures |Filter(keep, s)| + |Filter(drop, s)| == |s|
  {
    FilterPartition(keep, drop, s);
    assert |multiset(Filter(keep, s)) + multiset(Filter(drop, s))| == |multiset(s)|;
  }

  lemma {:induction false} FilterAll<T(!new)>(keep: T -> bool, s: seq<T>)
    requires forall x :: x in s ==> keep(x)
    ensures Filter(keep, s) == s
  {
    if s != [] {
      FilterAll(keep, s[..|s| - 1]);
      assert s == s[..|s| - 1] + [s[|s| - 1]];
    }
  }

  lemma FilterNone<T(!new)>(keep: T -> bool, s: seq<T>)
    requires forall x :: x in s ==> !keep(x)
    ensures Filter(keep, s) == []
  {
  }

  // ---------------------------------------------------------------------------
  // Dedup

  lemma {:induction false} FirstIndexUnique<T>(s: seq<T>, x: T, k: nat)
    requires k < |s| && s[k] == x && x !in s[..k]
    ensures FirstIndex(s, x) == k
  {
    var r := FirstIndex(s, x);
  }

  /** Dedup keeps every element at its first occurrence, so it lists them in first-occurrence order. */
  lemma {:induction false} DedupFirstOccurrenceOrder<T(!new)>(s: seq<T>)
    ensures forall i, j :: 0 <= i < j < |Dedup(s)| ==> FirstIndex(s, Dedup(s)[i]) < FirstIndex(s, Dedup(s)[j])
  {
    if s != [] {
      var init := s[..|s| - 1];
      var x := s[|s| - 1];
      DedupFirstOccurrenceOrder(init);
      assert s == init + [x];
      var d := Dedup(s);
      forall y | y in init
        ensures FirstIndex(s, y) == FirstIndex(init, y)
      {
        var k := FirstIndex(init, y);
        assert s[..k] == init[..k];
        FirstIndexUnique(s, y, k);
      }
      if x !in init {
        assert s[..|s| - 1] == init;
        FirstIndexUnique(s, x, |s| - 1);
        forall i, j | 0 <= i < j < |d|
          ensures FirstIndex(s, d[i]) < FirstIndex(s, d[j])
        {
          assert d[i] in Dedup(init);
          if j < |d| - 1 {
            assert d[i] == Dedup(init)[i] && d[j] == Dedup(init)[j];
          } else {
            assert FirstIndex(init, d[i]) < |init|;
          }
        }
      } else {
        forall i, j | 0 <= i < j < |d|
          ensures FirstIndex(s, d[i]) < FirstIndex(s, d[j])
        {
          assert d[i] in init && d[j] in init;
        }
      }
    }
  }

  lemma {:induction false} DedupOfDistinct<T(!new)>(s: seq<T>)
    requires Distinct(s)
    ensures Dedup(s) == s
  {
    if s != [] {
      var init := s[..|s| - 1];
      assert Distinct(init);
      DedupOfDistinct(init);
      assert s[|s| - 1] !in init;
      assert s == init + [s[|s| - 1]];
    }
  }

  // ---------------------------------------------------------------------------
  // Flatten

  lemma {:induction false} FlattenLength<T>(ss: seq<seq<T>>)
    ensures |Flatten(ss)| == TotalLength(ss)
  {
    if ss != [] {
      FlattenLength(ss[..|ss| - 1]);
    }
  }

  lemma {:induction false} FlattenPrefix<T>(ss: seq<seq<T>>, i: nat)
    requires i <= |ss|
    ensures Flatten(ss) == Flatten(ss[..i]) + Flatten(ss[i..])
    decreases |ss|
  {
    if i < |ss| {
      var init := ss[..|ss| - 1];
      FlattenPrefix(init, i);
      assert init[..i] == ss[..i];
      assert ss[i..] == init[i..] + [ss[|ss| - 1]];
      assert ss[i..][..|ss[i..]| - 1] == init[i..];
    } else {
      assert ss[..i] == ss;
    }
  }

  /** Element j of list i sits in the concatenation after the lists before it. */
  lemma FlattenAt<T>(ss: seq<seq<T>>, i: nat, j: nat)
    requires i < |ss| && j < |ss[i]|
    ensures TotalLength(ss[..i]) + j < |Flatten(ss)|
    ensures Flatten(ss)[TotalLength(ss[..i]) + j] == ss[i][j]
  {
    FlattenPrefix(ss, i + 1);
    var front := ss[..i + 1];
    assert front[..|front| - 1] == ss[..i];
    assert Flatten(front) == Flatten(ss[..i]) + ss[i];
    FlattenLength(ss[..i]);
  }

  lemma {:induction false} FlattenMembership<T>(ss: seq<seq<T>>, x: T)
    ensures x in Flatten(ss) <==> exists i :: 0 <= i < |ss| && x in ss[i]
  {
    if ss != [] {
      var init := ss[..|ss| - 1];
      FlattenMembership(init, x);
      if x in Flatten(ss) && x !in ss[|ss| - 1] {
        var i :| 0 <= i < |init| && x in init[i];
        assert ss[i] == init[i];
      }
      if exists i :: 0 <= i < |ss| && x in ss[i] {
        var i :| 0 <= i < |ss| && x in ss[i];
        if i < |ss| - 1 {
          assert init[i] == ss[i];
        }
      }
    }
  }

  // ---------------------------------------------------------------------------
  // Subsequences

  lemma {:induction false} IsSubseqRefl<T>(a: seq<T>)
    ensures IsSubseq(a, a)
    decreases |a|
  {
    if a != [] {
      IsSubseqRefl(a[1..]);
    }
  }

  lemma {:induction false} IsSubseqEmptyLeft<T>(b: seq<T>)
    ensures IsSubseq([], b)
  {
  }

  lemma {:induction false} IsSubseqTail<T>(a: seq<T>, b: seq<T>)
    requires a != [] && IsSubseq(a, b)
    ensures IsSubseq(a[1..], b)
    decreases |b|, 1
  {
    assert b == [b[0]] + b[1..];
    if a[0] == b[0] {
      IsSubseqCons(a[1..], b[0], b[1..]);
    } else {
      IsSubseqTail(a, b[1..]);
      IsSubseqCons(a[1..], b[0], b[1..]);
    }
  }

  /** Adding one element in front of the larger sequence keeps a subsequence. */
  lemma {:induction false} IsSubseqCons<T>(a: seq<T>, y: T, b: seq<T>)
    requires IsSubseq(a, b)
    ensures IsSubseq(a, [y] + b)
    decreases |b| + 1, 0
  {
    assert ([y] + b)[1..] == b;
    if a != [] && a[0] == y {
      IsSubseqTail(a, b);
    }
  }

  /** Adding elements in front of the larger sequence keeps a subsequence. */
  lemma {:induction false} IsSubseqDropFront<T>(a: seq<T>, b: seq<T>, c: seq<T>)
    requires IsSubseq(a, b)
    ensures IsSubseq(a, c + b)
    decreases |c|
  {
    if c == [] {
      assert c + b == b;
    } else {
      IsSubseqDropFront(a, b, c[1..]);
      IsSubseqCons(a, c[0], c[1..] + b);
      assert [c[0]] + (c[1..] + b) == c + b;
    }
  }

  /** Subsequences of the two parts give a subsequence of the concatenation. */
  lemma {:induction false} IsSubseqAppend<T>(a: seq<T>, b: seq<T>, c: seq<T>, d: seq<T>)
    requires IsSubseq(a, c) && IsSubseq(b, d)
    ensures IsSubseq(a + b, c + d)
    decreases |c|
  {
    if a == [] {
      assert a + b == b;
      IsSubseqDropFront(b, d, c);
    } else {
      assert c != [];
      assert (c + d)[1..] == c[1..] + d;
      if a[0] == c[0] {
        assert (a + b)[1..] == a[1..] + b;
        IsSubseqAppend(a[1..], b, c[1..], d);
      } else {
        IsSubseqAppend(a, b, c[1..], d);
      }
    }
  }

  lemma {:induction false} IsSubseqMembership<T>(a: seq<T>, b: seq<T>, x: T)
    requires IsSubseq(a, b) && x in a
    ensures x in b
    decreases |b|
  {
    if a[0] == b[0] {
      if x != a[0] {
        assert x in a[1..];
        IsSubseqMembership(a[1..], b[1..], x);
      }
    } else {
      IsSubseqMembership(a, b[1..], x);
    }
  }

  lemma {:induction false} IsSubseqMap<T, U>(f: T -> U, a: seq<T>, b: seq<T>)
    requires IsSubseq(a, b)
    ensures IsSubseq(Map(f, a), Map(f, b))
    decreases |b|
  {
    if a != [] {
      assert Map(f, b)[1..] == Map(f, b[1..]);
      if a[0] == b[0] {
        assert Map(f, a)[1..] == Map(f, a[1..]);
        IsSubseqMap(f, a[1..], b[1..]);
      } else {
        IsSubseqMap(f, a, b[1..]);
        if Map(f, a)[0] == Map(f, b)[0] {
          IsSubseqTail(Map(f, a), Map(f, b[1..]));
          assert Map(f, a)[1..] == Map(f, a[1..]);
        }
      }
    }
  }

  lemma {:induction false} IsSubseqFlatten<T>(as_: seq<seq<T>>, bs: seq<seq<T>>)
    requires |as_| == |bs|
    requires forall i :: 0 <= i < |as_| ==> IsSubseq(as_[i], bs[i])
    ensures IsSubseq(Flatten(as_), Flatten(bs))
  {
    if as_ != [] {
      IsSubseqFlatten(as_[..|as_| - 1], bs[..|bs| - 1]);
      IsSubseqAppend(Flatten(as_[..|as_| - 1]), as_[|as_| - 1], Flatten(bs[..|bs| - 1]), bs[|bs| - 1]);
    }
  }
}
