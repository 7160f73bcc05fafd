/** `Array.prototype.filter` and the facts about it that the task-list model relies on. */
module Sequences {

  /** The elements of `s` that satisfy `keep`, in their original order. */
  function Filter<T>(s: seq<T>, keep: T -> bool): (r: seq<T>)
    ensures |r| <= |s|
    ensures forall i :: 0 <= i < |r| ==> keep(r[i])
  {
    if s == [] then []
    else
      assert s == [s[0]] + s[1..];
      (if keep(s[0]) then [s[0]] else []) + Filter(s[1..], keep)
  }

  /** `idx` lists strictly increasing positions of `s` at which the elements of `r` sit, in order. */
  ghost predicate SubsequenceAt<T>(r: seq<T>, s: seq<T>, idx: seq<int>) {
    && |idx| == |r|
    && (forall i :: 0 <= i < |idx| ==> 0 <= idx[i] < |s| && r[i] == s[idx[i]])
    && (forall i, j :: 0 <= i < j < |idx| ==> idx[i] < idx[j])
  }

  /** `r` is `s` with some elements left out and the rest in their original order. */
  ghost predicate IsSubsequence<T>(r: seq<T>, s: seq<T>) {
    exists idx :: SubsequenceAt(r, s, idx)
  }

  /** Every position moved one further along. */
  function Shift(idx: seq<int>): (r: seq<int>)
    ensures |r| == |idx| && forall k :: 0 <= k < |idx| ==> r[k] == idx[k] + 1
  {
    seq(|idx|, k requires 0 <= k < |idx| => idx[k] + 1)
  }

  /** A subsequence of `rest` is a subsequence of `[x] + rest`, at positions one further along. */
  lemma SubsequenceSkip<T>(r: seq<T>, x: T, rest: seq<T>, idx: seq<int>)
    requires SubsequenceAt(r, rest, idx)
    ensures SubsequenceAt(r, [x] + rest, Shift(idx))
  {
    var sh := Shift(idx);
    forall k | 0 <= k < |sh| ensures 0 <= sh[k] < |[x] + rest| && r[k] == ([x] + rest)[sh[k]] {
      assert ([x] + rest)[idx[k] + 1] == rest[idx[k]];
    }
  }

  /** Taking the head as well: `[x] + r` sits in `[x] + rest` at position 0 and then one further along. */
  lemma SubsequenceTake<T>(r: seq<T>, x: T, rest: seq<T>, idx: seq<int>)
    requires SubsequenceAt(r, rest, idx)
    ensures SubsequenceAt([x] + r, [x] + rest, [0] + Shift(idx))
  {
    SubsequenceSkip(r, x, rest, idx);
    var full := [0] + Shift(idx);
    forall k | 0 < k < |full| ensures 0 < full[k] {
      assert full[k] == Shift(idx)[k - 1];
    }
    forall k | 0 < k < |full| ensures ([x] + r)[k] == ([x] + rest)[full[k]] {
      assert full[k] == Shift(idx)[k - 1] && ([x] + r)[k] == r[k - 1];
    }
  }

  /** The positions in `s` of the elements `Filter` keeps. */
  ghost function FilterIndices<T>(s: seq<T>, keep: T -> bool): (idx: seq<int>)
    ensures SubsequenceAt(Filter(s, keep), s, idx)
  {
    if s == [] then []
    else
      var tail := FilterIndices(s[1..], keep);
      assert s == [s[0]] + s[1..];
      if keep(s[0]) then
        SubsequenceTake(Filter(s[1..], keep), s[0], s[1..], tail);
        [0] + Shift(tail)
      else
        SubsequenceSkip(Filter(s[1..], keep), s[0], s[1..], tail);
        Shift(tail)
  }

  /** Filtering keeps the surviving elements in their original order. */
  lemma FilterSubsequence<T>(s: seq<T>, keep: T -> bool)
    ensures IsSubsequence(Filter(s, keep), s)
  {
    var idx := FilterIndices(s, keep);
  }

  /** An element is kept exactly when it occurs in the input and passes the test. */
  lemma {:induction false} FilterContains<T>(s: seq<T>, keep: T -> bool, x: T)
    ensures x in Filter(s, keep) <==> x in s && keep(x)
  {
    if s != [] {
      FilterContains(s[1..], keep, x);
      assert s == [s[0]] + s[1..];
    }
  }

  /** Filtering drops elements and adds none: the result is a sub-multiset of the input. */
  lemma {:induction false} FilterSubMultiset<T>(s: seq<T>, keep: T -> bool)
    ensures multiset(Filter(s, keep)) <= multiset(s)
  {
    if s != [] {
      FilterSubMultiset(s[1..], keep);
      assert s == [s[0]] + s[1..];
    }
  }

  /** Filtering with a predicate and with its complement splits the sequence's elements between the two results. */
  lemma {:induction false} FilterSplit<T>(s: seq<T>, keep: T -> bool, drop: T -> bool)
    requires forall i :: 0 <= i < |s| ==> drop(s[i]) == !keep(s[i])
    ensures multiset(Filter(s, keep)) + multiset(Filter(s, drop)) == multiset(s)
  {
    if s != [] {
      FilterSplit(s[1..], keep, drop);
      assert s == [s[0]] + s[1..];
    }
  }

  /** Filtering distributes over concatenation. */
  lemma {:induction false} FilterConcat<T>(a: seq<T>, b: seq<T>, keep: T -> bool)
    ensures Filter(a + b, keep) == Filter(a, keep) + Filter(b, keep)
  {
    if a != [] {
      var head := if keep(a[0]) then [a[0]] else [];
      calc {
        Filter(a + b, keep);
        { assert (a + b)[0] == a[0] && (a + b)[1..] == a[1..] + b; }
        head + Filter(a[1..] + b, keep);
        { FilterConcat(a[1..], b, keep); }
        head + (Filter(a[1..], keep) + Filter(b, keep));
      }
    } else {
      assert a + b == b;
    }
  }

  /** Filtering keeps everything when every element passes. */
  lemma {:induction false} FilterAll<T>(s: seq<T>, keep: T -> bool)
    requires forall i :: 0 <= i < |s| ==> keep(s[i])
    ensures Filter(s, keep) == s
  {
    if s != [] {
      FilterAll(s[1..], keep);
    }
  }

  /** Filtering keeps nothing when no element passes. */
  lemma {:induction false} FilterNone<T>(s: seq<T>, keep: T -> bool)
    requires forall i :: 0 <= i < |s| ==> !keep(s[i])
    ensures Filter(s, keep) == []
  {
    if s != [] {
      FilterNone(s[1..], keep);
    }
  }

  /** Every element is kept exactly when it occurs in the input and passes the test. */
  lemma FilterContainsAll<T>(s: seq<T>, keep: T -> bool)
    ensures forall x :: x in Filter(s, keep) <==> x in s && keep(x)
  {
    forall x ensures x in Filter(s, keep) <==> x in s && keep(x) {
      FilterContains(s, keep, x);
    }
  }

  /** No value occurs twice. */
  predicate NoDuplicates<T(==)>(s: seq<T>) {
    forall i, j :: 0 <= i < j < |s| ==> s[i] != s[j]
  }

  lemma {:induction false} FilterNoDuplicates<T>(s: seq<T>, keep: T -> bool)
    requires NoDuplicates(s)
    ensures NoDuplicates(Filter(s, keep))
  {
    if s != [] {
      FilterNoDuplicates(s[1..], keep);
      FilterContains(s[1..], keep, s[0]);
      var tail := Filter(s[1..], keep);
      if keep(s[0]) {
        forall j | 0 <= j < |tail| ensures tail[j] != s[0] {
          assert tail[j] in tail;
        }
      }
    }
  }

  /** Two duplicate-free sequences with no common value concatenate to a duplicate-free one. */
  lemma ConcatNoDuplicates<T>(a: seq<T>, b: seq<T>)
    requires NoDuplicates(a) && NoDuplicates(b)
    requires forall i :: 0 <= i < |b| ==> b[i] !in a
    ensures NoDuplicates(a + b)
  {
    forall i, j | 0 <= i < j < |a + b| ensures (a + b)[i] != (a + b)[j] {
      if j >= |a| && i < |a| {
        assert (a + b)[j] == b[j - |a|] && (a + b)[i] == a[i];
      } else if j >= |a| {
        assert (a + b)[j] == b[j - |a|] && (a + b)[i] == b[i - |a|];
      }
    }
  }
}
