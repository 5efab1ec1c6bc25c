/**
 * Sequence operations that stand for the SQL clauses the repositories use:
 * WHERE (Filter), ORDER BY (SortBy) and LIMIT (Limit).
 */
module Seqs {

  /** The elements of `s` that satisfy `p`, in their original order. */
  function Filter<T(!new)>(s: seq<T>, p: T -> bool): (r: seq<T>)
    ensures |r| <= |s|
    ensures forall x :: x in r <==> x in s && p(x)
    ensures forall i :: 0 <= i < |r| ==> p(r[i])
    ensures multiset(r) <= multiset(s)
  {
    if s == [] then []
    else
      assert s == [s[0]] + s[1..];
      (if p(s[0]) then [s[0]] else []) + Filter(s[1..], p)
  }

  /** Filtering keeps everything exactly when every element passes. */
  lemma {:induction false} FilterAll<T(!new)>(s: seq<T>, p: T -> bool)
    requires forall i :: 0 <= i < |s| ==> p(s[i])
    ensures Filter(s, p) == s
  {
    if s != [] {
      FilterAll(s[1..], p);
    }
  }

  /** The kept and the dropped elements together are the whole sequence. */
  lemma FilterSplit<T(!new)>(s: seq<T>, p: T -> bool, q: T -> bool)
    requires forall x :: q(x) == !p(x)
    ensures |Filter(s, p)| + |Filter(s, q)| == |s|
    ensures multiset(Filter(s, p)) + multiset(Filter(s, q)) == multiset(s)
  {
    FilterPartition(s, p, q);
    assert |multiset(Filter(s, p)) + multiset(Filter(s, q))| == |multiset(s)|;
  }

  lemma {:induction false} FilterPartition<T(!new)>(s: seq<T>, p: T -> bool, q: T -> bool)
    requires forall x :: q(x) == !p(x)
    ensures multiset(Filter(s, p)) + multiset(Filter(s, q)) == multiset(s)
  {
    if s != [] {
      FilterPartition(s[1..], p, q);
      PartitionStep(s, p, q);
    }
  }

  /** One element of the partition: the head goes to exactly one side. */
  lemma PartitionStep<T(!new)>(s: seq<T>, p: T -> bool, q: T -> bool)
    requires s != [] && q(s[0]) == !p(s[0])
    requires multiset(Filter(s[1..], p)) + multiset(Filter(s[1..], q)) == multiset(s[1..])
    ensures multiset(Filter(s, p)) + multiset(Filter(s, q)) == multiset(s)
  {
    assert s == [s[0]] + s[1..];
    MultisetCons(s[0], s[1..], Filter(s[1..], p), Filter(s[1..], q), Filter(s, p), Filter(s, q));
  }

  /** Adding one element to one of two halves of a split adds it to the whole. */
  lemma MultisetCons<T>(x: T, rest: seq<T>, a: seq<T>, b: seq<T>, a': seq<T>, b': seq<T>)
    requires multiset(a) + multiset(b) == multiset(rest)
    requires (a' == [x] + a && b' == b) || (a' == a && b' == [x] + b)
    ensures multiset(a') + multiset(b') == multiset([x] + rest)
  {
  }

  /** Filtering keeps the order of what it keeps. */
  lemma {:induction false} FilterSorted<T(!new)>(s: seq<T>, p: T -> bool, le: (T, T) -> bool)
    requires SortedBy(s, le)
    ensures SortedBy(Filter(s, p), le)
  {
    if s != [] {
      FilterSorted(s[1..], p, le);
      if p(s[0]) {
        HeadBelowRest(s, le);
        ConsSorted(s[0], Filter(s[1..], p), le);
        assert Filter(s, p) == [s[0]] + Filter(s[1..], p);
      } else {
        assert Filter(s, p) == Filter(s[1..], p);
      }
    }
  }

  lemma HeadBelowRest<T>(s: seq<T>, le: (T, T) -> bool)
    requires SortedBy(s, le) && s != []
    ensures forall x :: x in s[1..] ==> le(s[0], x)
  {
    forall x | x in s[1..] ensures le(s[0], x) {
      var k :| 0 <= k < |s[1..]| && s[1..][k] == x;
      assert s[k + 1] == x;
    }
  }

  lemma ConsSorted<T>(x: T, r: seq<T>, le: (T, T) -> bool)
    requires SortedBy(r, le)
    requires forall y :: y in r ==> le(x, y)
    ensures SortedBy([x] + r, le)
  {
    var xr := [x] + r;
    forall i, j | 0 <= i < j < |xr| ensures le(xr[i], xr[j]) {
      assert xr[j] == r[j - 1];
      if i > 0 {
        assert xr[i] == r[i - 1];
      }
    }
  }

  /** Filtering distributes over concatenation. */
  lemma {:induction false} FilterAppend<T(!new)>(a: seq<T>, b: seq<T>, p: T -> bool)
    ensures Filter(a + b, p) == Filter(a, p) + Filter(b, p)
  {
    if a == [] {
      assert a + b == b;
    } else {
      assert (a + b)[1..] == a[1..] + b;
      FilterAppend(a[1..], b, p);
    }
  }

  /** A sequence is its prefix followed by the rest. */
  lemma PrefixThenRest<T>(s: seq<T>, n: nat)
    requires n <= |s|
    ensures s == s[..n] + s[n..]
  {
  }

  lemma AppendAssociates<T>(a: seq<T>, b: seq<T>, c: seq<T>)
    ensures a + (b + c) == (a + b) + c
  {
  }

  /** The pieces of `ss` joined end to end, in order. */
  function Flatten<T>(ss: seq<seq<T>>): seq<T> {
    if ss == [] then [] else Flatten(ss[..|ss| - 1]) + ss[|ss| - 1]
  }

  /** SQL's LIMIT: a negative limit (as in SQLite) means no limit. */
  function Limit<T>(s: seq<T>, limit: int): (r: seq<T>)
    ensures limit < 0 ==> r == s
    ensures 0 <= limit ==> |r| == if limit < |s| then limit else |s|
    ensures r <= s
  {
    if limit < 0 || |s| <= limit then s else s[..limit]
  }

  /** A LIMIT keeps only rows of its input, and keeps a sorted input sorted. */
  lemma LimitKeeps<T>(s: seq<T>, limit: int, le: (T, T) -> bool)
    ensures forall x :: x in Limit(s, limit) ==> x in s
    ensures SortedBy(s, le) ==> SortedBy(Limit(s, limit), le)
  {
    var r := Limit(s, limit);
    forall x | x in r ensures x in s {
      var k :| 0 <= k < |r| && r[k] == x;
      assert s[k] == x;
    }
  }

  /** `le` is total and transitive: a valid ORDER BY key comparison. */
  ghost predicate TotalPreorder<T(!new)>(le: (T, T) -> bool) {
    && (forall a, b :: le(a, b) || le(b, a))
    && (forall a, b, c :: le(a, b) && le(b, c) ==> le(a, c))
  }

  predicate SortedBy<T>(s: seq<T>, le: (T, T) -> bool) {
    forall i, j :: 0 <= i < j < |s| ==> le(s[i], s[j])
  }

  /** Inserts `x` before the first element it does not exceed. */
  function Insert<T>(x: T, s: seq<T>, le: (T, T) -> bool): (r: seq<T>)
    ensures |r| == |s| + 1
    ensures multiset(r) == multiset(s) + multiset{x}
  {
    if s == [] || le(x, s[0]) then [x] + s
    else
      assert s == [s[0]] + s[1..];
      [s[0]] + Insert(x, s[1..], le)
  }

  /** The rows of `s` as ORDER BY returns them (insertion sort). */
  function SortBy<T>(s: seq<T>, le: (T, T) -> bool): (r: seq<T>)
    ensures |r| == |s|
    ensures multiset(r) == multiset(s)
  {
    if s == [] then []
    else
      assert s == [s[0]] + s[1..];
      Insert(s[0], SortBy(s[1..], le), le)
  }

  lemma {:induction false} InsertSorted<T(!new)>(x: T, s: seq<T>, le: (T, T) -> bool)
    requires TotalPreorder(le)
    requires SortedBy(s, le)
    ensures SortedBy(Insert(x, s, le), le)
  {
    if s != [] && !le(x, s[0]) {
      InsertSorted(x, s[1..], le);
      var r := Insert(x, s[1..], le);
      assert le(s[0], x);
      forall k | 0 <= k < |r| ensures le(s[0], r[k]) {
        assert r[k] in multiset(r);
        assert r[k] in multiset(s[1..]) + multiset{x};
        if r[k] != x {
          assert r[k] in multiset(s[1..]);
          assert r[k] in s[1..];
          var m :| 0 <= m < |s[1..]| && s[1..][m] == r[k];
          assert s[m + 1] == r[k];
        }
      }
    }
  }

  /** SortBy yields a sorted permutation of its input. */
  lemma {:induction false} SortBySorted<T(!new)>(s: seq<T>, le: (T, T) -> bool)
    requires TotalPreorder(le)
    ensures SortedBy(SortBy(s, le), le)
  {
    if s != [] {
      SortBySorted(s[1..], le);
      InsertSorted(s[0], SortBy(s[1..], le), le);
    }
  }

  /** Membership survives sorting. */
  lemma SortByMembers<T(!new)>(s: seq<T>, le: (T, T) -> bool)
    ensures forall x :: x in SortBy(s, le) <==> x in s
  {
    var r := SortBy(s, le);
    forall x ensures x in r <==> x in s {
      assert x in r <==> x in multiset(r);
      assert x in s <==> x in multiset(s);
    }
  }
}
