/** Order-preserving filtering and counting over sequences: the model of
    JavaScript's `Array.prototype.filter` and of `filter(...).length`. */
module Seqs {

  /** The elements of `s` that satisfy `p`, in their original order. */
  function Filter<T>(s: seq<T>, p: T -> bool): (r: seq<T>)
    ensures |r| <= |s|
    ensures forall i :: 0 <= i < |r| ==> p(r[i])
    ensures multiset(r) <= multiset(s)
  {
    if s == [] then []
    else
      assert s == [s[0]] + s[1..];
      (if p(s[0]) then [s[0]] else []) + Filter(s[1..], p)
  }

  /** The number of elements of `s` that satisfy `p`. */
  function Count<T>(s: seq<T>, p: T -> bool): (n: nat)
    ensures n <= |s|
  {
    if s == [] then 0 else (if p(s[0]) then 1 else 0) + Count(s[1..], p)
  }

  lemma {:induction false} FilterLength<T>(s: seq<T>, p: T -> bool)
    ensures |Filter(s, p)| == Count(s, p)
  {
    if s != [] {
      FilterLength(s[1..], p);
    }
  }

  lemma {:induction false} FilterConcat<T>(a: seq<T>, b: seq<T>, p: T -> bool)
    ensures Filter(a + b, p) == Filter(a, p) + Filter(b, p)
  {
    if a == [] {
      assert a + b == b;
    } else {
      assert (a + b)[1..] == a[1..] + b;
      FilterConcat(a[1..], b, p);
    }
  }

  lemma {:induction false} CountConcat<T>(a: seq<T>, b: seq<T>, p: T -> bool)
    ensures Count(a + b, p) == Count(a, p) + Count(b, p)
  {
    FilterConcat(a, b, p);
    FilterLength(a + b, p);
    FilterLength(a, p);
    FilterLength(b, p);
  }

  /** Filtering keeps everything exactly when every element satisfies `p`. */
  lemma {:induction false} FilterKeepsAll<T>(s: seq<T>, p: T -> bool)
    ensures Filter(s, p) == s <==> forall i :: 0 <= i < |s| ==> p(s[i])
  {
    if s != [] {
      FilterKeepsAll(s[1..], p);
      if !p(s[0]) {
        // Filter(s, p) is then as long as Filter(s[1..], p), which is shorter than s.
        assert |Filter(s, p)| <= |s| - 1;
      }
    }
  }

  /** Filtering twice with the same predicate filters once. */
  lemma FilterIdempotent<T>(s: seq<T>, p: T -> bool)
    ensures Filter(Filter(s, p), p) == Filter(s, p)
  {
    FilterKeepsAll(Filter(s, p), p);
  }

  /** An element survives filtering exactly when it occurs and satisfies `p`. */
  lemma {:induction false} FilterMembership<T>(s: seq<T>, p: T -> bool, x: T)
    ensures x in Filter(s, p) <==> x in s && p(x)
  {
    if s != [] {
      FilterMembership(s[1..], p, x);
      assert x in s <==> x == s[0] || x in s[1..];
    }
  }

  /** The positions `j` with `from <= j < |s|` of the elements of `s`
      that satisfy `p`, ascending: every such position occurs, and no other. */
  function Positions<T>(s: seq<T>, p: T -> bool, from: nat): (idx: seq<nat>)
    requires from <= |s|
    ensures forall i :: 0 <= i < |idx| ==> from <= idx[i] < |s| && p(s[idx[i]])
    ensures forall i, j :: 0 <= i < j < |idx| ==> idx[i] < idx[j]
    ensures forall j :: from <= j < |s| && p(s[j]) ==> j in idx
    decreases |s| - from
  {
    if from == |s| then []
    else (if p(s[from]) then [from] else []) + Positions(s, p, from + 1)
  }

  /** Filtering keeps the selected elements in their original order and
      with their multiplicity: the i-th survivor of `s[from..]` is the
      element at the i-th selected position. */
  lemma {:induction false} FilterKeepsOrder<T>(s: seq<T>, p: T -> bool, from: nat)
    requires from <= |s|
    ensures |Filter(s[from..], p)| == |Positions(s, p, from)|
    ensures forall i :: 0 <= i < |Filter(s[from..], p)| ==> Filter(s[from..], p)[i] == s[Positions(s, p, from)[i]]
    decreases |s| - from
  {
    if from < |s| {
      FilterKeepsOrder(s, p, from + 1);
      assert s[from..][1..] == s[from + 1..];
    }
  }

  /** The first survivor of a non-empty filter sits at a position of `s`
      whose element satisfies `p`. */
  lemma {:induction false} FirstSurvivor<T>(s: seq<T>, p: T -> bool) returns (i: nat)
    requires Filter(s, p) != []
    ensures i < |s| && p(s[i]) && Filter(s, p)[0] == s[i]
  {
    if p(s[0]) {
      i := 0;
    } else {
      var j := FirstSurvivor(s[1..], p);
      i := j + 1;
    }
  }

  /** The elements that satisfy `p` and those that do not together make
      up `s`, with multiplicity. */
  lemma {:induction false} FilterSplitsMultiset<T>(s: seq<T>, p: T -> bool, q: T -> bool)
    requires forall i :: 0 <= i < |s| ==> q(s[i]) == !p(s[i])
    ensures multiset(Filter(s, p)) + multiset(Filter(s, q)) == multiset(s)
  {
    if s != [] {
      var x, t := s[0], s[1..];
      assert forall i :: 0 <= i < |t| ==> t[i] == s[i + 1];
      FilterSplitsMultiset(t, p, q);
      var mp, mq := multiset(Filter(t, p)), multiset(Filter(t, q));
      assert multiset(s) == multiset{x} + multiset(t) by {
        assert s == [x] + t;
      }
      FilterCons(s, p);
      FilterCons(s, q);
      var sp, sq := multiset(Filter(s, p)), multiset(Filter(s, q));
      if p(x) {
        assert sp == multiset{x} + mp && sq == mq;
        AddToFirst(x, mp, mq);
      } else {
        assert sp == mp && sq == multiset{x} + mq;
        AddToSecond(x, mp, mq);
      }
    }
  }

  lemma AddToFirst<T>(x: T, a: multiset<T>, b: multiset<T>)
    ensures (multiset{x} + a) + b == multiset{x} + (a + b)
  {
  }

  lemma AddToSecond<T>(x: T, a: multiset<T>, b: multiset<T>)
    ensures a + (multiset{x} + b) == multiset{x} + (a + b)
  {
  }

  lemma FilterCons<T>(s: seq<T>, p: T -> bool)
    requires s != []
    ensures p(s[0]) ==> Filter(s, p) == [s[0]] + Filter(s[1..], p)
    ensures !p(s[0]) ==> Filter(s, p) == Filter(s[1..], p)
  {
  }

  /** Nothing is counted exactly when no element satisfies `p`. */
  lemma {:induction false} CountZero<T>(s: seq<T>, p: T -> bool)
    ensures Count(s, p) == 0 <==> forall i :: 0 <= i < |s| ==> !p(s[i])
  {
    if s != [] {
      CountZero(s[1..], p);
      assert forall i :: 1 <= i < |s| ==> s[i] == s[1..][i - 1];
    }
  }
}
