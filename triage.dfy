/** The triage ordering of patient pre-notifications: triage category
    ascending (1 = critical first), then arrival time ascending. The
    dashboard sorts with the comparator
    `(a, b) => a.cat !== b.cat ? a.cat - b.cat : arrival(a) - arrival(b)`
    and JavaScript's stable `Array.prototype.sort`; the sort here is a
    stable insertion sort, generic in the entry type, with `key` reading an
    entry's (category, arrival) pair. */
module Triage {
  import Seqs

  datatype SortKey = SortKey(category: int, arrival: int)

  /** The comparator: negative when `a` goes first, zero on equal keys. */
  function Compare(a: SortKey, b: SortKey): (r: int)
    ensures r < 0 <==> a.category < b.category || (a.category == b.category && a.arrival < b.arrival)
    ensures r == 0 <==> a == b
  {
    if a.category != b.category then a.category - b.category else a.arrival - b.arrival
  }

  /** The comparator is antisymmetric, so the order it induces is total. */
  lemma CompareAntisymmetric(a: SortKey, b: SortKey)
    ensures Compare(a, b) == -Compare(b, a)
  {
  }

  ghost predicate SortedBy<T>(s: seq<T>, key: T -> SortKey) {
    forall i, j :: 0 <= i < j < |s| ==> Compare(key(s[i]), key(s[j])) <= 0
  }

  /** Inserts `x` after every entry of `t` whose key is not greater. */
  function Insert<T>(t: seq<T>, x: T, key: T -> SortKey): seq<T> {
    if t == [] || Compare(key(t[|t| - 1]), key(x)) <= 0 then t + [x]
    else Insert(t[..|t| - 1], x, key) + [t[|t| - 1]]
  }

  function Sort<T>(s: seq<T>, key: T -> SortKey): seq<T> {
    if s == [] then [] else Insert(Sort(s[..|s| - 1], key), s[|s| - 1], key)
  }

  /** The entries of `s` whose key is `k`, in their order in `s`. */
  function KeyClass<T>(s: seq<T>, key: T -> SortKey, k: SortKey): seq<T> {
    Seqs.Filter(s, HasKey(key, k))
  }

  function HasKey<T>(key: T -> SortKey, k: SortKey): T -> bool { x => key(x) == k }

  lemma {:induction false} InsertPermutes<T>(t: seq<T>, x: T, key: T -> SortKey)
    ensures multiset(Insert(t, x, key)) == multiset(t) + multiset{x}
  {
    if t != [] && Compare(key(t[|t| - 1]), key(x)) > 0 {
      InsertPermutes(t[..|t| - 1], x, key);
      assert t == t[..|t| - 1] + [t[|t| - 1]];
    }
  }

  lemma {:induction false} InsertSorted<T>(t: seq<T>, x: T, key: T -> SortKey)
    requires SortedBy(t, key)
    ensures SortedBy(Insert(t, x, key), key)
    ensures |Insert(t, x, key)| == |t| + 1
  {
    if t == [] || Compare(key(t[|t| - 1]), key(x)) <= 0 {
      var r := t + [x];
      forall i, j | 0 <= i < j < |r| ensures Compare(key(r[i]), key(r[j])) <= 0 {
        if j == |t| && i < |t| - 1 {
          CompareTransitive(key(t[i]), key(t[|t| - 1]), key(x));
        }
      }
    } else {
      var t', last := t[..|t| - 1], t[|t| - 1];
      InsertSorted(t', x, key);
      InsertPermutes(t', x, key);
      var r' := Insert(t', x, key);
      var r := r' + [last];
      forall i, j | 0 <= i < j < |r| ensures Compare(key(r[i]), key(r[j])) <= 0 {
        if j == |r'| {
          // r'[i] is x or an entry of t', all of which sort before `last`
          assert r'[i] in multiset(r');
          assert r'[i] in multiset(t') + multiset{x};
          if r'[i] == x {
            CompareAntisymmetric(key(last), key(x));
          } else {
            var m :| 0 <= m < |t'| && t'[m] == r'[i];
            assert t[m] == t'[m];
          }
        }
      }
    }
  }

  lemma CompareTransitive(a: SortKey, b: SortKey, c: SortKey)
    requires Compare(a, b) <= 0 && Compare(b, c) <= 0
    ensures Compare(a, c) <= 0
  {
  }

  /** The sort returns a rearrangement of its input. */
  lemma {:induction false} SortPermutes<T>(s: seq<T>, key: T -> SortKey)
    ensures multiset(Sort(s, key)) == multiset(s)
    ensures |Sort(s, key)| == |s|
  {
    if s != [] {
      SortPermutes(s[..|s| - 1], key);
      InsertPermutes(Sort(s[..|s| - 1], key), s[|s| - 1], key);
      assert s == s[..|s| - 1] + [s[|s| - 1]];
    }
  }

  /** The sort's output is ordered by category, then arrival. */
  lemma {:induction false} SortSorts<T>(s: seq<T>, key: T -> SortKey)
    ensures SortedBy(Sort(s, key), key)
  {
    if s != [] {
      SortSorts(s[..|s| - 1], key);
      InsertSorted(Sort(s[..|s| - 1], key), s[|s| - 1], key);
    }
  }

  lemma {:induction false} InsertKeyClass<T>(t: seq<T>, x: T, key: T -> SortKey, k: SortKey)
    ensures KeyClass(Insert(t, x, key), key, k) == KeyClass(t, key, k) + KeyClass([x], key, k)
  {
    if t == [] || Compare(key(t[|t| - 1]), key(x)) <= 0 {
      Seqs.FilterConcat(t, [x], HasKey(key, k));
    } else {
      var t', last := t[..|t| - 1], t[|t| - 1];
      assert t == t' + [last];
      assert Insert(t, x, key) == Insert(t', x, key) + [last];
      InsertKeyClass(t', x, key, k);
      ClassOfSnoc(Insert(t', x, key), last, key, k);
      ClassOfSnoc(t', last, key, k);
      ClassesOfDistinctKeysCommute(x, last, key, k);
    }
  }

  /** One-element classes of two entries with different keys commute. */
  lemma ClassesOfDistinctKeysCommute<T>(x: T, y: T, key: T -> SortKey, k: SortKey)
    requires key(x) != key(y)
    ensures KeyClass([x], key, k) + (if key(y) == k then [y] else []) ==
            (if key(y) == k then [y] else []) + KeyClass([x], key, k)
  {
    ClassOfSingleton(x, key, k);
  }

  lemma ClassOfSingleton<T>(x: T, key: T -> SortKey, k: SortKey)
    ensures KeyClass([x], key, k) == if key(x) == k then [x] else []
  {
    assert [x][1..] == [];
  }

  /** Stability: among entries with equal keys the input order is kept. */
  lemma {:induction false} SortIsStable<T>(s: seq<T>, key: T -> SortKey, k: SortKey)
    ensures KeyClass(Sort(s, key), key, k) == KeyClass(s, key, k)
  {
    if s != [] {
      var s', last := s[..|s| - 1], s[|s| - 1];
      assert s == s' + [last];
      assert Sort(s, key) == Insert(Sort(s', key), last, key);
      SortIsStable(s', key, k);
      InsertKeyClass(Sort(s', key), last, key, k);
      ClassOfSnoc(s', last, key, k);
      ClassOfSingleton(last, key, k);
    }
  }

  /** Sorting an already sorted list returns it unchanged. */
  lemma {:induction false} SortFixesSorted<T>(s: seq<T>, key: T -> SortKey)
    requires SortedBy(s, key)
    ensures Sort(s, key) == s
  {
    if s != [] {
      var s', last := s[..|s| - 1], s[|s| - 1];
      assert SortedBy(s', key);
      SortFixesSorted(s', key);
      assert Sort(s, key) == Insert(s', last, key);
      if s' != [] {
        assert Compare(key(s'[|s'| - 1]), key(last)) <= 0;
      }
      assert Insert(s', last, key) == s' + [last];
      assert s == s' + [last];
    }
  }

  /** Per-category counts survive the sort. */
  lemma {:induction false} SortKeepsCounts<T>(s: seq<T>, key: T -> SortKey, p: T -> bool)
    ensures Seqs.Count(Sort(s, key), p) == Seqs.Count(s, p)
  {
    if s != [] {
      var s', last := s[..|s| - 1], s[|s| - 1];
      SortKeepsCounts(s', key, p);
      InsertKeepsCounts(Sort(s', key), last, key, p);
      Seqs.CountConcat(s', [last], p);
      assert s == s' + [last];
    }
  }

  lemma {:induction false} InsertKeepsCounts<T>(t: seq<T>, x: T, key: T -> SortKey, p: T -> bool)
    ensures Seqs.Count(Insert(t, x, key), p) == Seqs.Count(t, p) + Seqs.Count([x], p)
  {
    if t == [] || Compare(key(t[|t| - 1]), key(x)) <= 0 {
      Seqs.CountConcat(t, [x], p);
    } else {
      var t', last := t[..|t| - 1], t[|t| - 1];
      InsertKeepsCounts(t', x, key, p);
      Seqs.CountConcat(Insert(t', x, key), [last], p);
      Seqs.CountConcat(t', [last], p);
      assert t == t' + [last];
    }
  }

  /** A sorted list is determined by its key classes: so any stable sort
      with this comparator (JavaScript's included) returns exactly `Sort`. */
  lemma SortIsTheStableSort<T>(s: seq<T>, r: seq<T>, key: T -> SortKey)
    requires SortedBy(r, key)
    requires forall k :: KeyClass(r, key, k) == KeyClass(s, key, k)
    ensures r == Sort(s, key)
  {
    SortSorts(s, key);
    forall k ensures KeyClass(r, key, k) == KeyClass(Sort(s, key), key, k) {
      SortIsStable(s, key, k);
    }
    SortedWithSameClassesEqual(r, Sort(s, key), key);
  }

  lemma {:induction false} SortedWithSameClassesEqual<T>(a: seq<T>, b: seq<T>, key: T -> SortKey)
    requires SortedBy(a, key) && SortedBy(b, key)
    requires forall k :: KeyClass(a, key, k) == KeyClass(b, key, k)
    ensures a == b
    decreases |a| + |b|
  {
    if a == [] || b == [] {
      if a != [] {
        ClassOfMemberNonEmpty(a, key, |a| - 1);
      } else if b != [] {
        ClassOfMemberNonEmpty(b, key, |b| - 1);
      }
    } else {
      LastEntriesAgree(a, b, a[..|a| - 1], b[..|b| - 1], key);
      SortedPrefix(a, key);
      SortedPrefix(b, key);
      SortedWithSameClassesEqual(a[..|a| - 1], b[..|b| - 1], key);
      assert a == a[..|a| - 1] + [a[|a| - 1]];
      assert b == b[..|b| - 1] + [b[|b| - 1]];
    }
  }

  /** Two sorted lists with the same key classes end in the same entry, and
      without it they still have the same key classes. */
  lemma LastEntriesAgree<T>(a: seq<T>, b: seq<T>, a': seq<T>, b': seq<T>, key: T -> SortKey)
    requires a != [] && b != [] && SortedBy(a, key) && SortedBy(b, key)
    requires forall k :: KeyClass(a, key, k) == KeyClass(b, key, k)
    requires a' == a[..|a| - 1] && b' == b[..|b| - 1]
    ensures a[|a| - 1] == b[|b| - 1]
    ensures forall k :: KeyClass(a', key, k) == KeyClass(b', key, k)
  {
    var la, lb := a[|a| - 1], b[|b| - 1];
    LastHasGreatestKey(a, b, key);
    LastHasGreatestKey(b, a, key);
    CompareAntisymmetric(key(la), key(lb));
    forall k ensures KeyClass(a', key, k) == KeyClass(b', key, k) {
      DropLastKeepsClasses(a, b, key, k);
    }
    DropLastKeepsClasses(a, b, key, key(la));
  }

  /** Removing the last entries, which share a key, keeps the key classes equal,
      and the two last entries are then the same. */
  lemma DropLastKeepsClasses<T>(a: seq<T>, b: seq<T>, key: T -> SortKey, k: SortKey)
    requires a != [] && b != []
    requires key(a[|a| - 1]) == key(b[|b| - 1])
    requires KeyClass(a, key, k) == KeyClass(b, key, k)
    ensures KeyClass(a[..|a| - 1], key, k) == KeyClass(b[..|b| - 1], key, k)
    ensures key(a[|a| - 1]) == k ==> a[|a| - 1] == b[|b| - 1]
  {
    var a', la := a[..|a| - 1], a[|a| - 1];
    var b', lb := b[..|b| - 1], b[|b| - 1];
    assert a == a' + [la] && b == b' + [lb];
    ClassOfSnoc(a', la, key, k);
    ClassOfSnoc(b', lb, key, k);
    var p, q := KeyClass(a', key, k), KeyClass(b', key, k);
    if key(la) == k {
      SnocInjective(p, la, q, lb);
    } else {
      assert p + [] == p && q + [] == q;
    }
  }

  lemma SnocInjective<T>(p: seq<T>, x: T, q: seq<T>, y: T)
    requires p + [x] == q + [y]
    ensures p == q && x == y
  {
    assert p == (p + [x])[..|p|];
    assert q == (q + [y])[..|q|];
    assert x == (p + [x])[|p|];
  }

  lemma SortedPrefix<T>(s: seq<T>, key: T -> SortKey)
    requires s != [] && SortedBy(s, key)
    ensures SortedBy(s[..|s| - 1], key)
  {
  }

  lemma ClassOfSnoc<T>(s: seq<T>, x: T, key: T -> SortKey, k: SortKey)
    ensures KeyClass(s + [x], key, k) == KeyClass(s, key, k) + (if key(x) == k then [x] else [])
  {
    Seqs.FilterConcat(s, [x], HasKey(key, k));
  }

  /** The last entry of a sorted list has a key no smaller than that of
      the last entry of a list with the same key classes. */
  lemma LastHasGreatestKey<T>(a: seq<T>, b: seq<T>, key: T -> SortKey)
    requires a != [] && b != []
    requires SortedBy(a, key)
    requires KeyClass(a, key, key(b[|b| - 1])) == KeyClass(b, key, key(b[|b| - 1]))
    ensures Compare(key(b[|b| - 1]), key(a[|a| - 1])) <= 0
  {
    var kb := key(b[|b| - 1]);
    ClassOfMemberNonEmpty(b, key, |b| - 1);
    var i := Seqs.FirstSurvivor(a, HasKey(key, kb));
    assert key(a[i]) == kb;
    SortedLastIsGreatest(a, key, i);
  }

  lemma SortedLastIsGreatest<T>(s: seq<T>, key: T -> SortKey, i: nat)
    requires i < |s| && SortedBy(s, key)
    ensures Compare(key(s[i]), key(s[|s| - 1])) <= 0
  {
    if i < |s| - 1 {
      assert Compare(key(s[i]), key(s[|s| - 1])) <= 0;
    }
  }

  lemma {:induction false} ClassOfMemberNonEmpty<T>(s: seq<T>, key: T -> SortKey, i: nat)
    requires i < |s|
    ensures KeyClass(s, key, key(s[i])) != []
  {
    if i > 0 {
      ClassOfMemberNonEmpty(s[1..], key, i - 1);
    }
  }
}
