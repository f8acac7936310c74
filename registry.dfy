/** The list operations the dashboard applies to its registries (hospitals,
    capacity types, service groups) and to the PVA list of a cell:
    append, replace every entry with a given id (`map`), and remove every
    entry with a given id (`filter`). Generic in the entry type; `id` reads
    an entry's id. */
module Registry {
  import Seqs

  /** The three mutations: `add` appends the entry, `edit` replaces the
      entries sharing its id, `delete` drops the entries with the id. */
  datatype Action<T> = Add(entry: T) | Edit(entry: T) | Delete(id: int)

  function HasId<T>(id: T -> int, k: int): T -> bool { x => id(x) == k }

  function LacksId<T>(id: T -> int, k: int): T -> bool { x => id(x) != k }

  /** How many entries carry id `k`. */
  function CountId<T>(s: seq<T>, k: int, id: T -> int): nat {
    Seqs.Count(s, HasId(id, k))
  }

  /** `list.map(x => x.id === e.id ? e : x)`: same length and positions,
      entries with another id untouched, entries with `e`'s id become `e`. */
  function ReplaceById<T>(s: seq<T>, e: T, id: T -> int): (r: seq<T>)
    ensures |r| == |s|
    ensures forall i :: 0 <= i < |s| && id(s[i]) != id(e) ==> r[i] == s[i]
    ensures forall i :: 0 <= i < |s| && id(s[i]) == id(e) ==> r[i] == e
  {
    seq(|s|, i requires 0 <= i < |s| => if id(s[i]) == id(e) then e else s[i])
  }

  /** `list.filter(x => x.id !== k)`. */
  function RemoveById<T>(s: seq<T>, k: int, id: T -> int): seq<T> {
    Seqs.Filter(s, LacksId(id, k))
  }

  function Apply<T>(s: seq<T>, a: Action<T>, id: T -> int): seq<T> {
    match a
    case Add(e) => s + [e]
    case Edit(e) => ReplaceById(s, e, id)
    case Delete(k) => RemoveById(s, k, id)
  }

  /** Delete removes exactly the entries with the id, keeping the others
      in their order and with their multiplicity, and shortens the list by
      their number. */
  lemma RemoveByIdRemovesExactly<T>(s: seq<T>, k: int, id: T -> int)
    ensures forall x :: x in RemoveById(s, k, id) <==> x in s && id(x) != k
    ensures |RemoveById(s, k, id)| == |s| - CountId(s, k, id)
    ensures |RemoveById(s, k, id)| == |Seqs.Positions(s, LacksId(id, k), 0)|
    ensures forall i :: 0 <= i < |RemoveById(s, k, id)| ==>
      RemoveById(s, k, id)[i] == s[Seqs.Positions(s, LacksId(id, k), 0)[i]]
    ensures multiset(RemoveById(s, k, id)) == multiset(s) - multiset(Seqs.Filter(s, HasId(id, k)))
  {
    forall x ensures x in RemoveById(s, k, id) <==> x in s && id(x) != k {
      Seqs.FilterMembership(s, LacksId(id, k), x);
    }
    RemoveCountsMatching(s, k, id);
    assert s[0..] == s;
    Seqs.FilterKeepsOrder(s, LacksId(id, k), 0);
    Seqs.FilterSplitsMultiset(s, HasId(id, k), LacksId(id, k));
  }

  lemma {:induction false} RemoveCountsMatching<T>(s: seq<T>, k: int, id: T -> int)
    ensures |RemoveById(s, k, id)| + CountId(s, k, id) == |s|
  {
    if s != [] {
      RemoveCountsMatching(s[1..], k, id);
    }
  }

  /** Deleting an id that no entry carries leaves the list unchanged. */
  lemma DeleteAbsentIsNoOp<T>(s: seq<T>, k: int, id: T -> int)
    requires CountId(s, k, id) == 0
    ensures Apply(s, Delete(k), id) == s
  {
    Seqs.CountZero(s, HasId(id, k));
    Seqs.FilterKeepsAll(s, LacksId(id, k));
  }

  /** Editing an entry whose id no entry carries leaves the list unchanged. */
  lemma EditAbsentIsNoOp<T>(s: seq<T>, e: T, id: T -> int)
    requires CountId(s, id(e), id) == 0
    ensures Apply(s, Edit(e), id) == s
  {
    Seqs.CountZero(s, HasId(id, id(e)));
  }

  /** A second delete of the same id changes nothing. */
  lemma DeleteIsIdempotent<T>(s: seq<T>, k: int, id: T -> int)
    ensures Apply(Apply(s, Delete(k), id), Delete(k), id) == Apply(s, Delete(k), id)
  {
    Seqs.FilterIdempotent(s, LacksId(id, k));
  }

  /** Adding an entry with a fresh id and then editing that id yields the
      list with the edited entry appended: exactly one entry has the id. */
  lemma AddThenEdit<T>(s: seq<T>, e: T, e': T, id: T -> int)
    requires CountId(s, id(e), id) == 0
    requires id(e') == id(e)
    ensures Apply(Apply(s, Add(e), id), Edit(e'), id) == s + [e']
    ensures CountId(s + [e'], id(e), id) == 1
  {
    Seqs.CountZero(s, HasId(id, id(e)));
    Seqs.CountConcat(s, [e'], HasId(id, id(e)));
  }

  /** Deleting the id of an entry just added with a fresh id restores the list. */
  lemma AddThenDelete<T>(s: seq<T>, e: T, id: T -> int)
    requires CountId(s, id(e), id) == 0
    ensures Apply(Apply(s, Add(e), id), Delete(id(e)), id) == s
  {
    Seqs.FilterConcat(s, [e], LacksId(id, id(e)));
    DeleteAbsentIsNoOp(s, id(e), id);
  }

  /** Editing keeps how many entries carry each id. */
  lemma {:induction false} EditKeepsIdCounts<T>(s: seq<T>, e: T, k: int, id: T -> int)
    ensures CountId(Apply(s, Edit(e), id), k, id) == CountId(s, k, id)
  {
    if s != [] {
      var r := ReplaceById(s, e, id);
      assert r[1..] == ReplaceById(s[1..], e, id);
      EditKeepsIdCounts(s[1..], e, k, id);
    }
  }
}
