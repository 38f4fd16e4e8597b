/** Lists of ids as sorted sets: the one order everything that is hashed or submitted is put in. */
module SortedSets {

  function Insert(x: nat, v: seq<nat>): seq<nat> {
    if v == [] || x <= v[0] then [x] + v else [v[0]] + Insert(x, v[1..])
  }

  /** `v.sort()`. */
  function Sort(v: seq<nat>): seq<nat> {
    if v == [] then [] else Insert(v[0], Sort(v[1..]))
  }

  /** `v.dedup()`: of neighbours that are equal the first stays. */
  function Dedup(v: seq<nat>): seq<nat> {
    if |v| < 2 then v
    else if v[0] == v[1] then Dedup(v[1..])
    else [v[0]] + Dedup(v[1..])
  }

  predicate Ascending(v: seq<nat>) {
    forall i, j :: 0 <= i < j < |v| ==> v[i] <= v[j]
  }

  predicate StrictlyAscending(v: seq<nat>) {
    forall i, j :: 0 <= i < j < |v| ==> v[i] < v[j]
  }

  ghost predicate SameElements(a: seq<nat>, b: seq<nat>) {
    forall x :: x in a <==> x in b
  }

  lemma {:induction false} InsertSorts(x: nat, v: seq<nat>)
    requires Ascending(v)
    ensures Ascending(Insert(x, v))
  {
    if v != [] && x > v[0] {
      InsertSorts(x, v[1..]);
      var r := Insert(x, v[1..]);
      forall k | 0 <= k < |r| ensures v[0] <= r[k] {
        InsertHolds(x, v[1..], r[k]);
        assert r[k] in r;
      }
    }
  }

  lemma {:induction false} InsertHolds(x: nat, v: seq<nat>, y: nat)
    ensures y in Insert(x, v) <==> y == x || y in v
  {
    if v != [] && x > v[0] {
      InsertHolds(x, v[1..], y);
      assert v == [v[0]] + v[1..];
    }
  }

  lemma {:induction false} InsertCounts(x: nat, v: seq<nat>)
    ensures multiset(Insert(x, v)) == multiset(v) + multiset{x}
  {
    if v != [] && x > v[0] {
      InsertCounts(x, v[1..]);
      assert v == [v[0]] + v[1..];
    }
  }

  lemma {:induction false} SortSorts(v: seq<nat>)
    ensures Ascending(Sort(v)) && multiset(Sort(v)) == multiset(v)
  {
    if v != [] {
      SortSorts(v[1..]);
      InsertSorts(v[0], Sort(v[1..]));
      InsertCounts(v[0], Sort(v[1..]));
      assert v == [v[0]] + v[1..];
    }
  }

  lemma {:induction false} DedupAscends(v: seq<nat>)
    requires Ascending(v)
    ensures StrictlyAscending(Dedup(v)) && SameElements(v, Dedup(v))
    ensures v != [] ==> Dedup(v) != [] && Dedup(v)[0] == v[0]
  {
    if |v| >= 2 {
      DedupAscends(v[1..]);
      assert v[1..][0] == v[1];
      assert v == [v[0]] + v[1..];
    }
  }

  /** A strictly ascending list is determined by its elements. */
  lemma {:induction false} AscendingUnique(a: seq<nat>, b: seq<nat>)
    requires StrictlyAscending(a) && StrictlyAscending(b) && SameElements(a, b)
    ensures a == b
  {
    assert (a != [] ==> a[0] in a) && (b != [] ==> b[0] in b);
    if a != [] {
      assert a[0] == b[0];
      forall x ensures x in a[1..] <==> x in b[1..] {
        assert x in a <==> x == a[0] || x in a[1..];
        assert x in b <==> x == b[0] || x in b[1..];
      }
      AscendingUnique(a[1..], b[1..]);
      assert a == [a[0]] + a[1..] && b == [b[0]] + b[1..];
    }
  }

  function SortedUnique(v: seq<nat>): seq<nat> {
    Dedup(Sort(v))
  }

  lemma SortedUniqueIsTheSet(v: seq<nat>)
    ensures StrictlyAscending(SortedUnique(v)) && SameElements(v, SortedUnique(v))
  {
    SortSorts(v);
    DedupAscends(Sort(v));
    assert forall x :: x in v <==> x in multiset(v);
    assert forall x :: x in Sort(v) <==> x in multiset(Sort(v));
  }

  /** Sorting and removing duplicates changes nothing exactly when there was nothing to do. */
  lemma SortedUniqueFixed(v: seq<nat>)
    ensures SortedUnique(v) == v <==> StrictlyAscending(v)
  {
    SortedUniqueIsTheSet(v);
    if StrictlyAscending(v) {
      AscendingUnique(v, SortedUnique(v));
    }
  }

  /** Lists with the same elements have the same sorted set. */
  lemma SortedUniqueOfSet(a: seq<nat>, b: seq<nat>)
    requires SameElements(a, b)
    ensures SortedUnique(a) == SortedUnique(b)
  {
    SortedUniqueIsTheSet(a);
    SortedUniqueIsTheSet(b);
    AscendingUnique(SortedUnique(a), SortedUnique(b));
  }

  /** The suite's helper: sorts its vector, then removes duplicates. */
  method SortedUniqueU256(ids: seq<nat>) returns (v: seq<nat>)
    ensures v == SortedUnique(ids)
    ensures StrictlyAscending(v) && SameElements(ids, v)
  {
    v := ids;
    v := Sort(v);
    v := Dedup(v);
    SortedUniqueIsTheSet(ids);
  }
}
