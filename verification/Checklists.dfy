/** Checks in an order: which of a list fails first, and how lists of checks compose. */
module Checklists {

  /** One check: whether it passes, and the error it stands for. */
  datatype Check<E> = Check(ok: bool, error: E)

  predicate Passes<E>(list: seq<Check<E>>) {
    forall i :: 0 <= i < |list| ==> list[i].ok
  }

  function Flat<E>(parts: seq<seq<Check<E>>>): seq<Check<E>> {
    if parts == [] then [] else Flat(parts[..|parts| - 1]) + parts[|parts| - 1]
  }

  /** The `k`-th check of the list is the first that fails. */
  ghost predicate FailsAt<E>(list: seq<Check<E>>, k: nat) {
    k < |list| && !list[k].ok && Passes(list[..k])
  }

  ghost predicate FailsWith<E>(list: seq<Check<E>>, e: E) {
    exists k: nat :: FailsAt(list, k) && list[k].error == e
  }

  lemma PassesEach<E>(list: seq<Check<E>>, k: nat)
    requires k <= |list| && Passes(list[..k])
    ensures forall j :: 0 <= j < k ==> list[j].ok
  {
  }

  lemma FirstFailureUnique<E>(list: seq<Check<E>>, j: nat, k: nat)
    requires FailsAt(list, j) && FailsAt(list, k)
    ensures j == k
  {
  }

  lemma PassOrFail<E>(list: seq<Check<E>>, e: E)
    requires FailsWith(list, e)
    ensures !Passes(list)
  {
  }

  lemma FailsWithMember<E>(list: seq<Check<E>>, e: E)
    ensures FailsWith(list, e) ==> exists k :: 0 <= k < |list| && list[k].error == e
  {
  }

  lemma FailsInside<E>(pre: seq<Check<E>>, mid: seq<Check<E>>, post: seq<Check<E>>, e: E)
    requires Passes(pre) && FailsWith(mid, e)
    ensures FailsWith(pre + mid + post, e)
  {
    var k: nat :| FailsAt(mid, k) && mid[k].error == e;
    assert (pre + mid + post)[..|pre| + k] == pre + mid[..k];
    assert FailsAt(pre + mid + post, |pre| + k);
  }

  lemma PassesTogether<E>(a: seq<Check<E>>, b: seq<Check<E>>)
    ensures Passes(a + b) <==> Passes(a) && Passes(b)
  {
    assert forall i :: 0 <= i < |b| ==> (a + b)[|a| + i] == b[i];
    assert forall i :: 0 <= i < |a| ==> (a + b)[i] == a[i];
  }

  lemma {:induction false} FlatPasses<E>(parts: seq<seq<Check<E>>>)
    ensures Passes(Flat(parts)) <==> forall k :: 0 <= k < |parts| ==> Passes(parts[k])
  {
    if parts == [] {
    } else {
      var n := |parts| - 1;
      FlatPasses(parts[..n]);
      PassesTogether(Flat(parts[..n]), parts[n]);
      assert forall k :: 0 <= k < n ==> parts[..n][k] == parts[k];
    }
  }

  /** The first failing check of the first failing part is the first failing check. */
  lemma {:induction false} FlatFails<E>(parts: seq<seq<Check<E>>>, k: nat, e: E)
    requires k < |parts| && FailsWith(parts[k], e)
    requires forall j :: 0 <= j < k ==> Passes(parts[j])
    ensures FailsWith(Flat(parts), e)
  {
    var n := |parts| - 1;
    if k == n {
      FlatPasses(parts[..n]);
      FailsInside(Flat(parts[..n]), parts[n], [], e);
      assert Flat(parts[..n]) + parts[n] + [] == Flat(parts);
    } else {
      FlatFails(parts[..n], k, e);
      FailsInside([], Flat(parts[..n]), parts[n], e);
      assert [] + Flat(parts[..n]) + parts[n] == Flat(parts);
    }
  }

  /** A failing flat list fails first in one of its parts, after passing all earlier ones. */
  lemma {:induction false} FailingPart<E>(parts: seq<seq<Check<E>>>, e: E) returns (k: nat)
    requires FailsWith(Flat(parts), e)
    ensures k < |parts| && FailsWith(parts[k], e)
    ensures forall j :: 0 <= j < k ==> Passes(parts[j])
  {
    var n := |parts| - 1;
    var head := Flat(parts[..n]);
    var m: nat :| FailsAt(Flat(parts), m) && Flat(parts)[m].error == e;
    if m < |head| {
      assert Flat(parts)[..m] == head[..m];
      assert FailsAt(head, m);
      k := FailingPart(parts[..n], e);
    } else {
      k := n;
      assert Flat(parts)[..m] == head + parts[n][..m - |head|];
      PassesTogether(head, parts[n][..m - |head|]);
      FlatPasses(parts[..n]);
      assert forall j :: 0 <= j < n ==> parts[..n][j] == parts[j];
      assert FailsAt(parts[n], m - |head|);
    }
  }
}
