/** A draft's aggregation: witnesses in the order of the submitted ids, and the proof's wire format. */
module ProofOrder {
  import opened Octets
  import opened Wrappers
  import opened SortedSets

  // ----- the order of witnesses -----

  datatype Receipt<T> = Receipt(suId: nat, report: T)

  function InsertByKey<T>(r: Receipt<T>, v: seq<Receipt<T>>): seq<Receipt<T>> {
    if v == [] || r.suId <= v[0].suId then [r] + v else [v[0]] + InsertByKey(r, v[1..])
  }

  /** `sort_by_key`: stable. */
  function SortByKey<T>(v: seq<Receipt<T>>): seq<Receipt<T>> {
    if v == [] then [] else InsertByKey(v[0], SortByKey(v[1..]))
  }

  function Ids<T>(v: seq<Receipt<T>>): (r: seq<nat>)
    ensures |r| == |v|
    ensures forall i :: 0 <= i < |r| ==> r[i] == v[i].suId
  {
    seq(|v|, i requires 0 <= i < |v| => v[i].suId)
  }

  lemma IdsCons<T>(r: Receipt<T>, v: seq<Receipt<T>>)
    ensures Ids([r] + v) == [r.suId] + Ids(v)
  {
  }

  lemma {:induction false} InsertByKeySorts<T>(r: Receipt<T>, v: seq<Receipt<T>>)
    ensures Ids(InsertByKey(r, v)) == Insert(r.suId, Ids(v))
  {
    if v == [] || r.suId <= v[0].suId {
      IdsCons(r, v);
    } else {
      InsertByKeySorts(r, v[1..]);
      assert v == [v[0]] + v[1..];
      IdsCons(v[0], v[1..]);
      IdsCons(v[0], InsertByKey(r, v[1..]));
      assert Ids(v[1..]) == Ids(v)[1..];
    }
  }

  lemma {:induction false} InsertByKeyKeeps<T>(r: Receipt<T>, v: seq<Receipt<T>>)
    ensures multiset(InsertByKey(r, v)) == multiset(v) + multiset{r}
  {
    if v == [] || r.suId <= v[0].suId {
      assert multiset([r] + v) == multiset(v) + multiset{r};
    } else {
      InsertByKeyKeeps(r, v[1..]);
      assert v == [v[0]] + v[1..];
    }
  }

  /** Sorting the receipts sorts their ids. */
  lemma {:induction false} SortByKeySorts<T>(v: seq<Receipt<T>>)
    ensures Ids(SortByKey(v)) == Sort(Ids(v))
  {
    if v == [] {
      assert Ids(v) == [];
    } else {
      hide InsertByKey, Insert;
      SortByKeySorts(v[1..]);
      InsertByKeySorts(v[0], SortByKey(v[1..]));
      assert v == [v[0]] + v[1..];
      IdsCons(v[0], v[1..]);
      assert Ids(v)[1..] == Ids(v[1..]);
    }
  }

  /** Sorting loses and invents no receipt. */
  lemma {:induction false} SortByKeyKeeps<T>(v: seq<Receipt<T>>)
    ensures multiset(SortByKey(v)) == multiset(v)
  {
    if v != [] {
      hide InsertByKey;
      SortByKeyKeeps(v[1..]);
      InsertByKeyKeeps(v[0], SortByKey(v[1..]));
      assert v == [v[0]] + v[1..];
    }
  }

  predicate Distinct<T>(v: seq<Receipt<T>>) {
    forall i, j :: 0 <= i < j < |v| ==> v[i].suId != v[j].suId
  }

  datatype WitnessError = WitnessFailed | OwnerMismatch(suId: nat)

  /** A witness can be built for the receipt, and it states the owner the chain has for its id. */
  ghost predicate Agrees<T, W>(r: Receipt<T>, witnessOf: T -> Option<W>, ownerOf: W -> Bytes, onChain: nat -> Bytes) {
    witnessOf(r.report).Some? && ownerOf(witnessOf(r.report).value) == onChain(r.suId)
  }

  ghost predicate FirstRefused<T, W>(receipts: seq<Receipt<T>>, k: nat, e: WitnessError, witnessOf: T -> Option<W>,
                                     ownerOf: W -> Bytes, onChain: nat -> Bytes)
  {
    && k < |receipts|
    && (forall j :: 0 <= j < k ==> Agrees(receipts[j], witnessOf, ownerOf, onChain))
    && !Agrees(receipts[k], witnessOf, ownerOf, onChain)
    && e == if witnessOf(receipts[k].report).None? then WitnessFailed else OwnerMismatch(receipts[k].suId)
  }

  /** A witness states an owner, and the chain states one; the loop stops at the first disagreement. */
  method BuildWitnesses<T, W>(receipts: seq<Receipt<T>>, witnessOf: T -> Option<W>, ownerOf: W -> Bytes,
                              onChain: nat -> Bytes)
    returns (r: Result<seq<W>, WitnessError>)
    ensures r.Success? ==> |r.value| == |receipts|
    ensures r.Success? ==> forall k :: 0 <= k < |receipts| ==>
              witnessOf(receipts[k].report) == Some(r.value[k]) && Agrees(receipts[k], witnessOf, ownerOf, onChain)
    ensures r.Failure? ==> exists k :: FirstRefused(receipts, k, r.error, witnessOf, ownerOf, onChain)
  {
    var witnesses: seq<W> := [];
    for n := 0 to |receipts|
      invariant |witnesses| == n
      invariant forall k :: 0 <= k < n ==>
                  witnessOf(receipts[k].report) == Some(witnesses[k])
                  && Agrees(receipts[k], witnessOf, ownerOf, onChain)
    {
      var w := witnessOf(receipts[n].report);
      if w.None? {
        assert FirstRefused(receipts, n, WitnessFailed, witnessOf, ownerOf, onChain);
        return Failure(WitnessFailed);
      }
      if onChain(receipts[n].suId) != ownerOf(w.value) {
        assert FirstRefused(receipts, n, OwnerMismatch(receipts[n].suId), witnessOf, ownerOf, onChain);
        return Failure(OwnerMismatch(receipts[n].suId));
      }
      witnesses := witnesses + [w.value];
    }
    return Success(witnesses);
  }

  ghost predicate WitnessOfSome<T, W>(minted: seq<Receipt<T>>, w: W, witnessOf: T -> Option<W>) {
    exists m <- minted :: witnessOf(m.report) == Some(w)
  }

  /** The witness is that of a receipt with this id. */
  ghost predicate OfReceipt<T, W>(minted: seq<Receipt<T>>, id: nat, w: W, witnessOf: T -> Option<W>) {
    exists m <- minted :: m.suId == id && witnessOf(m.report) == Some(w)
  }

  /** Every witness is that of some receipt, and every receipt's is among them. */
  ghost predicate WitnessesOf<T, W>(minted: seq<Receipt<T>>, witnesses: seq<W>, witnessOf: T -> Option<W>) {
    && (forall k :: 0 <= k < |witnesses| ==> WitnessOfSome(minted, witnesses[k], witnessOf))
    && (forall m <- minted :: exists k :: 0 <= k < |witnesses| && witnessOf(m.report) == Some(witnesses[k]))
  }

  lemma WitnessesOfAll<T, W>(minted: seq<Receipt<T>>, receipts: seq<Receipt<T>>, witnesses: seq<W>,
                             witnessOf: T -> Option<W>)
    requires forall m :: m in receipts <==> m in minted
    requires |witnesses| == |receipts|
    requires forall k :: 0 <= k < |receipts| ==> witnessOf(receipts[k].report) == Some(witnesses[k])
    ensures WitnessesOf(minted, witnesses, witnessOf)
  {
    forall k | 0 <= k < |witnesses| ensures WitnessOfSome(minted, witnesses[k], witnessOf) {
      var m := receipts[k];
      assert m in receipts && witnessOf(m.report) == Some(witnesses[k]);
    }
    forall m | m in minted ensures exists k :: 0 <= k < |witnesses| && witnessOf(m.report) == Some(witnesses[k]) {
      var k :| 0 <= k < |receipts| && receipts[k] == m;
      assert witnessOf(m.report) == Some(witnesses[k]);
    }
  }

  /**
   Sorts the receipts, builds the witnesses and the submitted ids. With distinct ids the
   two lists have one order: the k-th witness is that of the receipt with the k-th id.
   */
  method OrderForSubmit<T, W>(minted: seq<Receipt<T>>, witnessOf: T -> Option<W>, ownerOf: W -> Bytes,
                              onChain: nat -> Bytes)
    returns (r: Result<(seq<nat>, seq<W>), WitnessError>)
    ensures r.Success? ==> r.value.0 == SortedUnique(Ids(minted)) && |r.value.1| == |minted|
    ensures r.Success? ==> (|r.value.0| == |r.value.1| <==> Distinct(minted))
    ensures r.Success? <==> forall m <- minted :: Agrees(m, witnessOf, ownerOf, onChain)
    ensures r.Success? ==> WitnessesOf(minted, r.value.1, witnessOf)
    ensures r.Success? && Distinct(minted) ==> forall k :: 0 <= k < |r.value.0| ==>
              && ownerOf(r.value.1[k]) == onChain(r.value.0[k])
              && OfReceipt(minted, r.value.0[k], r.value.1[k], witnessOf)
  {
    hide SortByKey, Sort, SortedUnique, Distinct, WitnessesOf, Agrees;
    var receipts := SortByKey(minted);
    SortedReceipts(minted);
    var ids := Ids(receipts);
    var witnesses :- BuildWitnesses(receipts, witnessOf, ownerOf, onChain);
    var ordered := SortedUniqueU256(ids);
    OrderedIds(minted);
    WitnessesOfAll(minted, receipts, witnesses, witnessOf);
    forall k | 0 <= k < |receipts|
      ensures ownerOf(witnesses[k]) == onChain(ids[k])
      ensures OfReceipt(minted, ids[k], witnesses[k], witnessOf)
    {
      AgreesMeans(receipts[k], witnessOf, ownerOf, onChain);
      assert receipts[k] in receipts;
    }
    return Success((ordered, witnesses));
  }

  lemma AgreesMeans<T, W>(r: Receipt<T>, witnessOf: T -> Option<W>, ownerOf: W -> Bytes, onChain: nat -> Bytes)
    requires Agrees(r, witnessOf, ownerOf, onChain)
    ensures witnessOf(r.report).Some? && ownerOf(witnessOf(r.report).value) == onChain(r.suId)
  {
  }

  lemma SortedReceipts<T>(minted: seq<Receipt<T>>)
    ensures |SortByKey(minted)| == |minted|
    ensures forall m :: m in SortByKey(minted) <==> m in minted
  {
    var receipts := SortByKey(minted);
    SortByKeyKeeps(minted);
    assert |receipts| == |multiset(receipts)| == |minted|;
    forall m ensures m in receipts <==> m in minted {
      assert m in receipts <==> m in multiset(receipts);
      assert m in minted <==> m in multiset(minted);
    }
  }

  lemma {:induction false} DedupShrinks(v: seq<nat>)
    requires Ascending(v)
    ensures |Dedup(v)| <= |v|
    ensures |Dedup(v)| == |v| <==> Dedup(v) == v
  {
    if |v| >= 2 {
      DedupShrinks(v[1..]);
      assert v == [v[0]] + v[1..];
    }
  }

  /** Sorting once or twice is the same, and nothing is dropped exactly when the ids are distinct. */
  lemma OrderedIds<T>(minted: seq<Receipt<T>>)
    ensures var ids := Ids(SortByKey(minted));
            && SortedUnique(ids) == SortedUnique(Ids(minted))
            && (|SortedUnique(ids)| == |minted| <==> Distinct(minted))
            && (Distinct(minted) ==> SortedUnique(ids) == ids)
  {
    var sorted := SortByKey(minted);
    var ids := Ids(sorted);
    SortByKeySorts(minted);
    SortByKeyKeeps(minted);
    SortSorts(Ids(minted));
    forall x ensures x in ids <==> x in Ids(minted) {
      assert x in ids <==> x in multiset(ids);
      assert x in Ids(minted) <==> x in multiset(Ids(minted));
    }
    SortedUniqueOfSet(ids, Ids(minted));
    assert |ids| == |sorted| == |multiset(sorted)| == |minted|;
    DedupShrinks(ids);
    DistinctIsStrict(minted);
    SortedUniqueFixed(ids);
    SortedUniqueIsTheSet(ids);
    SortIsIdempotent(ids);
  }

  lemma {:induction false} SortIsIdempotent(v: seq<nat>)
    requires Ascending(v)
    ensures Sort(v) == v
  {
    if v != [] {
      SortIsIdempotent(v[1..]);
      assert v == [v[0]] + v[1..];
    }
  }

  ghost predicate NoRepeats(v: seq<nat>) {
    v == [] || (v[0] !in v[1..] && NoRepeats(v[1..]))
  }

  lemma {:induction false} InsertRepeats(x: nat, v: seq<nat>)
    ensures NoRepeats(Insert(x, v)) <==> x !in v && NoRepeats(v)
  {
    if v != [] && x > v[0] {
      InsertRepeats(x, v[1..]);
      InsertHolds(x, v[1..], v[0]);
      assert v == [v[0]] + v[1..];
    }
  }

  lemma {:induction false} SortRepeats(v: seq<nat>)
    ensures NoRepeats(Sort(v)) <==> NoRepeats(v)
  {
    if v != [] {
      SortRepeats(v[1..]);
      InsertRepeats(v[0], Sort(v[1..]));
      SortSorts(v[1..]);
      assert v[0] in v[1..] <==> v[0] in multiset(v[1..]);
      assert v[0] in Sort(v[1..]) <==> v[0] in multiset(Sort(v[1..]));
    }
  }

  lemma {:induction false} StrictIsNoRepeats(v: seq<nat>)
    requires Ascending(v)
    ensures NoRepeats(v) <==> StrictlyAscending(v)
  {
    if v != [] {
      StrictIsNoRepeats(v[1..]);
      if NoRepeats(v) {
        forall j | 0 < j < |v| ensures v[0] < v[j] {
          assert v[j] == v[1..][j - 1];
        }
        assert v == [v[0]] + v[1..];
      }
    }
  }

  lemma {:induction false} DistinctIsNoRepeats<T>(v: seq<Receipt<T>>)
    ensures Distinct(v) <==> NoRepeats(Ids(v))
  {
    if v != [] {
      DistinctIsNoRepeats(v[1..]);
      assert Ids(v)[1..] == Ids(v[1..]);
      if Distinct(v) {
        assert forall j :: 0 <= j < |v| - 1 ==> Ids(v[1..])[j] == v[j + 1].suId;
      }
      if NoRepeats(Ids(v)) {
        forall i, j | 0 <= i < j < |v| ensures v[i].suId != v[j].suId {
          assert Ids(v[1..])[j - 1] == v[j].suId && v[1..][j - 1] == v[j];
          assert i > 0 ==> v[1..][i - 1] == v[i];
        }
      }
    }
  }

  /** Distinct ids are strictly ascending once sorted, and only those. */
  lemma DistinctIsStrict<T>(minted: seq<Receipt<T>>)
    ensures Distinct(minted) <==> StrictlyAscending(Sort(Ids(minted)))
  {
    DistinctIsNoRepeats(minted);
    SortRepeats(Ids(minted));
    SortSorts(Ids(minted));
    StrictIsNoRepeats(Sort(Ids(minted)));
  }

  // ----- the proof on the wire -----

  function Words(inputs: seq<Bytes32>): Bytes {
    if inputs == [] then [] else Words(inputs[..|inputs| - 1]) + inputs[|inputs| - 1]
  }

  /** `[count: 4 bytes] ‖ [32-byte words] ‖ [raw proof]`; the count is cast to `u32`. */
  method CombinedProof(inputs: seq<Bytes32>, proof: Bytes) returns (buf: Bytes)
    ensures ParseProof(buf) == Some((inputs, proof)) <==> |inputs| < TWO_32
    ensures |buf| == 4 + 32 * |inputs| + |proof|
  {
    buf := [];
    buf := buf + Be(|inputs| % TWO_32, 4);
    for i := 0 to |inputs|
      invariant buf == Be(|inputs| % TWO_32, 4) + Words(inputs[..i])
    {
      assert inputs[..i + 1][..i] == inputs[..i];
      buf := buf + inputs[i];
    }
    assert inputs[..|inputs|] == inputs;
    buf := buf + proof;
    WordsLength(inputs);
    assert buf == Be(|inputs| % TWO_32, 4) + (Words(inputs) + proof);
    ProofReadsBack(inputs, proof);
  }

  lemma {:induction false} WordsLength(inputs: seq<Bytes32>)
    ensures |Words(inputs)| == 32 * |inputs|
  {
    if inputs != [] {
      WordsLength(inputs[..|inputs| - 1]);
    }
  }

  function ReadWords(m: Bytes, k: nat): seq<Bytes32>
    requires |m| == 32 * k
  {
    if k == 0 then [] else ReadWords(m[..32 * (k - 1)], k - 1) + [m[32 * (k - 1)..]]
  }

  function ParseProof(m: Bytes): Option<(seq<Bytes32>, Bytes)> {
    if |m| < 4 then None
    else
      var k := FromBe(m[..4]);
      if |m| < 4 + 32 * k then None else Some((ReadWords(m[4..4 + 32 * k], k), m[4 + 32 * k..]))
  }

  lemma {:induction false} WordsReadBack(inputs: seq<Bytes32>)
    ensures |Words(inputs)| == 32 * |inputs| && ReadWords(Words(inputs), |inputs|) == inputs
  {
    WordsLength(inputs);
    if inputs != [] {
      var n := |inputs| - 1;
      WordsReadBack(inputs[..n]);
      assert Words(inputs)[..32 * n] == Words(inputs[..n]);
      assert inputs == inputs[..n] + [inputs[n]];
    }
  }

  lemma {:induction false} ReadWordsLength(m: Bytes, k: nat)
    requires |m| == 32 * k
    ensures |ReadWords(m, k)| == k
  {
    if k > 0 {
      ReadWordsLength(m[..32 * (k - 1)], k - 1);
    }
  }

  lemma ParseOfParts(head: Bytes, body: Bytes)
    requires |head| == 4
    ensures ParseProof(head + body)
            == var k := FromBe(head);
               if |body| < 32 * k then None else Some((ReadWords(body[..32 * k], k), body[32 * k..]))
  {
    hide FromBe, ReadWords;
    var m, k := head + body, FromBe(head);
    assert m[..4] == head;
    if |body| >= 32 * k {
      assert m[4..4 + 32 * k] == body[..32 * k];
      assert m[4 + 32 * k..] == body[32 * k..];
    }
  }

  /** The blob parses back exactly when the number of inputs fits its four-byte prefix. */
  lemma ProofReadsBack(inputs: seq<Bytes32>, proof: Bytes)
    ensures ParseProof(Be(|inputs| % TWO_32, 4) + (Words(inputs) + proof)) == Some((inputs, proof))
            <==> |inputs| < TWO_32
  {
    hide Be, FromBe, Words, ReadWords, Pow256, ParseProof;
    var k, body := |inputs| % TWO_32, Words(inputs) + proof;
    Pow256Values();
    BeRoundTrip(k, 4);
    ParseOfParts(Be(k, 4), body);
    WordsReadBack(inputs);
    if |inputs| < TWO_32 {
      assert body[..32 * k] == Words(inputs) && body[32 * k..] == proof;
    } else if |body| >= 32 * k {
      ReadWordsLength(body[..32 * k], k);
    }
  }
}
