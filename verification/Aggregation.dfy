/** The wallet's aggregation slots, and the draft whose proof inputs follow the order of its submitted ids. */
module Aggregation {
  import opened Octets
  import opened Wrappers
  import opened Checklists
  import opened SortedSets
  import opened SealedBatches
  import opened Records
  import opened ProofOrder

  /** What the wallet states about one owned unit, as it crosses the boundary. */
  datatype OwnershipWitness = OwnershipWitness(pkX: Bytes, pkY: Bytes, signature: Bytes, nonce: Bytes,
                                               derivedOwner: Bytes, nftHash: Bytes, binding: Bytes)

  /** One slot of the circuit: the private witness, then the public inputs, as field elements. */
  datatype Slot = Slot(pkX: nat, pkY: nat, signature: Bytes, nonce: nat, owner: nat, nftHash: nat, binding: nat)

  datatype SlotError =
    | NoWitnesses
    | DifferentBinding(index: nat)
    | WidthOf(what: string, got: nat)
    | NotInField(what: string)

  function Field32(v: Bytes, what: string): Result<nat, SlotError> {
    if |v| != 32 then Failure(WidthOf(what, |v|))
    else if FromBe(v) >= BN254_R then Failure(NotInField(what))
    else Success(FromBe(v))
  }

  type SlotCheck = Check<SlotError>

  function FieldCheck(v: Bytes, what: string): SlotCheck {
    Check(Canonical(v), if |v| != 32 then WidthOf(what, |v|) else NotInField(what))
  }

  /** The checks of the `k`-th witness, in their order. */
  function SlotChecks(w: OwnershipWitness, binding: nat, k: nat): (r: seq<SlotCheck>)
    ensures |r| == 7
  {
    [Check(w.binding == Be(binding, 32), DifferentBinding(k)), FieldCheck(w.pkX, "pk_x"), FieldCheck(w.pkY, "pk_y"),
     Check(|w.signature| == 64, WidthOf("signature", |w.signature|)), FieldCheck(w.nonce, "nonce"),
     FieldCheck(w.derivedOwner, "derived_owner"), FieldCheck(w.nftHash, "nft_hash")]
  }

  /** The witness commits to the shared binding, and everything in it is a canonical field element. */
  ghost predicate Admissible(w: OwnershipWitness, binding: nat) {
    && w.binding == Be(binding, 32)
    && Canonical(w.pkX) && Canonical(w.pkY) && |w.signature| == 64 && Canonical(w.nonce)
    && Canonical(w.derivedOwner) && Canonical(w.nftHash)
  }

  /** The slot has the witness's bytes, value for value. */
  ghost predicate States(s: Slot, w: OwnershipWitness, binding: nat) {
    && Be(s.pkX, 32) == w.pkX && Be(s.pkY, 32) == w.pkY && s.signature == w.signature && Be(s.nonce, 32) == w.nonce
    && Be(s.owner, 32) == w.derivedOwner && Be(s.nftHash, 32) == w.nftHash && s.binding == binding
  }

  /** The `k`-th witness is the first refused, with its own first failing check. */
  ghost predicate RefusedFirst(ws: seq<OwnershipWitness>, binding: nat, k: nat, e: SlotError) {
    && k < |ws|
    && (forall j :: 0 <= j < k ==> Admissible(ws[j], binding))
    && FailsWith(SlotChecks(ws[k], binding, k), e)
  }

  lemma AdmissibleExactly(w: OwnershipWitness, binding: nat, k: nat)
    ensures Passes(SlotChecks(w, binding, k)) <==> Admissible(w, binding)
  {
    hide Canonical, Be;
    var a := SlotChecks(w, binding, k);
    assert Passes(a) <==> a[0].ok && a[1].ok && a[2].ok && a[3].ok && a[4].ok && a[5].ok && a[6].ok;
  }

  method BuildSlot(w: OwnershipWitness, binding: nat, k: nat) returns (r: Result<Slot, SlotError>)
    ensures r.Success? ==> Admissible(w, binding) && States(r.value, w, binding)
    ensures r.Failure? ==> FailsWith(SlotChecks(w, binding, k), r.error)
  {
    hide Be, FromBe;
    ghost var list := SlotChecks(w, binding, k);
    if w.binding != Be(binding, 32) {
      assert FailsAt(list, 0);
      return Failure(DifferentBinding(k));
    }
    var pkX := Field32(w.pkX, "pk_x");
    if pkX.Failure? {
      assert FailsAt(list, 1);
      return Failure(pkX.error);
    }
    var pkY := Field32(w.pkY, "pk_y");
    if pkY.Failure? {
      assert FailsAt(list, 2);
      return Failure(pkY.error);
    }
    if |w.signature| != 64 {
      assert FailsAt(list, 3);
      return Failure(WidthOf("signature", |w.signature|));
    }
    var nonce := Field32(w.nonce, "nonce");
    if nonce.Failure? {
      assert FailsAt(list, 4);
      return Failure(nonce.error);
    }
    var owner := Field32(w.derivedOwner, "derived_owner");
    if owner.Failure? {
      assert FailsAt(list, 5);
      return Failure(owner.error);
    }
    var nftHash := Field32(w.nftHash, "nft_hash");
    if nftHash.Failure? {
      assert FailsAt(list, 6);
      return Failure(nftHash.error);
    }
    BeOfFromBe(w.pkX);
    BeOfFromBe(w.pkY);
    BeOfFromBe(w.nonce);
    BeOfFromBe(w.derivedOwner);
    BeOfFromBe(w.nftHash);
    return Success(Slot(pkX.value, pkY.value, w.signature, nonce.value, owner.value, nftHash.value, binding));
  }

  /** One slot per witness, in their order, or the first witness that cannot be aggregated, and why. */
  method BuildSlots(ws: seq<OwnershipWitness>, binding: nat) returns (r: Result<seq<Slot>, SlotError>)
    ensures r.Success? <==> ws != [] && forall w <- ws :: Admissible(w, binding)
    ensures r.Success? ==> |r.value| == |ws| && forall k :: 0 <= k < |ws| ==> States(r.value[k], ws[k], binding)
    ensures r.Failure? ==> if ws == [] then r.error == NoWitnesses else exists k :: RefusedFirst(ws, binding, k, r.error)
  {
    hide Admissible, States, Be, SlotChecks, FailsWith;
    if ws == [] {
      return Failure(NoWitnesses);
    }
    var slots: seq<Slot> := [];
    for i := 0 to |ws|
      invariant |slots| == i
      invariant forall k :: 0 <= k < i ==> Admissible(ws[k], binding) && States(slots[k], ws[k], binding)
    {
      var slot := BuildSlot(ws[i], binding, i);
      if slot.Failure? {
        assert RefusedFirst(ws, binding, i, slot.error);
        AdmissibleExactly(ws[i], binding, i);
        PassOrFail(SlotChecks(ws[i], binding, i), slot.error);
        return Failure(slot.error);
      }
      slots := slots + [slot.value];
    }
    return Success(slots);
  }

  function OwnerOf(w: OwnershipWitness): Bytes {
    w.derivedOwner
  }

  lemma AdmissibleAlike<T>(minted: seq<Receipt<T>>, ws: seq<OwnershipWitness>, witnessOf: T -> Option<OwnershipWitness>,
                           binding: nat)
    requires WitnessesOf(minted, ws, witnessOf) && forall m <- minted :: witnessOf(m.report).Some?
    ensures (forall w <- ws :: Admissible(w, binding))
            <==> forall m <- minted :: Admissible(witnessOf(m.report).value, binding)
    ensures ws == [] <==> minted == []
  {
    hide Admissible;
    assert minted != [] ==> minted[0] in minted;
    assert ws != [] ==> WitnessOfSome(minted, ws[0], witnessOf);
  }

  lemma StatesOwner(s: Slot, w: OwnershipWitness, binding: nat)
    requires States(s, w, binding)
    ensures Be(s.owner, 32) == OwnerOf(w)
  {
  }

  /** The slot states, value for value, what the witness of the receipt with this id states. */
  ghost predicate StatesReceipt<T>(minted: seq<Receipt<T>>, id: nat, s: Slot, witnessOf: T -> Option<OwnershipWitness>,
                                   binding: nat)
  {
    exists m <- minted ::
      m.suId == id && witnessOf(m.report).Some? && States(s, witnessOf(m.report).value, binding)
  }

  /**
   A draft end to end: the receipts are sorted, a witness is built and checked for each,
   and the slots are filled from the witnesses. With distinct ids the k-th slot attests
   the owner the chain stores for the k-th submitted id.
   */
  method PrepareDraft<T>(minted: seq<Receipt<T>>, witnessOf: T -> Option<OwnershipWitness>, onChain: nat -> Bytes,
                         binding: nat)
    returns (r: Option<(seq<nat>, seq<Slot>)>)
    ensures r.Some? <==> minted != [] && forall m <- minted ::
              Agrees(m, witnessOf, OwnerOf, onChain) && Admissible(witnessOf(m.report).value, binding)
    ensures r.Some? ==> r.value.0 == SortedUnique(Ids(minted)) && |r.value.1| == |minted|
    ensures r.Some? && Distinct(minted) ==>
              && |r.value.0| == |r.value.1|
              && (forall k :: 0 <= k < |r.value.0| ==> Be(r.value.1[k].owner, 32) == onChain(r.value.0[k]))
              && (forall k :: 0 <= k < |r.value.0| ==>
                    StatesReceipt(minted, r.value.0[k], r.value.1[k], witnessOf, binding))
  {
    hide Be, SortedUnique, States, Admissible, WitnessesOf, Distinct;
    var ordered := OrderForSubmit(minted, witnessOf, OwnerOf, onChain);
    if ordered.Failure? {
      return None;
    }
    var (ids, witnesses) := ordered.value;
    AdmissibleAlike(minted, witnesses, witnessOf, binding);
    var slots := BuildSlots(witnesses, binding);
    if slots.Failure? {
      return None;
    }
    if |ids| == |witnesses| {
      forall k | 0 <= k < |ids| && OfReceipt(minted, ids[k], witnesses[k], witnessOf)
        ensures StatesReceipt(minted, ids[k], slots.value[k], witnessOf, binding)
        ensures Be(slots.value[k].owner, 32) == OwnerOf(witnesses[k])
      {
        StatesOwner(slots.value[k], witnesses[k], binding);
        var m :| m in minted && m.suId == ids[k] && witnessOf(m.report) == Some(witnesses[k]);
        assert States(slots.value[k], witnessOf(m.report).value, binding);
      }
    }
    return Some((ids, slots.value));
  }
}
