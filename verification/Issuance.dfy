/** What it means that a sealed batch is accepted, and what a refusal says. */
module Issuance {
  import opened Octets
  import opened Wrappers
  import opened Checklists
  import opened Statements
  import opened SealedBatches

  // ----- the outcome is determined -----

  /** The documented order leaves no choice: one request has one outcome. */
  lemma OutcomeDetermined(p: Primitives, q: Request, r: Result<IssuedV2, AttesterError>,
                          r': Result<IssuedV2, AttesterError>)
    requires Prescribed(p, q, r) && Prescribed(p, q, r')
    ensures r == r'
  {
    hide HeaderChecks, ShapeChecks, SealChecks, TotalsChecks, FinalChecks, EntityOf, Checklist;
    var list := Checklist(p, q);
    match (r, r')
    case (Failure(e), Failure(e')) =>
      var k: nat :| FailsAt(list, k) && list[k].error == e;
      var k': nat :| FailsAt(list, k') && list[k'].error == e';
      FirstFailureUnique(list, k, k');
    case (Failure(e), Success(_)) =>
      PassOrFail(list, e);
    case (Success(_), Failure(e)) =>
      PassOrFail(list, e);
    case (Success(_), Success(_)) =>
  }

  // ----- acceptance, both ways -----

  /** What one seal has to satisfy, with no order among the conditions. */
  ghost predicate SealAcceptable(p: Primitives, q: Request, seal: PoolSeal)
    requires |q.batch.ctx| == 32
  {
    && |seal.fFold| == 32 && |seal.handleSig| == 48
    && KeyFor(q.epochs, seal.fsEpoch).Some?
    && var key := KeyFor(q.epochs, seal.fsEpoch).value;
    && |key.pkAtt| == 96
    && InWindow(key, seal.worldwideDay)
    && seal.fsGroupKey == key.pkAtt
    && 1 <= |key.dst| <= 255
    && p.blsVerify(key.pkAtt, seal.handleSig, key.dst,
                   Encode(HandleOf(p, q.attester, q.batch.ctx, q.batch.sequence, seal))).None?
  }

  /** Everything the attester verifies before it hashes the entity. */
  ghost predicate Verified(p: Primitives, q: Request) {
    && |q.header.nftId| == 32 && |q.header.derivedOwner| == 32 && |q.referrer| == 20
    && |q.batch.ctx| == 32 && |q.batch.fFold| == 32 && |q.batch.settleSig| == 64
    && |q.enclave.enclavePk| == 32 && |q.enclave.rmDigest| == 32
    && 1 <= |q.batch.seals| <= 5
    && (forall i, j :: 0 <= i < j < |q.batch.seals| ==> q.batch.seals[i].poolEpoch < q.batch.seals[j].poolEpoch)
    && (forall i :: 0 <= i < |q.batch.seals| ==> SealAcceptable(p, q, q.batch.seals[i]))
    && CountSum(q.batch.seals) == q.batch.count
    && FoldSum(q.batch.seals) % BN254_R == FromBe(q.batch.fFold)
    && LatestDay(q.batch.seals) == q.batch.worldwideDay
    && p.edVerify(q.enclave.enclavePk, q.batch.settleSig, Encode(SettlementOf(q.batch, q.enclave.rmDigest))).None?
  }

  ghost predicate Acceptable(p: Primitives, q: Request) {
    Verified(p, q) && WellFormed(q) && p.entityHash(EntityOf(p, q)).Success?
  }

  lemma {:induction false} AscendPairwise(seals: seq<PoolSeal>, i: nat, j: nat)
    requires PoolsAscend(seals) && i < j < |seals|
    ensures seals[i].poolEpoch < seals[j].poolEpoch
  {
    if i + 1 < j {
      AscendPairwise(seals, i, j - 1);
    }
  }

  lemma AscendExactly(seals: seq<PoolSeal>)
    ensures PoolsAscend(seals) <==> forall i, j :: 0 <= i < j < |seals| ==> seals[i].poolEpoch < seals[j].poolEpoch
  {
    if PoolsAscend(seals) {
      forall i, j | 0 <= i < j < |seals| ensures seals[i].poolEpoch < seals[j].poolEpoch {
        AscendPairwise(seals, i, j);
      }
    }
  }

  lemma SealFieldsPass(key: Option<FsEpochKey>, seal: PoolSeal)
    ensures Passes(SealFieldChecks(key, seal))
            <==> && |seal.fFold| == 32 && |seal.handleSig| == 48 && |seal.fsGroupKey| == 96
                 && key.Some? && |key.value.pkAtt| == 96 && InWindow(key.value, seal.worldwideDay)
                 && seal.fsGroupKey == key.value.pkAtt
  {
    hide InWindow;
    var a := SealFieldChecks(key, seal);
    assert Passes(a) <==> a[0].ok && a[1].ok && a[2].ok && a[3].ok && a[4].ok && a[5].ok && a[6].ok;
  }

  lemma SealPasses(p: Primitives, q: Request, seal: PoolSeal)
    requires |q.batch.ctx| == 32
    ensures Passes(SealChecks(p, q, seal)) <==> SealAcceptable(p, q, seal)
  {
    hide Encode, HandleOf, InWindow, KeyFor, SealFieldChecks;
    var key := KeyFor(q.epochs, seal.fsEpoch);
    var a, b := SealFieldChecks(key, seal), [HandleCheck(HandleRefusal(p, q, seal), seal)];
    PassesTogether(a, b);
    SealFieldsPass(key, seal);
    assert Passes(b) <==> b[0].ok;
  }

  lemma SealsPass(p: Primitives, q: Request)
    requires |q.batch.ctx| == 32
    ensures Passes(Flat(AllSealChecks(p, q)))
            <==> forall i :: 0 <= i < |q.batch.seals| ==> SealAcceptable(p, q, q.batch.seals[i])
  {
    hide SealChecks, SealAcceptable, Passes;
    var parts := AllSealChecks(p, q);
    FlatPasses(parts);
    forall i | 0 <= i < |parts| ensures Passes(parts[i]) <==> SealAcceptable(p, q, q.batch.seals[i]) {
      SealPasses(p, q, q.batch.seals[i]);
    }
  }

  lemma ShapePasses(seals: seq<PoolSeal>)
    ensures Passes(ShapeChecks(seals)) <==> 1 <= |seals| <= MAX_SEALS && PoolsAscend(seals)
  {
    var a := ShapeChecks(seals);
    assert Passes(a) <==> a[0].ok && a[1].ok;
  }

  lemma TotalsPass(batch: SealedBatch)
    ensures Passes(TotalsChecks(batch))
            <==> && CountSum(batch.seals) == batch.count
                 && FoldSum(batch.seals) % BN254_R == FromBe(batch.fFold)
                 && LatestDay(batch.seals) == batch.worldwideDay
  {
    var a := TotalsChecks(batch);
    assert Passes(a) <==> a[0].ok && a[1].ok && a[2].ok;
  }

  lemma FinalPass(p: Primitives, q: Request)
    requires WellFormed(q)
    ensures |q.batch.ctx| == 32 && |q.batch.fFold| == 32 && |q.enclave.rmDigest| == 32
    ensures Passes(FinalChecks(p, q))
            <==> && p.edVerify(q.enclave.enclavePk, q.batch.settleSig,
                               Encode(SettlementOf(q.batch, q.enclave.rmDigest))).None?
                 && p.entityHash(EntityOf(p, q)).Success?
  {
    hide Encode, EntityOf;
    WellFormedMeans(q);
    var a := FinalChecks(p, q);
    assert Passes(a) <==> a[0].ok && a[1].ok;
  }

  lemma GroupsPass(p: Primitives, q: Request)
    requires WellFormed(q)
    ensures |q.batch.ctx| == 32
    ensures Passes(Checklist(p, q))
            <==> && Passes(ShapeChecks(q.batch.seals)) && Passes(Flat(AllSealChecks(p, q)))
                 && Passes(TotalsChecks(q.batch)) && Passes(FinalChecks(p, q))
  {
    hide HeaderChecks, ShapeChecks, SealChecks, TotalsChecks, FinalChecks, EntityOf, Passes;
    WellFormedMeans(q);
    var parts := Parts(p, q);
    FlatPasses(parts);
    assert Passes(parts[0]);
    assert (forall k :: 0 <= k < 5 ==> Passes(parts[k]))
           <==> Passes(parts[1]) && Passes(parts[2]) && Passes(parts[3]) && Passes(parts[4]);
  }

  /** A request passes every check exactly when it is acceptable. */
  lemma AcceptedExactly(p: Primitives, q: Request)
    ensures Passes(Checklist(p, q)) <==> Acceptable(p, q)
  {
    hide HeaderChecks, ShapeChecks, TotalsChecks, FinalChecks, Parts, Flat, AllSealChecks, Encode, Passes,
      SealAcceptable, EntityOf, LatestDay, FromBe, CountSum, FoldSum;
    WellFormedMeans(q);
    if WellFormed(q) {
      GroupsPass(p, q);
      ShapePasses(q.batch.seals);
      SealsPass(p, q);
      TotalsPass(q.batch);
      FinalPass(p, q);
      AscendExactly(q.batch.seals);
    }
  }

  /** The attester mints exactly the acceptable requests. */
  lemma MintsExactlyAcceptable(p: Primitives, q: Request, r: Result<IssuedV2, AttesterError>)
    requires Prescribed(p, q, r)
    ensures r.Success? <==> Acceptable(p, q)
  {
    hide Checklist, Acceptable;
    AcceptedExactly(p, q);
    if r.Failure? {
      PassOrFail(Checklist(p, q), r.error);
    }
  }

  // ----- what a refusal says -----

  /** Where a request is refused. */
  datatype Stage = AtHeader | AtShape | AtSeal(index: nat) | AtTotals | AtSettlement

  ghost predicate SealsAcceptable(p: Primitives, q: Request, n: nat)
    requires |q.batch.ctx| == 32 && n <= |q.batch.seals|
  {
    forall j :: 0 <= j < n ==> SealAcceptable(p, q, q.batch.seals[j])
  }

  /** The request got past everything in front of the stage, and the stage's own first failing check is the error. */
  ghost predicate RefusedAt(p: Primitives, q: Request, e: AttesterError, stage: Stage) {
    if stage.AtHeader? then FailsWith(HeaderChecks(q), e)
    else
      && WellFormed(q)
      && |q.batch.ctx| == 32
      && match stage
         case AtHeader => false
         case AtShape => FailsWith(ShapeChecks(q.batch.seals), e)
         case AtSeal(i) =>
           && PoolsAscend(q.batch.seals) && i < |q.batch.seals| <= MAX_SEALS
           && SealsAcceptable(p, q, i)
           && FailsWith(SealChecks(p, q, q.batch.seals[i]), e)
         case AtTotals =>
           && PoolsAscend(q.batch.seals) && 1 <= |q.batch.seals| <= MAX_SEALS
           && SealsAcceptable(p, q, |q.batch.seals|)
           && FailsWith(TotalsChecks(q.batch), e)
         case AtSettlement =>
           && PoolsAscend(q.batch.seals) && 1 <= |q.batch.seals| <= MAX_SEALS
           && SealsAcceptable(p, q, |q.batch.seals|)
           && Passes(TotalsChecks(q.batch))
           && FailsWith(FinalChecks(p, q), e)
  }

  /** Every refusal happens at one stage, and all the stages in front of it were passed. */
  lemma RefusalPlaced(p: Primitives, q: Request, e: AttesterError) returns (stage: Stage)
    requires Prescribed(p, q, Failure(e))
    ensures RefusedAt(p, q, e, stage)
  {
    hide *;
    RefusalByPart(p, q, e);
    WellFormedMeans(q);
    if !WellFormed(q) {
      stage := AtHeader;
      HeaderRefusal(p, q, e);
    } else {
      var k := FailingPart(Parts(p, q), e);
      stage := PartRefusal(p, q, e, k);
    }
  }

  lemma RefusalByPart(p: Primitives, q: Request, e: AttesterError)
    requires Prescribed(p, q, Failure(e))
    ensures WellFormed(q) ==> FailsWith(Flat(Parts(p, q)), e)
    ensures !WellFormed(q) ==> FailsWith(HeaderChecks(q), e)
  {
  }

  lemma HeaderRefusal(p: Primitives, q: Request, e: AttesterError)
    requires FailsWith(HeaderChecks(q), e)
    ensures RefusedAt(p, q, e, AtHeader)
  {
  }

  lemma PartRefusal(p: Primitives, q: Request, e: AttesterError, k: nat) returns (stage: Stage)
    requires WellFormed(q) && k < 5 && FailsWith(Parts(p, q)[k], e)
    requires forall j :: 0 <= j < k ==> Passes(Parts(p, q)[j])
    ensures RefusedAt(p, q, e, stage)
  {
    hide HeaderChecks, ShapeChecks, TotalsChecks, FinalChecks, SealChecks, FailsWith, Passes, Flat, SealAcceptable,
      EntityOf, PoolsAscend;
    WellFormedMeans(q);
    ShapePasses(q.batch.seals);
    SealsPass(p, q);
    HeaderPasses(q);
    if k == 0 {
      stage := AtHeader;
    } else if k == 1 {
      stage := AtShape;
    } else if k == 2 {
      assert Parts(p, q)[1] == ShapeChecks(q.batch.seals);
      var i := FailingPart(AllSealChecks(p, q), e);
      forall j | 0 <= j < i ensures SealAcceptable(p, q, q.batch.seals[j]) {
        SealPasses(p, q, q.batch.seals[j]);
      }
      stage := AtSeal(i);
    } else {
      assert Passes(Parts(p, q)[1]) && Passes(Parts(p, q)[2]);
      stage := if k == 3 then AtTotals else AtSettlement;
      assert k == 4 ==> Passes(Parts(p, q)[3]);
    }
  }

  lemma HeaderPasses(q: Request)
    requires WellFormed(q)
    ensures Passes(HeaderChecks(q))
  {
  }

  /** Verification and hashing are apart: a verified request is minted, or fails in the entity hash alone. */
  lemma VerifiedExactly(p: Primitives, q: Request, r: Result<IssuedV2, AttesterError>)
    requires Prescribed(p, q, r)
    ensures Verified(p, q) <==> r.Success? || r.error.Issuance?
  {
    hide *;
    MintsExactlyAcceptable(p, q, r);
    AcceptableParts(p, q);
    if r.Failure? {
      var stage := RefusalPlaced(p, q, r.error);
      StageVerified(p, q, r.error, stage);
    }
  }

  lemma AcceptableParts(p: Primitives, q: Request)
    ensures Verified(p, q) ==> WellFormed(q)
    ensures Acceptable(p, q) <==> Verified(p, q) && WellFormed(q) && p.entityHash(EntityOf(p, q)).Success?
  {
    hide SealAcceptable, Encode, CountSum, FoldSum, LatestDay, FromBe, EntityOf, WellFormed;
    WellFormedMeans(q);
  }

  lemma StageVerified(p: Primitives, q: Request, e: AttesterError, stage: Stage)
    requires RefusedAt(p, q, e, stage)
    ensures Verified(p, q) <==> e.Issuance?
  {
    hide SealChecks, SealAcceptable, Encode, CountSum, FoldSum, LatestDay, FromBe, EntityOf, HeaderChecks;
    WellFormedMeans(q);
    AscendExactly(q.batch.seals);
    match stage
    case AtHeader =>
      PassOrFail(HeaderChecks(q), e);
      HeaderErrors(q, e);
    case AtShape =>
      PassOrFail(ShapeChecks(q.batch.seals), e);
      ShapePasses(q.batch.seals);
      FailsWithMember(ShapeChecks(q.batch.seals), e);
    case AtSeal(i) =>
      PassOrFail(SealChecks(p, q, q.batch.seals[i]), e);
      SealPasses(p, q, q.batch.seals[i]);
      SealErrors(p, q, q.batch.seals[i], e);
    case AtTotals =>
      PassOrFail(TotalsChecks(q.batch), e);
      TotalsPass(q.batch);
      FailsWithMember(TotalsChecks(q.batch), e);
    case AtSettlement =>
      TotalsPass(q.batch);
      SettlementErrors(p, q, e);
  }

  lemma HeaderErrors(q: Request, e: AttesterError)
    requires FailsWith(HeaderChecks(q), e)
    ensures e.BadInput?
  {
  }

  lemma SealErrors(p: Primitives, q: Request, seal: PoolSeal, e: AttesterError)
    requires |q.batch.ctx| == 32 && FailsWith(SealChecks(p, q, seal), e)
    ensures !e.Issuance? && !e.BatchTotalsMismatch?
  {
  }

  /** Of the two final checks only the second reports an issuance error, and it runs after the signature verified. */
  lemma SettlementErrors(p: Primitives, q: Request, e: AttesterError)
    requires WellFormed(q) && FailsWith(FinalChecks(p, q), e)
    ensures |q.batch.ctx| == 32 && |q.batch.fFold| == 32 && |q.enclave.rmDigest| == 32
    ensures e.Issuance? || e.SettlementSignatureInvalid?
    ensures e.Issuance? <==> p.edVerify(q.enclave.enclavePk, q.batch.settleSig,
                                        Encode(SettlementOf(q.batch, q.enclave.rmDigest))).None?
  {
    hide Encode, EntityOf;
    WellFormedMeans(q);
    var list := FinalChecks(p, q);
    var k: nat :| FailsAt(list, k) && list[k].error == e;
    PassesEach(list, k);
    assert list[0].ok <==> k == 1;
    assert list[0].ok <==> p.edVerify(q.enclave.enclavePk, q.batch.settleSig,
                                      Encode(SettlementOf(q.batch, q.enclave.rmDigest))).None?;
  }

  ghost predicate SealLevel(e: AttesterError) {
    e.DayOutsideEpochWindow? || e.GroupKeyMismatch? || e.HandleSignatureInvalid?
  }

  /**
   A seal-level refusal is about the first unacceptable seal: all earlier seals pass
   every check, and the refused one passes the checks in front of the reported one.
   */
  lemma SealRefusalExplained(p: Primitives, q: Request, e: AttesterError) returns (i: nat)
    requires Prescribed(p, q, Failure(e)) && SealLevel(e)
    ensures |q.batch.ctx| == 32 && i < |q.batch.seals|
    ensures forall j :: 0 <= j < i ==> SealAcceptable(p, q, q.batch.seals[j])
    ensures e.epoch == q.batch.seals[i].fsEpoch
    ensures var seal, key := q.batch.seals[i], KeyFor(q.epochs, q.batch.seals[i].fsEpoch);
            && |seal.fFold| == 32 && |seal.handleSig| == 48 && |seal.fsGroupKey| == 96
            && key.Some? && |key.value.pkAtt| == 96
            && (e.DayOutsideEpochWindow? <==> !InWindow(key.value, seal.worldwideDay))
            && (e.DayOutsideEpochWindow? ==> e.day == seal.worldwideDay)
            && (e.GroupKeyMismatch? <==> InWindow(key.value, seal.worldwideDay) && seal.fsGroupKey != key.value.pkAtt)
            && (e.HandleSignatureInvalid? ==> HandleRefusal(p, q, seal) == Some(e.detail))
  {
    hide *;
    var stage := RefusalPlaced(p, q, e);
    SealLevelStage(p, q, e, stage);
    i := stage.index;
    RefusedSeal(p, q, q.batch.seals[i], e);
  }

  /** A mismatch names the first total that is wrong, of count, fold and day. */
  lemma TotalsRefusalExplained(p: Primitives, q: Request, what: Total)
    requires Prescribed(p, q, Failure(BatchTotalsMismatch(what)))
    ensures what == CountTotal <==> CountSum(q.batch.seals) != q.batch.count
    ensures what == FoldTotal <==> && CountSum(q.batch.seals) == q.batch.count
                                   && FoldSum(q.batch.seals) % BN254_R != FromBe(q.batch.fFold)
    ensures what == DayTotal <==> && CountSum(q.batch.seals) == q.batch.count
                                  && FoldSum(q.batch.seals) % BN254_R == FromBe(q.batch.fFold)
                                  && LatestDay(q.batch.seals) != q.batch.worldwideDay
  {
    hide *;
    var stage := RefusalPlaced(p, q, BatchTotalsMismatch(what));
    TotalsStage(p, q, what, stage);
    TotalsRefused(q.batch, what);
  }

  lemma TotalsStage(p: Primitives, q: Request, what: Total, stage: Stage)
    requires RefusedAt(p, q, BatchTotalsMismatch(what), stage)
    ensures FailsWith(TotalsChecks(q.batch), BatchTotalsMismatch(what))
  {
    hide SealChecks, SealAcceptable, HeaderChecks, FinalChecks, TotalsChecks, EntityOf, FailsWith;
    var e := BatchTotalsMismatch(what);
    match stage
    case AtHeader => HeaderErrors(q, e);
    case AtShape => FailsWithMember(ShapeChecks(q.batch.seals), e);
    case AtSeal(i) => SealErrors(p, q, q.batch.seals[i], e);
    case AtTotals =>
    case AtSettlement => SettlementErrors(p, q, e);
  }

  lemma TotalsRefused(batch: SealedBatch, what: Total)
    requires FailsWith(TotalsChecks(batch), BatchTotalsMismatch(what))
    ensures what == CountTotal <==> CountSum(batch.seals) != batch.count
    ensures what == FoldTotal <==> && CountSum(batch.seals) == batch.count
                                   && FoldSum(batch.seals) % BN254_R != FromBe(batch.fFold)
    ensures what == DayTotal <==> && CountSum(batch.seals) == batch.count
                                  && FoldSum(batch.seals) % BN254_R == FromBe(batch.fFold)
                                  && LatestDay(batch.seals) != batch.worldwideDay
  {
    var list := TotalsChecks(batch);
    var k: nat :| FailsAt(list, k) && list[k].error == BatchTotalsMismatch(what);
    PassesEach(list, k);
    assert list[0].ok <==> k > 0;
    assert list[0].ok ==> (list[1].ok <==> k > 1);
  }

  /** A width is reported before anything else, and the first wrong one of the eight. */
  lemma WidthRefusalExplained(p: Primitives, q: Request, e: AttesterError)
    requires Prescribed(p, q, Failure(e)) && !WellFormed(q)
    ensures e == BadInput(
                   if |q.header.nftId| != 32 then WrongLength("nft_id", 32, |q.header.nftId|)
                   else if |q.header.derivedOwner| != 32 then WrongLength("derived_owner", 32, |q.header.derivedOwner|)
                   else if |q.referrer| != 20 then WrongLength("referrer_addr", 20, |q.referrer|)
                   else if |q.batch.ctx| != 32 then WrongLength("ctx", 32, |q.batch.ctx|)
                   else if |q.batch.fFold| != 32 then WrongLength("f_fold", 32, |q.batch.fFold|)
                   else if |q.enclave.enclavePk| != 32 then WrongLength("enclave_pk", 32, |q.enclave.enclavePk|)
                   else if |q.enclave.rmDigest| != 32 then WrongLength("rm_digest", 32, |q.enclave.rmDigest|)
                   else WrongLength("settle_sig", 64, |q.batch.settleSig|))
  {
    var list := HeaderChecks(q);
    var k: nat :| FailsAt(list, k) && list[k].error == e;
    PassesEach(list, k);
    assert k > 0 <==> list[0].ok;
    assert k > 1 <==> k > 0 && list[1].ok;
    assert k > 2 <==> k > 1 && list[2].ok;
    assert k > 3 <==> k > 2 && list[3].ok;
    assert k > 4 <==> k > 3 && list[4].ok;
    assert k > 5 <==> k > 4 && list[5].ok;
    assert k > 6 <==> k > 5 && list[6].ok;
    assert k <= 7;
  }

  /** Only the checks of the seals report seal-level errors. */
  lemma SealLevelStage(p: Primitives, q: Request, e: AttesterError, stage: Stage)
    requires RefusedAt(p, q, e, stage) && SealLevel(e)
    ensures stage.AtSeal? && |q.batch.ctx| == 32 && stage.index < |q.batch.seals|
    ensures forall j :: 0 <= j < stage.index ==> SealAcceptable(p, q, q.batch.seals[j])
    ensures FailsWith(SealChecks(p, q, q.batch.seals[stage.index]), e)
  {
    hide SealChecks, SealAcceptable, HeaderChecks, FinalChecks, EntityOf, FoldSum, CountSum, LatestDay, FromBe, FailsWith;
    match stage
    case AtHeader => HeaderErrors(q, e);
    case AtShape => FailsWithMember(ShapeChecks(q.batch.seals), e);
    case AtSeal(_) =>
    case AtTotals => FailsWithMember(TotalsChecks(q.batch), e);
    case AtSettlement => SettlementErrors(p, q, e);
  }

  lemma RefusedSeal(p: Primitives, q: Request, seal: PoolSeal, e: AttesterError)
    requires |q.batch.ctx| == 32 && FailsWith(SealChecks(p, q, seal), e) && SealLevel(e)
    ensures e.epoch == seal.fsEpoch
    ensures var key := KeyFor(q.epochs, seal.fsEpoch);
            && |seal.fFold| == 32 && |seal.handleSig| == 48 && |seal.fsGroupKey| == 96
            && key.Some? && |key.value.pkAtt| == 96
            && (e.DayOutsideEpochWindow? <==> !InWindow(key.value, seal.worldwideDay))
            && (e.DayOutsideEpochWindow? ==> e.day == seal.worldwideDay)
            && (e.GroupKeyMismatch? <==> InWindow(key.value, seal.worldwideDay) && seal.fsGroupKey != key.value.pkAtt)
            && (e.HandleSignatureInvalid? ==> HandleRefusal(p, q, seal) == Some(e.detail))
  {
    hide HandleRefusal;
    var list := SealChecks(p, q, seal);
    var k: nat :| FailsAt(list, k) && list[k].error == e;
    assert 5 <= k <= 7;
    PassesEach(list, k);
    assert list[0].ok && list[1].ok && list[2].ok && list[3].ok && list[4].ok;
    assert list[5].ok == InWindow(KeyFor(q.epochs, seal.fsEpoch).value, seal.worldwideDay);
    assert list[5].ok <==> k > 5;
    assert list[6].ok == (seal.fsGroupKey == KeyFor(q.epochs, seal.fsEpoch).value.pkAtt);
    assert list[5].ok ==> (list[6].ok <==> k > 6);
  }
}
