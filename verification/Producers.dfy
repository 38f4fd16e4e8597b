/**
 The two producers of sealed batches in the repository: the suite's, which settles a
 batch on chain, and the attester crate's own. A batch either builds is accepted
 exactly when its plain sums fit, and for both the condition is stated.
 */
module Producers {
  import opened Octets
  import opened Wrappers
  import opened Statements
  import opened SealedBatches
  import opened Issuance

  const SEAL_DST := Ascii("PSO-FP-v1-SEAL_BLS12381G1_XMD:SHA-256_SSWU_RO_")

  datatype SuiteSeal = SuiteSeal(poolEpoch: U32, fsEpoch: U32, worldwideDay: U64, count: U64, fFold: Bytes32,
                                 handleSig: Bytes)

  datatype SuiteBatch = SuiteBatch(ctx: Bytes32, sequence: U64, commitmentRoot: Bytes, worldwideDay: U64, count: U64,
                                   fFold: Bytes32, settleSig: Bytes)

  datatype Mint = Mint(currency: U16, amountBase: U64, amountAtto: U64)

  /**
   The suite's own keys: the committee's and the enclave's, with their signing functions.
   `eip2537` is the point layout the chain takes, `compressed` its inverse on signatures.
   */
  datatype Keys = Keys(
    groupKey: Bytes, blsSign: (Bytes, Bytes) -> Bytes, eip2537: Bytes -> Bytes, compressed: Bytes -> Bytes,
    enclavePk: Bytes32, edSign: Bytes -> Bytes)

  /** What is signed verifies, and has the fixed widths of the two schemes. */
  ghost predicate Genuine(p: Primitives, k: Keys) {
    && |k.groupKey| == 96
    && (forall m, dst ::
          && |k.blsSign(m, dst)| == 48
          && k.compressed(k.eip2537(k.blsSign(m, dst))) == k.blsSign(m, dst)
          && p.blsVerify(k.groupKey, k.blsSign(m, dst), dst, m).None?)
    && (forall m :: |k.edSign(m)| == 64 && p.edVerify(k.enclavePk, k.edSign(m), m).None?)
  }

  // ----- the suite's mirrored builders -----

  method SuiteSealId(sha256: Bytes -> Bytes32, ctx: Bytes32, sequence: U64, seal: SuiteSeal) returns (id: Bytes32)
    ensures id == SealIdOf(sha256, ctx, sequence, seal.poolEpoch, seal.count, seal.fFold)
  {
    var h := SEAL_ID_DOMAIN;
    h := h + ctx;
    h := h + Le(sequence, 8);
    h := h + Le(seal.poolEpoch, 4);
    h := h + Le(seal.count, 8);
    h := h + seal.fFold;
    id := sha256(h);
  }

  method SuiteSettlementId(sha256: Bytes -> Bytes32, ctx: Bytes32, sequence: U64) returns (id: Bytes32)
    ensures id == SettlementIdOf(sha256, ctx, sequence)
  {
    var h := SETTLEMENT_ID_DOMAIN;
    h := h + ctx;
    h := h + Le(sequence, 8);
    id := sha256(h);
  }

  method SuiteHandleMessage(attester: Bytes20, ctx: Bytes32, sealId: Bytes32, seal: SuiteSeal) returns (out: Bytes)
    ensures out == Encode(Handle(attester, ctx, sealId, seal.count, seal.fFold, seal.fsEpoch, seal.worldwideDay))
  {
    out := HANDLE_PREFIX;
    out := out + attester;
    out := out + ctx;
    out := PushLenPrefixed(out, sealId);
    out := out + Le(seal.count, 8);
    out := out + seal.fFold;
    out := out + Le(seal.fsEpoch, 4);
    out := out + Le(seal.worldwideDay, 8);
  }

  method SuiteSettlementMessage(mint: Mint, batch: SuiteBatch, rmDigest: Bytes32) returns (out: Bytes)
    ensures out == Encode(SuiteSettlementOf(mint, batch, rmDigest))
  {
    out := BDP_DST;
    out := out + [TAG_SETTLEMENT];
    out := out + batch.ctx;
    out := out + rmDigest;
    out := PushLenPrefixed(out, batch.commitmentRoot);
    out := out + Le(batch.sequence, 8);
    out := out + Le(mint.currency, 2);
    out := out + Le(mint.amountBase, 8);
    out := out + Le(mint.amountAtto, 8);
    out := out + Le(batch.worldwideDay, 8);
    out := out + Le(batch.count, 8);
    out := out + batch.fFold;
  }

  function SuiteSettlementOf(mint: Mint, batch: SuiteBatch, rmDigest: Bytes32): Statement {
    Settlement(batch.ctx, rmDigest, batch.commitmentRoot, batch.sequence, mint.currency, mint.amountBase,
               mint.amountAtto, batch.worldwideDay, batch.count, batch.fFold)
  }

  // ----- the suite's signing -----

  /** The seal as the attester receives it: the committee's key beside it, the signature compressed. */
  function AsPoolSeal(k: Keys, seal: SuiteSeal): PoolSeal {
    PoolSeal(seal.poolEpoch, seal.fsEpoch, seal.worldwideDay, seal.count, seal.fFold, k.groupKey,
             k.compressed(seal.handleSig))
  }

  function AsPoolSeals(k: Keys, seals: seq<SuiteSeal>): (r: seq<PoolSeal>)
    ensures |r| == |seals|
    ensures forall i :: 0 <= i < |r| ==> r[i] == AsPoolSeal(k, seals[i])
  {
    seq(|seals|, i requires 0 <= i < |seals| => AsPoolSeal(k, seals[i]))
  }

  ghost predicate SignedBy(p: Primitives, k: Keys, attester: Bytes20, ctx: Bytes32, sequence: U64, seal: SuiteSeal) {
    var message := Encode(HandleOf(p, attester, ctx, sequence, AsPoolSeal(k, seal)));
    seal.handleSig == k.eip2537(k.blsSign(message, SEAL_DST))
  }

  /** Writes the committee's handle into every seal, in place; nothing else of a seal changes. */
  method SignHandles(p: Primitives, k: Keys, attester: Bytes20, ctx: Bytes32, sequence: U64, seals: array<SuiteSeal>)
    modifies seals
    ensures forall i :: 0 <= i < seals.Length ==>
              && SignedBy(p, k, attester, ctx, sequence, seals[i])
              && seals[i] == old(seals[i]).(handleSig := seals[i].handleSig)
  {
    hide Encode;
    for n := 0 to seals.Length
      invariant forall i :: 0 <= i < n ==>
                  && SignedBy(p, k, attester, ctx, sequence, seals[i])
                  && seals[i] == old(seals[i]).(handleSig := seals[i].handleSig)
      invariant forall i :: n <= i < seals.Length ==> seals[i] == old(seals[i])
    {
      var id := SuiteSealId(p.sha256, ctx, sequence, seals[n]);
      var message := SuiteHandleMessage(attester, ctx, id, seals[n]);
      seals[n] := seals[n].(handleSig := k.eip2537(k.blsSign(message, SEAL_DST)));
    }
  }

  /** `+` on 256-bit words drops the carry, unlike the attester's `add_mod`. */
  function WrappedFoldSum(seals: seq<PoolSeal>): nat {
    FoldSum(seals) % TWO_256
  }

  /** The batch the seals add up to, with plain wrapping sums, settled by the enclave. */
  method SettledBatch(k: Keys, mint: Mint, ctx: Bytes32, sequence: U64, root: Bytes, rmDigest: Bytes32,
                      seals: seq<SuiteSeal>)
    returns (batch: SuiteBatch)
    ensures batch == SuiteBatch(ctx, sequence, root, batch.worldwideDay, batch.count, batch.fFold, batch.settleSig)
    ensures batch.worldwideDay == LatestDay(AsPoolSeals(k, seals))
    ensures batch.count == CountSum(AsPoolSeals(k, seals)) % TWO_64
    ensures FromBe(batch.fFold) == WrappedFoldSum(AsPoolSeals(k, seals))
    ensures batch.settleSig == k.edSign(Encode(SuiteSettlementOf(mint, batch, rmDigest)))
  {
    hide Encode;
    var pools := AsPoolSeals(k, seals);
    var fold := WrappedFoldSum(pools);
    Pow256Values();
    BeRoundTrip(fold, 32);
    batch := SuiteBatch(ctx, sequence, root, LatestDay(pools), CountSum(pools) % TWO_64, Be(fold, 32), []);
    var message := SuiteSettlementMessage(mint, batch, rmDigest);
    batch := batch.(settleSig := k.edSign(message));
  }

  // ----- which produced batches the attester accepts -----

  function AsSealedBatch(k: Keys, mint: Mint, batch: SuiteBatch, seals: seq<SuiteSeal>): SealedBatch {
    SealedBatch(batch.ctx, batch.sequence, batch.commitmentRoot, batch.worldwideDay, batch.count, batch.fFold,
                mint.currency, mint.amountBase, mint.amountAtto, batch.settleSig, AsPoolSeals(k, seals))
  }

  /** The directory names the committee's key for the seal, and the seal's day is inside its window. */
  ghost predicate Certified(k: Keys, epochs: seq<FsEpochKey>, seal: PoolSeal) {
    && KeyFor(epochs, seal.fsEpoch).Some?
    && var key := KeyFor(epochs, seal.fsEpoch).value;
    key.pkAtt == k.groupKey && key.dst == SEAL_DST && InWindow(key, seal.worldwideDay)
  }

  /** What a producer controls, apart from the sums: identities, shape, windows and the registered enclave. */
  ghost predicate Prepared(k: Keys, q: Request) {
    && |q.header.nftId| == 32 && |q.header.derivedOwner| == 32 && |q.referrer| == 20
    && q.enclave.enclavePk == k.enclavePk && |q.enclave.rmDigest| == 32
    && 1 <= |q.batch.seals| <= 5 && PoolsAscend(q.batch.seals)
    && forall i :: 0 <= i < |q.batch.seals| ==> Certified(k, q.epochs, q.batch.seals[i])
  }

  /** A wrapping 256-bit sum of at most five folds agrees with the field sum only below the modulus. */
  lemma WrapAgreesBelowModulus(sum: nat)
    requires sum < 5 * TWO_256
    ensures sum % TWO_256 == sum % BN254_R <==> sum < BN254_R
  {
  }

  lemma {:induction false} FoldSumBound(seals: seq<PoolSeal>, bound: nat)
    requires forall i :: 0 <= i < |seals| ==> FromBe(seals[i].fFold) <= bound
    ensures FoldSum(seals) <= |seals| * bound
  {
    hide FromBe;
    if seals == [] {
    } else {
      FoldSumBound(seals[..|seals| - 1], bound);
      calc {
        (|seals| - 1) * bound + bound;
        |seals| * bound;
      }
    }
  }

  lemma SuiteFoldsFit(k: Keys, seals: seq<SuiteSeal>)
    requires |seals| <= 5
    ensures FoldSum(AsPoolSeals(k, seals)) < 5 * TWO_256
  {
    hide FoldSum;
    var pools := AsPoolSeals(k, seals);
    Pow256Values();
    forall i | 0 <= i < |pools| ensures FromBe(pools[i].fFold) <= TWO_256 - 1 {
      FromBeBound(pools[i].fFold);
    }
    FoldSumBound(pools, TWO_256 - 1);
  }

  /** The request carries what `SignHandles` and `SettledBatch` make of the seals. */
  ghost predicate Produced(p: Primitives, k: Keys, q: Request, mint: Mint, batch: SuiteBatch, seals: seq<SuiteSeal>) {
    && |q.enclave.rmDigest| == 32
    && q.batch == AsSealedBatch(k, mint, batch, seals)
    && (forall i :: 0 <= i < |seals| ==> SignedBy(p, k, q.attester, batch.ctx, batch.sequence, seals[i]))
    && batch.worldwideDay == LatestDay(q.batch.seals) && batch.count == CountSum(q.batch.seals) % TWO_64
    && FromBe(batch.fFold) == WrappedFoldSum(q.batch.seals)
    && batch.settleSig == k.edSign(Encode(SuiteSettlementOf(mint, batch, q.enclave.rmDigest)))
  }

  /**
   A batch built by the suite passes every check before the entity hash exactly when the
   counts add up below 2^64 and the folds, unreduced, below the field modulus.
   */
  lemma SuiteBatchVerifiedExactly(p: Primitives, k: Keys, q: Request, mint: Mint, batch: SuiteBatch,
                                  seals: seq<SuiteSeal>)
    requires Genuine(p, k) && Prepared(k, q) && Produced(p, k, q, mint, batch, seals)
    ensures Verified(p, q) <==> CountSum(q.batch.seals) < TWO_64 && FoldSum(q.batch.seals) < BN254_R
  {
    hide Encode, CountSum, FoldSum, LatestDay, FromBe, HandleOf;
    var pools := q.batch.seals;
    SuiteFoldsFit(k, seals);
    WrapAgreesBelowModulus(FoldSum(pools));
    AscendExactly(pools);
    assert |SEAL_DST| == 46;
    forall i | 0 <= i < |pools| ensures SealAcceptable(p, q, pools[i]) {
      SignedSealAcceptable(p, k, q, seals[i], batch);
    }
    assert p.edVerify(k.enclavePk, batch.settleSig, Encode(SuiteSettlementOf(mint, batch, q.enclave.rmDigest))).None?;
  }

  lemma SignedSealAcceptable(p: Primitives, k: Keys, q: Request, seal: SuiteSeal, batch: SuiteBatch)
    requires Genuine(p, k) && SignedBy(p, k, q.attester, batch.ctx, batch.sequence, seal)
    requires q.batch.ctx == batch.ctx && q.batch.sequence == batch.sequence
    requires Certified(k, q.epochs, AsPoolSeal(k, seal))
    ensures SealAcceptable(p, q, AsPoolSeal(k, seal))
  {
  }

  /** What a seal states, apart from its signature. */
  function SealBody(seal: SuiteSeal): SuiteSeal {
    seal.(handleSig := [])
  }

  /**
   From producer to attester: the seals are signed in place, settled and handed over, and
   the attester refuses nothing before the entity hash exactly when the sums fit.
   */
  method SignSettleIssue(p: Primitives, k: Keys, mint: Mint, ctx: Bytes32, sequence: U64, root: Bytes,
                         seals: array<SuiteSeal>, attester: Bytes20, header: NftHeader, rmDigest: Bytes32,
                         epochs: seq<FsEpochKey>, referrer: Bytes20)
    returns (r: Result<IssuedV2, AttesterError>)
    requires Genuine(p, k) && |header.nftId| == 32 && |header.derivedOwner| == 32
    requires 1 <= seals.Length <= 5
    requires forall i, j :: 0 <= i < j < seals.Length ==> seals[i].poolEpoch < seals[j].poolEpoch
    requires forall i :: 0 <= i < seals.Length ==> Certified(k, epochs, AsPoolSeal(k, seals[i]))
    modifies seals
    ensures r.Success? || r.error.Issuance? <==>
            CountSum(AsPoolSeals(k, seals[..])) < TWO_64 && FoldSum(AsPoolSeals(k, seals[..])) < BN254_R
    ensures forall i :: 0 <= i < seals.Length ==> SealBody(seals[i]) == SealBody(old(seals[i]))
  {
    hide Genuine, SignedBy, KeyFor, CountSum, FoldSum, LatestDay, FromBe, Encode, Prescribed, SuiteSettlementOf;
    SignHandles(p, k, attester, ctx, sequence, seals);
    var signed := seals[..];
    var batch := SettledBatch(k, mint, ctx, sequence, root, rmDigest, signed);
    var q := Request(attester, header, AsSealedBatch(k, mint, batch, signed),
                     RegisteredEnclave(k.enclavePk, rmDigest), epochs, referrer);
    r := IssueFromSealedBatch(p, q);
    SuiteBatchVerifiedExactly(p, k, q, mint, batch, signed);
    VerifiedExactly(p, q, r);
  }

  /** One such input: folds r - 1 and 1 add up to r, which the attester reduces to 0 and the suite does not. */
  lemma FoldsReachingTheModulus(p: Primitives, k: Keys, q: Request, mint: Mint, batch: SuiteBatch,
                                seals: seq<SuiteSeal>)
    requires Genuine(p, k) && Prepared(k, q) && Produced(p, k, q, mint, batch, seals)
    requires |seals| == 2 && seals[0].fFold == Be(BN254_R - 1, 32) && seals[1].fFold == Be(1, 32)
    ensures !Verified(p, q) && FromBe(batch.fFold) == BN254_R
  {
    hide Encode, LatestDay, Verified, Genuine, Prepared, SignedBy, Be, FromBe;
    Pow256Values();
    BeRoundTrip(BN254_R - 1, 32);
    BeRoundTrip(1, 32);
    var pools := q.batch.seals;
    assert pools[..1][..0] == [];
    assert FoldSum(pools[..1]) == BN254_R - 1;
    assert FoldSum(pools) == BN254_R;
    SuiteBatchVerifiedExactly(p, k, q, mint, batch, seals);
  }

  /** Folds below 2^248, as `field_element` makes them, always fit: five of them sum below the modulus. */
  lemma FieldElementsFit(seals: seq<PoolSeal>)
    requires |seals| <= 5
    requires forall i :: 0 <= i < |seals| ==> FromBe(seals[i].fFold) < TWO_256 / 256
    ensures FoldSum(seals) < BN254_R
  {
    FoldSumBound(seals, TWO_256 / 256);
  }

  // ----- the attester crate's own producer -----

  /** A pool's seal with its handle signed under the id the chain derives. */
  method SignedPoolSeal(p: Primitives, k: Keys, attester: Bytes20, ctx: Bytes32, sequence: U64, poolEpoch: U32,
                        fsEpoch: U32, day: U64, count: U64, fFold: Bytes32)
    returns (seal: PoolSeal)
    requires Genuine(p, k)
    ensures seal == PoolSeal(poolEpoch, fsEpoch, day, count, fFold, k.groupKey, seal.handleSig)
    ensures HandleSigned(p, k, attester, ctx, sequence, seal)
  {
    hide Encode;
    var id := SealIdOf(p.sha256, ctx, sequence, poolEpoch, count, fFold);
    var message := HandleMessage(attester, ctx, id, count, fFold, fsEpoch, day);
    seal := PoolSeal(poolEpoch, fsEpoch, day, count, fFold, k.groupKey, k.blsSign(message, SEAL_DST));
  }

  ghost predicate HandleSigned(p: Primitives, k: Keys, attester: Bytes20, ctx: Bytes32, sequence: U64, seal: PoolSeal) {
    && |seal.fFold| == 32 && seal.fsGroupKey == k.groupKey
    && seal.handleSig == k.blsSign(Encode(HandleOf(p, attester, ctx, sequence, seal)), SEAL_DST)
  }

  /** Fills in the totals, folds reduced by `add_mod`, and signs the settlement over them. */
  method SettleTotals(k: Keys, batch: SealedBatch, rmDigest: Bytes32) returns (r: SealedBatch)
    requires |batch.ctx| == 32
    ensures r == batch.(worldwideDay := r.worldwideDay, count := r.count, fFold := r.fFold, settleSig := r.settleSig)
    ensures r.worldwideDay == LatestDay(batch.seals) && r.count == CountSum(batch.seals) % TWO_64
    ensures |r.fFold| == 32 && FromBe(r.fFold) == FoldSum(batch.seals) % BN254_R
    ensures r.settleSig == k.edSign(Encode(SettlementOf(r, rmDigest)))
  {
    hide Encode, CountSum, LatestDay, FromBe;
    var fold := 0;
    for i := 0 to |batch.seals|
      invariant fold == FoldSum(batch.seals[..i]) % BN254_R
    {
      assert batch.seals[..i + 1][..i] == batch.seals[..i];
      AddModIsSum(FoldSum(batch.seals[..i]), FromBe(batch.seals[i].fFold));
      fold := AddMod(fold, FromBe(batch.seals[i].fFold));
    }
    assert batch.seals[..|batch.seals|] == batch.seals;
    Pow256Values();
    BeRoundTrip(fold, 32);
    r := batch.(worldwideDay := LatestDay(batch.seals), count := CountSum(batch.seals) % TWO_64, fFold := Be(fold, 32));
    var message := SettlementMessage(r.ctx, rmDigest, r.commitmentRoot, r.sequence, r.currency, r.base, r.atto,
                                     r.worldwideDay, r.count, r.fFold);
    r := r.(settleSig := k.edSign(message));
  }

  /** A batch the crate settles passes every check before the hash exactly when its counts fit 64 bits. */
  lemma CrateBatchVerifiedExactly(p: Primitives, k: Keys, q: Request)
    requires Genuine(p, k) && Prepared(k, q) && |q.batch.ctx| == 32 && |q.batch.fFold| == 32
    requires forall i :: 0 <= i < |q.batch.seals| ==>
               HandleSigned(p, k, q.attester, q.batch.ctx, q.batch.sequence, q.batch.seals[i])
    requires q.batch.worldwideDay == LatestDay(q.batch.seals)
    requires q.batch.count == CountSum(q.batch.seals) % TWO_64
    requires FromBe(q.batch.fFold) == FoldSum(q.batch.seals) % BN254_R
    requires q.batch.settleSig == k.edSign(Encode(SettlementOf(q.batch, q.enclave.rmDigest)))
    ensures Verified(p, q) <==> CountSum(q.batch.seals) < TWO_64
  {
    hide Encode, CountSum, FoldSum, LatestDay, FromBe, HandleOf;
    AscendExactly(q.batch.seals);
    assert |SEAL_DST| == 46;
    forall i | 0 <= i < |q.batch.seals| ensures SealAcceptable(p, q, q.batch.seals[i]) {
      assert Certified(k, q.epochs, q.batch.seals[i]);
      assert HandleSigned(p, k, q.attester, q.batch.ctx, q.batch.sequence, q.batch.seals[i]);
    }
  }
}
