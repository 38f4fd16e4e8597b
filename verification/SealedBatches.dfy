/**
 Minting a v2 SpendingUnit from a sealed batch: every check the attester repeats
 before the chain does, in the chain's order, and what a pass means.
 */
module SealedBatches {
  import opened Octets
  import opened Wrappers
  import opened Checklists
  import opened Statements

  const MAX_SEALS: nat := 5

  // ----- records crossing the boundary -----

  datatype PoolSeal = PoolSeal(poolEpoch: U32, fsEpoch: U32, worldwideDay: U64, count: U64, fFold: Bytes,
                               fsGroupKey: Bytes, handleSig: Bytes)

  datatype SealedBatch = SealedBatch(ctx: Bytes, sequence: U64, commitmentRoot: Bytes, worldwideDay: U64, count: U64,
                                     fFold: Bytes, currency: U16, base: U64, atto: U64, settleSig: Bytes,
                                     seals: seq<PoolSeal>)

  datatype RegisteredEnclave = RegisteredEnclave(enclavePk: Bytes, rmDigest: Bytes)

  datatype FsEpochKey = FsEpochKey(epoch: U32, pkAtt: Bytes, dst: Bytes, startWwd: U32, endWwdExclusive: U32)

  datatype NftHeader = NftHeader(nftId: Bytes, derivedOwner: Bytes, opaquePk: Bytes, nonce: Bytes)

  /** The hash preimage of a v2 SpendingUnit, field for field. */
  datatype EntityV2 = EntityV2(id: Bytes32, derivedOwner: Bytes32, attester: Bytes20, referrer: Bytes20,
                               worldwideDay: U64, currency: U16, base: U64, atto: U64, ctx: Bytes32,
                               settlementId: Bytes32)

  datatype IssuanceReport = IssuanceReport(nftId: Bytes, derivedOwner: Bytes, nftHash: Bytes32, opaquePk: Bytes,
                                           nonce: Bytes)

  datatype IssuedV2 = IssuedV2(unit: EntityV2, report: IssuanceReport)

  datatype Total = CountTotal | FoldTotal | DayTotal

  datatype Malformed =
    | WrongLength(what: string, expected: nat, got: nat)
    | SealCount(got: nat)
    | PoolsNotAscending
    | NoEpochKey(fsEpoch: U32)

  datatype AttesterError =
    | BadInput(malformed: Malformed)
    | Issuance(detail: string)
    | DayOutsideEpochWindow(day: U64, epoch: U32)
    | GroupKeyMismatch(epoch: U32)
    | HandleSignatureInvalid(epoch: U32, detail: string)
    | BatchTotalsMismatch(what: Total)
    | SettlementSignatureInvalid(detail: string)

  /**
   The primitives the attester calls and this model leaves uninterpreted: SHA-256, the
   BLS and Ed25519 verifiers (`None` is success, otherwise the reason), entity hashing.
   */
  datatype Primitives = Primitives(
    sha256: Bytes -> Bytes32,
    blsVerify: (Bytes, Bytes, Bytes, Bytes) -> Option<string>,
    edVerify: (Bytes, Bytes, Bytes) -> Option<string>,
    entityHash: EntityV2 -> Result<Bytes32, string>)

  /** The arguments of one issuance. */
  datatype Request = Request(attester: Bytes20, header: NftHeader, batch: SealedBatch, enclave: RegisteredEnclave,
                             epochs: seq<FsEpochKey>, referrer: Bytes)

  // ----- building blocks -----

  /** `epochs.iter().find(..)`: the first entry for the epoch. */
  function KeyFor(epochs: seq<FsEpochKey>, epoch: U32): Option<FsEpochKey> {
    if epochs == [] then None
    else if epochs[0].epoch == epoch then Some(epochs[0])
    else KeyFor(epochs[1..], epoch)
  }

  predicate InWindow(key: FsEpochKey, day: U64) {
    key.startWwd <= day && (key.endWwdExclusive == 0 || day < key.endWwdExclusive)
  }

  predicate PoolsAscend(seals: seq<PoolSeal>) {
    forall i :: 0 < i < |seals| ==> seals[i - 1].poolEpoch < seals[i].poolEpoch
  }

  /** BLS verification with the RFC 9380 bound on the hash-to-curve tag in front. */
  function VerifyHandle(p: Primitives, pk: Bytes, sig: Bytes, dst: Bytes, message: Bytes): Option<string> {
    if |dst| == 0 || |dst| > 255 then Some("dst length") else p.blsVerify(pk, sig, dst, message)
  }

  function CountSum(seals: seq<PoolSeal>): nat {
    if seals == [] then 0 else CountSum(seals[..|seals| - 1]) + seals[|seals| - 1].count
  }

  /** The sum of the folds as natural numbers, without any reduction. */
  function FoldSum(seals: seq<PoolSeal>): nat {
    if seals == [] then 0 else FoldSum(seals[..|seals| - 1]) + FromBe(seals[|seals| - 1].fFold)
  }

  function LatestDay(seals: seq<PoolSeal>): U64 {
    if seals == [] then 0
    else
      var d := LatestDay(seals[..|seals| - 1]);
      if d < seals[|seals| - 1].worldwideDay then seals[|seals| - 1].worldwideDay else d
  }

  /** The committee's statement about one pool of the batch. */
  function HandleOf(p: Primitives, attester: Bytes20, ctx: Bytes32, sequence: U64, seal: PoolSeal): Statement
    requires |seal.fFold| == 32
  {
    Handle(attester, ctx, SealIdOf(p.sha256, ctx, sequence, seal.poolEpoch, seal.count, seal.fFold), seal.count,
           seal.fFold, seal.fsEpoch, seal.worldwideDay)
  }

  /** The enclave's statement about the batch. */
  function SettlementOf(batch: SealedBatch, rmDigest: Bytes32): Statement
    requires |batch.ctx| == 32 && |batch.fFold| == 32
  {
    Settlement(batch.ctx, rmDigest, batch.commitmentRoot, batch.sequence, batch.currency, batch.base, batch.atto,
               batch.worldwideDay, batch.count, batch.fFold)
  }

  // ----- the documented order -----

  type BatchCheck = Check<AttesterError>

  function LengthCheck(bytes: Bytes, expected: nat, what: string): BatchCheck {
    Check(|bytes| == expected, BadInput(WrongLength(what, expected, |bytes|)))
  }

  function HeaderChecks(q: Request): (r: seq<BatchCheck>)
    ensures |r| == 8
  {
    [LengthCheck(q.header.nftId, 32, "nft_id"),
     LengthCheck(q.header.derivedOwner, 32, "derived_owner"),
     LengthCheck(q.referrer, 20, "referrer_addr"),
     LengthCheck(q.batch.ctx, 32, "ctx"),
     LengthCheck(q.batch.fFold, 32, "f_fold"),
     LengthCheck(q.enclave.enclavePk, 32, "enclave_pk"),
     LengthCheck(q.enclave.rmDigest, 32, "rm_digest"),
     LengthCheck(q.batch.settleSig, 64, "settle_sig")]
  }

  function ShapeChecks(seals: seq<PoolSeal>): (r: seq<BatchCheck>)
    ensures |r| == 2
  {
    [Check(1 <= |seals| <= MAX_SEALS, BadInput(SealCount(|seals|))),
     Check(PoolsAscend(seals), BadInput(PoolsNotAscending))]
  }

  /** Why the handle of a well-formed seal is refused, if it is. */
  function HandleRefusal(p: Primitives, q: Request, seal: PoolSeal): Option<string>
    requires |q.batch.ctx| == 32
  {
    var key := KeyFor(q.epochs, seal.fsEpoch);
    if |seal.fFold| != 32 || key.None? then Some("malformed")
    else
      VerifyHandle(p, key.value.pkAtt, seal.handleSig, key.value.dst,
                   Encode(HandleOf(p, q.attester, q.batch.ctx, q.batch.sequence, seal)))
  }

  function SealFieldChecks(key: Option<FsEpochKey>, seal: PoolSeal): (r: seq<BatchCheck>)
    ensures |r| == 7
  {
    [LengthCheck(seal.fFold, 32, "seal f_fold"),
     LengthCheck(seal.handleSig, 48, "handle_sig"),
     LengthCheck(seal.fsGroupKey, 96, "fs_group_key"),
     Check(key.Some?, BadInput(NoEpochKey(seal.fsEpoch))),
     LengthCheck(if key.Some? then key.value.pkAtt else [], 96, "pk_att"),
     Check(key.Some? && InWindow(key.value, seal.worldwideDay),
           DayOutsideEpochWindow(seal.worldwideDay, seal.fsEpoch)),
     Check(key.Some? && seal.fsGroupKey == key.value.pkAtt, GroupKeyMismatch(seal.fsEpoch))]
  }

  function HandleCheck(refusal: Option<string>, seal: PoolSeal): BatchCheck {
    Check(refusal.None?, HandleSignatureInvalid(seal.fsEpoch, if refusal.Some? then refusal.value else ""))
  }

  function SealChecks(p: Primitives, q: Request, seal: PoolSeal): (r: seq<BatchCheck>)
    requires |q.batch.ctx| == 32
    ensures |r| == 8
  {
    SealFieldChecks(KeyFor(q.epochs, seal.fsEpoch), seal) + [HandleCheck(HandleRefusal(p, q, seal), seal)]
  }

  /** The checks of all seals, seal after seal. */
  function AllSealChecks(p: Primitives, q: Request): (r: seq<seq<BatchCheck>>)
    requires |q.batch.ctx| == 32
    ensures |r| == |q.batch.seals|
    ensures forall i :: 0 <= i < |r| ==> r[i] == SealChecks(p, q, q.batch.seals[i])
  {
    seq(|q.batch.seals|, i requires 0 <= i < |q.batch.seals| => SealChecks(p, q, q.batch.seals[i]))
  }

  function TotalsChecks(batch: SealedBatch): (r: seq<BatchCheck>)
    ensures |r| == 3
  {
    [Check(CountSum(batch.seals) == batch.count, BatchTotalsMismatch(CountTotal)),
     Check(FoldSum(batch.seals) % BN254_R == FromBe(batch.fFold), BatchTotalsMismatch(FoldTotal)),
     Check(LatestDay(batch.seals) == batch.worldwideDay, BatchTotalsMismatch(DayTotal))]
  }

  predicate WellFormed(q: Request) {
    Passes(HeaderChecks(q))
  }

  lemma WellFormedMeans(q: Request)
    ensures WellFormed(q) <==>
            && |q.header.nftId| == 32 && |q.header.derivedOwner| == 32 && |q.referrer| == 20
            && |q.batch.ctx| == 32 && |q.batch.fFold| == 32 && |q.enclave.enclavePk| == 32
            && |q.enclave.rmDigest| == 32 && |q.batch.settleSig| == 64
  {
    var h := HeaderChecks(q);
    assert WellFormed(q) <==> h[0].ok && h[1].ok && h[2].ok && h[3].ok && h[4].ok && h[5].ok && h[6].ok && h[7].ok;
  }

  /** What is minted once every check before the hash has passed. */
  function EntityOf(p: Primitives, q: Request): EntityV2
    requires WellFormed(q)
  {
    WellFormedMeans(q);
    EntityV2(q.header.nftId, q.header.derivedOwner, q.attester, q.referrer, q.batch.worldwideDay, q.batch.currency,
             q.batch.base, q.batch.atto, q.batch.ctx, SettlementIdOf(p.sha256, q.batch.ctx, q.batch.sequence))
  }

  function FinalChecks(p: Primitives, q: Request): (r: seq<BatchCheck>)
    requires WellFormed(q)
    ensures |r| == 2
  {
    WellFormedMeans(q);
    var refusal := p.edVerify(q.enclave.enclavePk, q.batch.settleSig,
                              Encode(SettlementOf(q.batch, q.enclave.rmDigest)));
    var hashed := p.entityHash(EntityOf(p, q));
    [Check(refusal.None?, SettlementSignatureInvalid(if refusal.Some? then refusal.value else "")),
     Check(hashed.Success?, Issuance(if hashed.Failure? then hashed.error else ""))]
  }

  /** The five groups of checks of a well-formed request, in order. */
  function Parts(p: Primitives, q: Request): (r: seq<seq<BatchCheck>>)
    requires WellFormed(q)
    ensures |r| == 5
  {
    WellFormedMeans(q);
    [HeaderChecks(q), ShapeChecks(q.batch.seals), Flat(AllSealChecks(p, q)), TotalsChecks(q.batch), FinalChecks(p, q)]
  }

  /** Every check of an issuance, first to last. */
  function Checklist(p: Primitives, q: Request): seq<BatchCheck> {
    if WellFormed(q) then Flat(Parts(p, q)) else HeaderChecks(q)
  }

  /** What the documented order prescribes: the first failing check's error, or the minted unit. */
  ghost predicate Prescribed(p: Primitives, q: Request, r: Result<IssuedV2, AttesterError>) {
    match r
    case Failure(e) => FailsWith(Checklist(p, q), e)
    case Success(issued) => Passes(Checklist(p, q)) && Minted(p, q, issued)
  }

  ghost predicate Minted(p: Primitives, q: Request, issued: IssuedV2) {
    && WellFormed(q)
    && issued.unit == EntityOf(p, q)
    && p.entityHash(issued.unit) == Success(issued.report.nftHash)
    && issued.report == IssuanceReport(q.header.nftId, q.header.derivedOwner, issued.report.nftHash,
                                       q.header.opaquePk, q.header.nonce)
  }

  // ----- the attester's pass over the batch -----

  method CheckLengths(q: Request) returns (e: Option<AttesterError>)
    ensures e.None? ==> WellFormed(q)
    ensures e.Some? ==> !WellFormed(q) && FailsWith(HeaderChecks(q), e.value)
  {
    ghost var h := HeaderChecks(q);
    WellFormedMeans(q);
    if |q.header.nftId| != 32 {
      assert FailsAt(h, 0);
      return Some(BadInput(WrongLength("nft_id", 32, |q.header.nftId|)));
    }
    if |q.header.derivedOwner| != 32 {
      assert FailsAt(h, 1);
      return Some(BadInput(WrongLength("derived_owner", 32, |q.header.derivedOwner|)));
    }
    if |q.referrer| != 20 {
      assert FailsAt(h, 2);
      return Some(BadInput(WrongLength("referrer_addr", 20, |q.referrer|)));
    }
    if |q.batch.ctx| != 32 {
      assert FailsAt(h, 3);
      return Some(BadInput(WrongLength("ctx", 32, |q.batch.ctx|)));
    }
    if |q.batch.fFold| != 32 {
      assert FailsAt(h, 4);
      return Some(BadInput(WrongLength("f_fold", 32, |q.batch.fFold|)));
    }
    if |q.enclave.enclavePk| != 32 {
      assert FailsAt(h, 5);
      return Some(BadInput(WrongLength("enclave_pk", 32, |q.enclave.enclavePk|)));
    }
    if |q.enclave.rmDigest| != 32 {
      assert FailsAt(h, 6);
      return Some(BadInput(WrongLength("rm_digest", 32, |q.enclave.rmDigest|)));
    }
    if |q.batch.settleSig| != 64 {
      assert FailsAt(h, 7);
      return Some(BadInput(WrongLength("settle_sig", 64, |q.batch.settleSig|)));
    }
    return None;
  }

  method CheckSealFields(key: Option<FsEpochKey>, seal: PoolSeal) returns (e: Option<AttesterError>)
    ensures e.None? ==> Passes(SealFieldChecks(key, seal)) && key.Some? && |seal.fFold| == 32
    ensures e.Some? ==> FailsWith(SealFieldChecks(key, seal), e.value)
  {
    ghost var list := SealFieldChecks(key, seal);
    if |seal.fFold| != 32 {
      assert FailsAt(list, 0);
      return Some(BadInput(WrongLength("seal f_fold", 32, |seal.fFold|)));
    }
    if |seal.handleSig| != 48 {
      assert FailsAt(list, 1);
      return Some(BadInput(WrongLength("handle_sig", 48, |seal.handleSig|)));
    }
    if |seal.fsGroupKey| != 96 {
      assert FailsAt(list, 2);
      return Some(BadInput(WrongLength("fs_group_key", 96, |seal.fsGroupKey|)));
    }
    if key.None? {
      assert FailsAt(list, 3);
      return Some(BadInput(NoEpochKey(seal.fsEpoch)));
    }
    if |key.value.pkAtt| != 96 {
      assert FailsAt(list, 4);
      return Some(BadInput(WrongLength("pk_att", 96, |key.value.pkAtt|)));
    }
    if seal.worldwideDay < key.value.startWwd
       || (key.value.endWwdExclusive != 0 && seal.worldwideDay >= key.value.endWwdExclusive) {
      assert FailsAt(list, 5);
      return Some(DayOutsideEpochWindow(seal.worldwideDay, seal.fsEpoch));
    }
    if seal.fsGroupKey != key.value.pkAtt {
      assert FailsAt(list, 6);
      return Some(GroupKeyMismatch(seal.fsEpoch));
    }
    return None;
  }

  method CheckHandle(p: Primitives, q: Request, key: FsEpochKey, seal: PoolSeal) returns (refusal: Option<string>)
    requires |q.batch.ctx| == 32 && |seal.fFold| == 32 && KeyFor(q.epochs, seal.fsEpoch) == Some(key)
    ensures refusal == HandleRefusal(p, q, seal)
  {
    var id := SealIdOf(p.sha256, q.batch.ctx, q.batch.sequence, seal.poolEpoch, seal.count, seal.fFold);
    var message := HandleMessage(q.attester, q.batch.ctx, id, seal.count, seal.fFold, seal.fsEpoch, seal.worldwideDay);
    refusal := VerifyHandle(p, key.pkAtt, seal.handleSig, key.dst, message);
  }

  method CheckSeal(p: Primitives, q: Request, seal: PoolSeal) returns (e: Option<AttesterError>)
    requires |q.batch.ctx| == 32
    ensures e.None? ==> Passes(SealChecks(p, q, seal))
    ensures e.Some? ==> FailsWith(SealChecks(p, q, seal), e.value)
  {
    var key := KeyFor(q.epochs, seal.fsEpoch);
    ghost var fields := SealFieldChecks(key, seal);
    e := CheckSealFields(key, seal);
    ghost var last := [HandleCheck(HandleRefusal(p, q, seal), seal)];
    if e.Some? {
      FailsInside([], fields, last, e.value);
      assert [] + fields + last == fields + last;
      return;
    }
    var refusal := CheckHandle(p, q, key.value, seal);
    if refusal.Some? {
      e := Some(HandleSignatureInvalid(seal.fsEpoch, refusal.value));
      assert FailsAt(last, 0);
      FailsInside(fields, last, [], e.value);
      assert fields + last + [] == fields + last;
      return;
    }
    PassesTogether(fields, last);
  }

  method CheckShape(seals: seq<PoolSeal>) returns (e: Option<AttesterError>)
    ensures e.None? ==> Passes(ShapeChecks(seals)) && 1 <= |seals| <= MAX_SEALS
    ensures e.Some? ==> FailsWith(ShapeChecks(seals), e.value)
  {
    ghost var list := ShapeChecks(seals);
    if |seals| == 0 || |seals| > MAX_SEALS {
      assert FailsAt(list, 0);
      return Some(BadInput(SealCount(|seals|)));
    }
    if exists i | 0 < i < |seals| :: seals[i].poolEpoch <= seals[i - 1].poolEpoch {
      assert FailsAt(list, 1);
      return Some(BadInput(PoolsNotAscending));
    }
    return None;
  }

  /**
   The one pass over the seals: checks each, and accumulates a `u128` count, a fold
   reduced at every step and the latest day. The totals are exact: the count is the
   sum over the naturals, and the fold is the residue of the unreduced sum of folds.
   */
  method CheckSeals(p: Primitives, q: Request)
    returns (e: Option<AttesterError>, count: U128, fold: nat, day: U64)
    requires |q.batch.ctx| == 32 && |q.batch.seals| <= MAX_SEALS
    ensures e.None? ==> Passes(Flat(AllSealChecks(p, q)))
    ensures e.None? ==> Accumulated(q.batch.seals, count, fold, day)
    ensures e.Some? ==> FailsWith(Flat(AllSealChecks(p, q)), e.value)
  {
    hide SealChecks, FailsWith, Passes, FromBe, AddMod, Accumulated;
    var seals := q.batch.seals;
    e, count, fold, day := None, 0, 0, 0;
    NothingAccumulated(seals);
    ghost var parts := AllSealChecks(p, q);
    for i := 0 to |seals|
      invariant e.None? && Accumulated(seals[..i], count, fold, day)
      invariant forall j :: 0 <= j < i ==> Passes(parts[j])
    {
      e := CheckSeal(p, q, seals[i]);
      if e.Some? {
        FlatFails(parts, i, e.value);
        return;
      }
      Accumulate(seals, i, count, fold, day);
      count := count + seals[i].count;
      fold := AddMod(fold, FromBe(seals[i].fFold));
      if day < seals[i].worldwideDay {
        day := seals[i].worldwideDay;
      }
    }
    assert seals[..|seals|] == seals;
    FlatPasses(parts);
  }

  method CheckTotals(batch: SealedBatch, count: U128, fold: nat, day: U64) returns (e: Option<AttesterError>)
    requires Accumulated(batch.seals, count, fold, day)
    ensures e.None? ==> Passes(TotalsChecks(batch))
    ensures e.Some? ==> FailsWith(TotalsChecks(batch), e.value)
  {
    ghost var list := TotalsChecks(batch);
    if count != batch.count {
      assert FailsAt(list, 0);
      return Some(BatchTotalsMismatch(CountTotal));
    }
    if fold != FromBe(batch.fFold) {
      assert FailsAt(list, 1);
      return Some(BatchTotalsMismatch(FoldTotal));
    }
    if day != batch.worldwideDay {
      assert FailsAt(list, 2);
      return Some(BatchTotalsMismatch(DayTotal));
    }
    return None;
  }

  /** The settlement signature, then the entity hash. */
  method Settle(p: Primitives, q: Request) returns (r: Result<IssuedV2, AttesterError>)
    requires WellFormed(q)
    ensures r.Success? ==> Passes(FinalChecks(p, q)) && Minted(p, q, r.value)
    ensures r.Failure? ==> FailsWith(FinalChecks(p, q), r.error)
  {
    WellFormedMeans(q);
    ghost var list := FinalChecks(p, q);
    var b := q.batch;
    var settlement := SettlementMessage(b.ctx, q.enclave.rmDigest, b.commitmentRoot, b.sequence, b.currency, b.base,
                                        b.atto, b.worldwideDay, b.count, b.fFold);
    var refusal := p.edVerify(q.enclave.enclavePk, b.settleSig, settlement);
    if refusal.Some? {
      assert FailsAt(list, 0);
      return Failure(SettlementSignatureInvalid(refusal.value));
    }
    var entity := EntityOf(p, q);
    var hashed := p.entityHash(entity);
    if hashed.Failure? {
      assert FailsAt(list, 1);
      return Failure(Issuance(hashed.error));
    }
    return Success(IssuedV2(entity, IssuanceReport(q.header.nftId, q.header.derivedOwner, hashed.value,
                                                   q.header.opaquePk, q.header.nonce)));
  }

  /** Mints a v2 SpendingUnit, or refuses with the first failing check of the documented order. */
  method IssueFromSealedBatch(p: Primitives, q: Request) returns (r: Result<IssuedV2, AttesterError>)
    ensures Prescribed(p, q, r)
  {
    hide HeaderChecks, ShapeChecks, SealChecks, TotalsChecks, FinalChecks, Minted, FailsWith, Passes;
    var e := CheckLengths(q);
    if e.Some? {
      return Failure(e.value);
    }
    WellFormedMeans(q);
    ghost var parts := Parts(p, q);
    e := CheckShape(q.batch.seals);
    if e.Some? {
      FlatFails(parts, 1, e.value);
      return Failure(e.value);
    }
    var count, fold, day;
    e, count, fold, day := CheckSeals(p, q);
    if e.Some? {
      FlatFails(parts, 2, e.value);
      return Failure(e.value);
    }
    e := CheckTotals(q.batch, count, fold, day);
    if e.Some? {
      FlatFails(parts, 3, e.value);
      return Failure(e.value);
    }
    r := Settle(p, q);
    if r.Failure? {
      FlatFails(parts, 4, r.error);
    } else {
      FlatPasses(parts);
    }
  }

  /** `add_mod` with the field modulus. */
  function AddMod(a: nat, b: nat): nat {
    (a + b) % BN254_R
  }

  /** The running values are the totals of the seals seen so far. */
  ghost predicate Accumulated(seals: seq<PoolSeal>, count: U128, fold: nat, day: U64) {
    && count == CountSum(seals) <= |seals| * 0xffff_ffff_ffff_ffff
    && fold == FoldSum(seals) % BN254_R
    && day == LatestDay(seals)
  }

  lemma NothingAccumulated(seals: seq<PoolSeal>)
    ensures Accumulated(seals[..0], 0, 0, 0)
  {
  }

  /** One step; reducing after every addition keeps the residue of the unreduced sum. */
  lemma Accumulate(seals: seq<PoolSeal>, i: nat, count: U128, fold: nat, day: U64)
    requires i < |seals| <= MAX_SEALS && Accumulated(seals[..i], count, fold, day)
    ensures count + seals[i].count < 0x1_0000_0000_0000_0000_0000_0000_0000_0000
    ensures Accumulated(seals[..i + 1], count + seals[i].count, AddMod(fold, FromBe(seals[i].fFold)),
                        if day < seals[i].worldwideDay then seals[i].worldwideDay else day)
  {
    assert seals[..i + 1][..i] == seals[..i];
    AddModIsSum(FoldSum(seals[..i]), FromBe(seals[i].fFold));
  }

  lemma AddModIsSum(sum: nat, x: nat)
    ensures (sum % BN254_R + x) % BN254_R == (sum + x) % BN254_R
  {
  }
}
