/**
 What an accepted batch is bound to: the committee's grants, the enclave's statement,
 the exact totals, and the key entries its seals name. Bindings hold up to a SHA-256
 collision, and the two colliding preimages are always named.
 */
module BatchBinding {
  import opened Octets
  import opened Wrappers
  import opened Checklists
  import opened Statements
  import opened SealedBatches
  import opened Issuance

  // ----- the committee's grants -----

  /** What a committee states about one pool, with the facts its seal id is derived from. */
  datatype Grant = Grant(attester: Bytes20, ctx: Bytes32, sequence: U64, poolEpoch: U32, count: U64, fFold: Bytes32,
                         fsEpoch: U32, day: U64)
  {
    function SealFacts(): Statement {
      SealId(ctx, sequence, poolEpoch, count, fFold)
    }

    function Signed(p: Primitives): Statement {
      Handle(attester, ctx, p.sha256(Encode(SealFacts())), count, fFold, fsEpoch, day)
    }
  }

  function GrantOf(q: Request, seal: PoolSeal): Grant
    requires |q.batch.ctx| == 32 && |seal.fFold| == 32
  {
    Grant(q.attester, q.batch.ctx, q.batch.sequence, seal.poolEpoch, seal.count, seal.fFold, seal.fsEpoch,
          seal.worldwideDay)
  }

  /** `g` is the grant `h`, or their seal-id preimages are two inputs with one digest. */
  ghost predicate SameGrantOrCollision(p: Primitives, g: Grant, h: Grant) {
    g == h || Collision(p.sha256, Encode(g.SealFacts()), Encode(h.SealFacts()))
  }

  /** One signed message is one grant, all eight values, up to a collision of the two preimages. */
  lemma HandleBindsGrant(p: Primitives, g: Grant, h: Grant)
    requires Encode(g.Signed(p)) == Encode(h.Signed(p))
    ensures SameGrantOrCollision(p, g, h)
    ensures g.attester == h.attester && g.ctx == h.ctx && g.count == h.count && g.fFold == h.fFold
    ensures g.fsEpoch == h.fsEpoch && g.day == h.day
  {
    hide Encode;
    EncodeInjective(g.Signed(p), h.Signed(p));
    IdsBindOrCollide(p.sha256, g.SealFacts(), h.SealFacts());
  }

  /** The handle of the seal verifies, under its epoch's key and tag, as the committee's statement of `g`. */
  ghost predicate HandleVerifies(p: Primitives, q: Request, seal: PoolSeal, g: Grant) {
    && KeyFor(q.epochs, seal.fsEpoch).Some?
    && var key := KeyFor(q.epochs, seal.fsEpoch).value;
    p.blsVerify(key.pkAtt, seal.handleSig, key.dst, Encode(g.Signed(p))).None?
  }

  /** The one handle of the seal verifies on two different messages. */
  ghost predicate HandleOfTwo(p: Primitives, q: Request, seal: PoolSeal, g: Grant, h: Grant) {
    && Encode(g.Signed(p)) != Encode(h.Signed(p))
    && HandleVerifies(p, q, seal, g) && HandleVerifies(p, q, seal, h)
  }

  lemma OwnHandleVerifies(p: Primitives, q: Request, i: nat)
    requires Acceptable(p, q) && i < |q.batch.seals|
    ensures SealAcceptable(p, q, q.batch.seals[i])
    ensures HandleVerifies(p, q, q.batch.seals[i], GrantOf(q, q.batch.seals[i]))
  {
    hide Encode;
    assert SealAcceptable(p, q, q.batch.seals[i]);
  }

  /**
   Whatever grant the handle of an accepted seal was signed for, its attester, context,
   sequence, pool, count, fold, epoch and day are those of the batch. Otherwise two seal-id
   preimages collide, or the handle verifies on two messages.
   */
  lemma AcceptedSealsWereGranted(p: Primitives, q: Request, i: nat, g: Grant)
    requires Acceptable(p, q) && i < |q.batch.seals| && HandleVerifies(p, q, q.batch.seals[i], g)
    ensures SealAcceptable(p, q, q.batch.seals[i])
    ensures var seal := q.batch.seals[i];
            SameGrantOrCollision(p, g, GrantOf(q, seal)) || HandleOfTwo(p, q, seal, g, GrantOf(q, seal))
  {
    hide Encode, HandleVerifies, Acceptable;
    OwnHandleVerifies(p, q, i);
    var mine := GrantOf(q, q.batch.seals[i]);
    if Encode(g.Signed(p)) == Encode(mine.Signed(p)) {
      HandleBindsGrant(p, g, mine);
    }
  }

  /** The handle verifies on a message that belongs to none of the issued grants. */
  ghost predicate ForgedHandle(p: Primitives, q: Request, seal: PoolSeal, issued: seq<Grant>)
    requires |q.batch.ctx| == 32 && |seal.fFold| == 32
  {
    && HandleVerifies(p, q, seal, GrantOf(q, seal))
    && forall g <- issued :: Encode(g.Signed(p)) != Encode(GrantOf(q, seal).Signed(p))
  }

  /** Given all the grants its committee ever issued, every accepted seal has one of them, or a forged handle. */
  lemma SealGrantedOrForged(p: Primitives, q: Request, i: nat, issued: seq<Grant>)
    requires Acceptable(p, q) && i < |q.batch.seals|
    ensures SealAcceptable(p, q, q.batch.seals[i])
    ensures var seal := q.batch.seals[i];
            (exists g <- issued :: SameGrantOrCollision(p, g, GrantOf(q, seal))) || ForgedHandle(p, q, seal, issued)
  {
    hide Encode, HandleVerifies, Acceptable, SameGrantOrCollision;
    OwnHandleVerifies(p, q, i);
    var mine := GrantOf(q, q.batch.seals[i]);
    if g :| g in issued && Encode(g.Signed(p)) == Encode(mine.Signed(p)) {
      HandleBindsGrant(p, g, mine);
    }
  }

  /** No pool is counted twice: pools differ, and so do their seal ids unless SHA-256 collides on them. */
  lemma SealIdsDistinct(p: Primitives, q: Request, i: nat, j: nat)
    requires Acceptable(p, q) && i < j < |q.batch.seals|
    ensures SealAcceptable(p, q, q.batch.seals[i]) && SealAcceptable(p, q, q.batch.seals[j])
    ensures q.batch.seals[i].poolEpoch != q.batch.seals[j].poolEpoch
    ensures var a, b := GrantOf(q, q.batch.seals[i]).SealFacts(), GrantOf(q, q.batch.seals[j]).SealFacts();
            p.sha256(Encode(a)) != p.sha256(Encode(b)) || Collision(p.sha256, Encode(a), Encode(b))
  {
    hide Encode;
    assert SealAcceptable(p, q, q.batch.seals[i]) && SealAcceptable(p, q, q.batch.seals[j]);
    var a, b := GrantOf(q, q.batch.seals[i]).SealFacts(), GrantOf(q, q.batch.seals[j]).SealFacts();
    assert a != b;
    if p.sha256(Encode(a)) == p.sha256(Encode(b)) {
      IdsBindOrCollide(p.sha256, a, b);
    }
  }

  // ----- the enclave's statement -----

  /** The settlement signature verifies on a statement that is none of the settled ones. */
  ghost predicate ForgedSettlement(p: Primitives, q: Request, settled: seq<Statement>)
    requires |q.batch.ctx| == 32 && |q.batch.fFold| == 32 && |q.enclave.rmDigest| == 32
  {
    var m := Encode(SettlementOf(q.batch, q.enclave.rmDigest));
    p.edVerify(q.enclave.enclavePk, q.batch.settleSig, m).None? && forall s <- settled :: Encode(s) != m
  }

  /** The unit has the amount, currency, day, context and settlement id of the statement. */
  ghost predicate Carries(p: Primitives, unit: EntityV2, s: Statement) {
    && s.Settlement?
    && unit.base == s.base && unit.atto == s.atto && unit.currency == s.currency
    && unit.worldwideDay == s.day && unit.ctx == s.ctx
    && unit.settlementId == p.sha256(Encode(SettlementId(s.ctx, s.sequence)))
  }

  /** What is minted: the identities of the request, and everything else from the batch. */
  lemma MintedUnit(p: Primitives, q: Request, issued: IssuedV2)
    requires Prescribed(p, q, Success(issued))
    ensures issued.unit.id == q.header.nftId && issued.unit.derivedOwner == q.header.derivedOwner
    ensures issued.unit.attester == q.attester && issued.unit.referrer == q.referrer
    ensures issued.unit.base == q.batch.base && issued.unit.atto == q.batch.atto
    ensures issued.unit.currency == q.batch.currency && issued.unit.worldwideDay == q.batch.worldwideDay
    ensures issued.unit.ctx == q.batch.ctx
    ensures issued.unit.settlementId == p.sha256(Encode(SettlementId(q.batch.ctx, q.batch.sequence)))
    ensures p.entityHash(issued.unit) == Success(issued.report.nftHash)
    ensures issued.report.nftId == q.header.nftId && issued.report.derivedOwner == q.header.derivedOwner
    ensures issued.report.opaquePk == q.header.opaquePk && issued.report.nonce == q.header.nonce
  {
    hide Checklist, Encode;
  }

  /**
   Given all the statements the enclave ever signed, a minted unit carries the amount,
   currency, day, context and settlement id of one of them, or the signature is forged.
   */
  lemma MintedWasSettled(p: Primitives, q: Request, issued: IssuedV2, settled: seq<Statement>)
    requires Prescribed(p, q, Success(issued))
    ensures |q.batch.ctx| == 32 && |q.batch.fFold| == 32 && |q.enclave.rmDigest| == 32
    ensures (exists s <- settled :: Carries(p, issued.unit, s)) || ForgedSettlement(p, q, settled)
  {
    hide Encode, Checklist, Minted;
    MintsExactlyAcceptable(p, q, Success(issued));
    MintedUnit(p, q, issued);
    var stated := SettlementOf(q.batch, q.enclave.rmDigest);
    assert Carries(p, issued.unit, stated);
    if s :| s in settled && Encode(s) == Encode(stated) {
      EncodeInjective(s, stated);
    }
  }

  /** The enclave signed two different settlements of one sync. */
  ghost predicate SettledTwice(p: Primitives, q: Request, q': Request)
    requires |q.batch.ctx| == 32 && |q.batch.fFold| == 32 && |q.enclave.rmDigest| == 32
    requires |q'.batch.ctx| == 32 && |q'.batch.fFold| == 32 && |q'.enclave.rmDigest| == 32
  {
    var s, t := SettlementOf(q.batch, q.enclave.rmDigest), SettlementOf(q'.batch, q'.enclave.rmDigest);
    && s != t && s.ctx == t.ctx && s.sequence == t.sequence
    && Encode(s) != Encode(t)
    && p.edVerify(q.enclave.enclavePk, q.batch.settleSig, Encode(s)).None?
    && p.edVerify(q.enclave.enclavePk, q'.batch.settleSig, Encode(t)).None?
  }

  /**
   Two units minted under one enclave with the same settlement id have the same amount,
   currency, day and context. Otherwise the two settlement-id preimages collide, or the
   enclave signed two settlements of one sync, and both are at hand.
   */
  lemma OneSettlementOneAmount(p: Primitives, q: Request, q': Request, issued: IssuedV2, issued': IssuedV2)
    requires Prescribed(p, q, Success(issued)) && Prescribed(p, q', Success(issued'))
    requires q.enclave.enclavePk == q'.enclave.enclavePk && issued.unit.settlementId == issued'.unit.settlementId
    ensures |q.batch.ctx| == 32 && |q.batch.fFold| == 32 && |q.enclave.rmDigest| == 32
    ensures |q'.batch.ctx| == 32 && |q'.batch.fFold| == 32 && |q'.enclave.rmDigest| == 32
    ensures || (&& issued.unit.base == issued'.unit.base && issued.unit.atto == issued'.unit.atto
                && issued.unit.currency == issued'.unit.currency
                && issued.unit.worldwideDay == issued'.unit.worldwideDay && issued.unit.ctx == issued'.unit.ctx
                && SettlementOf(q.batch, q.enclave.rmDigest) == SettlementOf(q'.batch, q'.enclave.rmDigest))
            || Collision(p.sha256, Encode(SettlementId(q.batch.ctx, q.batch.sequence)),
                         Encode(SettlementId(q'.batch.ctx, q'.batch.sequence)))
            || SettledTwice(p, q, q')
  {
    hide Encode, Checklist, Minted;
    MintsExactlyAcceptable(p, q, Success(issued));
    MintsExactlyAcceptable(p, q', Success(issued'));
    MintedUnit(p, q, issued);
    MintedUnit(p, q', issued');
    IdsBindOrCollide(p.sha256, SettlementId(q.batch.ctx, q.batch.sequence),
                     SettlementId(q'.batch.ctx, q'.batch.sequence));
    var s, t := SettlementOf(q.batch, q.enclave.rmDigest), SettlementOf(q'.batch, q'.enclave.rmDigest);
    if Encode(s) == Encode(t) {
      EncodeInjective(s, t);
    }
  }

  // ----- the totals -----

  lemma {:induction false} RemoveSeal(seals: seq<PoolSeal>, i: nat)
    requires i < |seals|
    ensures CountSum(seals) == CountSum(seals[..i] + seals[i + 1..]) + seals[i].count
    ensures FoldSum(seals) == FoldSum(seals[..i] + seals[i + 1..]) + FromBe(seals[i].fFold)
    ensures var rest := LatestDay(seals[..i] + seals[i + 1..]);
            LatestDay(seals) == if rest < seals[i].worldwideDay then seals[i].worldwideDay else rest
  {
    hide FromBe;
    var n := |seals| - 1;
    var without := seals[..i] + seals[i + 1..];
    if i == n {
      assert without == seals[..n];
    } else {
      RemoveSeal(seals[..n], i);
      assert without[..n - 1] == seals[..n][..i] + seals[..n][i + 1..];
      assert without[n - 1] == seals[n];
    }
  }

  /** The three totals do not depend on the order of the seals. */
  lemma {:induction false} TotalsOrderFree(a: seq<PoolSeal>, b: seq<PoolSeal>)
    requires multiset(a) == multiset(b)
    ensures CountSum(a) == CountSum(b) && FoldSum(a) == FoldSum(b) && LatestDay(a) == LatestDay(b)
    decreases |a|
  {
    hide CountSum, FoldSum, LatestDay, FromBe;
    if a == [] {
      assert |multiset(b)| == 0;
    } else {
      var n := |a| - 1;
      var i := FindAndRemove(a, b);
      TotalsOrderFree(a[..n], b[..i] + b[i + 1..]);
      RemoveSeal(b, i);
      RemoveSeal(a, n);
      assert a[..n] + a[n + 1..] == a[..n];
    }
  }

  lemma FindAndRemove(a: seq<PoolSeal>, b: seq<PoolSeal>) returns (i: nat)
    requires multiset(a) == multiset(b) && a != []
    ensures i < |b| && b[i] == a[|a| - 1]
    ensures multiset(a[..|a| - 1]) == multiset(b[..i] + b[i + 1..])
  {
    var n := |a| - 1;
    assert a[n] in multiset(a);
    i :| 0 <= i < |b| && b[i] == a[n];
    Without(a, n);
    Without(b, i);
    assert a[..n] + a[n + 1..] == a[..n];
  }

  lemma Without(s: seq<PoolSeal>, i: nat)
    requires i < |s|
    ensures multiset(s[..i] + s[i + 1..]) == multiset(s) - multiset{s[i]}
  {
    assert s == s[..i] + ([s[i]] + s[i + 1..]);
  }

  /** The seals whose flag is set, in order. */
  function Keep(seals: seq<PoolSeal>, kept: seq<bool>): seq<PoolSeal>
    requires |seals| == |kept|
  {
    if seals == [] then []
    else
      var n := |seals| - 1;
      Keep(seals[..n], kept[..n]) + if kept[n] then [seals[n]] else []
  }

  lemma {:induction false} DroppedCounts(seals: seq<PoolSeal>, kept: seq<bool>, i: nat)
    requires |seals| == |kept| && i < |seals| && !kept[i]
    ensures CountSum(Keep(seals, kept)) + seals[i].count <= CountSum(seals)
  {
    var n := |seals| - 1;
    KeptCounts(seals[..n], kept[..n]);
    var rest := Keep(seals[..n], kept[..n]);
    assert Keep(seals, kept)[..|rest|] == rest;
    assert kept[n] || Keep(seals, kept) == rest;
    if i < n {
      DroppedCounts(seals[..n], kept[..n], i);
    }
  }

  lemma {:induction false} KeptCounts(seals: seq<PoolSeal>, kept: seq<bool>)
    requires |seals| == |kept|
    ensures CountSum(Keep(seals, kept)) <= CountSum(seals)
  {
    if seals == [] {
    } else {
      var n := |seals| - 1;
      KeptCounts(seals[..n], kept[..n]);
      var rest := Keep(seals[..n], kept[..n]);
      assert Keep(seals, kept)[..|rest|] == rest;
      assert kept[n] || Keep(seals, kept) == rest;
    }
  }

  /** Dropping a seal that certifies anything makes the batch unacceptable, whoever re-signs the handles. */
  lemma NoSealCanBeDropped(p: Primitives, q: Request, q': Request, kept: seq<bool>, i: nat)
    requires Acceptable(p, q) && |kept| == |q.batch.seals| && i < |kept| && !kept[i] && q.batch.seals[i].count > 0
    requires q'.batch.count == q.batch.count && q'.batch.seals == Keep(q.batch.seals, kept)
    ensures !Acceptable(p, q')
  {
    DroppedCounts(q.batch.seals, kept, i);
  }

  // ----- the key directory -----

  /** The two directories give every seal of the batch the same key, or both none. */
  ghost predicate SameKeys(q: Request, epochs: seq<FsEpochKey>) {
    forall i :: 0 <= i < |q.batch.seals| ==>
      KeyFor(epochs, q.batch.seals[i].fsEpoch) == KeyFor(q.epochs, q.batch.seals[i].fsEpoch)
  }

  lemma SameSealChecks(p: Primitives, q: Request, epochs: seq<FsEpochKey>, i: nat)
    requires SameKeys(q, epochs) && |q.batch.ctx| == 32 && i < |q.batch.seals|
    ensures SealChecks(p, q.(epochs := epochs), q.batch.seals[i]) == SealChecks(p, q, q.batch.seals[i])
  {
  }

  /** Only the entries the seals refer to matter, for the minted unit and for every error alike. */
  lemma OutcomeDependsOnKeysUsed(p: Primitives, q: Request, epochs: seq<FsEpochKey>,
                                 r: Result<IssuedV2, AttesterError>)
    requires SameKeys(q, epochs)
    ensures Prescribed(p, q, r) <==> Prescribed(p, q.(epochs := epochs), r)
  {
    hide FinalChecks, ShapeChecks, TotalsChecks, SealChecks, HeaderChecks, FailsWith, Passes, EntityOf;
    var q' := q.(epochs := epochs);
    assert HeaderChecks(q) == HeaderChecks(q') by { HeaderIgnoresKeys(q, epochs); }
    if WellFormed(q) {
      WellFormedMeans(q);
      FinalIgnoresKeys(p, q, epochs);
      forall i | 0 <= i < |q.batch.seals|
        ensures SealChecks(p, q', q.batch.seals[i]) == SealChecks(p, q, q.batch.seals[i])
      {
        SameSealChecks(p, q, epochs, i);
      }
      assert AllSealChecks(p, q) == AllSealChecks(p, q');
      assert Parts(p, q) == Parts(p, q');
    }
  }

  lemma HeaderIgnoresKeys(q: Request, epochs: seq<FsEpochKey>)
    ensures HeaderChecks(q) == HeaderChecks(q.(epochs := epochs))
  {
  }

  lemma FinalIgnoresKeys(p: Primitives, q: Request, epochs: seq<FsEpochKey>)
    requires WellFormed(q)
    ensures WellFormed(q.(epochs := epochs)) && EntityOf(p, q) == EntityOf(p, q.(epochs := epochs))
    ensures FinalChecks(p, q) == FinalChecks(p, q.(epochs := epochs))
  {
  }

  lemma {:induction false} KeyForConcat(a: seq<FsEpochKey>, b: seq<FsEpochKey>, e: U32)
    ensures KeyFor(a + b, e) == if KeyFor(a, e).Some? then KeyFor(a, e) else KeyFor(b, e)
  {
    if a == [] {
      assert a + b == b;
    } else {
      KeyForConcat(a[1..], b, e);
      assert (a + b)[1..] == a[1..] + b;
    }
  }

  /** An entry no seal refers to may be put anywhere, or taken away. */
  lemma UnusedEntryIgnored(q: Request, k: nat, extra: FsEpochKey)
    requires k <= |q.epochs|
    requires forall i :: 0 <= i < |q.batch.seals| ==> q.batch.seals[i].fsEpoch != extra.epoch
    ensures SameKeys(q, q.epochs[..k] + [extra] + q.epochs[k..])
  {
    assert q.epochs == q.epochs[..k] + q.epochs[k..];
    forall i | 0 <= i < |q.batch.seals|
      ensures KeyFor(q.epochs[..k] + [extra] + q.epochs[k..], q.batch.seals[i].fsEpoch)
              == KeyFor(q.epochs, q.batch.seals[i].fsEpoch)
    {
      var e := q.batch.seals[i].fsEpoch;
      KeyForConcat(q.epochs[..k] + [extra], q.epochs[k..], e);
      KeyForConcat(q.epochs[..k], [extra], e);
      KeyForConcat(q.epochs[..k], q.epochs[k..], e);
    }
  }

  /** With repeated numbers the first entry wins: a later one changes nothing. */
  lemma FirstEntryWins(q: Request, k: nat, late: FsEpochKey)
    requires k <= |q.epochs| && KeyFor(q.epochs[..k], late.epoch).Some?
    ensures SameKeys(q, q.epochs[..k] + [late] + q.epochs[k..])
  {
    assert q.epochs == q.epochs[..k] + q.epochs[k..];
    forall i | 0 <= i < |q.batch.seals|
      ensures KeyFor(q.epochs[..k] + [late] + q.epochs[k..], q.batch.seals[i].fsEpoch)
              == KeyFor(q.epochs, q.batch.seals[i].fsEpoch)
    {
      var e := q.batch.seals[i].fsEpoch;
      KeyForConcat(q.epochs[..k] + [late], q.epochs[k..], e);
      KeyForConcat(q.epochs[..k], [late], e);
      KeyForConcat(q.epochs[..k], q.epochs[k..], e);
    }
  }

  ghost predicate DistinctEpochs(es: seq<FsEpochKey>) {
    forall i, j :: 0 <= i < j < |es| ==> es[i].epoch != es[j].epoch
  }

  lemma {:induction false} KeyForMember(es: seq<FsEpochKey>, k: FsEpochKey)
    requires DistinctEpochs(es) && k in es
    ensures KeyFor(es, k.epoch) == Some(k)
  {
    if es[0] != k {
      var j :| 0 < j < |es| && es[j] == k;
      assert es[1..][j - 1] == k;
      assert DistinctEpochs(es[1..]);
      KeyForMember(es[1..], k);
    }
  }

  lemma {:induction false} KeyForIsMember(es: seq<FsEpochKey>, e: U32)
    requires KeyFor(es, e).Some?
    ensures KeyFor(es, e).value in es && KeyFor(es, e).value.epoch == e
  {
    if es[0].epoch != e {
      KeyForIsMember(es[1..], e);
    }
  }

  /** A directory with distinct numbers may be listed in any order. */
  lemma OrderOfKeysIgnored(q: Request, epochs: seq<FsEpochKey>)
    requires DistinctEpochs(q.epochs) && DistinctEpochs(epochs)
    requires forall k :: k in epochs <==> k in q.epochs
    ensures SameKeys(q, epochs)
  {
    forall i | 0 <= i < |q.batch.seals|
      ensures KeyFor(epochs, q.batch.seals[i].fsEpoch) == KeyFor(q.epochs, q.batch.seals[i].fsEpoch)
    {
      var e := q.batch.seals[i].fsEpoch;
      if KeyFor(epochs, e).Some? {
        KeyForIsMember(epochs, e);
        KeyForMember(q.epochs, KeyFor(epochs, e).value);
      }
      if KeyFor(q.epochs, e).Some? {
        KeyForIsMember(q.epochs, e);
        KeyForMember(epochs, KeyFor(q.epochs, e).value);
      }
    }
  }
}
