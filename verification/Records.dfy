/**
 Minting a v1 SpendingUnit: the record fingerprints that are hashed, the record ids
 that are submitted, and when the two describe the same entity.
 */
module Records {
  import opened Octets
  import opened Wrappers
  import opened SortedSets
  import opened SealedBatches

  datatype SpendingUnitEntity = SpendingUnitEntity(
    id: Bytes32, derivedOwner: Bytes32, attester: Bytes20, referrer: Bytes20, worldwideDay: U32, currency: U16,
    base: U64, atto: U64, sr: seq<Bytes32>, ar: seq<Bytes32>)

  datatype RecordError =
    | BadLength(what: string, expected: nat, got: nat)
    | NonCanonical(what: string, index: nat)
    | HashFailed(detail: string)

  /** `hashed` is the entity behind `report.nftHash`, `unit` what the caller is told to submit. */
  datatype IssuedV1 = IssuedV1(unit: SpendingUnitEntity, report: IssuanceReport, hashed: SpendingUnitEntity)

  datatype Body = Body(worldwideDay: U32, currency: U16, base: U64, atto: U64, referrer: Bytes)

  type EntityHash = SpendingUnitEntity -> Result<Bytes32, string>

  // ----- fingerprints -----

  predicate Canonical(fp: Bytes) {
    |fp| == 32 && FromBe(fp) < BN254_R
  }

  /** The fingerprints as words, or the first that is not a canonical field element. */
  function Fingerprints(fps: seq<Bytes>, what: string, at: nat): Result<seq<Bytes32>, RecordError> {
    if fps == [] then Success([])
    else if |fps[0]| != 32 then Failure(BadLength(what, 32, |fps[0]|))
    else if FromBe(fps[0]) >= BN254_R then Failure(NonCanonical(what, at))
    else
      var rest := Fingerprints(fps[1..], what, at + 1);
      if rest.Failure? then rest else Success([fps[0]] + rest.value)
  }

  /** The `i`-th fingerprint is the first that is no canonical field element. */
  ghost predicate FirstNonCanonical(fps: seq<Bytes>, i: nat) {
    i < |fps| && !Canonical(fps[i]) && forall j :: 0 <= j < i ==> Canonical(fps[j])
  }

  /** A wrong width is reported as such, a word at or above the modulus with its position. */
  function Refusal(fp: Bytes, what: string, index: nat): RecordError {
    if |fp| != 32 then BadLength(what, 32, |fp|) else NonCanonical(what, index)
  }

  lemma {:induction false} FingerprintsAccept(fps: seq<Bytes>, what: string, at: nat)
    ensures Fingerprints(fps, what, at).Success? <==> forall fp <- fps :: Canonical(fp)
    ensures Fingerprints(fps, what, at).Success? ==> Fingerprints(fps, what, at).value == fps
    ensures Fingerprints(fps, what, at).Failure? ==>
              exists i: nat ::
                FirstNonCanonical(fps, i) && Fingerprints(fps, what, at).error == Refusal(fps[i], what, at + i)
  {
    if fps != [] {
      var tail := fps[1..];
      FingerprintsAccept(tail, what, at + 1);
      assert fps == [fps[0]] + tail;
      if !Canonical(fps[0]) {
        assert FirstNonCanonical(fps, 0);
      } else if Fingerprints(tail, what, at + 1).Failure? {
        var i: nat :| FirstNonCanonical(tail, i)
                      && Fingerprints(tail, what, at + 1).error == Refusal(tail[i], what, at + 1 + i);
        assert tail[i] == fps[i + 1];
        forall j | 0 <= j < i + 1 ensures Canonical(fps[j]) {
          assert j > 0 ==> tail[j - 1] == fps[j];
        }
        assert FirstNonCanonical(fps, i + 1);
      }
    }
  }

  // ----- words and numbers -----

  function ToNats(words: seq<Bytes>): (r: seq<nat>)
    ensures |r| == |words|
    ensures forall i :: 0 <= i < |r| ==> r[i] == FromBe(words[i])
  {
    seq(|words|, i requires 0 <= i < |words| => FromBe(words[i]))
  }

  function ToWords(ids: seq<nat>): (r: seq<Bytes32>)
    ensures |r| == |ids|
    ensures forall i :: 0 <= i < |r| ==> r[i] == Be(ids[i], 32)
  {
    seq(|ids|, i requires 0 <= i < |ids| => Be(ids[i], 32))
  }

  predicate AllWords(ids: seq<nat>) {
    forall x <- ids :: x < TWO_256
  }

  lemma NatsOfWords(ids: seq<nat>)
    requires AllWords(ids)
    ensures ToNats(ToWords(ids)) == ids
  {
    Pow256Values();
    forall i | 0 <= i < |ids| ensures FromBe(Be(ids[i], 32)) == ids[i] {
      assert ids[i] in ids;
      BeRoundTrip(ids[i], 32);
    }
  }

  /** `sort_set`: ascending by field value, without duplicates. */
  function SortSet(words: seq<Bytes32>): seq<Bytes32> {
    ToWords(SortedUnique(ToNats(words)))
  }

  lemma {:induction false} MemberNats(words: seq<Bytes32>, x: nat)
    ensures x in ToNats(words) <==> exists w <- words :: FromBe(w) == x
  {
    if x in ToNats(words) {
      var i :| 0 <= i < |words| && ToNats(words)[i] == x;
      assert words[i] in words;
    }
    if exists w <- words :: FromBe(w) == x {
      var w :| w in words && FromBe(w) == x;
      var i :| 0 <= i < |words| && words[i] == w;
      assert ToNats(words)[i] == x;
    }
  }

  /** The sorted set has strictly ascending values and exactly the words of the list. */
  lemma SortSetIsTheSet(words: seq<Bytes32>)
    ensures StrictlyAscending(ToNats(SortSet(words)))
    ensures forall w: Bytes32 :: w in SortSet(words) <==> w in words
  {
    var ids := SortedUnique(ToNats(words));
    SortedUniqueIsTheSet(ToNats(words));
    Pow256Values();
    forall x | x in ids ensures x < TWO_256 {
      MemberNats(words, x);
      var w :| w in words && FromBe(w) == x;
      FromBeBound(w);
    }
    NatsOfWords(ids);
    forall w: Bytes32 ensures w in SortSet(words) <==> w in words {
      BeOfFromBe(w);
      MemberNats(words, FromBe(w));
      if w in SortSet(words) {
        var i :| 0 <= i < |ids| && SortSet(words)[i] == w;
        assert ids[i] in ids;
        BeRoundTrip(ids[i], 32);
        var w' :| w' in words && FromBe(w') == ids[i];
        BeOfFromBe(w');
      }
      if w in words {
        assert FromBe(w) in ids;
        var i :| 0 <= i < |ids| && ids[i] == FromBe(w);
        assert SortSet(words)[i] == w;
      }
    }
  }

  // ----- issuance -----

  method IssueWithHeader(hash: EntityHash, attester: Bytes20, header: NftHeader, body: Body,
                         spendingRecords: seq<Bytes>, amendmentRecords: seq<Bytes>)
    returns (r: Result<IssuedV1, RecordError>)
    ensures r == Issue(hash, attester, header, body, spendingRecords, amendmentRecords)
    ensures r.Success? ==>
              && (forall fp <- spendingRecords + amendmentRecords :: Canonical(fp))
              && hash(r.value.hashed) == Success(r.value.report.nftHash)
              && r.value.hashed == r.value.unit
              && r.value.unit.id == header.nftId && r.value.unit.derivedOwner == header.derivedOwner
              && r.value.unit.attester == attester && r.value.unit.referrer == body.referrer
              && r.value.unit.worldwideDay == body.worldwideDay && r.value.unit.currency == body.currency
              && r.value.unit.base == body.base && r.value.unit.atto == body.atto
              && r.value.report.nftId == header.nftId && r.value.report.derivedOwner == header.derivedOwner
              && r.value.report.opaquePk == header.opaquePk && r.value.report.nonce == header.nonce
              && StrictlyAscending(ToNats(r.value.unit.sr)) && StrictlyAscending(ToNats(r.value.unit.ar))
              && (forall w: Bytes32 :: w in r.value.unit.sr <==> w in spendingRecords)
              && (forall w: Bytes32 :: w in r.value.unit.ar <==> w in amendmentRecords)
  {
    hide SortSet, ToNats;
    if |header.nftId| != 32 {
      return Failure(BadLength("nft_id", 32, |header.nftId|));
    }
    if |header.derivedOwner| != 32 {
      return Failure(BadLength("derived_owner", 32, |header.derivedOwner|));
    }
    if |body.referrer| != 20 {
      return Failure(BadLength("referrer_addr", 20, |body.referrer|));
    }
    FingerprintsAccept(spendingRecords, "spending_record", 0);
    FingerprintsAccept(amendmentRecords, "amendment_record", 0);
    var srWords :- Fingerprints(spendingRecords, "spending_record", 0);
    var arWords :- Fingerprints(amendmentRecords, "amendment_record", 0);
    var sr, ar := SortSet(srWords), SortSet(arWords);
    SortSetIsTheSet(srWords);
    SortSetIsTheSet(arWords);
    var entity := SpendingUnitEntity(header.nftId, header.derivedOwner, attester, body.referrer, body.worldwideDay,
                                     body.currency, body.base, body.atto, sr, ar);
    var nftHash := hash(entity);
    if nftHash.Failure? {
      return Failure(HashFailed(nftHash.error));
    }
    return Success(IssuedV1(entity,
                            IssuanceReport(header.nftId, header.derivedOwner, nftHash.value, header.opaquePk,
                                           header.nonce),
                            entity));
  }

  /** The outcome of an issuance, as a function of its inputs. */
  function Issue(hash: EntityHash, attester: Bytes20, header: NftHeader, body: Body, spendingRecords: seq<Bytes>,
                 amendmentRecords: seq<Bytes>): Result<IssuedV1, RecordError>
  {
    if |header.nftId| != 32 then Failure(BadLength("nft_id", 32, |header.nftId|))
    else if |header.derivedOwner| != 32 then Failure(BadLength("derived_owner", 32, |header.derivedOwner|))
    else if |body.referrer| != 20 then Failure(BadLength("referrer_addr", 20, |body.referrer|))
    else
      var srWords := Fingerprints(spendingRecords, "spending_record", 0);
      if srWords.Failure? then Failure(srWords.error)
      else
        var arWords := Fingerprints(amendmentRecords, "amendment_record", 0);
        if arWords.Failure? then Failure(arWords.error)
        else
          var entity := SpendingUnitEntity(header.nftId, header.derivedOwner, attester, body.referrer,
                                           body.worldwideDay, body.currency, body.base, body.atto,
                                           SortSet(srWords.value), SortSet(arWords.value));
          var nftHash := hash(entity);
          if nftHash.Failure? then Failure(HashFailed(nftHash.error))
          else
            Success(IssuedV1(entity,
                             IssuanceReport(header.nftId, header.derivedOwner, nftHash.value, header.opaquePk,
                                            header.nonce),
                             entity))
  }

  lemma SortSetOfSet(a: seq<Bytes32>, b: seq<Bytes32>)
    requires forall w :: w in a <==> w in b
    ensures SortSet(a) == SortSet(b)
  {
    forall x ensures x in ToNats(a) <==> x in ToNats(b) {
      MemberNats(a, x);
      MemberNats(b, x);
    }
    SortedUniqueOfSet(ToNats(a), ToNats(b));
  }

  /** Issuance depends on the sets of fingerprints only: order and repetition never change what is minted. */
  lemma IssuanceOfSets(hash: EntityHash, attester: Bytes20, header: NftHeader, body: Body, sr: seq<Bytes>,
                       ar: seq<Bytes>, sr': seq<Bytes>, ar': seq<Bytes>)
    requires (forall w :: w in sr <==> w in sr') && (forall w :: w in ar <==> w in ar')
    ensures Issue(hash, attester, header, body, sr, ar).Success?
            <==> Issue(hash, attester, header, body, sr', ar').Success?
    ensures Issue(hash, attester, header, body, sr, ar).Success?
            ==> Issue(hash, attester, header, body, sr, ar) == Issue(hash, attester, header, body, sr', ar')
  {
    hide SortSet;
    FingerprintsAccept(sr, "spending_record", 0);
    FingerprintsAccept(ar, "amendment_record", 0);
    FingerprintsAccept(sr', "spending_record", 0);
    FingerprintsAccept(ar', "amendment_record", 0);
    if (forall fp <- sr :: Canonical(fp)) && (forall fp <- ar :: Canonical(fp)) {
      SortSetOfSet(sr, sr');
      SortSetOfSet(ar, ar');
    }
  }

  // ----- what is submitted -----

  /** The calldata of the on-chain submit. */
  datatype Submitted = Submitted(suId: nat, derivedOwner: Bytes32, attester: Bytes20, referrer: Bytes20,
                                 currency: U16, worldwideDay: U32, amountBase: U64, amountAtto: U64,
                                 srIds: seq<nat>, arIds: seq<nat>)

  /** The entity the chain hashes for a submission: the ids in the order they were sent. */
  function EntityOnChain(s: Submitted): SpendingUnitEntity {
    SpendingUnitEntity(Be(s.suId, 32), s.derivedOwner, s.attester, s.referrer, s.worldwideDay, s.currency,
                       s.amountBase, s.amountAtto, ToWords(s.srIds), ToWords(s.arIds))
  }

  datatype MintArgs = MintArgs(referrer: Bytes20, currency: U16, worldwideDay: U32, amountBase: U64, amountAtto: U128,
                               srIds: seq<nat>, arIds: seq<nat>)

  /** `amount_atto as u64` on both sides: the high half is dropped alike. */
  function BodyOf(a: MintArgs): Body {
    Body(a.worldwideDay, a.currency, a.amountBase, a.amountAtto % TWO_64, a.referrer)
  }

  lemma {:induction false} SortSetOfWords(ids: seq<nat>)
    requires AllWords(ids)
    ensures SortSet(ToWords(ids)) == ToWords(SortedUnique(ids))
  {
    NatsOfWords(ids);
  }

  lemma WordsInjective(a: seq<nat>, b: seq<nat>)
    requires AllWords(a) && AllWords(b)
    ensures ToWords(a) == ToWords(b) <==> a == b
  {
    NatsOfWords(a);
    NatsOfWords(b);
  }

  lemma SortedWords(ids: seq<nat>)
    requires AllWords(ids)
    ensures AllWords(SortedUnique(ids))
  {
    SortedUniqueIsTheSet(ids);
  }

  /** The bridge: one sorted list feeds both the hash and the submission. */
  method HandleMint(hash: EntityHash, attester: Bytes20, header: NftHeader, args: MintArgs)
    returns (r: Result<(IssuedV1, Submitted), RecordError>)
    requires AllWords(args.srIds) && AllWords(args.arIds)
    ensures r.Success? <==> Mintable(hash, attester, header, BodyOf(args), args.srIds, args.arIds)
    ensures r.Success? ==>
              && r.value.0.hashed == SortedEntity(attester, header, BodyOf(args), args.srIds, args.arIds)
              && r.value.1.amountBase == args.amountBase && r.value.1.amountAtto == args.amountAtto % TWO_64
              && r.value.1.currency == args.currency && r.value.1.worldwideDay == args.worldwideDay
              && r.value.1.referrer == args.referrer && r.value.1.attester == attester
              && Be(r.value.1.suId, 32) == header.nftId && r.value.1.derivedOwner == header.derivedOwner
              && r.value.0.hashed == EntityOnChain(r.value.1)
              && hash(EntityOnChain(r.value.1)) == Success(r.value.0.report.nftHash)
              && StrictlyAscending(r.value.1.srIds) && StrictlyAscending(r.value.1.arIds)
              && SameElements(args.srIds, r.value.1.srIds) && SameElements(args.arIds, r.value.1.arIds)
  {
    hide SortSet, SortedUnique, FromBe, Be;
    var srIds := SortedUniqueU256(args.srIds);
    var arIds := SortedUniqueU256(args.arIds);
    IssuedEntity(hash, attester, header, BodyOf(args), srIds, arIds);
    MintableOnce(hash, attester, header, BodyOf(args), args.srIds, args.arIds);
    var issued :- IssueWithHeader(hash, attester, header, BodyOf(args), ToWords(srIds), ToWords(arIds));
    r := Success((issued, Submitted(FromBe(issued.unit.id), issued.unit.derivedOwner, attester, args.referrer,
                                    args.currency, args.worldwideDay, args.amountBase, args.amountAtto % TWO_64,
                                    srIds, arIds)));
    BeOfFromBe(issued.unit.id);
  }

  /** The entity an issuance over ids is about: the arguments as given, the ids as sorted sets. */
  function SortedEntity(attester: Bytes20, header: NftHeader, body: Body, srIds: seq<nat>, arIds: seq<nat>)
    : SpendingUnitEntity
    requires |header.nftId| == 32 && |header.derivedOwner| == 32 && |body.referrer| == 20
  {
    SpendingUnitEntity(header.nftId, header.derivedOwner, attester, body.referrer, body.worldwideDay, body.currency,
                       body.base, body.atto, ToWords(SortedUnique(srIds)), ToWords(SortedUnique(arIds)))
  }

  /** The widths are right, every id is a field element, and the entity hashes. */
  predicate Mintable(hash: EntityHash, attester: Bytes20, header: NftHeader, body: Body, srIds: seq<nat>,
                     arIds: seq<nat>)
  {
    && |header.nftId| == 32 && |header.derivedOwner| == 32 && |body.referrer| == 20
    && (forall x <- srIds :: x < BN254_R) && (forall x <- arIds :: x < BN254_R)
    && hash(SortedEntity(attester, header, body, srIds, arIds)).Success?
  }

  lemma CanonicalWords(ids: seq<nat>)
    requires AllWords(ids)
    ensures (forall fp <- ToWords(ids) :: Canonical(fp)) <==> forall x <- ids :: x < BN254_R
  {
    NatsOfWords(ids);
    forall i | 0 <= i < |ids| ensures Canonical(ToWords(ids)[i]) <==> ids[i] < BN254_R {
      assert ToNats(ToWords(ids))[i] == ids[i];
    }
    if forall fp <- ToWords(ids) :: Canonical(fp) {
      forall x | x in ids ensures x < BN254_R {
        var i :| 0 <= i < |ids| && ids[i] == x;
        assert ToWords(ids)[i] in ToWords(ids);
      }
    }
    if forall x <- ids :: x < BN254_R {
      forall fp | fp in ToWords(ids) ensures Canonical(fp) {
        var i :| 0 <= i < |ids| && ToWords(ids)[i] == fp;
        assert ids[i] in ids;
      }
    }
  }

  /** An issuance over ids is accepted exactly when mintable, and hashes the sorted sets of the ids. */
  lemma IssuedEntity(hash: EntityHash, attester: Bytes20, header: NftHeader, body: Body, srIds: seq<nat>,
                     arIds: seq<nat>)
    requires AllWords(srIds) && AllWords(arIds)
    ensures var r := Issue(hash, attester, header, body, ToWords(srIds), ToWords(arIds));
            && (r.Success? <==> Mintable(hash, attester, header, body, srIds, arIds))
            && (r.Success? ==>
                  && r.value.hashed == r.value.unit == SortedEntity(attester, header, body, srIds, arIds))
  {
    hide SortSet, SortedUnique, Canonical, ToWords, AllWords;
    FingerprintsAccept(ToWords(srIds), "spending_record", 0);
    FingerprintsAccept(ToWords(arIds), "amendment_record", 0);
    CanonicalWords(srIds);
    CanonicalWords(arIds);
    SortSetOfWords(srIds);
    SortSetOfWords(arIds);
  }

  /** One such input: the ids 2 and 1 are hashed as 1 and 2, and submitted as 2 and 1. */
  lemma TwoBeforeOne(attester: Bytes20, header: NftHeader, body: Body, arIds: seq<nat>)
    requires |header.nftId| == 32 && |header.derivedOwner| == 32 && |body.referrer| == 20
    ensures SortedEntity(attester, header, body, [2, 1], arIds).sr == ToWords([1, 2]) != ToWords([2, 1])
  {
    hide ToWords;
    SortedUniqueIsTheSet([2, 1]);
    AscendingUnique(SortedUnique([2, 1]), [1, 2]);
    WordsInjective([1, 2], [2, 1]);
  }

  /** Sorting the ids beforehand changes nothing about what is mintable or hashed. */
  lemma MintableOnce(hash: EntityHash, attester: Bytes20, header: NftHeader, body: Body, srIds: seq<nat>,
                     arIds: seq<nat>)
    ensures SortedUnique(SortedUnique(srIds)) == SortedUnique(srIds)
    ensures SortedUnique(SortedUnique(arIds)) == SortedUnique(arIds)
    ensures Mintable(hash, attester, header, body, SortedUnique(srIds), SortedUnique(arIds))
            <==> Mintable(hash, attester, header, body, srIds, arIds)
  {
    SortedUniqueIsTheSet(srIds);
    SortedUniqueIsTheSet(arIds);
    SortedUniqueFixed(SortedUnique(srIds));
    SortedUniqueFixed(SortedUnique(arIds));
    hide SortedUnique;
  }

  /** The command line: the ids are submitted as they were typed, and hashed as sets. */
  method MintSu(hash: EntityHash, attester: Bytes20, header: NftHeader, args: MintArgs)
    returns (r: Result<(IssuedV1, Submitted), RecordError>)
    requires AllWords(args.srIds) && AllWords(args.arIds) && args.amountAtto < TWO_64
    ensures r.Success? <==> Mintable(hash, attester, header, BodyOf(args), args.srIds, args.arIds)
    ensures r.Success? ==>
              && r.value.0.hashed == SortedEntity(attester, header, BodyOf(args), args.srIds, args.arIds)
              && r.value.1.amountBase == args.amountBase && r.value.1.amountAtto == args.amountAtto
              && r.value.1.currency == args.currency && r.value.1.worldwideDay == args.worldwideDay
              && r.value.1.referrer == args.referrer && r.value.1.attester == attester
              && Be(r.value.1.suId, 32) == header.nftId && r.value.1.derivedOwner == header.derivedOwner
              && r.value.1.srIds == args.srIds && r.value.1.arIds == args.arIds
              && hash(r.value.0.hashed) == Success(r.value.0.report.nftHash)
              && EntityOnChain(r.value.1) == r.value.0.hashed.(sr := ToWords(args.srIds), ar := ToWords(args.arIds))
              && (r.value.0.hashed == EntityOnChain(r.value.1)
                  <==> StrictlyAscending(args.srIds) && StrictlyAscending(args.arIds))
  {
    hide SortSet, SortedUnique, FromBe, Be, StrictlyAscending;
    IssuedEntity(hash, attester, header, BodyOf(args), args.srIds, args.arIds);
    var issued :- IssueWithHeader(hash, attester, header, BodyOf(args), ToWords(args.srIds), ToWords(args.arIds));
    r := Success((issued, Submitted(FromBe(issued.unit.id), issued.unit.derivedOwner, attester, args.referrer,
                                    args.currency, args.worldwideDay, args.amountBase, args.amountAtto,
                                    args.srIds, args.arIds)));
    BeOfFromBe(issued.unit.id);
    SortedWords(args.srIds);
    SortedWords(args.arIds);
    WordsInjective(SortedUnique(args.srIds), args.srIds);
    WordsInjective(SortedUnique(args.arIds), args.arIds);
    SortedUniqueFixed(args.srIds);
    SortedUniqueFixed(args.arIds);
  }
}
