/**
 The certificate-to-leaf chain: a draft's leaf, its 32-level path, the anchored root
 inside the block digest, and the committee's signature over that digest.
 */
module Inclusion {
  import opened Octets
  import opened Wrappers
  import opened Checklists
  import opened Finalization
  import Hex

  const DEPTH: nat := 32

  /**
   What this model leaves uninterpreted: SHA-256, the two-to-one node hash over field
   elements, and the threshold verifier (group key, namespace, message, signature).
   */
  datatype Chain = Chain(
    sha256: Bytes -> Bytes32,
    node: ((nat, nat)) -> nat,
    verifyMessage: (Bytes, Bytes, Bytes, Bytes) -> Option<string>)

  // ----- responses -----

  datatype Json =
    | JNull
    | JBool(b: bool)
    | JNumber(n: int)
    | JString(s: string)
    | JArray(items: seq<Json>)
    | JObject(fields: map<string, Json>)

  datatype CheckError =
    | MissingField(key: string)
    | NotHex(what: string)
    | NotThirtyTwoBytes(got: nat)
    | SiblingCount(got: nat)
    | MerkleMismatch
    | AnchorMismatch
    | DigestMismatch
    | CertificateInvalid(detail: string)

  function Get(v: Json, key: string): Option<Json> {
    if v.JObject? && key in v.fields then Some(v.fields[key]) else None
  }

  function StripHexPrefix(s: string): string {
    if |s| >= 2 && s[..2] == "0x" then s[2..] else s
  }

  function ParseHex32(s: string): Result<Bytes32, CheckError> {
    var b := Hex.Decode(StripHexPrefix(s));
    if b.None? then Failure(NotHex(s))
    else if |b.value| != 32 then Failure(NotThirtyTwoBytes(|b.value|))
    else Success(b.value)
  }

  function JsonB256(v: Json, key: string): Result<Bytes32, CheckError> {
    match Get(v, key)
    case Some(JString(s)) => ParseHex32(s)
    case _ => Failure(MissingField(key))
  }

  function JsonU64(v: Json, key: string): Result<U64, CheckError> {
    match Get(v, key)
    case Some(JNumber(n)) => if 0 <= n < TWO_64 then Success(n) else Failure(MissingField(key))
    case _ => Failure(MissingField(key))
  }

  function JsonHex(v: Json, key: string): Result<Bytes, CheckError> {
    match Get(v, key)
    case Some(JString(s)) =>
      var b := Hex.Decode(StripHexPrefix(s));
      if b.Some? then Success(b.value) else Failure(NotHex(key))
    case _ => Failure(MissingField(key))
  }

  /** `field_from_be32` reduces: words at or above the modulus alias lower ones. */
  function Field(word: Bytes32): nat {
    FromBe(word) % BN254_R
  }

  function ParseSiblings(items: seq<Json>): Result<seq<nat>, CheckError> {
    if items == [] then Success([])
    else if !items[0].JString? then Failure(MissingField("sibling"))
    else
      var word := ParseHex32(items[0].s);
      if word.Failure? then Failure(word.error)
      else
        var rest := ParseSiblings(items[1..]);
        if rest.Failure? then rest else Success([Field(word.value)] + rest.value)
  }

  function JsonSiblings(v: Json): Result<seq<nat>, CheckError> {
    match Get(v, "siblings")
    case Some(JArray(items)) =>
      if |items| != DEPTH then Failure(SiblingCount(|items|)) else ParseSiblings(items)
    case _ => Failure(MissingField("siblings"))
  }

  lemma {:induction false} SiblingsLength(items: seq<Json>)
    ensures ParseSiblings(items).Success? ==> |ParseSiblings(items).value| == |items|
  {
    if items != [] {
      SiblingsLength(items[1..]);
    }
  }

  // ----- the tree -----

  /** The position of the path `k` levels above the leaf: the index without its `k` low bits. */
  function Above(index: nat, k: nat): nat {
    if k == 0 then index else Above(index / 2, k - 1)
  }

  /** The node on the path `k` levels above the leaf. */
  function NodeAt(h: ((nat, nat)) -> nat, leaf: nat, index: nat, siblings: seq<nat>, k: nat): nat
    requires k <= |siblings|
    decreases k, 0
  {
    if k == 0 then leaf else h(PairAt(h, leaf, index, siblings, k - 1))
  }

  /** The ordered pair hashed at level `k`: the index bit says on which side the path runs. */
  function PairAt(h: ((nat, nat)) -> nat, leaf: nat, index: nat, siblings: seq<nat>, k: nat): (nat, nat)
    requires k < |siblings|
    decreases k, 1
  {
    var node := NodeAt(h, leaf, index, siblings, k);
    if Above(index, k) % 2 == 0 then (node, siblings[k]) else (siblings[k], node)
  }

  function RootFromPath(h: ((nat, nat)) -> nat, leaf: nat, index: nat, siblings: seq<nat>): nat {
    NodeAt(h, leaf, index, siblings, |siblings|)
  }

  ghost predicate NodesCollide(h: ((nat, nat)) -> nat, index: nat, leaf: nat, siblings: seq<nat>, leaf': nat,
                               siblings': seq<nat>)
  {
    exists k :: 0 <= k < |siblings| && k < |siblings'|
                && Collision(h, PairAt(h, leaf, index, siblings, k), PairAt(h, leaf', index, siblings', k))
  }

  /**
   Two paths from one position to one node run through the same nodes all the way down,
   or at some level of these two paths two different pairs hash alike.
   */
  lemma {:induction false} PathBinds(h: ((nat, nat)) -> nat, index: nat, leaf: nat, siblings: seq<nat>, leaf': nat,
                                     siblings': seq<nat>, k: nat)
    requires k <= |siblings| == |siblings'|
    requires NodeAt(h, leaf, index, siblings, k) == NodeAt(h, leaf', index, siblings', k)
    ensures || (leaf == leaf' && siblings[..k] == siblings'[..k])
            || NodesCollide(h, index, leaf, siblings, leaf', siblings')
  {
    if k == 0 {
    } else {
      var a, b := PairAt(h, leaf, index, siblings, k - 1), PairAt(h, leaf', index, siblings', k - 1);
      if a == b {
        PathBinds(h, index, leaf, siblings, leaf', siblings', k - 1);
        assert siblings[..k] == siblings[..k - 1] + [siblings[k - 1]];
        assert siblings'[..k] == siblings'[..k - 1] + [siblings'[k - 1]];
      } else {
        assert Collision(h, a, b);
      }
    }
  }

  // ----- the block digest -----

  datatype BlockHeader = BlockHeader(contextEncoded: Bytes, parent: Bytes32, height: U64, timestampMs: U64,
                                     payloadHash: Bytes32, r: Bytes32)

  function Preimage(b: BlockHeader): Bytes {
    b.contextEncoded + b.parent + Be(b.height, 8) + Be(b.timestampMs, 8) + b.payloadHash + b.r
  }

  /** Everything after the context has a fixed width, so the context is what comes before 112 bytes. */
  function ReadPreimage(m: Bytes): Option<BlockHeader> {
    if |m| < 112 then None
    else
      var n := |m| - 112;
      var t := m[n..];
      Pow256Values();
      FromBeBound(t[32..40]);
      FromBeBound(t[40..48]);
      Some(BlockHeader(m[..n], t[..32], FromBe(t[32..40]), FromBe(t[40..48]), t[48..80], t[80..112]))
  }

  lemma PreimageReadsBack(b: BlockHeader)
    ensures ReadPreimage(Preimage(b)) == Some(b)
  {
    var t := b.parent + Be(b.height, 8) + Be(b.timestampMs, 8) + b.payloadHash + b.r;
    var m := Preimage(b);
    assert m == b.contextEncoded + t;
    assert m[..|m| - 112] == b.contextEncoded && m[|m| - 112..] == t;
    Pow256Values();
    BeRoundTrip(b.height, 8);
    BeRoundTrip(b.timestampMs, 8);
    FixedTail(b.parent, Be(b.height, 8), Be(b.timestampMs, 8), b.payloadHash, b.r);
  }

  lemma FixedTail(parent: Bytes32, height: Bytes, time: Bytes, payload: Bytes32, r: Bytes32)
    requires |height| == 8 && |time| == 8
    ensures var t := parent + height + time + payload + r;
            t[..32] == parent && t[32..40] == height && t[40..48] == time && t[48..80] == payload && t[80..112] == r
  {
  }

  /** One digest is one header, `r` and the variable-length context included, or the two preimages collide. */
  lemma DigestBindsHeader(sha256: Bytes -> Bytes32, a: BlockHeader, b: BlockHeader)
    requires sha256(Preimage(a)) == sha256(Preimage(b))
    ensures a == b || Collision(sha256, Preimage(a), Preimage(b))
  {
    PreimageReadsBack(a);
    PreimageReadsBack(b);
  }

  // ----- the check -----

  /** The leaf as the receipt states it. */
  datatype Inserted = Inserted(treeId: U64, leafIndex: U64, leaf: Bytes32)

  /** Where the committee's authority comes from: the inbox's group key and chain id. */
  datatype Inbox = Inbox(groupPubkey: Bytes, chainId: U64)

  /** What the two responses decode to. */
  datatype Evidence = Evidence(root: Bytes32, siblings: seq<nat>, header: BlockHeader, tipDigest: Bytes32,
                               roundEpoch: U64, roundView: U64, parentView: U64, certSig: Bytes)

  ghost predicate Decodes(inclusion: Json, cert: Json, ev: Evidence) {
    && DecodesPath(inclusion, ev.root, ev.siblings)
    && DecodesHeader(cert, ev.header)
    && DecodesRound(cert, ev)
  }

  ghost predicate DecodesPath(inclusion: Json, root: Bytes32, siblings: seq<nat>) {
    && JsonB256(inclusion, "root") == Success(root)
    && JsonU64(inclusion, "blockNumber").Success?
    && JsonSiblings(inclusion) == Success(siblings)
  }

  ghost predicate DecodesHeader(cert: Json, header: BlockHeader) {
    && Get(cert, "l2HeaderPreimage").Some?
    && var pre := Get(cert, "l2HeaderPreimage").value;
    && JsonB256(pre, "r") == Success(header.r)
    && JsonB256(pre, "parent") == Success(header.parent)
    && JsonU64(pre, "height") == Success(header.height)
    && JsonU64(pre, "timestampMs") == Success(header.timestampMs)
    && JsonB256(pre, "payloadHash") == Success(header.payloadHash)
    && JsonHex(pre, "contextEncoded") == Success(header.contextEncoded)
  }

  ghost predicate DecodesRound(cert: Json, ev: Evidence) {
    && JsonB256(cert, "tipDigest") == Success(ev.tipDigest)
    && JsonU64(cert, "roundEpoch") == Success(ev.roundEpoch)
    && JsonU64(cert, "roundView") == Success(ev.roundView)
    && JsonU64(cert, "parentView") == Success(ev.parentView)
    && JsonHex(cert, "certSig") == Success(ev.certSig)
  }

  /** The evidence proves the leaf: path to root, root in header, header in digest, digest signed. */
  ghost predicate Proves(c: Chain, inserted: Inserted, inbox: Inbox, ev: Evidence) {
    && LeadsTo(c, inserted, ev.root, ev.siblings)
    && ev.header.r == ev.root
    && c.sha256(Preimage(ev.header)) == ev.tipDigest
    && SignatureHolds(c, inbox, ev)
  }

  ghost predicate LeadsTo(c: Chain, inserted: Inserted, root: Bytes32, siblings: seq<nat>) {
    RootFromPath(c.node, Field(inserted.leaf), inserted.leafIndex, siblings) == Field(root)
  }

  ghost predicate SignatureHolds(c: Chain, inbox: Inbox, ev: Evidence) {
    && |inbox.groupPubkey| == 256
    && c.verifyMessage(inbox.groupPubkey, Namespace(inbox.chainId),
                       Proposal(ev.roundEpoch, ev.roundView, ev.parentView, ev.tipDigest), ev.certSig).None?
  }

  /** Why a finalize signature is refused, if it is. */
  function Refusal(c: Chain, inbox: Inbox, epoch: U64, view: U64, parentView: U64, digest: Bytes32, sig: Bytes)
    : Option<string>
  {
    if |inbox.groupPubkey| != 256 then Some("group key must be 256 bytes")
    else c.verifyMessage(inbox.groupPubkey, Namespace(inbox.chainId), Proposal(epoch, view, parentView, digest), sig)
  }

  // ----- the order of its steps -----

  type Step = Check<CheckError>

  /** A value that has to decode. */
  function Decoding<T>(r: Result<T, CheckError>): Step {
    Check(r.Success?, if r.Failure? then r.error else MerkleMismatch)
  }

  ghost function PathSteps(c: Chain, inserted: Inserted, inclusion: Json): (r: seq<Step>)
    ensures |r| == 4
  {
    var root, siblings := JsonB256(inclusion, "root"), JsonSiblings(inclusion);
    [Decoding(root), Decoding(JsonU64(inclusion, "blockNumber")), Decoding(siblings),
     Check(root.Success? && siblings.Success? && LeadsTo(c, inserted, root.value, siblings.value), MerkleMismatch)]
  }

  function PreimageOf(cert: Json): Json {
    if Get(cert, "l2HeaderPreimage").Some? then Get(cert, "l2HeaderPreimage").value else JNull
  }

  function AnchorSteps(inclusion: Json, cert: Json): (r: seq<Step>)
    ensures |r| == 3
  {
    var r := JsonB256(PreimageOf(cert), "r");
    [Check(Get(cert, "l2HeaderPreimage").Some?, MissingField("l2HeaderPreimage")), Decoding(r),
     Check(r == JsonB256(inclusion, "root"), AnchorMismatch)]
  }

  function HeaderSteps(pre: Json): (r: seq<Step>)
    ensures |r| == 5
  {
    [Decoding(JsonB256(pre, "parent")), Decoding(JsonU64(pre, "height")), Decoding(JsonU64(pre, "timestampMs")),
     Decoding(JsonB256(pre, "payloadHash")), Decoding(JsonHex(pre, "contextEncoded"))]
  }

  ghost function DigestSteps(c: Chain, cert: Json): (r: seq<Step>)
    ensures |r| == 2
  {
    [Decoding(JsonB256(cert, "tipDigest")),
     Check(exists header ::
             DecodesHeader(cert, header) && JsonB256(cert, "tipDigest") == Success(c.sha256(Preimage(header))),
           DigestMismatch)]
  }

  function RoundSteps(cert: Json): (r: seq<Step>)
    ensures |r| == 4
  {
    [Decoding(JsonU64(cert, "roundEpoch")), Decoding(JsonU64(cert, "roundView")), Decoding(JsonU64(cert, "parentView")),
     Decoding(JsonHex(cert, "certSig"))]
  }

  function SignatureSteps(c: Chain, inbox: Inbox, cert: Json): (r: seq<Step>)
    ensures |r| == 1
  {
    var epoch, view, parentView := JsonU64(cert, "roundEpoch"), JsonU64(cert, "roundView"), JsonU64(cert, "parentView");
    var digest, sig := JsonB256(cert, "tipDigest"), JsonHex(cert, "certSig");
    if epoch.Success? && view.Success? && parentView.Success? && digest.Success? && sig.Success? then
      var refusal := Refusal(c, inbox, epoch.value, view.value, parentView.value, digest.value, sig.value);
      [Check(refusal.None?, CertificateInvalid(if refusal.Some? then refusal.value else ""))]
    else [Check(false, CertificateInvalid(""))]
  }

  /** Every step of the check, first to last. */
  ghost function Steps(c: Chain, inserted: Inserted, inbox: Inbox, inclusion: Json, cert: Json): (r: seq<seq<Step>>)
    ensures |r| == 6
  {
    [PathSteps(c, inserted, inclusion), AnchorSteps(inclusion, cert), HeaderSteps(PreimageOf(cert)),
     DigestSteps(c, cert), RoundSteps(cert), SignatureSteps(c, inbox, cert)]
  }

  // ----- the check as it runs -----

  method VerifyFinalizeCert(c: Chain, inbox: Inbox, epoch: U64, view: U64, parentView: U64, digest: Bytes32, sig: Bytes)
    returns (refusal: Option<string>)
    ensures refusal == Refusal(c, inbox, epoch, view, parentView, digest, sig)
    ensures refusal.None? <==>
            && |inbox.groupPubkey| == 256
            && c.verifyMessage(inbox.groupPubkey, Namespace(inbox.chainId), Proposal(epoch, view, parentView, digest),
                               sig).None?
  {
    if |inbox.groupPubkey| != 256 {
      return Some("group key must be 256 bytes");
    }
    var message := ProposalBytes(epoch, view, parentView, digest);
    refusal := c.verifyMessage(inbox.groupPubkey, Namespace(inbox.chainId), message, sig);
  }

  method CheckPath(c: Chain, inserted: Inserted, inclusion: Json) returns (r: Result<(Bytes32, seq<nat>), CheckError>)
    ensures r.Success? ==> DecodesPath(inclusion, r.value.0, r.value.1) && LeadsTo(c, inserted, r.value.0, r.value.1)
    ensures r.Success? ==> Passes(PathSteps(c, inserted, inclusion))
    ensures r.Failure? ==> FailsWith(PathSteps(c, inserted, inclusion), r.error)
  {
    hide JsonB256, JsonU64, JsonSiblings, RootFromPath, Field;
    ghost var list := PathSteps(c, inserted, inclusion);
    var root := JsonB256(inclusion, "root");
    if root.Failure? {
      assert FailsAt(list, 0);
      return Failure(root.error);
    }
    var blockNumber := JsonU64(inclusion, "blockNumber");
    if blockNumber.Failure? {
      assert FailsAt(list, 1);
      return Failure(blockNumber.error);
    }
    var siblings := JsonSiblings(inclusion);
    if siblings.Failure? {
      assert FailsAt(list, 2);
      return Failure(siblings.error);
    }
    if RootFromPath(c.node, Field(inserted.leaf), inserted.leafIndex, siblings.value) != Field(root.value) {
      assert FailsAt(list, 3);
      return Failure(MerkleMismatch);
    }
    return Success((root.value, siblings.value));
  }

  method CheckAnchor(inclusion: Json, cert: Json, root: Bytes32) returns (r: Result<Json, CheckError>)
    requires JsonB256(inclusion, "root") == Success(root)
    ensures r.Success? ==> Get(cert, "l2HeaderPreimage") == Some(r.value) && JsonB256(r.value, "r") == Success(root)
    ensures r.Success? ==> Passes(AnchorSteps(inclusion, cert))
    ensures r.Failure? ==> FailsWith(AnchorSteps(inclusion, cert), r.error)
  {
    hide JsonB256, Get;
    ghost var list := AnchorSteps(inclusion, cert);
    var pre := Get(cert, "l2HeaderPreimage");
    if pre.None? {
      assert FailsAt(list, 0);
      return Failure(MissingField("l2HeaderPreimage"));
    }
    var anchor := JsonB256(pre.value, "r");
    if anchor.Failure? {
      assert FailsAt(list, 1);
      return Failure(anchor.error);
    }
    if anchor.value != root {
      assert FailsAt(list, 2);
      return Failure(AnchorMismatch);
    }
    return Success(pre.value);
  }

  /** The header fields after `r`, hashed in the order they are pushed. */
  method DecodeHeader(c: Chain, cert: Json, pre: Json, anchor: Bytes32)
    returns (r: Result<(BlockHeader, Bytes32), CheckError>)
    requires Get(cert, "l2HeaderPreimage") == Some(pre) && JsonB256(pre, "r") == Success(anchor)
    ensures r.Success? ==>
              && DecodesHeader(cert, r.value.0) && r.value.0.r == anchor && r.value.1 == c.sha256(Preimage(r.value.0))
    ensures r.Success? ==> Passes(HeaderSteps(pre))
    ensures r.Failure? ==> FailsWith(HeaderSteps(pre), r.error)
  {
    hide JsonB256, JsonU64, JsonHex, Get;
    ghost var list := HeaderSteps(pre);
    var parent := JsonB256(pre, "parent");
    if parent.Failure? {
      assert FailsAt(list, 0);
      return Failure(parent.error);
    }
    var height := JsonU64(pre, "height");
    if height.Failure? {
      assert FailsAt(list, 1);
      return Failure(height.error);
    }
    var timestampMs := JsonU64(pre, "timestampMs");
    if timestampMs.Failure? {
      assert FailsAt(list, 2);
      return Failure(timestampMs.error);
    }
    var payloadHash := JsonB256(pre, "payloadHash");
    if payloadHash.Failure? {
      assert FailsAt(list, 3);
      return Failure(payloadHash.error);
    }
    var contextEncoded := JsonHex(pre, "contextEncoded");
    if contextEncoded.Failure? {
      assert FailsAt(list, 4);
      return Failure(contextEncoded.error);
    }
    var h := contextEncoded.value;
    h := h + parent.value;
    h := h + Be(height.value, 8);
    h := h + Be(timestampMs.value, 8);
    h := h + payloadHash.value;
    h := h + anchor;
    var header := BlockHeader(contextEncoded.value, parent.value, height.value, timestampMs.value, payloadHash.value,
                              anchor);
    return Success((header, c.sha256(h)));
  }

  method CheckDigest(c: Chain, cert: Json, header: BlockHeader, digest: Bytes32) returns (r: Result<Bytes32, CheckError>)
    requires DecodesHeader(cert, header) && digest == c.sha256(Preimage(header))
    ensures r.Success? ==> r.value == digest && JsonB256(cert, "tipDigest") == Success(digest)
    ensures r.Success? ==> Passes(DigestSteps(c, cert))
    ensures r.Failure? ==> FailsWith(DigestSteps(c, cert), r.error)
  {
    hide JsonB256, JsonU64, JsonHex, Get, Preimage;
    ghost var list := DigestSteps(c, cert);
    var tipDigest := JsonB256(cert, "tipDigest");
    if tipDigest.Failure? {
      assert FailsAt(list, 0);
      return Failure(tipDigest.error);
    }
    if digest != tipDigest.value {
      assert FailsAt(list, 1);
      return Failure(DigestMismatch);
    }
    return Success(digest);
  }

  method DecodeRound(cert: Json, ev: Evidence) returns (r: Result<Evidence, CheckError>)
    requires JsonB256(cert, "tipDigest") == Success(ev.tipDigest)
    ensures r.Success? ==>
              && DecodesRound(cert, r.value)
              && r.value == ev.(roundEpoch := r.value.roundEpoch, roundView := r.value.roundView,
                                parentView := r.value.parentView, certSig := r.value.certSig)
    ensures r.Success? ==> Passes(RoundSteps(cert))
    ensures r.Failure? ==> FailsWith(RoundSteps(cert), r.error)
  {
    hide JsonB256, JsonU64, JsonHex;
    ghost var list := RoundSteps(cert);
    var roundEpoch := JsonU64(cert, "roundEpoch");
    if roundEpoch.Failure? {
      assert FailsAt(list, 0);
      return Failure(roundEpoch.error);
    }
    var roundView := JsonU64(cert, "roundView");
    if roundView.Failure? {
      assert FailsAt(list, 1);
      return Failure(roundView.error);
    }
    var parentView := JsonU64(cert, "parentView");
    if parentView.Failure? {
      assert FailsAt(list, 2);
      return Failure(parentView.error);
    }
    var certSig := JsonHex(cert, "certSig");
    if certSig.Failure? {
      assert FailsAt(list, 3);
      return Failure(certSig.error);
    }
    return Success(ev.(roundEpoch := roundEpoch.value, roundView := roundView.value, parentView := parentView.value,
                       certSig := certSig.value));
  }

  /** The verdict on the signature over the digest, in the round the certificate is for. */
  method CheckCertificate(c: Chain, inbox: Inbox, cert: Json, ev: Evidence) returns (e: Option<CheckError>)
    requires DecodesRound(cert, ev)
    ensures e.None? ==> SignatureHolds(c, inbox, ev) && Passes(SignatureSteps(c, inbox, cert))
    ensures e.Some? ==> FailsWith(SignatureSteps(c, inbox, cert), e.value)
  {
    hide JsonB256, JsonU64, JsonHex, Proposal, Namespace;
    ghost var list := SignatureSteps(c, inbox, cert);
    var refusal := VerifyFinalizeCert(c, inbox, ev.roundEpoch, ev.roundView, ev.parentView, ev.tipDigest, ev.certSig);
    if refusal.Some? {
      assert FailsAt(list, 0);
      return Some(CertificateInvalid(refusal.value));
    }
    return None;
  }

  /**
   Accepts two responses exactly when what they decode to proves the leaf, and otherwise
   reports the first step that fails.
   */
  method CheckInclusion(c: Chain, inserted: Inserted, inbox: Inbox, inclusion: Json, cert: Json)
    returns (r: Result<Evidence, CheckError>)
    ensures r.Success? ==> Decodes(inclusion, cert, r.value) && Proves(c, inserted, inbox, r.value)
    ensures r.Failure? ==> FailsWith(Flat(Steps(c, inserted, inbox, inclusion, cert)), r.error)
    ensures r.Failure? ==> forall ev :: Decodes(inclusion, cert, ev) ==> !Proves(c, inserted, inbox, ev)
  {
    hide Decodes, Proves, DecodesPath, DecodesHeader, DecodesRound, LeadsTo, SignatureHolds, JsonB256, Preimage, Get,
      PathSteps, AnchorSteps, HeaderSteps, DigestSteps, RoundSteps, SignatureSteps, Passes, FailsWith, Flat;
    ghost var parts := Steps(c, inserted, inbox, inclusion, cert);
    ProvenPasses(c, inserted, inbox, inclusion, cert);
    PathRoot(inclusion);
    PreimageIs(cert);
    var path := CheckPath(c, inserted, inclusion);
    if path.Failure? {
      Refused(parts, 0, path.error);
      return Failure(path.error);
    }
    var (root, siblings) := path.value;
    var pre := CheckAnchor(inclusion, cert, root);
    if pre.Failure? {
      Refused(parts, 1, pre.error);
      return Failure(pre.error);
    }
    var hashed := DecodeHeader(c, cert, pre.value, root);
    if hashed.Failure? {
      Refused(parts, 2, hashed.error);
      return Failure(hashed.error);
    }
    var (header, digest) := hashed.value;
    var tipDigest := CheckDigest(c, cert, header, digest);
    if tipDigest.Failure? {
      Refused(parts, 3, tipDigest.error);
      return Failure(tipDigest.error);
    }
    r := DecodeRound(cert, Evidence(root, siblings, header, tipDigest.value, 0, 0, 0, []));
    if r.Failure? {
      Refused(parts, 4, r.error);
      return;
    }
    var e := CheckCertificate(c, inbox, cert, r.value);
    if e.Some? {
      Refused(parts, 5, e.value);
      return Failure(e.value);
    }
    AllProve(c, inserted, inbox, inclusion, cert, r.value);
  }

  lemma PathRoot(inclusion: Json)
    ensures forall root, siblings :: DecodesPath(inclusion, root, siblings) ==> JsonB256(inclusion, "root") == Success(root)
  {
  }

  lemma PreimageIs(cert: Json)
    ensures forall pre :: Get(cert, "l2HeaderPreimage") == Some(pre) ==> PreimageOf(cert) == pre
  {
  }

  lemma AllProve(c: Chain, inserted: Inserted, inbox: Inbox, inclusion: Json, cert: Json, ev: Evidence)
    requires DecodesPath(inclusion, ev.root, ev.siblings) && LeadsTo(c, inserted, ev.root, ev.siblings)
    requires DecodesHeader(cert, ev.header) && ev.header.r == ev.root
    requires c.sha256(Preimage(ev.header)) == ev.tipDigest
    requires DecodesRound(cert, ev) && SignatureHolds(c, inbox, ev)
    ensures Decodes(inclusion, cert, ev) && Proves(c, inserted, inbox, ev)
  {
    hide DecodesPath, DecodesHeader, DecodesRound, LeadsTo, SignatureHolds, Preimage;
  }

  lemma Refused(parts: seq<seq<Step>>, k: nat, e: CheckError)
    requires k < |parts| && FailsWith(parts[k], e) && forall j :: 0 <= j < k ==> Passes(parts[j])
    ensures FailsWith(Flat(parts), e) && !Passes(Flat(parts))
  {
    FlatFails(parts, k, e);
    PassOrFail(Flat(parts), e);
  }

  /** Evidence that proves the leaf passes every step. */
  lemma ProvenPasses(c: Chain, inserted: Inserted, inbox: Inbox, inclusion: Json, cert: Json)
    ensures forall ev :: Decodes(inclusion, cert, ev) && Proves(c, inserted, inbox, ev) ==>
              Passes(Flat(Steps(c, inserted, inbox, inclusion, cert)))
  {
    hide JsonB256, JsonU64, JsonHex, JsonSiblings, LeadsTo, Get, Preimage, Proposal, Namespace, Flat;
    var parts := Steps(c, inserted, inbox, inclusion, cert);
    FlatPasses(parts);
    forall ev | Decodes(inclusion, cert, ev) && Proves(c, inserted, inbox, ev) ensures Passes(Flat(parts)) {
      assert Passes(parts[0]) && Passes(parts[1]) && Passes(parts[2]);
      assert DecodesHeader(cert, ev.header) && Passes(parts[3]) && Passes(parts[4]) && Passes(parts[5]);
    }
  }

  // ----- what the check binds -----

  /** The leaves and paths agree, or one of the two hashes collides at a place named by the two proofs. */
  ghost predicate SameLeafOrCollision(c: Chain, i: Inserted, ev: Evidence, i': Inserted, ev': Evidence)
  {
    || (Field(i.leaf) == Field(i'.leaf) && ev.siblings == ev'.siblings && ev.header == ev'.header)
    || Collision(c.sha256, Preimage(ev.header), Preimage(ev'.header))
    || NodesCollide(c.node, i.leafIndex, Field(i.leaf), ev.siblings, Field(i'.leaf), ev'.siblings)
  }

  lemma DecodedDepth(inclusion: Json, cert: Json, ev: Evidence)
    requires Decodes(inclusion, cert, ev)
    ensures |ev.siblings| == DEPTH
  {
    SiblingsLength(Get(inclusion, "siblings").value.items);
  }

  /** One tip digest carries one root, and one leaf at each position. */
  lemma DigestBindsLeaf(c: Chain, inbox: Inbox, inbox': Inbox, i: Inserted, i': Inserted, ev: Evidence, ev': Evidence)
    requires Proves(c, i, inbox, ev) && Proves(c, i', inbox', ev') && ev.tipDigest == ev'.tipDigest
    requires |ev.siblings| == |ev'.siblings|
    ensures ev.root == ev'.root || Collision(c.sha256, Preimage(ev.header), Preimage(ev'.header))
    ensures i.leafIndex == i'.leafIndex ==> SameLeafOrCollision(c, i, ev, i', ev')
  {
    DigestBindsHeader(c.sha256, ev.header, ev'.header);
    if i.leafIndex == i'.leafIndex && ev.header == ev'.header {
      PathBinds(c.node, i.leafIndex, Field(i.leaf), ev.siblings, Field(i'.leaf), ev'.siblings, |ev.siblings|);
      assert ev.siblings[..|ev.siblings|] == ev.siblings && ev'.siblings[..|ev'.siblings|] == ev'.siblings;
    }
  }

  /** What an accepted certificate states. */
  function StatedBy(inbox: Inbox, ev: Evidence): Finalized {
    Finalized(inbox.chainId, ev.roundEpoch, ev.roundView, ev.parentView, ev.tipDigest)
  }

  /** The certificate's signature holds on a statement that none of the finalizations made. */
  ghost predicate ForgedCertificate(c: Chain, inbox: Inbox, ev: Evidence, finalized: seq<Finalized>) {
    && SignatureHolds(c, inbox, ev)
    && forall f <- finalized ::
         !(Namespace(f.chainId) == Namespace(inbox.chainId)
           && Proposal(f.epoch, f.view, f.parentView, f.digest)
              == Proposal(ev.roundEpoch, ev.roundView, ev.parentView, ev.tipDigest))
  }

  /** Given everything the committee ever finalized, an accepted certificate states one of it, or is forged. */
  lemma CertificateIsFinalization(c: Chain, inbox: Inbox, i: Inserted, ev: Evidence, finalized: seq<Finalized>)
    requires Proves(c, i, inbox, ev)
    ensures StatedBy(inbox, ev) in finalized || ForgedCertificate(c, inbox, ev, finalized)
  {
    hide Proposal, Namespace;
    if f :| f in finalized && Namespace(f.chainId) == Namespace(inbox.chainId)
            && Proposal(f.epoch, f.view, f.parentView, f.digest)
               == Proposal(ev.roundEpoch, ev.roundView, ev.parentView, ev.tipDigest) {
      SignedStatementInjective(f, StatedBy(inbox, ev));
    }
  }

  /** Two signatures of the committee on two digests in one view. */
  ghost predicate FinalizedTwice(c: Chain, inbox: Inbox, ev: Evidence, ev': Evidence) {
    && ev.roundEpoch == ev'.roundEpoch && ev.roundView == ev'.roundView && ev.tipDigest != ev'.tipDigest
    && SignatureHolds(c, inbox, ev) && SignatureHolds(c, inbox, ev')
  }

  /**
   End to end: two accepted checks against one inbox, in one view, for one position, have
   shown the same leaf. Otherwise SHA-256 or the node hash collides on their data, or they
   are the proof that the committee finalized two blocks in one view.
   */
  lemma FinalizedViewBindsLeaf(c: Chain, inbox: Inbox, i: Inserted, i': Inserted, inclusion: Json, cert: Json,
                               inclusion': Json, cert': Json, ev: Evidence, ev': Evidence)
    requires Decodes(inclusion, cert, ev) && Proves(c, i, inbox, ev)
    requires Decodes(inclusion', cert', ev') && Proves(c, i', inbox, ev')
    requires ev.roundEpoch == ev'.roundEpoch && ev.roundView == ev'.roundView && i.leafIndex == i'.leafIndex
    ensures SameLeafOrCollision(c, i, ev, i', ev') || FinalizedTwice(c, inbox, ev, ev')
  {
    hide Proves, SignatureHolds, SameLeafOrCollision;
    DecodedDepth(inclusion, cert, ev);
    DecodedDepth(inclusion', cert', ev');
    if ev.tipDigest == ev'.tipDigest {
      DigestBindsLeaf(c, inbox, inbox, i, i', ev, ev');
    } else {
      ProvenIsSigned(c, i, inbox, ev);
      ProvenIsSigned(c, i', inbox, ev');
    }
  }

  lemma ProvenIsSigned(c: Chain, i: Inserted, inbox: Inbox, ev: Evidence)
    requires Proves(c, i, inbox, ev)
    ensures SignatureHolds(c, inbox, ev)
  {
  }

  /** In any view the committee finalized at most one digest. */
  ghost predicate Agreement(finalized: seq<Finalized>) {
    forall f, g :: f in finalized && g in finalized && f.chainId == g.chainId && f.epoch == g.epoch && f.view == g.view
                   ==> f.digest == g.digest
  }

  /** With a committee that finalized one digest a view, only a collision or a forged certificate parts two leaves. */
  lemma AgreementBindsLeaf(c: Chain, inbox: Inbox, i: Inserted, i': Inserted, inclusion: Json, cert: Json,
                           inclusion': Json, cert': Json, ev: Evidence, ev': Evidence, finalized: seq<Finalized>)
    requires Agreement(finalized)
    requires Decodes(inclusion, cert, ev) && Proves(c, i, inbox, ev)
    requires Decodes(inclusion', cert', ev') && Proves(c, i', inbox, ev')
    requires ev.roundEpoch == ev'.roundEpoch && ev.roundView == ev'.roundView && i.leafIndex == i'.leafIndex
    ensures || SameLeafOrCollision(c, i, ev, i', ev')
            || ForgedCertificate(c, inbox, ev, finalized) || ForgedCertificate(c, inbox, ev', finalized)
  {
    hide Decodes, Proves, SignatureHolds, SameLeafOrCollision, ForgedCertificate;
    FinalizedViewBindsLeaf(c, inbox, i, i', inclusion, cert, inclusion', cert', ev, ev');
    CertificateIsFinalization(c, inbox, i, ev, finalized);
    CertificateIsFinalization(c, inbox, i', ev', finalized);
  }

  // ----- the receipt -----

  datatype Log = Log(address: Bytes20, topics: seq<Bytes32>, data: Bytes)

  datatype ReceiptError = TopicCount(got: nat) | ShortData(got: nat) | NoEvent

  predicate IsLeafInserted(log: Log, emitter: Bytes20, signature: Bytes32) {
    log.address == emitter && |log.topics| > 0 && log.topics[0] == signature
  }

  /** The low eight bytes of an indexed `uint64` topic. */
  function TopicU64(topic: Bytes32): U64 {
    Pow256Values();
    FromBeBound(topic[24..32]);
    FromBe(topic[24..32])
  }

  /** An indexed `uint64` reads back from the word it is the low end of, whatever the rest of the word. */
  lemma TopicReads(high: Bytes, v: U64)
    requires |high| == 24
    ensures |high + Be(v, 8)| == 32 && TopicU64(high + Be(v, 8)) == v
  {
    Pow256Values();
    BeRoundTrip(v, 8);
    assert (high + Be(v, 8))[24..32] == Be(v, 8);
  }

  /** The first matching log decides, well-formed or not; later ones are never looked at. */
  method LeafInserted(logs: seq<Log>, emitter: Bytes20, signature: Bytes32)
    returns (r: Result<Inserted, ReceiptError>)
    ensures r == Failure(NoEvent) <==> forall log <- logs :: !IsLeafInserted(log, emitter, signature)
    ensures r != Failure(NoEvent) ==>
              exists n :: 0 <= n < |logs| && IsLeafInserted(logs[n], emitter, signature)
                && (forall j :: 0 <= j < n ==> !IsLeafInserted(logs[j], emitter, signature))
                && (r.Success? <==> |logs[n].topics| >= 3 && |logs[n].data| >= 32)
                && (r.Success? ==> r.value == Inserted(TopicU64(logs[n].topics[1]), TopicU64(logs[n].topics[2]),
                                                       logs[n].data[..32]))
                && (r.Failure? ==> r.error == if |logs[n].topics| < 3 then TopicCount(|logs[n].topics|)
                                              else ShortData(|logs[n].data|))
  {
    for n := 0 to |logs|
      invariant forall j :: 0 <= j < n ==> !IsLeafInserted(logs[j], emitter, signature)
    {
      var log := logs[n];
      if log.address != emitter {
        continue;
      }
      if |log.topics| == 0 || log.topics[0] != signature {
        continue;
      }
      assert IsLeafInserted(logs[n], emitter, signature);
      if |log.topics| < 3 {
        return Failure(TopicCount(|log.topics|));
      }
      var treeId := TopicU64(log.topics[1]);
      var leafIndex := TopicU64(log.topics[2]);
      if |log.data| < 32 {
        return Failure(ShortData(|log.data|));
      }
      return Success(Inserted(treeId, leafIndex, log.data[..32]));
    }
    return Failure(NoEvent);
  }
}
