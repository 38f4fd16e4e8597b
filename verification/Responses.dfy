/** The two responses as a node renders them, and what the certificate check makes of them. */
module Responses {
  import opened Octets
  import opened Wrappers
  import opened Finalization
  import opened Inclusion
  import Hex

  // ----- rendering -----

  /** Bytes in hex; the `0x` in front is optional. */
  function HexText(b: Bytes, prefixed: bool): Json {
    JString((if prefixed then "0x" else "") + Hex.Encode(b))
  }

  function WordTexts(words: seq<Bytes32>, prefixed: bool): (r: seq<Json>)
    ensures |r| == |words|
    ensures forall i :: 0 <= i < |r| ==> r[i] == HexText(words[i], prefixed)
  {
    seq(|words|, i requires 0 <= i < |words| => HexText(words[i], prefixed))
  }

  /** `pso_getInclusionPath`: the root, the block it is pinned to, the siblings from the leaf upwards. */
  function PathResponse(root: Bytes32, blockNumber: U64, words: seq<Bytes32>, prefixed: bool): Json {
    JObject(map["root" := HexText(root, prefixed), "blockNumber" := JNumber(blockNumber),
                "siblings" := JArray(WordTexts(words, prefixed))])
  }

  function HeaderObject(h: BlockHeader, prefixed: bool): Json {
    JObject(map["contextEncoded" := HexText(h.contextEncoded, prefixed), "parent" := HexText(h.parent, prefixed),
                "height" := JNumber(h.height), "timestampMs" := JNumber(h.timestampMs),
                "payloadHash" := HexText(h.payloadHash, prefixed), "r" := HexText(h.r, prefixed)])
  }

  /** `pso_getFinalizeCert`: the header preimage, the digest, the round and the signature. */
  function CertificateResponse(ev: Evidence, prefixed: bool): Json {
    JObject(map["l2HeaderPreimage" := HeaderObject(ev.header, prefixed),
                "tipDigest" := HexText(ev.tipDigest, prefixed), "roundEpoch" := JNumber(ev.roundEpoch),
                "roundView" := JNumber(ev.roundView), "parentView" := JNumber(ev.parentView),
                "certSig" := HexText(ev.certSig, prefixed)])
  }

  /** The siblings are the words of the path, in their order, each reduced into the field. */
  ghost predicate SiblingsAre(siblings: seq<nat>, words: seq<Bytes32>) {
    |siblings| == |words| && forall i :: 0 <= i < |words| ==> siblings[i] == FromBe(words[i]) % BN254_R
  }

  // ----- reading -----

  lemma {:induction false} EncodedDigits(b: Bytes)
    ensures |Hex.Encode(b)| == 2 * |b| && Hex.AllDigits(Hex.Encode(b))
  {
    if b != [] {
      EncodedDigits(b[1..]);
      assert Hex.Encode(b) == [Hex.Digit(b[0] / 16), Hex.Digit(b[0] % 16)] + Hex.Encode(b[1..]);
    }
  }

  /** Rendered bytes read back, with the prefix and without it. */
  lemma TextReads(b: Bytes, prefixed: bool)
    ensures Hex.Decode(StripHexPrefix(HexText(b, prefixed).s)) == Some(b)
    ensures |b| == 32 ==> ParseHex32(HexText(b, prefixed).s) == Success(b)
  {
    hide Hex.Decode;
    var h, text := Hex.Encode(b), HexText(b, prefixed).s;
    EncodedDigits(b);
    Hex.DecodeEncode(b);
    hide Hex.Encode;
    if prefixed {
      assert text[..2] == "0x" && text[2..] == h;
    } else {
      assert text == h;
      assert |h| >= 2 ==> h[..2][1] == h[1] != 'x';
    }
  }

  /** The array decodes to its words, first to first and last to last. */
  lemma {:induction false} SiblingsRead(words: seq<Bytes32>, prefixed: bool)
    ensures ParseSiblings(WordTexts(words, prefixed)).Success?
    ensures SiblingsAre(ParseSiblings(WordTexts(words, prefixed)).value, words)
  {
    hide HexText, ParseHex32, StripHexPrefix;
    var items := WordTexts(words, prefixed);
    if words != [] {
      SiblingsRead(words[1..], prefixed);
      assert items[1..] == WordTexts(words[1..], prefixed);
      TextReads(words[0], prefixed);
      TextIsString(words[0], prefixed);
      var rest := ParseSiblings(items[1..]).value;
      assert ParseSiblings(items).value == [Field(words[0])] + rest;
      forall i | 0 <= i < |words| ensures ([Field(words[0])] + rest)[i] == FromBe(words[i]) % BN254_R {
        assert i > 0 ==> words[i] == words[1..][i - 1];
      }
    }
  }

  lemma TextIsString(b: Bytes, prefixed: bool)
    ensures HexText(b, prefixed).JString?
  {
  }

  lemma PathReads(root: Bytes32, blockNumber: U64, words: seq<Bytes32>, prefixed: bool, siblings: seq<nat>)
    requires |words| == DEPTH && SiblingsAre(siblings, words)
    ensures DecodesPath(PathResponse(root, blockNumber, words, prefixed), root, siblings)
  {
    hide HexText, ParseHex32, ParseSiblings, StripHexPrefix, FromBe;
    TextReads(root, prefixed);
    TextIsString(root, prefixed);
    SiblingsRead(words, prefixed);
    assert ParseSiblings(WordTexts(words, prefixed)).value == siblings;
  }

  lemma HeaderReads(ev: Evidence, prefixed: bool)
    ensures DecodesHeader(CertificateResponse(ev, prefixed), ev.header)
  {
    hide HexText, ParseHex32, StripHexPrefix, Hex.Decode;
    var h := ev.header;
    TextReads(h.contextEncoded, prefixed);
    TextReads(h.parent, prefixed);
    TextReads(h.payloadHash, prefixed);
    TextReads(h.r, prefixed);
    TextIsString(h.contextEncoded, prefixed);
    TextIsString(h.parent, prefixed);
    TextIsString(h.payloadHash, prefixed);
    TextIsString(h.r, prefixed);
  }

  lemma RoundReads(ev: Evidence, prefixed: bool)
    ensures DecodesRound(CertificateResponse(ev, prefixed), ev)
  {
    hide HexText, ParseHex32, StripHexPrefix, Hex.Decode, HeaderObject;
    TextReads(ev.tipDigest, prefixed);
    TextReads(ev.certSig, prefixed);
    TextIsString(ev.tipDigest, prefixed);
    TextIsString(ev.certSig, prefixed);
  }

  lemma OneDecoding(inclusion: Json, cert: Json, ev: Evidence, ev': Evidence)
    requires Decodes(inclusion, cert, ev) && Decodes(inclusion, cert, ev')
    ensures ev == ev'
  {
    hide JsonB256, JsonU64, JsonHex, JsonSiblings, Get;
  }

  /** Rendered evidence decodes to itself and to nothing else. */
  lemma ResponsesDecode(ev: Evidence, blockNumber: U64, words: seq<Bytes32>, prefixed: bool)
    requires |words| == DEPTH && SiblingsAre(ev.siblings, words)
    ensures var inclusion, cert := PathResponse(ev.root, blockNumber, words, prefixed), CertificateResponse(ev, prefixed);
            forall ev' :: Decodes(inclusion, cert, ev') <==> ev' == ev
  {
    hide DecodesPath, DecodesHeader, DecodesRound, PathResponse, CertificateResponse, SiblingsAre;
    var inclusion, cert := PathResponse(ev.root, blockNumber, words, prefixed), CertificateResponse(ev, prefixed);
    PathReads(ev.root, blockNumber, words, prefixed, ev.siblings);
    HeaderReads(ev, prefixed);
    RoundReads(ev, prefixed);
    assert Decodes(inclusion, cert, ev);
    forall ev' | Decodes(inclusion, cert, ev') ensures ev' == ev {
      OneDecoding(inclusion, cert, ev, ev');
    }
  }

  /** Responses that render evidence are accepted exactly when the evidence proves the leaf, as that evidence. */
  method CheckRendered(c: Chain, inserted: Inserted, inbox: Inbox, ev: Evidence, blockNumber: U64, words: seq<Bytes32>,
                       prefixed: bool)
    returns (r: Result<Evidence, CheckError>)
    requires |words| == DEPTH && SiblingsAre(ev.siblings, words)
    ensures r.Success? <==> Proves(c, inserted, inbox, ev)
    ensures r.Success? ==> r.value == ev
  {
    hide Decodes, Proves, PathResponse, CertificateResponse, SiblingsAre, Steps;
    ResponsesDecode(ev, blockNumber, words, prefixed);
    r := CheckInclusion(c, inserted, inbox, PathResponse(ev.root, blockNumber, words, prefixed),
                        CertificateResponse(ev, prefixed));
  }

  // ----- the path of a tree -----

  /** The node at a level and position of the tree over the leaves. */
  function TreeNode(h: ((nat, nat)) -> nat, leaf: nat -> nat, level: nat, at: nat): nat {
    if level == 0 then leaf(at)
    else h((TreeNode(h, leaf, level - 1, 2 * at), TreeNode(h, leaf, level - 1, 2 * at + 1)))
  }

  /** The position beside `at`. */
  function Beside(at: nat): nat {
    if at % 2 == 0 then at + 1 else at - 1
  }

  lemma {:induction false} AboveStep(index: nat, k: nat)
    ensures Above(index, k + 1) == Above(index, k) / 2
  {
    if k > 0 {
      AboveStep(index / 2, k - 1);
    }
  }

  function Leaves(depth: nat): nat {
    if depth == 0 then 1 else 2 * Leaves(depth - 1)
  }

  lemma {:induction false} AboveTop(index: nat, depth: nat)
    ensures Above(index, depth) == 0 <==> index < Leaves(depth)
  {
    if depth > 0 {
      AboveTop(index / 2, depth - 1);
    }
  }

  /** The co-path of a leaf: at every level, from the leaves upwards, the node beside the path. */
  function CoPath(h: ((nat, nat)) -> nat, leaf: nat -> nat, index: nat, depth: nat): (r: seq<nat>)
    ensures |r| == depth
    ensures forall k :: 0 <= k < depth ==> r[k] == TreeNode(h, leaf, k, Beside(Above(index, k)))
  {
    seq(depth, k requires 0 <= k < depth => TreeNode(h, leaf, k, Beside(Above(index, k))))
  }

  /** Any leaf with its co-path folds into the nodes above it: levels upwards, left child first. */
  lemma {:induction false} CoPathFolds(h: ((nat, nat)) -> nat, leaf: nat -> nat, index: nat, s: seq<nat>, k: nat)
    requires k <= |s| && forall j :: 0 <= j < |s| ==> s[j] == TreeNode(h, leaf, j, Beside(Above(index, j)))
    ensures NodeAt(h, leaf(index), index, s, k) == TreeNode(h, leaf, k, Above(index, k))
  {
    hide *;
    Bottom(h, leaf, index, s);
    if k > 0 {
      CoPathFolds(h, leaf, index, s, k - 1);
      AboveStep(index, k - 1);
      Parent(h, leaf, k - 1, Above(index, k - 1));
      NodeStep(h, leaf(index), index, s, k);
    }
  }

  lemma Bottom(h: ((nat, nat)) -> nat, leaf: nat -> nat, index: nat, s: seq<nat>)
    ensures NodeAt(h, leaf(index), index, s, 0) == leaf(index) == TreeNode(h, leaf, 0, Above(index, 0))
  {
  }

  lemma NodeStep(h: ((nat, nat)) -> nat, leaf: nat, index: nat, s: seq<nat>, k: nat)
    requires 0 < k <= |s|
    ensures var node := NodeAt(h, leaf, index, s, k - 1);
            NodeAt(h, leaf, index, s, k)
            == h(if Above(index, k - 1) % 2 == 0 then (node, s[k - 1]) else (s[k - 1], node))
  {
  }

  /** A node's parent hashes it with the node beside it, on the side its position says. */
  lemma Parent(h: ((nat, nat)) -> nat, leaf: nat -> nat, level: nat, at: nat)
    ensures var node, beside := TreeNode(h, leaf, level, at), TreeNode(h, leaf, level, Beside(at));
            TreeNode(h, leaf, level + 1, at / 2) == h(if at % 2 == 0 then (node, beside) else (beside, node))
  {
    assert if at % 2 == 0 then 2 * (at / 2) == at && Beside(at) == at + 1
           else 2 * (at / 2) == Beside(at) && 2 * (at / 2) + 1 == at;
  }

  /** Every leaf of a full tree proves into the tree's root. */
  lemma LeafProvesIntoRoot(h: ((nat, nat)) -> nat, leaf: nat -> nat, index: nat, depth: nat)
    requires index < Leaves(depth)
    ensures RootFromPath(h, leaf(index), index, CoPath(h, leaf, index, depth)) == TreeNode(h, leaf, depth, 0)
  {
    CoPathFolds(h, leaf, index, CoPath(h, leaf, index, depth), depth);
    AboveTop(index, depth);
  }
}
