/**
 What the BFT committee signs when it finalizes a block: LEB128 varints, the proposal
 they frame, and the chain's namespace.
 */
module Finalization {
  import opened Octets
  import opened Wrappers

  // ----- varints (unsigned LEB128, section 7.6 of DWARF 5) -----

  function Varint(v: nat): (r: Bytes)
    ensures |r| >= 1
  {
    if v < 128 then [v] else [v % 128 + 128] + Varint(v / 128)
  }

  /** `v & 0x7f` is `v % 128`, `v >>= 7` is `v / 128`, and setting the high bit adds 128. */
  method UintVarint(n: U64) returns (out: Bytes)
    ensures out == Varint(n)
    ensures forall rest: Bytes :: ReadVarint(out + rest) == Some((n, rest))
  {
    out := [];
    var v := n;
    var done := false;
    while !done
      invariant done ==> out == Varint(n)
      invariant !done ==> out + Varint(v) == Varint(n)
      decreases !done, v
    {
      var byte := v % 128;
      var next := v / 128;
      if next == 0 {
        out := out + [byte];
        done := true;
      } else {
        assert Varint(v) == [byte + 128] + Varint(next);
        assert out + ([byte + 128] + Varint(next)) == out + [byte + 128] + Varint(next);
        out := out + [byte + 128];
        v := next;
      }
    }
    forall rest: Bytes ensures ReadVarint(out + rest) == Some((n, rest)) {
      VarintReadsBack(n, rest);
    }
  }

  /** Reads groups of seven bits, least significant first, up to the first byte below 128. */
  function ReadVarint(m: Bytes): Option<(nat, Bytes)> {
    if m == [] then None
    else if m[0] < 128 then Some((m[0], m[1..]))
    else
      var r := ReadVarint(m[1..]);
      if r.None? then None else Some((m[0] - 128 + 128 * r.value.0, r.value.1))
  }

  lemma {:induction false} VarintReadsBack(v: nat, rest: Bytes)
    ensures ReadVarint(Varint(v) + rest) == Some((v, rest))
  {
    if v < 128 {
      assert ([v] + rest)[1..] == rest;
    } else {
      VarintReadsBack(v / 128, rest);
      var tail := Varint(v / 128) + rest;
      assert Varint(v) + rest == [v % 128 + 128] + tail;
      assert ([v % 128 + 128] + tail)[1..] == tail;
    }
  }

  /** No encoding is a proper prefix of another. */
  lemma VarintPrefixFree(a: nat, b: nat)
    requires Varint(a) <= Varint(b)
    ensures a == b
  {
    var rest := Varint(b)[|Varint(a)|..];
    assert Varint(a) + rest == Varint(b) == Varint(b) + [];
    VarintReadsBack(a, rest);
    VarintReadsBack(b, []);
  }

  /** No shorter byte string reads as the same number. */
  lemma {:induction false} VarintMinimal(m: Bytes, v: nat)
    requires ReadVarint(m) == Some((v, []))
    ensures |Varint(v)| <= |m|
  {
    if m[0] >= 128 && v >= 128 {
      var r := ReadVarint(m[1..]).value;
      assert v / 128 == r.0;
      VarintMinimal(m[1..], v / 128);
    }
  }

  function Pow128(k: nat): nat {
    if k == 0 then 1 else 128 * Pow128(k - 1)
  }

  lemma {:induction false} VarintLength(v: nat, k: nat)
    requires v < Pow128(k) && k >= 1
    ensures |Varint(v)| <= k
  {
    assert Pow128(1) == 128;
    if v >= 128 {
      assert v / 128 < Pow128(k - 1);
      VarintLength(v / 128, k - 1);
    }
  }

  /** A `u64` takes one to ten bytes. */
  lemma VarintOfU64(v: U64)
    ensures 1 <= |Varint(v)| <= 10
  {
    assert Pow128(10) == 128 * 128 * 128 * 128 * 128 * Pow128(5);
    assert Pow128(5) == 128 * 128 * 128 * 128 * 128;
    VarintLength(v, 10);
  }

  // ----- the signed statement -----

  /** What one finalize signature states: this chain finalized this digest in this view. */
  datatype Finalized = Finalized(chainId: U64, epoch: U64, view: U64, parentView: U64, digest: Bytes32)

  function Namespace(chainId: U64): Bytes {
    Ascii("_PSO_CHAIN") + Be(chainId, 8) + Ascii("_FINALIZE")
  }

  function Proposal(epoch: nat, view: nat, parentView: nat, digest: Bytes32): Bytes {
    Varint(epoch) + Varint(view) + Varint(parentView) + digest
  }

  method ProposalBytes(epoch: U64, view: U64, parentView: U64, digest: Bytes32) returns (out: Bytes)
    ensures out == Proposal(epoch, view, parentView, digest)
    ensures ReadProposal(out) == Some((epoch, view, parentView, digest))
  {
    out := UintVarint(epoch);
    var next := UintVarint(view);
    out := out + next;
    next := UintVarint(parentView);
    out := out + next;
    out := out + digest;
    ProposalReadsBack(epoch, view, parentView, digest);
  }

  function ReadProposal(m: Bytes): Option<(nat, nat, nat, Bytes)> {
    var a := ReadVarint(m);
    if a.None? then None else
    var b := ReadVarint(a.value.1);
    if b.None? then None else
    var c := ReadVarint(b.value.1);
    if c.None? then None else Some((a.value.0, b.value.0, c.value.0, c.value.1))
  }

  lemma ProposalReadsBack(epoch: nat, view: nat, parentView: nat, digest: Bytes32)
    ensures ReadProposal(Proposal(epoch, view, parentView, digest)) == Some((epoch, view, parentView, digest))
  {
    hide Varint, ReadVarint;
    assert Proposal(epoch, view, parentView, digest)
        == Varint(epoch) + (Varint(view) + (Varint(parentView) + digest));
    VarintReadsBack(epoch, Varint(view) + (Varint(parentView) + digest));
    VarintReadsBack(view, Varint(parentView) + digest);
    VarintReadsBack(parentView, digest);
  }

  /** The 27 bytes of the namespace: the chain's name, its id in eight bytes, the kind of vote. */
  lemma NamespaceBytes(chainId: U64)
    ensures var ns := Namespace(chainId);
            && |ns| == 27
            && (forall i :: 0 <= i < 10 ==> ns[i] == "_PSO_CHAIN"[i] as int)
            && FromBe(ns[10..18]) == chainId
            && forall i :: 0 <= i < 9 ==> ns[18 + i] == "_FINALIZE"[i] as int
  {
    hide Be, FromBe;
    var ns := Namespace(chainId);
    assert ns[10..18] == Be(chainId, 8);
    Pow256Values();
    BeRoundTrip(chainId, 8);
  }

  lemma NamespaceInjective(a: U64, b: U64)
    requires Namespace(a) == Namespace(b)
    ensures a == b
  {
    assert Namespace(a)[10..18] == Be(a, 8);
    assert Namespace(b)[10..18] == Be(b, 8);
    Pow256Values();
    BeRoundTrip(a, 8);
    BeRoundTrip(b, 8);
  }

  /** Namespace and proposal together determine chain, epoch, view, parent view and digest. */
  lemma SignedStatementInjective(a: Finalized, b: Finalized)
    requires Namespace(a.chainId) == Namespace(b.chainId)
    requires Proposal(a.epoch, a.view, a.parentView, a.digest) == Proposal(b.epoch, b.view, b.parentView, b.digest)
    ensures a == b
  {
    NamespaceInjective(a.chainId, b.chainId);
    ProposalReadsBack(a.epoch, a.view, a.parentView, a.digest);
    ProposalReadsBack(b.epoch, b.view, b.parentView, b.digest);
  }
}
