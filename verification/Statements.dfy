/**
 The four byte layouts the provider, the attester and the chain agree on, their
 builders, and one reader that takes all of them apart again.
 */
module Statements {
  import opened Octets
  import opened Wrappers

  const SEAL_ID_DOMAIN := Ascii("bdp-seal-id-v3")
  const SETTLEMENT_ID_DOMAIN := Ascii("bdp-settlement-id-v1")
  const HANDLE_PREFIX := Ascii("bdp-fs-handle-v3")
  const BDP_DST := Ascii("bdp-enclave-v1")
  const TAG_SETTLEMENT: Byte := 0x12

  /** What is hashed or signed: one constructor per layout, all its fields. */
  datatype Statement =
    | SealId(ctx: Bytes32, sequence: U64, poolEpoch: U32, count: U64, fFold: Bytes32)
    | SettlementId(ctx: Bytes32, sequence: U64)
    | Handle(attester: Bytes20, ctx: Bytes32, sealId: Bytes32, count: U64, fFold: Bytes32, fsEpoch: U32, day: U64)
    | Settlement(ctx: Bytes32, rmDigest: Bytes32, root: Bytes, sequence: U64, currency: U16, base: U64, atto: U64,
                 day: U64, count: U64, fFold: Bytes32)

  /** A `u32le` length prefix; the cast to `u32` drops the high bits of a longer length. */
  function LenPrefixed(bytes: Bytes): (r: Bytes)
    ensures |r| == 4 + |bytes|
  {
    Le(|bytes| % TWO_32, 4) + bytes
  }

  function Encode(s: Statement): Bytes {
    match s
    case SealId(ctx, sequence, poolEpoch, count, fFold) =>
      SEAL_ID_DOMAIN + ctx + Le(sequence, 8) + Le(poolEpoch, 4) + Le(count, 8) + fFold
    case SettlementId(ctx, sequence) =>
      SETTLEMENT_ID_DOMAIN + ctx + Le(sequence, 8)
    case Handle(attester, ctx, sealId, count, fFold, fsEpoch, day) =>
      HANDLE_PREFIX + attester + ctx + LenPrefixed(sealId) + Le(count, 8) + fFold + Le(fsEpoch, 4) + Le(day, 8)
    case Settlement(ctx, rmDigest, root, sequence, currency, base, atto, day, count, fFold) =>
      BDP_DST + [TAG_SETTLEMENT] + ctx + rmDigest + LenPrefixed(root) + Le(sequence, 8) + Le(currency, 2)
      + Le(base, 8) + Le(atto, 8) + Le(day, 8) + Le(count, 8) + fFold
  }

  // ----- builders: the source pushes field after field onto one buffer -----

  method PushLenPrefixed(out: Bytes, bytes: Bytes) returns (r: Bytes)
    ensures r == out + LenPrefixed(bytes)
    ensures FromLe(r[|out|..|out| + 4]) == |bytes| % TWO_32 && r[|out| + 4..] == bytes
  {
    r := out + Le(|bytes| % TWO_32, 4);
    r := r + bytes;
    LeFields(0, |bytes| % TWO_32, 0);
    assert r[|out|..|out| + 4] == Le(|bytes| % TWO_32, 4);
  }

  method HandleMessage(attester: Bytes20, ctx: Bytes32, sealId: Bytes32, count: U64, fFold: Bytes32, fsEpoch: U32,
                       day: U64)
    returns (out: Bytes)
    ensures Decode(out) == Some(Handle(attester, ctx, sealId, count, fFold, fsEpoch, day))
    ensures out == Encode(Handle(attester, ctx, sealId, count, fFold, fsEpoch, day))
  {
    out := HANDLE_PREFIX;
    out := out + attester;
    out := out + ctx;
    out := PushLenPrefixed(out, sealId);
    out := out + Le(count, 8);
    out := out + fFold;
    out := out + Le(fsEpoch, 4);
    out := out + Le(day, 8);
    DecodeEncode(Handle(attester, ctx, sealId, count, fFold, fsEpoch, day));
  }

  method SettlementMessage(ctx: Bytes32, rmDigest: Bytes32, root: Bytes, sequence: U64, currency: U16, base: U64,
                           atto: U64, day: U64, count: U64, fFold: Bytes32)
    returns (out: Bytes)
    ensures Decode(out) == Some(Settlement(ctx, rmDigest, root, sequence, currency, base, atto, day, count, fFold))
    ensures out == Encode(Settlement(ctx, rmDigest, root, sequence, currency, base, atto, day, count, fFold))
  {
    out := BDP_DST;
    out := out + [TAG_SETTLEMENT];
    out := out + ctx;
    out := out + rmDigest;
    out := PushLenPrefixed(out, root);
    out := out + Le(sequence, 8);
    out := out + Le(currency, 2);
    out := out + Le(base, 8);
    out := out + Le(atto, 8);
    out := out + Le(day, 8);
    out := out + Le(count, 8);
    out := out + fFold;
    DecodeEncode(Settlement(ctx, rmDigest, root, sequence, currency, base, atto, day, count, fFold));
  }

  // ----- the reader -----

  predicate StartsWith(m: Bytes, prefix: Bytes) {
    |prefix| <= |m| && m[..|prefix|] == prefix
  }

  /** Reads any of the four statements; the layout is chosen by the domain alone. */
  function Decode(m: Bytes): Option<Statement> {
    if StartsWith(m, SEAL_ID_DOMAIN) then DecodeSealId(m)
    else if StartsWith(m, SETTLEMENT_ID_DOMAIN) then DecodeSettlementId(m)
    else if StartsWith(m, HANDLE_PREFIX) then DecodeHandle(m)
    else if StartsWith(m, BDP_DST) then DecodeSettlement(m)
    else None
  }

  function DecodeSealId(m: Bytes): Option<Statement> {
    if |m| != 98 then None else
    Pow256Values();
    LeRanges(m[46..54], m[54..58]);
    LeRanges(m[58..66], m[54..58]);
    Some(SealId(m[14..46], FromLe(m[46..54]), FromLe(m[54..58]), FromLe(m[58..66]), m[66..98]))
  }

  function DecodeSettlementId(m: Bytes): Option<Statement> {
    if |m| != 60 then None else
    LeRanges(m[52..60], m[52..56]);
    Some(SettlementId(m[20..52], FromLe(m[52..60])))
  }

  function DecodeHandle(m: Bytes): Option<Statement> {
    if |m| != 156 || m[68..72] != Le(32, 4) then None else
    var t := m[104..];
    LeRanges(t[0..8], t[40..44]);
    LeRanges(t[44..52], t[40..44]);
    Some(Handle(m[16..36], m[36..68], m[72..104], FromLe(t[0..8]), t[8..40], FromLe(t[40..44]), FromLe(t[44..52])))
  }

  /**
   Everything but the commitment root has a fixed width, so the root is what is left
   between the 83-byte head and the 74-byte tail; its prefix is only checked.
   */
  function DecodeSettlement(m: Bytes): Option<Statement> {
    if |m| < 157 || m[14] != TAG_SETTLEMENT || m[79..83] != Le((|m| - 157) % TWO_32, 4) then None else
    var amount := m[|m| - 74..|m| - 48];
    var totals := m[|m| - 48..];
    LeRanges(amount[0..8], amount[0..4]);
    LeRanges(amount[10..18], amount[0..4]);
    LeRanges(amount[18..26], amount[0..4]);
    LeRanges(totals[0..8], amount[0..4]);
    LeRanges(totals[8..16], amount[0..4]);
    Pow256Values();
    FromLeBound(amount[8..10]);
    Some(Settlement(m[15..47], m[47..79], m[83..|m| - 74], FromLe(amount[0..8]), FromLe(amount[8..10]),
                    FromLe(amount[10..18]), FromLe(amount[18..26]), FromLe(totals[0..8]), FromLe(totals[8..16]),
                    totals[16..48]))
  }

  lemma LeRanges(eight: Bytes, four: Bytes)
    requires |eight| == 8 && |four| == 4
    ensures FromLe(eight) < TWO_64 && FromLe(four) < TWO_32
  {
    Pow256Values();
    FromLeBound(eight);
    FromLeBound(four);
  }

  // ----- the reader undoes the builders -----

  lemma DomainsDiffer(m: Bytes)
    ensures StartsWith(m, SEAL_ID_DOMAIN) ==> m[4] == 's' as int && m[6] == 'a' as int
    ensures StartsWith(m, SETTLEMENT_ID_DOMAIN) ==> m[4] == 's' as int && m[6] == 't' as int
    ensures StartsWith(m, HANDLE_PREFIX) ==> m[4] == 'f' as int
    ensures StartsWith(m, BDP_DST) ==> m[4] == 'e' as int
  {
    if StartsWith(m, SEAL_ID_DOMAIN) {
      assert m[4] == SEAL_ID_DOMAIN[4] && m[6] == SEAL_ID_DOMAIN[6];
    }
    if StartsWith(m, SETTLEMENT_ID_DOMAIN) {
      assert m[4] == SETTLEMENT_ID_DOMAIN[4] && m[6] == SETTLEMENT_ID_DOMAIN[6];
    }
    if StartsWith(m, HANDLE_PREFIX) {
      assert m[4] == HANDLE_PREFIX[4];
    }
    if StartsWith(m, BDP_DST) {
      assert m[4] == BDP_DST[4];
    }
  }

  /** Every statement reads back, whatever the length of its commitment root. */
  lemma DecodeEncode(s: Statement)
    ensures Decode(Encode(s)) == Some(s)
  {
    DomainsDiffer(Encode(s));
    match s
    case SealId(_, _, _, _, _) => DecodeEncodeSealId(s);
    case SettlementId(_, _) => DecodeEncodeSettlementId(s);
    case Handle(_, _, _, _, _, _, _) => DecodeEncodeHandle(s);
    case Settlement(_, _, _, _, _, _, _, _, _, _) => DecodeEncodeSettlement(s);
  }

  lemma DecodeEncodeSealId(s: Statement)
    requires s.SealId?
    ensures StartsWith(Encode(s), SEAL_ID_DOMAIN) && DecodeSealId(Encode(s)) == Some(s)
  {
    var m := Encode(s);
    LeFields(0, s.poolEpoch, s.sequence);
    LeFields(0, s.poolEpoch, s.count);
    assert m[..14] == SEAL_ID_DOMAIN;
    assert m[14..46] == s.ctx;
    assert m[46..54] == Le(s.sequence, 8);
    assert m[54..58] == Le(s.poolEpoch, 4);
    assert m[58..66] == Le(s.count, 8);
    assert m[66..98] == m[66..] == s.fFold;
  }

  lemma DecodeEncodeSettlementId(s: Statement)
    requires s.SettlementId?
    ensures StartsWith(Encode(s), SETTLEMENT_ID_DOMAIN) && DecodeSettlementId(Encode(s)) == Some(s)
  {
    var m := Encode(s);
    LeFields(0, 0, s.sequence);
    assert m[..20] == SETTLEMENT_ID_DOMAIN;
    assert m[20..52] == s.ctx;
    assert m[52..60] == Le(s.sequence, 8);
  }

  lemma DecodeEncodeHandle(s: Statement)
    requires s.Handle?
    ensures StartsWith(Encode(s), HANDLE_PREFIX) && DecodeHandle(Encode(s)) == Some(s)
  {
    var m := Encode(s);
    var head := HANDLE_PREFIX + s.attester + s.ctx + LenPrefixed(s.sealId);
    var tail := Le(s.count, 8) + s.fFold + Le(s.fsEpoch, 4) + Le(s.day, 8);
    assert m == head + tail;
    assert m[..104] == head && m[104..] == tail;
    HandleHead(s, head, m);
    HandleTail(s, tail);
  }

  lemma HandleHead(s: Statement, head: Bytes, m: Bytes)
    requires s.Handle?
    requires head == HANDLE_PREFIX + s.attester + s.ctx + LenPrefixed(s.sealId)
    requires |m| == 156 && m[..104] == head
    ensures m[..16] == HANDLE_PREFIX && m[16..36] == s.attester && m[36..68] == s.ctx
    ensures m[68..72] == Le(32, 4) && m[72..104] == s.sealId
  {
  }

  lemma HandleTail(s: Statement, t: Bytes)
    requires s.Handle?
    requires t == Le(s.count, 8) + s.fFold + Le(s.fsEpoch, 4) + Le(s.day, 8)
    ensures FromLe(t[0..8]) == s.count && t[8..40] == s.fFold
    ensures FromLe(t[40..44]) == s.fsEpoch && FromLe(t[44..52]) == s.day
  {
    LeFields(0, s.fsEpoch, s.count);
    LeFields(0, s.fsEpoch, s.day);
    assert t[0..8] == Le(s.count, 8);
    assert t[8..40] == s.fFold;
    assert t[40..44] == Le(s.fsEpoch, 4);
    assert t[44..52] == Le(s.day, 8);
  }

  lemma DecodeEncodeSettlement(s: Statement)
    requires s.Settlement?
    ensures StartsWith(Encode(s), BDP_DST) && DecodeSettlement(Encode(s)) == Some(s)
  {
    var m := Encode(s);
    var head := BDP_DST + [TAG_SETTLEMENT] + s.ctx + s.rmDigest + LenPrefixed(s.root);
    var amount := Le(s.sequence, 8) + Le(s.currency, 2) + Le(s.base, 8) + Le(s.atto, 8);
    var totals := Le(s.day, 8) + Le(s.count, 8) + s.fFold;
    assert m == head + amount + totals;
    assert m[|m| - 74..|m| - 48] == amount;
    assert m[|m| - 48..] == totals;
    SettlementHead(s, head, m);
    SettlementAmount(s, amount);
    SettlementTotals(s, totals);
  }

  lemma WithinPrefix(m: Bytes, n: nat, i: nat, j: nat)
    requires i <= j <= n <= |m|
    ensures m[i..j] == m[..n][i..j]
  {
  }

  lemma SettlementHead(s: Statement, head: Bytes, m: Bytes)
    requires s.Settlement?
    requires head == BDP_DST + [TAG_SETTLEMENT] + s.ctx + s.rmDigest + LenPrefixed(s.root)
    requires |m| == |head| + 74 && m[..|head|] == head
    ensures m[..14] == BDP_DST && m[14] == TAG_SETTLEMENT && m[15..47] == s.ctx && m[47..79] == s.rmDigest
    ensures m[79..83] == Le((|m| - 157) % TWO_32, 4) && m[83..|m| - 74] == s.root
  {
    assert |head| == 83 + |s.root|;
    assert head[..14] == BDP_DST;
    assert head[14] == TAG_SETTLEMENT;
    assert head[15..47] == s.ctx;
    assert head[47..79] == s.rmDigest;
    assert head[79..] == LenPrefixed(s.root);
    assert head[79..83] == head[79..][..4] == Le(|s.root| % TWO_32, 4);
    assert head[83..] == head[79..][4..] == s.root;
    WithinPrefix(m, |head|, 0, 14);
    WithinPrefix(m, |head|, 15, 47);
    WithinPrefix(m, |head|, 47, 79);
    WithinPrefix(m, |head|, 79, 83);
    WithinPrefix(m, |head|, 83, |head|);
  }

  lemma SettlementAmount(s: Statement, u: Bytes)
    requires s.Settlement?
    requires u == Le(s.sequence, 8) + Le(s.currency, 2) + Le(s.base, 8) + Le(s.atto, 8)
    ensures FromLe(u[0..8]) == s.sequence && FromLe(u[8..10]) == s.currency
    ensures FromLe(u[10..18]) == s.base && FromLe(u[18..26]) == s.atto
  {
    LeFields(s.currency, 0, s.sequence);
    LeFields(0, 0, s.base);
    LeFields(0, 0, s.atto);
    assert u[0..8] == Le(s.sequence, 8);
    assert u[8..10] == Le(s.currency, 2);
    assert u[10..18] == Le(s.base, 8);
    assert u[18..26] == Le(s.atto, 8);
  }

  lemma SettlementTotals(s: Statement, v: Bytes)
    requires s.Settlement?
    requires v == Le(s.day, 8) + Le(s.count, 8) + s.fFold
    ensures FromLe(v[0..8]) == s.day && FromLe(v[8..16]) == s.count && v[16..48] == s.fFold
  {
    LeFields(0, 0, s.day);
    LeFields(0, 0, s.count);
    assert v[0..8] == Le(s.day, 8);
    assert v[8..16] == Le(s.count, 8);
  }

  /**
   One byte string is at most one statement: each layout determines all its fields,
   and no statement of one family has the bytes of a statement of another.
   */
  lemma EncodeInjective(a: Statement, b: Statement)
    requires Encode(a) == Encode(b)
    ensures a == b
  {
    DecodeEncode(a);
    DecodeEncode(b);
  }

  // ----- the ids: digests of two of the layouts -----

  function SealIdOf(sha256: Bytes -> Bytes32, ctx: Bytes32, sequence: U64, poolEpoch: U32, count: U64, fFold: Bytes32)
    : Bytes32
  {
    sha256(Encode(SealId(ctx, sequence, poolEpoch, count, fFold)))
  }

  function SettlementIdOf(sha256: Bytes -> Bytes32, ctx: Bytes32, sequence: U64): Bytes32 {
    sha256(Encode(SettlementId(ctx, sequence)))
  }

  /** Equal ids of either family come from equal statements, or the two preimages collide. */
  lemma IdsBindOrCollide(sha256: Bytes -> Bytes32, a: Statement, b: Statement)
    requires sha256(Encode(a)) == sha256(Encode(b))
    ensures a == b || Collision(sha256, Encode(a), Encode(b))
  {
    if Encode(a) == Encode(b) {
      EncodeInjective(a, b);
    }
  }
}
