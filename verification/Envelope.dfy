/** The `0x77` anti-spam envelope: its two encoders, its reader, and what a tampered byte range changes. */
module PowEnvelope {
  import opened Octets
  import opened Wrappers
  import opened Checklists

  const POW_ENVELOPE_TYPE: Byte := 0x77

  datatype Envelope = Envelope(nullifier: Bytes32, scheme: Byte, solution: Bytes, block: U64, inner: Bytes)

  function Encode(e: Envelope): Bytes {
    [POW_ENVELOPE_TYPE] + e.nullifier + [e.scheme] + Be(|e.solution| % TWO_32, 4) + e.solution + Be(e.block, 8) + e.inner
  }

  function Decode(m: Bytes): Option<Envelope> {
    if |m| < 38 || m[0] != POW_ENVELOPE_TYPE then None
    else
      var n := FromBe(m[34..38]);
      if |m| < 46 + n then None
      else
        Pow256Values();
        FromBeBound(m[38 + n..46 + n]);
        Some(Envelope(m[1..33], m[33], m[38..38 + n], FromBe(m[38 + n..46 + n]), m[46 + n..]))
  }

  lemma Layout(e: Envelope)
    ensures var m, n := Encode(e), |e.solution|;
            && |m| == 46 + n + |e.inner| && m[0] == POW_ENVELOPE_TYPE && m[1..33] == e.nullifier && m[33] == e.scheme
            && m[34..38] == Be(n % TWO_32, 4) && m[38..38 + n] == e.solution && m[38 + n..46 + n] == Be(e.block, 8)
            && m[46 + n..] == e.inner
  {
    var head := [POW_ENVELOPE_TYPE] + e.nullifier + [e.scheme] + Be(|e.solution| % TWO_32, 4);
    var m, n := Encode(e), |e.solution|;
    assert m == head + (e.solution + Be(e.block, 8) + e.inner);
    assert m[..38] == head;
    assert head[1..33] == e.nullifier && head[33] == e.scheme && head[34..38] == Be(n % TWO_32, 4);
    assert m[1..33] == m[..38][1..33] && m[34..38] == m[..38][34..38];
    var tail := e.solution + Be(e.block, 8) + e.inner;
    assert m[38..] == tail;
    assert tail[..n] == e.solution && tail[n..n + 8] == Be(e.block, 8) && tail[n + 8..] == e.inner;
    assert m[38..38 + n] == m[38..][..n] && m[38 + n..46 + n] == m[38..][n..n + 8] && m[46 + n..] == m[38..][n + 8..];
  }

  /** An envelope reads back exactly when its four-byte prefix can state the solution's width. */
  lemma DecodeEncode(e: Envelope)
    ensures Decode(Encode(e)) == Some(e) <==> |e.solution| < TWO_32
  {
    hide Encode, Be, FromBe, Pow256;
    Layout(e);
    Pow256Values();
    BeRoundTrip(|e.solution| % TWO_32, 4);
    BeRoundTrip(e.block, 8);
  }

  // ----- the two encoders -----

  /**
   What both encoders build on: the derivation of the solver's input from signer, nonce,
   block and chain, and the anti-spam scheme's tag, width and solver.
   */
  datatype Scheme = Scheme(tag: Byte, solutionLen: nat, derive: (Bytes20, U64, U64, U64) -> Bytes32,
                           solve: (Bytes32, U64) -> Option<Bytes>)
  {
    function Solve(s: Submission, difficulty: U64): Option<Bytes> {
      solve(derive(s.signer, s.nonce, s.block, s.chainId), difficulty)
    }
  }

  /** Whose transaction is submitted, and where and when. */
  datatype Submission = Submission(signer: Bytes20, nonce: U64, block: U64, chainId: U64)

  /** The solution is the scheme's for exactly this submission, or all zero in its width if there is none. */
  ghost predicate Solves(scheme: Scheme, signer: Bytes20, nonce: U64, block: U64, chainId: U64, difficulty: U64,
                         solution: Bytes)
  {
    match scheme.solve(scheme.derive(signer, nonce, block, chainId), difficulty)
    case Some(found) => solution == found
    case None => |solution| == scheme.solutionLen && forall i :: 0 <= i < |solution| ==> solution[i] == 0
  }

  /** The suite's encoder: an unsolvable scheme is sent with an all-zero solution. */
  method BuildSuiteEnvelope(scheme: Scheme, nullifier: Bytes32, s: Submission, difficulty: U64, inner: Bytes)
    returns (r: Option<Bytes>)
    ensures r.None? <==> difficulty == 0
    ensures r.Some? ==>
              var e := Envelope(nullifier, scheme.tag, Solution(scheme, s, difficulty), s.block, inner);
              && r.value == Encode(e) && (Decode(r.value) == Some(e) <==> |e.solution| < TWO_32)
              && Solves(scheme, s.signer, s.nonce, s.block, s.chainId, difficulty, e.solution)
  {
    if difficulty == 0 {
      return None;
    }
    var input := scheme.derive(s.signer, s.nonce, s.block, s.chainId);
    var solved := scheme.solve(input, difficulty);
    var solution := if solved.Some? then solved.value else seq(scheme.solutionLen, _ => 0);
    var out := [POW_ENVELOPE_TYPE];
    out := out + nullifier;
    out := out + [scheme.tag];
    out := out + Be(|solution| % TWO_32, 4);
    out := out + solution;
    out := out + Be(s.block, 8);
    out := out + inner;
    DecodeEncode(Envelope(nullifier, scheme.tag, solution, s.block, inner));
    return Some(out);
  }

  function Solution(scheme: Scheme, s: Submission, difficulty: U64): Bytes {
    if scheme.Solve(s, difficulty).Some? then scheme.Solve(s, difficulty).value
    else seq(scheme.solutionLen, _ => 0)
  }

  datatype WalletError = EmptyInner | SignerWidth(got: nat) | ShortSeed(got: nat) | ZeroDifficulty | Unsolvable

  /** The wallet's refusals, in their order. */
  function WalletChecks(scheme: Scheme, seed: Bytes, signer: Bytes, nonce: U64, block: U64, chainId: U64,
                        difficulty: U64, inner: Bytes): (r: seq<Check<WalletError>>)
    ensures |r| == 5
  {
    [Check(inner != [], EmptyInner), Check(|signer| == 20, SignerWidth(|signer|)),
     Check(|seed| >= 32, ShortSeed(|seed|)), Check(difficulty != 0, ZeroDifficulty),
     Check(|signer| == 20 && scheme.Solve(Submission(signer, nonce, block, chainId), difficulty).Some?, Unsolvable)]
  }

  /**
   The wallet's encoder draws the nullifier from its seed, and refuses what the suite's
   sends: an empty transaction, and an unsolvable scheme.
   */
  method BuildWalletEnvelope(scheme: Scheme, nullifierOf: Bytes -> Bytes32, seed: Bytes, signer: Bytes, nonce: U64,
                             block: U64, chainId: U64, difficulty: U64, inner: Bytes)
    returns (r: Result<Bytes, WalletError>)
    ensures r.Success? <==> && inner != [] && |signer| == 20 && |seed| >= 32 && difficulty != 0
                            && scheme.Solve(Submission(signer, nonce, block, chainId), difficulty).Some?
    ensures r.Failure? ==>
              FailsWith(WalletChecks(scheme, seed, signer, nonce, block, chainId, difficulty, inner), r.error)
    ensures r.Success? ==>
              var s := Submission(signer, nonce, block, chainId);
              var e := Envelope(nullifierOf(seed), scheme.tag, Solution(scheme, s, difficulty), block, inner);
              && r.value == Encode(e) && (Decode(r.value) == Some(e) <==> |e.solution| < TWO_32)
              && Solves(scheme, signer, nonce, block, chainId, difficulty, e.solution)
  {
    hide Encode, Decode, Be;
    ghost var list := WalletChecks(scheme, seed, signer, nonce, block, chainId, difficulty, inner);
    if inner == [] {
      assert FailsAt(list, 0);
      return Failure(EmptyInner);
    }
    if |signer| != 20 {
      assert FailsAt(list, 1);
      return Failure(SignerWidth(|signer|));
    }
    if |seed| < 32 {
      assert FailsAt(list, 2);
      return Failure(ShortSeed(|seed|));
    }
    var nullifier := nullifierOf(seed);
    var input := scheme.derive(signer, nonce, block, chainId);
    if difficulty == 0 {
      assert FailsAt(list, 3);
      return Failure(ZeroDifficulty);
    }
    var solved := scheme.solve(input, difficulty);
    if solved.None? {
      assert FailsAt(list, 4);
      return Failure(Unsolvable);
    }
    var out := Assemble(Envelope(nullifier, scheme.tag, solved.value, block, inner));
    return Success(out);
  }

  /** The wallet's pushes, field after field. */
  method Assemble(e: Envelope) returns (out: Bytes)
    ensures out == Encode(e) && (Decode(out) == Some(e) <==> |e.solution| < TWO_32)
  {
    out := [0x77];
    out := out + e.nullifier;
    out := out + [e.scheme];
    out := out + Be(|e.solution| % TWO_32, 4);
    out := out + e.solution;
    out := out + Be(e.block, 8);
    out := out + e.inner;
    DecodeEncode(e);
  }

  // ----- byte ranges of a hashcash envelope -----

  function Overwrite(m: Bytes, from: nat, bytes: Bytes): Bytes
    requires from + |bytes| <= |m|
  {
    m[..from] + bytes + m[from + |bytes|..]
  }

  /**
   With an 8-byte solution the four published ranges are lenses: writing one changes
   exactly its own field of what is decoded.
   */
  lemma RangesAreLenses(e: Envelope, nullifier: Bytes32, scheme: Byte, solution: Bytes, block: Bytes)
    requires |e.solution| == 8 && |solution| == 8 && |block| == 8
    ensures |Encode(e)| == 54 + |e.inner|
    ensures Decode(Overwrite(Encode(e), 1, nullifier)) == Some(e.(nullifier := nullifier))
    ensures Decode(Overwrite(Encode(e), 33, [scheme])) == Some(e.(scheme := scheme))
    ensures Decode(Overwrite(Encode(e), 38, solution)) == Some(e.(solution := solution))
    ensures FromBe(block) < TWO_64 && Decode(Overwrite(Encode(e), 46, block)) == Some(e.(block := FromBe(block)))
  {
    Layout(e);
    Pow256Values();
    FromBeBound(block);
    BeOfFromBe(block);
    hide Decode;
    WriteNullifier(e, nullifier);
    DecodeEncode(e.(nullifier := nullifier));
    WriteScheme(e, scheme);
    DecodeEncode(e.(scheme := scheme));
    WriteSolution(e, solution);
    DecodeEncode(e.(solution := solution));
    WriteBlock(e, FromBe(block));
    DecodeEncode(e.(block := FromBe(block)));
  }

  lemma WriteNullifier(e: Envelope, nullifier: Bytes32)
    ensures |Encode(e)| >= 33 && Overwrite(Encode(e), 1, nullifier) == Encode(e.(nullifier := nullifier))
  {
  }

  lemma WriteScheme(e: Envelope, scheme: Byte)
    ensures |Encode(e)| >= 34 && Overwrite(Encode(e), 33, [scheme]) == Encode(e.(scheme := scheme))
  {
  }

  lemma WriteSolution(e: Envelope, solution: Bytes)
    requires |e.solution| == 8 && |solution| == 8
    ensures |Encode(e)| >= 46 && Overwrite(Encode(e), 38, solution) == Encode(e.(solution := solution))
  {
  }

  lemma WriteBlock(e: Envelope, block: U64)
    requires |e.solution| == 8
    ensures |Encode(e)| >= 54 && Overwrite(Encode(e), 46, Be(block, 8)) == Encode(e.(block := block))
  {
  }
}
