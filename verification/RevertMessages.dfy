/** What the messages a chain really sends are decoded to: quoted revert data, bare data, rejections, the rest. */
module RevertMessages {
  import opened Octets
  import opened Wrappers
  import opened Text
  import opened RevertText
  import opened PoolDumps
  import Hex

  // ----- quoted data -----

  /** A message with quoted data, in the form the provider's errors are displayed. */
  function Quoted(pre: string, h: string, post: string): string {
    pre + "data: \"0x" + h + "\"" + post
  }

  /** The first quoted data of a text is what stands between its `0x` and its closing quote. */
  lemma QuotedReads(pre: string, h: string, post: string)
    requires Find(Quoted(pre, h, post), "data: \"0x") == Some(|pre|) && '"' !in h
    ensures QuotedData(Quoted(pre, h, post)) == Some(h)
  {
    hide Find;
    var text, rest := Quoted(pre, h, post), h + "\"" + post;
    assert text == pre + "data: \"0x" + rest;
    assert text[|pre| + 9..] == rest;
    assert rest[|h|..|h| + 1] == "\"";
    FindIs(rest, "\"", |h|, 0);
    assert rest[..|h|] == h;
  }

  /** Quoted data decides alone: it yields bytes exactly when it has pairs of hex digits and nothing else. */
  lemma QuotedDecidesAlone(pre: string, h: string, post: string)
    requires Find(Quoted(pre, h, post), "data: \"0x") == Some(|pre|) && '"' !in h
    ensures RevertBytes(Quoted(pre, h, post)).Some?
            <==> |h| % 2 == 0 && forall i :: 0 <= i < |h| ==> '0' <= h[i] <= '9' || 'a' <= h[i] <= 'f' || 'A' <= h[i] <= 'F'
  {
    hide Find, Quoted, QuotedData, Hex.Decode;
    QuotedReads(pre, h, post);
    Hex.DecodeAccepts(h);
  }

  /** Revert bytes quoted in a message are its revert bytes, and decide what it is classified as. */
  lemma QuotedRevert(abi: Abi, pre: string, b: Bytes, post: string)
    requires Find(Quoted(pre, Hex.Encode(b), post), "data: \"0x") == Some(|pre|)
    ensures RevertBytes(Quoted(pre, Hex.Encode(b), post)) == Some(b)
    ensures Classify(abi, Quoted(pre, Hex.Encode(b), post)) == DecodeFromBytes(abi, b)
  {
    hide Find, Quoted, QuotedData, Hex.Decode, DecodeFromBytes;
    EncodedChars(b);
    hide Hex.Encode;
    QuotedReads(pre, Hex.Encode(b), post);
    Hex.DecodeEncode(b);
  }

  /** The message `data: "0x82b42900"` has the four bytes it spells. */
  lemma QuotedExample(abi: Abi)
    ensures RevertBytes("data: \"0x82b42900\"") == Some([0x82, 0xb4, 0x29, 0x00])
    ensures Classify(abi, "data: \"0x82b42900\"") == DecodeFromBytes(abi, [0x82, 0xb4, 0x29, 0x00])
  {
    hide Find, QuotedData, DecodeFromBytes;
    var b: Bytes := [0x82, 0xb4, 0x29, 0x00];
    EightDigits();
    var text := Quoted("", "82b42900", "");
    assert text == "data: \"0x82b42900\"";
    assert text[0..9] == "data: \"0x";
    FindIs(text, "data: \"0x", 0, 0);
    QuotedRevert(abi, "", b, "");
  }

  lemma EightDigits()
    ensures Hex.Encode([0x82, 0xb4, 0x29, 0x00]) == "82b42900"
  {
    assert Hex.Encode([0x00]) == "00" + Hex.Encode([]);
    assert [0x29, 0x00][1..] == [0x00];
    assert Hex.Encode([0x29, 0x00]) == "29" + Hex.Encode([0x00]);
    assert [0xb4, 0x29, 0x00][1..] == [0x29, 0x00];
    assert Hex.Encode([0xb4, 0x29, 0x00]) == "b4" + Hex.Encode([0x29, 0x00]);
    assert [0x82, 0xb4, 0x29, 0x00][1..] == [0xb4, 0x29, 0x00];
    assert Hex.Encode([0x82, 0xb4, 0x29, 0x00]) == "82" + Hex.Encode([0xb4, 0x29, 0x00]);
  }

  // ----- bare data -----

  /** A digit has one value in either case. */
  lemma {:induction false} DecodeIgnoresCase(h: string)
    ensures Hex.Decode(Lower(h)) == Hex.Decode(h)
    decreases |h|
  {
    if |h| >= 2 {
      DecodeIgnoresCase(h[2..]);
      assert Lower(h)[2..] == Lower(h[2..]);
    }
  }

  /**
   Pairs of digits behind the first `0x` of a text, at least a selector of them and in either
   case, are its revert bytes.
   */
  lemma BareRevert(abi: Abi, pre: string, h: string, post: string)
    requires |h| >= 8 && |h| % 2 == 0 && Hex.AllDigits(h)
    requires 'x' !in pre && 'X' !in pre && (post != "" ==> !Hex.IsDigit(LowerChar(post[0])))
    requires QuotedData(pre + "0x" + h + post).None?
    ensures Hex.Decode(h).Some?
    ensures RevertBytes(pre + "0x" + h + post) == Hex.Decode(h)
    ensures Classify(abi, pre + "0x" + h + post) == DecodeFromBytes(abi, Hex.Decode(h).value)
  {
    hide Find, QuotedData, Hex.Decode, DecodeFromBytes, FirstCandidate, Lower, Run, Candidate;
    Hex.DecodeAccepts(h);
    DecodeIgnoresCase(h);
    BareIsFirstCandidate(pre, h, post);
  }

  /** Bytes rendered behind the first `0x` are read back. */
  lemma BareBytes(pre: string, b: Bytes, post: string, abi: Abi)
    requires |b| >= 4 && 'x' !in pre && 'X' !in pre && (post != "" ==> !Hex.IsDigit(LowerChar(post[0])))
    requires QuotedData(pre + "0x" + Hex.Encode(b) + post).None?
    ensures RevertBytes(pre + "0x" + Hex.Encode(b) + post) == Some(b)
  {
    hide Hex.Encode, Hex.Decode, QuotedData, RevertBytes, Classify;
    EncodedChars(b);
    Hex.DecodeEncode(b);
    BareRevert(abi, pre, Hex.Encode(b), post);
  }

  lemma BareIsFirstCandidate(pre: string, h: string, post: string)
    requires |h| >= 8 && |h| % 2 == 0 && Hex.AllDigits(h)
    requires 'x' !in pre && 'X' !in pre && (post != "" ==> !Hex.IsDigit(LowerChar(post[0])))
    ensures var s := Lower(pre + "0x" + h + post);
            FirstCandidate(s, 0) == Some(|pre|) && Run(s, |pre|) == Lower(h)
  {
    hide FirstCandidate, Met, Lower, LowerChar, Hex.AllDigits, Hex.IsDigit, At, RunEnd;
    var s := Lower(pre + "0x" + h + post);
    BareLowered(pre, h, post);
    NoXInFront(s, |pre|);
    FirstCandidateIs(s, |pre|);
  }

  lemma BareLowered(pre: string, h: string, post: string)
    requires Hex.AllDigits(h)
    requires 'x' !in pre && 'X' !in pre && (post != "" ==> !Hex.IsDigit(LowerChar(post[0])))
    ensures var s, p := Lower(pre + "0x" + h + post), |pre|;
            && |s| >= p + 2 + |h| && At(s, "0x", p) && s[p] == '0' && (forall j :: 0 <= j < p ==> s[j] != 'x')
            && RunEnd(s, p + 2) == p + 2 + |h| && s[p + 2..p + 2 + |h|] == Lower(h)
  {
    hide RunEnd, LowerChar, Hex.IsDigit, Lower;
    var a, b, c, p := Lower(pre), Lower(h), Lower(post), |pre|;
    LowersParts(pre, h, post);
    LowersDigits(pre, h, post);
    var s := a + "0x" + b + c;
    assert s[p..p + 2] == "0x";
    assert s[p + 2..p + 2 + |h|] == b;
    assert forall j :: p + 2 <= j < p + 2 + |h| ==> s[j] == b[j - p - 2];
    assert post != "" ==> s[p + 2 + |h|] == c[0];
    RunEndIs(s, p + 2, p + 2 + |h|);
  }

  lemma LowersParts(pre: string, h: string, post: string)
    ensures Lower(pre + "0x" + h + post) == Lower(pre) + "0x" + Lower(h) + Lower(post)
  {
    var text := pre + "0x" + h + post;
    assert text[|pre|] == '0' && text[|pre| + 1] == 'x';
  }

  lemma LowersDigits(pre: string, h: string, post: string)
    ensures Hex.AllDigits(h) ==> Hex.AllDigits(Lower(h))
    ensures 'x' !in pre && 'X' !in pre ==> 'x' !in Lower(pre)
    ensures post != "" ==> Lower(post)[0] == LowerChar(post[0])
  {
  }

  lemma NoXInFront(s: string, p: nat)
    requires At(s, "0x", p) && s[p] == '0' && forall j :: 0 <= j < p ==> s[j] != 'x'
    ensures Met(s, p) && forall j :: 0 <= j < p ==> !Met(s, j)
  {
    forall j | 0 <= j < p ensures !At(s, "0x", j) {
      AtChar(s, "0x", j, 1);
      AtChar(s, "0x", p, 0);
    }
    var b := BlockStart(s, p);
    assert b >= 2 ==> !At(s, "0x", b - 2);
  }

  // ----- what revert bytes decode to -----

  /** Fewer bytes than a selector are no error of the chain. */
  lemma ShortData(abi: Abi, data: Bytes)
    ensures |data| < 4 ==> DecodeFromBytes(abi, data) == Other(TooShort(|data|))
  {
  }

  /** The selectors tell every known error from every other. */
  ghost predicate DistinctSelectors(abi: Abi) {
    && (forall name :: abi.plain(name) !in [abi.notFound, abi.tier, abi.records, abi.alreadyRegistered, abi.notRegistered])
    && abi.notFound !in [abi.tier, abi.records, abi.alreadyRegistered, abi.notRegistered]
    && abi.tier !in [abi.records, abi.alreadyRegistered, abi.notRegistered]
    && abi.records !in [abi.alreadyRegistered, abi.notRegistered]
    && abi.alreadyRegistered != abi.notRegistered
  }

  lemma {:induction false} NotPlain(abi: Abi, selector: Bytes, names: seq<PlainError>)
    requires forall name :: abi.plain(name) != selector
    ensures FirstPlain(abi, selector, names).None?
  {
    if names != [] {
      NotPlain(abi, selector, names[1..]);
    }
  }

  /** Each error with arguments is recognized by its selector, with its arguments in their order. */
  lemma ArgumentsDecoded(abi: Abi, selector: Bytes, body: Bytes)
    requires |selector| == 4 && DistinctSelectors(abi)
    ensures selector == abi.notFound && abi.decodeNotFound(body).Some? ==>
              DecodeFromBytes(abi, selector + body) == NotFound(abi.decodeNotFound(body).value)
    ensures selector == abi.tier && abi.decodeTier(body).Some? ==>
              var n := abi.decodeTier(body).value;
              DecodeFromBytes(abi, selector + body) == AggregationTierUnavailable(if n < TWO_32 then n else TWO_32 - 1)
    ensures selector == abi.records && abi.decodeRecords(body).Some? ==>
              var t := abi.decodeRecords(body).value;
              DecodeFromBytes(abi, selector + body) == InvalidSpendingRecords(t.0, t.1, t.2, t.3)
    ensures selector == abi.alreadyRegistered && abi.decodeAlreadyRegistered(body).Some? ==>
              DecodeFromBytes(abi, selector + body) == AlreadyRegistered(abi.decodeAlreadyRegistered(body).value)
    ensures selector == abi.notRegistered && abi.decodeNotRegistered(body).Some? ==>
              DecodeFromBytes(abi, selector + body) == NotRegistered(abi.decodeNotRegistered(body).value)
  {
    var data := selector + body;
    assert data[..4] == selector && data[4..] == body;
    if forall name :: abi.plain(name) != selector {
      NotPlain(abi, selector, PLAIN_ORDER);
    }
  }

  /** Any other selector, and a known one whose body does not decode, keep the raw bytes. */
  lemma UnknownKept(abi: Abi, selector: Bytes, body: Bytes)
    requires |selector| == 4 && forall name :: abi.plain(name) != selector
    requires selector == abi.notFound ==> abi.decodeNotFound(body).None?
    requires selector == abi.tier ==> abi.decodeTier(body).None?
    requires selector == abi.records ==> abi.decodeRecords(body).None?
    requires selector == abi.alreadyRegistered ==> abi.decodeAlreadyRegistered(body).None?
    requires selector == abi.notRegistered ==> abi.decodeNotRegistered(body).None?
    ensures DecodeFromBytes(abi, selector + body) == Other(UnknownSelector(selector + body))
  {
    var data := selector + body;
    assert data[..4] == selector && data[4..] == body;
    NotPlain(abi, selector, PLAIN_ORDER);
  }

  // ----- messages without revert bytes -----

  /** Without revert bytes and without a dump, a message is a rejection exactly when it says so, and is kept whole. */
  lemma KeptWhole(abi: Abi, msg: string)
    requires RevertBytes(msg).None? && ParseMethodNotPermitted(msg).None?
    ensures Classify(abi, msg)
            == if Contains(msg, "PSO pool rejection") || Contains(msg, "MethodNotPermitted")
                  || Contains(msg, "BadVdfInputBinding") || Contains(msg, "magic-prefixed")
               then PoolRejection(msg) else Other(Message(msg))
    ensures IsMethodNotPermitted(Classify(abi, msg)) <==> exists i: nat :: At(msg, "MethodNotPermitted", i)
  {
    hide RevertBytes, ParseMethodNotPermitted, At;
  }
}
