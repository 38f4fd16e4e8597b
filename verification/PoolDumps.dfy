/**
 What becomes of a real pool rejection: the debug dump of `MethodNotPermitted`, alone
 and behind a quote that is not hex.
 */
module PoolDumps {
  import opened Octets
  import opened Wrappers
  import opened Text
  import opened SelectorText
  import opened RevertText
  import Hex

  const OPENING := "MethodNotPermitted { to:"

  function SelectorDump(sel: Bytes): string
    requires |sel| == 4
  {
    Joined(HexByte(sel[0]), HexByte(sel[1]), HexByte(sel[2]), HexByte(sel[3]))
  }

  function AddressDump(to: Bytes20): string {
    " 0x" + Hex.Encode(to)
  }

  /** The rejection's derived debug form. */
  function Dump(to: Bytes20, sel: Bytes): string
    requires |sel| == 4
  {
    OPENING + AddressDump(to) + ", selector: [" + SelectorDump(sel) + "] }"
  }

  lemma {:induction false} EncodedChars(b: Bytes)
    ensures |Hex.Encode(b)| == 2 * |b| && Hex.AllDigits(Hex.Encode(b)) && Lower(Hex.Encode(b)) == Hex.Encode(b)
    ensures forall i :: 0 <= i < |Hex.Encode(b)| ==> LowerChar(Hex.Encode(b)[i]) == Hex.Encode(b)[i]
  {
    if b == [] {
    } else {
      EncodedChars(b[1..]);
      var two := [Hex.Digit(b[0] / 16), Hex.Digit(b[0] % 16)];
      assert Hex.Encode(b) == two + Hex.Encode(b[1..]);
    }
  }

  /** The address of the dump, read from any text that starts behind `to:`. */
  lemma AddressReads(to: Bytes20, rest: string)
    requires rest != "" && !Hex.IsDigit(LowerChar(rest[0]))
    ensures var lower := Lower(AddressDump(to) + rest);
            && Find(lower, "0x") == Some(1)
            && Run(lower, 1) == Hex.Encode(to) && Hex.Decode(Run(lower, 1)) == Some(to)
  {
    hide Hex.Encode, Hex.Decode, Find;
    var h := Hex.Encode(to);
    EncodedChars(to);
    Hex.DecodeEncode(to);
    var text := AddressDump(to) + rest;
    var lower := Lower(text);
    assert text[0] == ' ' && text[1] == '0' && text[2] == 'x';
    assert lower[1..3] == "0x";
    FindIs(lower, "0x", 1, 1);
    assert text[3..43] == h && text[43] == rest[0];
    assert forall j :: 3 <= j < 43 ==> lower[j] == LowerChar(h[j - 3]) == h[j - 3];
    RunEndIs(lower, 3, 43);
    assert lower[3..43] == h;
  }

  lemma OpeningChars()
    ensures |OPENING| == 24 && OPENING[21..24] == "to:" && OPENING[..18] == NOT_PERMITTED && OPENING[23] == ':'
    ensures ':' !in OPENING[..23] && 's' !in OPENING && '"' !in OPENING && 'x' !in OPENING && 'X' !in OPENING
  {
  }

  lemma DumpSelectorReads(to: Bytes20, sel: Bytes, post: string)
    requires |sel| == 4
    ensures SelectorAfter(Dump(to, sel) + post, "selector:") == Some(sel)
  {
    hide HexByte, SelectorAfter, Joined, Find;
    var front := OPENING + AddressDump(to) + ", ";
    var inner := SelectorDump(sel);
    OpeningChars();
    EncodedChars(to);
    var text := front + "selector:" + " " + "[" + inner + "]" + (" }" + post);
    assert text == Dump(to, sel) + post;
    assert 's' !in front;
    assert text[|front|..|front| + 9] == "selector:";
    FindIs(text, "selector:", |front|, 0);
    HexSelectorRoundTrip(front, " ", sel, " }" + post, "selector:");
  }

  lemma DumpAddressReads(to: Bytes20, sel: Bytes, post: string)
    requires |sel| == 4
    ensures ParseAddrAfter(Dump(to, sel) + post, "to:") == Some(to)
  {
    hide SelectorDump, Hex.Encode, Hex.Decode, Run, Lower, Find;
    OpeningChars();
    var text := Dump(to, sel) + post;
    var rest := ", selector: [" + SelectorDump(sel) + "] }" + post;
    assert text == OPENING + (AddressDump(to) + rest);
    assert text[..24] == OPENING;
    assert text[21..24] == text[..24][21..24];
    assert forall j :: 2 <= j < 23 ==> text[j] == OPENING[..23][j];
    FindIs(text, "to:", 21, 2);
    assert text[24..] == AddressDump(to) + rest;
    AddressReads(to, rest);
  }

  /** The first dump of a text parses to its address and selector, whatever frames it. */
  lemma DumpParses(pre: string, to: Bytes20, sel: Bytes, post: string)
    requires |sel| == 4 && Find(pre + Dump(to, sel) + post, NOT_PERMITTED) == Some(|pre|)
    ensures ParseMethodNotPermitted(pre + Dump(to, sel) + post) == Some(MethodNotPermitted(to, sel))
  {
    hide Dump, Find, SelectorAfter, ParseAddrAfter;
    assert (pre + Dump(to, sel) + post)[|pre|..] == Dump(to, sel) + post;
    DumpAddressReads(to, sel, post);
    DumpSelectorReads(to, sel, post);
  }

  /** The first dump of a text is classified as a rejection exactly behind quoted data that does not decode. */
  lemma FramedDump(abi: Abi, pre: string, to: Bytes20, sel: Bytes, post: string)
    requires |sel| == 4 && Find(pre + Dump(to, sel) + post, NOT_PERMITTED) == Some(|pre|)
    ensures IsMethodNotPermitted(Classify(abi, pre + Dump(to, sel) + post)) <==> BadQuotedData(pre + Dump(to, sel) + post)
  {
    hide Dump, Find, Classify, BadQuotedData, ParseMethodNotPermitted;
    DumpParses(pre, to, sel, post);
    RejectionRecognized(abi, pre + Dump(to, sel) + post);
  }

  lemma DumpOpens(to: Bytes20, sel: Bytes)
    requires |sel| == 4
    ensures |Dump(to, sel)| >= 18 && Dump(to, sel)[..18] == NOT_PERMITTED
  {
  }

  /**
   Which revert bytes those are: without quoted data, and with no x in front of the dump,
   the address it names is taken for them.
   */
  lemma DumpTakenForRevertBytes(abi: Abi, pre: string, to: Bytes20, sel: Bytes, post: string)
    requires |sel| == 4 && 'x' !in pre && 'X' !in pre && QuotedData(pre + Dump(to, sel) + post).None?
    ensures Classify(abi, pre + Dump(to, sel) + post) == DecodeFromBytes(abi, to)
    ensures !IsMethodNotPermitted(Classify(abi, pre + Dump(to, sel) + post))
  {
    hide Dump, Find, QuotedData, DecodeFromBytes, FirstCandidate, ParseMethodNotPermitted, Lower, Run;
    AddressIsFirstCandidate(pre, to, sel, post);
    RevertBytesAreNoRejection(abi, to);
  }

  lemma AddressIsFirstCandidate(pre: string, to: Bytes20, sel: Bytes, post: string)
    requires |sel| == 4 && 'x' !in pre && 'X' !in pre
    ensures var s := Lower(pre + Dump(to, sel) + post);
            FirstCandidate(s, 0).Some? && Hex.Decode(Run(s, FirstCandidate(s, 0).value)) == Some(to)
  {
    hide SelectorDump, AddressDump, Hex.Encode, Hex.Decode, Find, FirstCandidate, Lower, Run;
    var rest := ", selector: [" + SelectorDump(sel) + "] }" + post;
    var front := pre + OPENING;
    OpeningChars();
    assert pre + Dump(to, sel) + post == front + (AddressDump(to) + rest);
    AddressReads(to, rest);
    EncodedChars(to);
    AddressBehindFront(front, AddressDump(to) + rest, to);
  }

  lemma AddressBehindFront(front: string, behind: string, to: Bytes20)
    requires 'x' !in front && 'X' !in front && front != "" && front[|front| - 1] == ':'
    requires Find(Lower(behind), "0x") == Some(1) && |Run(Lower(behind), 1)| == 40
    requires Hex.Decode(Run(Lower(behind), 1)) == Some(to)
    ensures var s := Lower(front + behind);
            FirstCandidate(s, 0).Some? && Hex.Decode(Run(s, FirstCandidate(s, 0).value)) == Some(to)
  {
    hide Hex.Decode, Find, FirstCandidate, Run, Met, GoodRun, At, Lower;
    var text, cut := front + behind, |front|;
    var s := Lower(text);
    assert text[cut..] == behind && text[cut - 1] == ':';
    LowerBehind(text, cut);
    assert s[cut - 1] == ':';
    FirstBehind(s, cut, cut + 1);
    FirstAfterFenceIsMet(s, cut - 1, cut + 1);
    ShiftedRun(s, cut, 1);
    LongRunIsGood(s, cut + 1);
    NothingInFront(front, behind);
    FirstCandidateIs(s, cut + 1);
  }

  lemma NothingInFront(front: string, behind: string)
    requires 'x' !in front && 'X' !in front && front != "" && front[|front| - 1] == ':'
    requires Find(Lower(behind), "0x") == Some(1)
    ensures forall j :: 0 <= j < |front| + 1 ==> !Met(Lower(front + behind), j)
  {
    hide Find, At;
    var text, cut := front + behind, |front|;
    var s := Lower(text);
    assert text[cut..] == behind;
    LowerBehind(text, cut);
    FoundFits(Lower(behind), 1);
    forall j | 0 <= j < cut + 1 ensures !Met(s, j) {
      AtChar(s, "0x", j, 1);
      MetIsAt(s, j);
      if j + 1 < cut {
        assert text[j + 1] == front[j + 1];
      } else {
        FirstBehindOnly(s, cut, j);
      }
    }
  }

  lemma FirstBehindOnly(s: string, cut: nat, j: nat)
    requires 0 < cut <= j + 1 <= |s| && s[cut - 1] == ':' && Find(s[cut..], "0x") == Some(1) && j < cut + 1
    ensures !At(s, "0x", j)
  {
  }

  lemma FirstCandidateIs(s: string, p: nat)
    requires Candidate(s, p) && forall j :: 0 <= j < p ==> !Met(s, j)
    ensures FirstCandidate(s, 0) == Some(p)
  {
  }

  /** The typed rejection is reachable: behind a closed quote that is not hex, the dump is parsed. */
  lemma DumpBehindBadQuote(abi: Abi, to: Bytes20, sel: Bytes, post: string)
    requires |sel| == 4
    ensures Classify(abi, "data: \"0xz\" " + Dump(to, sel) + post) == MethodNotPermitted(to, sel)
  {
    hide Dump, Find, DecodeFromBytes, FirstCandidate, ParseMethodNotPermitted;
    var pre := "data: \"0xz\" ";
    var text := pre + Dump(to, sel) + post;
    DumpOpens(to, sel);
    assert text[12..30] == Dump(to, sel)[..18];
    assert text[..12] == pre;
    assert forall j :: 0 <= j < 12 ==> text[j] == pre[j];
    FindIs(text, NOT_PERMITTED, 12, 0);
    DumpParses(pre, to, sel, post);
    assert text[0..9] == text[..12][..9] == DATA_KEY;
    FindIs(text, DATA_KEY, 0, 0);
    var rest := text[9..];
    assert rest[0] == 'z' && rest[1] == '"';
    assert rest[1..2] == "\"";
    FindIs(rest, "\"", 1, 0);
    assert rest[..1] == "z";
    assert BadQuotedData(text);
    NotPermittedExactly(abi, text);
    assert ParseMethodNotPermitted(text).Some?;
    QuotedTextOnly(abi, text);
  }

  lemma QuotedTextOnly(abi: Abi, msg: string)
    requires Classify(abi, msg).MethodNotPermitted? && ParseMethodNotPermitted(msg).Some?
    ensures Classify(abi, msg) == ParseMethodNotPermitted(msg).value
  {
    hide DecodeFromBytes, RevertBytes, ParseMethodNotPermitted;
    if RevertBytes(msg).Some? {
      RevertBytesAreNoRejection(abi, RevertBytes(msg).value);
    }
  }
}
