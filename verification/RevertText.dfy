/**
 Classifying the text of a refused transaction: revert bytes found in it, or a pool
 rejection parsed out of it, and which of the two wins.
 */
module RevertText {
  import opened Octets
  import opened Wrappers
  import opened Text
  import Hex
  import opened SelectorText

  // ----- errors -----

  datatype PlainError =
    | AttesterNotActive | AlreadyExists | InvalidTokenId | EmptyArray | MalformedAggregationProof
    | InvalidAggregationProof | NotSameWorldwideDay | NotSameCurrency | InvalidAmount | NoSpendingRecords
    | TooManySpendingRecords | NotAdmin | ZeroAddress | InvalidMask

  /** The selectors of the argument-free errors, in the order they are tried. */
  const PLAIN_ORDER: seq<PlainError> := [
    AttesterNotActive, AlreadyExists, InvalidTokenId, EmptyArray, MalformedAggregationProof, InvalidAggregationProof,
    NotSameWorldwideDay, NotSameCurrency, InvalidAmount, NoSpendingRecords, TooManySpendingRecords, NotAdmin,
    ZeroAddress, InvalidMask]

  datatype OtherText = Message(msg: string) | TooShort(got: nat) | UnknownSelector(data: Bytes)

  datatype PsoError =
    | Plain(name: PlainError)
    | NotFound(id: nat)
    | AggregationTierUnavailable(tier: U32)
    | InvalidSpendingRecords(badSrs: seq<nat>, badArs: seq<nat>, duplicateSrs: seq<nat>, duplicateArs: seq<nat>)
    | AlreadyRegistered(attester: Bytes20)
    | NotRegistered(attester: Bytes20)
    | PoolRejection(reason: string)
    | MethodNotPermitted(to: Bytes20, selector: Bytes)
    | Other(why: OtherText)

  /** The generated contract bindings: selectors, and decoders of the five errors with arguments. */
  datatype Abi = Abi(
    plain: PlainError -> Bytes,
    notFound: Bytes, tier: Bytes, records: Bytes, alreadyRegistered: Bytes, notRegistered: Bytes,
    decodeNotFound: Bytes -> Option<nat>,
    decodeTier: Bytes -> Option<nat>,
    decodeRecords: Bytes -> Option<(seq<nat>, seq<nat>, seq<nat>, seq<nat>)>,
    decodeAlreadyRegistered: Bytes -> Option<Bytes20>,
    decodeNotRegistered: Bytes -> Option<Bytes20>)

  function FirstPlain(abi: Abi, selector: Bytes, names: seq<PlainError>): Option<PlainError> {
    if names == [] then None
    else if selector == abi.plain(names[0]) then Some(names[0])
    else FirstPlain(abi, selector, names[1..])
  }

  /** Tries every known selector; a body that does not decode falls through to the next. */
  function DecodeFromBytes(abi: Abi, data: Bytes): PsoError {
    if |data| < 4 then Other(TooShort(|data|))
    else
      var selector, body := data[..4], data[4..];
      var name := FirstPlain(abi, selector, PLAIN_ORDER);
      if name.Some? then Plain(name.value)
      else if selector == abi.notFound && abi.decodeNotFound(body).Some? then NotFound(abi.decodeNotFound(body).value)
      else if selector == abi.tier && abi.decodeTier(body).Some? then
        var n := abi.decodeTier(body).value;
        AggregationTierUnavailable(if n < TWO_32 then n else TWO_32 - 1)
      else if selector == abi.records && abi.decodeRecords(body).Some? then
        var (a, b, c, d) := abi.decodeRecords(body).value;
        InvalidSpendingRecords(a, b, c, d)
      else if selector == abi.alreadyRegistered && abi.decodeAlreadyRegistered(body).Some? then
        AlreadyRegistered(abi.decodeAlreadyRegistered(body).value)
      else if selector == abi.notRegistered && abi.decodeNotRegistered(body).Some? then
        NotRegistered(abi.decodeNotRegistered(body).value)
      else Other(UnknownSelector(data))
  }

  /** Did the chain refuse the transaction with any `MethodNotPermitted` flavour? */
  predicate IsMethodNotPermitted(e: PsoError) {
    match e
    case MethodNotPermitted(_, _) => true
    case PoolRejection(reason) => Contains(reason, NOT_PERMITTED)
    case _ => false
  }

  lemma RevertBytesAreNoRejection(abi: Abi, data: Bytes)
    ensures !IsMethodNotPermitted(DecodeFromBytes(abi, data))
  {
  }

  lemma {:induction false} FirstPlainFinds(abi: Abi, names: seq<PlainError>, k: nat)
    requires k < |names| && forall j :: 0 <= j < k ==> abi.plain(names[j]) != abi.plain(names[k])
    ensures FirstPlain(abi, abi.plain(names[k]), names) == Some(names[k])
  {
    if k > 0 {
      assert forall j :: 0 <= j < k - 1 ==> names[1..][j] == names[j + 1];
      FirstPlainFinds(abi, names[1..], k - 1);
    }
  }

  /** Every argument-free error stands at one place of the order. */
  lemma PlaceOf(name: PlainError) returns (k: nat)
    ensures k < |PLAIN_ORDER| && PLAIN_ORDER[k] == name && forall j :: 0 <= j < k ==> PLAIN_ORDER[j] != name
  {
    match name
    case AttesterNotActive => k := 0;
    case AlreadyExists => k := 1;
    case InvalidTokenId => k := 2;
    case EmptyArray => k := 3;
    case MalformedAggregationProof => k := 4;
    case InvalidAggregationProof => k := 5;
    case NotSameWorldwideDay => k := 6;
    case NotSameCurrency => k := 7;
    case InvalidAmount => k := 8;
    case NoSpendingRecords => k := 9;
    case TooManySpendingRecords => k := 10;
    case NotAdmin => k := 11;
    case ZeroAddress => k := 12;
    case InvalidMask => k := 13;
  }

  /** With distinct selectors every argument-free error is recognized, whatever follows its selector. */
  lemma PlainErrorsRecognized(abi: Abi, name: PlainError, body: Bytes)
    requires |abi.plain(name)| == 4
    requires forall a, b :: abi.plain(a) == abi.plain(b) ==> a == b
    ensures DecodeFromBytes(abi, abi.plain(name) + body) == Plain(name)
  {
    var k := PlaceOf(name);
    FirstPlainFinds(abi, PLAIN_ORDER, k);
    var data := abi.plain(name) + body;
    assert data[..4] == abi.plain(name);
  }

  // ----- revert bytes inside a message -----

  const DATA_KEY := "data: \"0x"

  /** What stands between `data: "0x` and the next quote, when the quote is closed. */
  function QuotedData(msg: string): Option<string> {
    match Find(msg, DATA_KEY)
    case None => None
    case Some(k) =>
      var rest := msg[k + |DATA_KEY|..];
      match Find(rest, "\"")
      case None => None
      case Some(end) => Some(rest[..end])
  }

  /** The start of the block of hex digits around `p`. */
  function BlockStart(s: string, p: nat): (b: nat)
    requires p < |s| && Hex.IsDigit(s[p])
    ensures b <= p && (forall j :: b <= j <= p ==> Hex.IsDigit(s[j])) && (b > 0 ==> !Hex.IsDigit(s[b - 1]))
  {
    if p > 0 && Hex.IsDigit(s[p - 1]) then BlockStart(s, p - 1) else p
  }

  /**
   A left-to-right, non-overlapping walk over the `0x` of a text meets the one at `p`,
   unless its `0` ended the run of digits behind a `0x` that was met before.
   */
  predicate Met(s: string, p: nat)
    decreases p
  {
    At(s, "0x", p) && s[p] == '0' &&
    var b := BlockStart(s, p);
    !(b >= 2 && Met(s, b - 2))
  }

  /** The run behind the `0x` at `p` is at least one selector long and pairs up. */
  predicate GoodRun(s: string, p: nat)
    requires p + 2 <= |s|
  {
    var n := RunEnd(s, p + 2) - (p + 2);
    n >= 8 && n % 2 == 0
  }

  predicate Candidate(s: string, p: nat) {
    Met(s, p) && GoodRun(s, p)
  }

  /** The first candidate at or after `p`. */
  function FirstCandidate(s: string, p: nat): (r: Option<nat>)
    requires p <= |s|
    ensures r.Some? ==> p <= r.value && Candidate(s, r.value) && forall j :: p <= j < r.value ==> !Candidate(s, j)
    ensures r.None? ==> forall j :: p <= j ==> !Candidate(s, j)
    decreases |s| - p
  {
    if Candidate(s, p) then Some(p) else if p == |s| then None else FirstCandidate(s, p + 1)
  }

  function Run(s: string, p: nat): string
    requires p + 2 <= |s|
  {
    s[p + 2..RunEnd(s, p + 2)]
  }

  /** The bytes of the quoted data if there is any, otherwise of the first candidate run. */
  function RevertBytes(msg: string): Option<Bytes> {
    if QuotedData(msg).Some? then Hex.Decode(QuotedData(msg).value)
    else
      var s := Lower(msg);
      match FirstCandidate(s, 0)
      case None => None
      case Some(p) => Hex.Decode(Run(s, p))
  }

  /** Quoted data first; the bare scan only when there is none. */
  method ExtractRevertBytes(msg: string) returns (r: Option<Bytes>)
    ensures r == RevertBytes(msg)
    ensures QuotedData(msg).None? && r.Some? ==> |r.value| >= 4
  {
    var key := Find(msg, DATA_KEY);
    if key.Some? {
      var rest := msg[key.value + |DATA_KEY|..];
      var end := Find(rest, "\"");
      if end.Some? {
        return Hex.Decode(rest[..end.value]);
      }
    }
    r := ScanBareHex(Lower(msg));
  }

  /** The cursor loop: it jumps behind each run it has looked at. */
  method ScanBareHex(lower: string) returns (r: Option<Bytes>)
    ensures FirstCandidate(lower, 0).None? ==> r == None
    ensures FirstCandidate(lower, 0).Some? ==> r == Hex.Decode(Run(lower, FirstCandidate(lower, 0).value))
    ensures r.Some? ==> |r.value| >= 4
  {
    hide *;
    ghost var cursor := 0;
    var search := lower;
    var found := Find(search, "0x");
    ScannedNothing(lower);
    while found.Some?
      invariant 0 <= cursor <= |lower| && search == lower[cursor..] && found == Find(search, "0x")
      invariant Scanned(lower, cursor)
      decreases |search|
    {
      LookAtRun(lower, cursor, found.value);
      var rest := search[found.value + 2..];
      var end := RunEnd(rest, 0);
      if end >= 8 {
        var bytes := Hex.Decode(rest[..end]);
        if bytes.Some? {
          return bytes;
        }
      }
      cursor := cursor + found.value + 2 + end;
      search := rest[end..];
      found := Find(search, "0x");
    }
    NothingLeft(lower, cursor);
    return None;
  }

  /**
   One turn of the loop. The `0x` found `n` characters behind the cursor is met; either its
   run is the first candidate of the text, or everything up to the end of it is scanned.
   */
  lemma LookAtRun(s: string, cursor: nat, n: nat)
    requires cursor <= |s| && Scanned(s, cursor) && Find(s[cursor..], "0x") == Some(n)
    ensures n + 2 <= |s| - cursor
    ensures var rest := s[cursor..][n + 2..];
            var end := RunEnd(rest, 0);
            var next := cursor + n + 2 + end;
            && next <= |s| && rest[end..] == s[next..]
            && if end >= 8 && Hex.Decode(rest[..end]).Some? then
                 FirstCandidate(s, 0) == Some(cursor + n) && rest[..end] == Run(s, cursor + n)
                 && |Hex.Decode(rest[..end]).value| >= 4
               else Scanned(s, next)
  {
    hide *;
    var q := cursor + n;
    FoundFits(s[cursor..], n);
    RunBehind(s, cursor, n);
    FoundIsMet(s, cursor, q);
    if GoodRun(s, q) {
      FirstIs(s, cursor, q);
    } else {
      StepOver(s, cursor, q);
    }
  }

  /** The run the loop reads off what is left is the run of the text. */
  lemma RunBehind(s: string, cursor: nat, n: nat)
    requires cursor + n + 2 <= |s|
    ensures var q := cursor + n;
            var rest := s[cursor..][n + 2..];
            var end := RunEnd(rest, 0);
            && RunEnd(s, q + 2) == q + 2 + end <= |s| && rest[end..] == s[q + 2 + end..] && rest[..end] == Run(s, q)
            && (GoodRun(s, q) <==> end >= 8 && Hex.Decode(rest[..end]).Some?)
            && (GoodRun(s, q) ==> |Hex.Decode(rest[..end]).value| >= 4)
  {
    hide Hex.Decode, RunEnd, GoodRun;
    var q := cursor + n;
    var rest := s[cursor..][n + 2..];
    assert rest == s[q + 2..];
    RunShifts(s, q + 2);
    RunVerdict(s, q, RunEnd(rest, 0));
  }

  /** A run is good exactly when it is long enough and decodes. */
  lemma RunVerdict(s: string, q: nat, n: nat)
    requires q + 2 <= |s| && RunEnd(s, q + 2) == q + 2 + n
    ensures Run(s, q) == s[q + 2..q + 2 + n]
    ensures GoodRun(s, q) <==> n >= 8 && Hex.Decode(Run(s, q)).Some?
    ensures n >= 8 && Hex.Decode(Run(s, q)).Some? ==> |Hex.Decode(Run(s, q)).value| >= 4
  {
    var run := Run(s, q);
    assert forall i :: 0 <= i < |run| ==> run[i] == s[q + 2 + i];
    Hex.DecodeAccepts(run);
  }

  lemma ScannedNothing(s: string)
    ensures Scanned(s, 0)
  {
  }

  /** Everything met before the cursor was no candidate, and its run ended before the cursor. */
  ghost predicate Scanned(s: string, cursor: nat)
    requires cursor <= |s|
  {
    forall p :: 0 <= p < cursor && Met(s, p) ==> !GoodRun(s, p) && RunEnd(s, p + 2) <= cursor
  }

  lemma FoundFits(s: string, k: nat)
    requires Find(s, "0x") == Some(k)
    ensures k + 2 <= |s|
  {
  }

  lemma FirstIs(s: string, cursor: nat, q: nat)
    requires cursor <= q && q + 2 <= |s| && Find(s[cursor..], "0x") == Some(q - cursor)
    requires Scanned(s, cursor) && Met(s, q) && GoodRun(s, q)
    ensures FirstCandidate(s, 0) == Some(q)
  {
    hide Met, GoodRun, RunEnd, At;
    NothingBetween(s, cursor, q);
    assert Candidate(s, q);
    assert forall j :: 0 <= j < q ==> !Candidate(s, j);
  }

  lemma StepOver(s: string, cursor: nat, q: nat)
    requires cursor <= q && q + 2 <= |s| && Find(s[cursor..], "0x") == Some(q - cursor)
    requires Scanned(s, cursor) && Met(s, q) && s[q + 1] == 'x' && !GoodRun(s, q)
    ensures Scanned(s, RunEnd(s, q + 2))
  {
    hide Met;
    NothingBetween(s, cursor, q);
    InsideRunNotMet(s, q);
  }

  lemma {:induction false} RunShifts(s: string, i: nat)
    requires i <= |s|
    ensures RunEnd(s[i..], 0) + i == RunEnd(s, i)
  {
  }

  lemma NothingBetween(s: string, cursor: nat, q: nat)
    requires cursor <= q && q + 2 <= |s| && Find(s[cursor..], "0x") == Some(q - cursor)
    ensures forall p :: cursor <= p < q ==> !Met(s, p)
  {
    forall p | cursor <= p < q ensures !Met(s, p) {
      AtBehind(s, cursor, "0x", p - cursor);
    }
  }

  lemma NothingLeft(s: string, cursor: nat)
    requires cursor <= |s| && Find(s[cursor..], "0x").None?
    requires Scanned(s, cursor)
    ensures FirstCandidate(s, 0).None?
  {
    hide Met, GoodRun, RunEnd, Find, At;
    forall p: nat | cursor <= p ensures !Met(s, p) {
      AtBehind(s, cursor, "0x", p - cursor);
      MetIsAt(s, p);
    }
    assert forall p: nat :: !Candidate(s, p);
  }

  lemma MetIsAt(s: string, j: nat)
    ensures Met(s, j) ==> At(s, "0x", j)
  {
  }

  /** The `0x` the cursor finds is met: had its `0` ended an earlier run, the cursor would be behind it. */
  lemma FoundIsMet(s: string, cursor: nat, q: nat)
    requires cursor <= q && q + 2 <= |s| && Find(s[cursor..], "0x") == Some(q - cursor)
    requires Scanned(s, cursor)
    ensures At(s, "0x", q) && s[q] == '0' && s[q + 1] == 'x' && Met(s, q)
  {
    hide At, Find, Scanned, RunEnd;
    AtBehind(s, cursor, "0x", q - cursor);
    AtChar(s, "0x", q, 0);
    AtChar(s, "0x", q, 1);
    NoRunEndsHere(s, cursor, q, BlockStart(s, q));
  }

  lemma NoRunEndsHere(s: string, cursor: nat, q: nat, b: nat)
    requires cursor <= q && q + 2 <= |s| && Find(s[cursor..], "0x") == Some(q - cursor)
    requires Scanned(s, cursor) && s[q + 1] == 'x'
    requires b <= q && forall j :: b <= j <= q ==> Hex.IsDigit(s[j])
    ensures b >= 2 ==> !Met(s, b - 2)
  {
    hide Met, GoodRun, Find, At;
    NothingBetween(s, cursor, q);
    RunEndIs(s, b, q + 1);
  }

  lemma InsideRunNotMet(s: string, q: nat)
    requires q + 2 <= |s| && Met(s, q) && s[q + 1] == 'x'
    ensures forall p :: q < p < RunEnd(s, q + 2) ==> !Met(s, p)
  {
  }

  // ----- pool rejections -----

  const NOT_PERMITTED := "MethodNotPermitted"

  function ParseAddrAfter(s: string, key: string): Option<Bytes20> {
    match Find(s, key)
    case None => None
    case Some(i) =>
      var lower := Lower(s[i + |key|..]);
      match Find(lower, "0x")
      case None => None
      case Some(k) =>
        var bytes := Hex.Decode(Run(lower, k));
        if bytes.None? || |bytes.value| != 20 then None else Some(bytes.value)
  }

  function ParseMethodNotPermitted(msg: string): Option<PsoError> {
    match Find(msg, NOT_PERMITTED)
    case None => None
    case Some(i) =>
      var tail := msg[i..];
      var to := ParseAddrAfter(tail, "to:");
      var selector := SelectorAfter(tail, "selector:");
      if to.Some? && selector.Some? then Some(MethodNotPermitted(to.value, selector.value)) else None
  }

  function Classify(abi: Abi, msg: string): PsoError {
    if RevertBytes(msg).Some? then DecodeFromBytes(abi, RevertBytes(msg).value)
    else if Contains(msg, "PSO pool rejection") || Contains(msg, NOT_PERMITTED) || Contains(msg, "BadVdfInputBinding")
            || Contains(msg, "magic-prefixed") then
      var parsed := ParseMethodNotPermitted(msg);
      if parsed.Some? then parsed.value else PoolRejection(msg)
    else Other(Message(msg))
  }

  method DecodeText(abi: Abi, msg: string) returns (e: PsoError)
    ensures e == Classify(abi, msg)
    ensures e.MethodNotPermitted? ==> BadQuotedData(msg)
  {
    NotPermittedExactly(abi, msg);
    var bytes := ExtractRevertBytes(msg);
    if bytes.Some? {
      return DecodeFromBytes(abi, bytes.value);
    }
    if Contains(msg, "PSO pool rejection") || Contains(msg, NOT_PERMITTED) || Contains(msg, "BadVdfInputBinding")
       || Contains(msg, "magic-prefixed") {
      var parsed := ParseMethodNotPermitted(msg);
      if parsed.Some? {
        return parsed.value;
      }
      return PoolRejection(msg);
    }
    return Other(Message(msg));
  }

  // ----- which of the two wins -----

  /** The message has a quote-closed `data: "0x..."` whose contents are not hex. */
  predicate BadQuotedData(msg: string) {
    QuotedData(msg).Some? && Hex.Decode(QuotedData(msg).value).None?
  }

  /** In a lowered text, the first `0x` behind a character no `0x` run can span is met. */
  lemma FirstAfterFenceIsMet(s: string, fence: nat, p: nat)
    requires fence < p && p + 2 <= |s| && !Hex.IsDigit(s[fence]) && s[fence] != 'x'
    requires At(s, "0x", p) && forall j :: fence < j < p ==> !At(s, "0x", j)
    ensures s[p] == '0' && Met(s, p)
  {
    hide At;
    AtChar(s, "0x", p, 0);
    var b := BlockStart(s, p);
    if b >= 2 {
      AtChar(s, "0x", b - 2, 0);
      AtChar(s, "0x", b - 2, 1);
      FenceBlocks(s, fence, b, p);
    }
  }

  lemma FenceBlocks(s: string, fence: nat, b: nat, p: nat)
    requires fence < p < |s| && !Hex.IsDigit(s[fence]) && s[fence] != 'x'
    requires 2 <= b <= p && forall j :: b <= j <= p ==> Hex.IsDigit(s[j])
    requires At(s, "0x", b - 2) ==> s[b - 2] == '0' && s[b - 1] == 'x'
    ensures At(s, "0x", b - 2) ==> fence < b - 2
  {
  }

  /** An address that parses is a run the bare scan meets, or meets another good run before. */
  lemma ParsedAddressIsCandidate(msg: string)
    requires ParseMethodNotPermitted(msg).Some?
    ensures FirstCandidate(Lower(msg), 0).Some?
  {
    hide SelectorAfter, Met, GoodRun, Candidate, Hex.Decode, RunEnd, Find, FirstCandidate, Lower;
    var i := Find(msg, NOT_PERMITTED).value;
    var tail := msg[i..];
    var k := Find(tail, "to:").value;
    AtChar(tail, "to:", k, 2);
    assert msg[i + k + 2] == ':';
    assert tail[k + 3..] == msg[i + k + 3..];
    AddressBehind(msg, i + k + 3);
  }

  lemma AddressBehind(msg: string, start: nat)
    requires 0 < start <= |msg| && msg[start - 1] == ':'
    requires var lower := Lower(msg[start..]);
             Find(lower, "0x").Some? && Hex.Decode(Run(lower, Find(lower, "0x").value)).Some?
             && |Hex.Decode(Run(lower, Find(lower, "0x").value)).value| == 20
    ensures FirstCandidate(Lower(msg), 0).Some?
  {
    hide Met, Hex.Decode, RunEnd, At, Find, FirstCandidate, Lower, Run;
    var s := Lower(msg);
    LowerBehind(msg, start);
    assert s[start - 1] == ':';
    var n := Find(s[start..], "0x").value;
    var p := start + n;
    FirstBehind(s, start, p);
    FirstAfterFenceIsMet(s, start - 1, p);
    Hex.DecodeAccepts(Run(s[start..], n));
    ShiftedRun(s, start, n);
    assert |Run(s, p)| == 40;
    LongRunIsGood(s, p);
    assert Candidate(s, p);
  }

  lemma LowerBehind(msg: string, start: nat)
    requires start <= |msg|
    ensures Lower(msg[start..]) == Lower(msg)[start..]
    ensures start > 0 ==> Lower(msg)[start - 1] == LowerChar(msg[start - 1])
  {
  }

  lemma ShiftedRun(s: string, start: nat, n: nat)
    requires start + n + 2 <= |s|
    ensures Run(s[start..], n) == Run(s, start + n)
  {
  }

  lemma LongRunIsGood(s: string, p: nat)
    requires p + 2 <= |s| && |Run(s, p)| == 40
    ensures GoodRun(s, p)
  {
  }

  lemma FirstBehind(s: string, start: nat, p: nat)
    requires start <= |s| && start <= p && Find(s[start..], "0x") == Some(p - start)
    ensures At(s, "0x", p) && p + 2 <= |s| && forall j :: start - 1 < j < p ==> !At(s, "0x", j)
  {
    AtBehind(s, start, "0x", p - start);
    forall j | start - 1 < j < p ensures !At(s, "0x", j) {
      AtBehind(s, start, "0x", j - start);
    }
  }

  /**
   Whenever a `MethodNotPermitted` dump would parse, revert bytes are found first,
   except behind a closed quote with contents that are not hex.
   */
  lemma RevertBytesTakePrecedence(msg: string)
    requires ParseMethodNotPermitted(msg).Some? && !BadQuotedData(msg)
    ensures RevertBytes(msg).Some?
  {
    if QuotedData(msg).None? {
      ParsedAddressIsCandidate(msg);
      CandidateDecodes(Lower(msg), FirstCandidate(Lower(msg), 0).value);
    }
  }

  lemma CandidateDecodes(s: string, p: nat)
    requires Candidate(s, p)
    ensures Hex.Decode(Run(s, p)).Some? && |Hex.Decode(Run(s, p)).value| >= 4
  {
    var run := Run(s, p);
    assert forall i :: 0 <= i < |run| ==> run[i] == s[p + 2 + i];
    Hex.DecodeAccepts(run);
  }

  /**
   A message whose rejection dump would parse is classified as a rejection exactly when its
   quoted data does not decode, whatever surrounds the dump.
   */
  lemma RejectionRecognized(abi: Abi, msg: string)
    requires ParseMethodNotPermitted(msg).Some?
    ensures IsMethodNotPermitted(Classify(abi, msg)) <==> BadQuotedData(msg)
  {
    NotPermittedExactly(abi, msg);
    if !BadQuotedData(msg) {
      RevertBytesTakePrecedence(msg);
      RevertBytesAreNoRejection(abi, RevertBytes(msg).value);
    }
  }

  /** The exact condition under which the typed pool rejection is ever returned. */
  lemma NotPermittedExactly(abi: Abi, msg: string)
    ensures Classify(abi, msg).MethodNotPermitted? <==> BadQuotedData(msg) && ParseMethodNotPermitted(msg).Some?
  {
    if ParseMethodNotPermitted(msg).Some? && !BadQuotedData(msg) {
      RevertBytesTakePrecedence(msg);
    }
  }
}
