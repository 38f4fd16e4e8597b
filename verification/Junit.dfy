/** The scenario report as JUnit XML, and what a reader of that XML gets back. */
module Junit {
  import opened Octets
  import opened Wrappers
  import opened Xml

  // ----- the report -----

  datatype Outcome = Pass | Fail(report: string)

  datatype ScenarioResult = ScenarioResult(id: string, description: string, durationMs: nat, outcome: Outcome)

  /** Formatted seconds: digits and a dot, never markup. The formatting itself is left uninterpreted. */
  type PlainText = s: string | NeedsNoEscape(s) witness ""

  function Failed(results: seq<ScenarioResult>): nat {
    if results == [] then 0 else (if results[0].outcome.Fail? then 1 else 0) + Failed(results[1..])
  }

  function TotalMs(results: seq<ScenarioResult>): nat {
    if results == [] then 0 else results[0].durationMs % TWO_64 + TotalMs(results[1..])
  }

  function CaseName(r: ScenarioResult): string {
    r.id + " - " + r.description
  }

  /** `body.lines().next()`: up to the first line feed, without the carriage return before it. */
  function Summary(body: string): string {
    if body == "" then "scenario failed"
    else
      var n := Until(body, {'\n'});
      if n < |body| && n > 0 && body[n - 1] == '\r' then body[..n - 1] else body[..n]
  }

  function Decimal(n: nat): (r: string)
    ensures r != "" && forall i :: 0 <= i < |r| ==> '0' <= r[i] <= '9'
  {
    if n < 10 then [('0' as int + n) as char] else Decimal(n / 10) + [('0' as int + n % 10) as char]
  }

  // ----- the document it is -----

  function CaseNode(r: ScenarioResult, seconds: nat -> PlainText): Node {
    var attrs := [Attr("classname", "pso-e2e"), Attr("name", CaseName(r)), Attr("time", seconds(r.durationMs))];
    match r.outcome
    case Pass => Element("testcase", attrs, [], true)
    case Fail(body) =>
      Element("testcase", attrs,
              [Chars("\n      "),
               Element("failure", [Attr("message", Summary(body)), Attr("type", "AssertionError")],
                       if body == "" then [] else [Chars(body)], false),
               Chars("\n    ")],
              false)
  }

  function SuiteNodes(results: seq<ScenarioResult>, seconds: nat -> PlainText): seq<Node> {
    if results == [] then [Chars("\n  ")]
    else [Chars("\n    "), CaseNode(results[0], seconds)] + SuiteNodes(results[1..], seconds)
  }

  function Document(results: seq<ScenarioResult>, seconds: nat -> PlainText): Node {
    var total, failures, time := Decimal(|results|), Decimal(Failed(results)), seconds(TotalMs(results));
    Element("testsuites",
            [Attr("name", "pso-e2e"), Attr("tests", total), Attr("failures", failures), Attr("time", time)],
            [Chars("\n  "),
             Element("testsuite",
                     [Attr("name", "pso-e2e"), Attr("tests", total), Attr("failures", failures), Attr("errors", "0"),
                      Attr("skipped", "0"), Attr("time", time)],
                     SuiteNodes(results, seconds), false),
             Chars("\n")],
            false)
  }

  const PROLOG := "<?xml version=\"1.0\" encoding=\"UTF-8\"?>\n"

  // ----- reading a report -----

  datatype ReadFailure = ReadFailure(message: string, body: string)

  datatype ReadCase = ReadCase(name: string, time: string, failure: Option<ReadFailure>)

  datatype ReadReport = ReadReport(tests: nat, failures: nat, time: string, cases: seq<ReadCase>)

  function AttrOf(attrs: seq<Attr>, key: string): string {
    if attrs == [] then "" else if attrs[0].key == key then attrs[0].value else AttrOf(attrs[1..], key)
  }

  /** All text inside the nodes, in order. */
  function TextOf(nodes: seq<Node>): string {
    if nodes == [] then ""
    else (match nodes[0] case Chars(t) => t case Element(_, _, kids, _) => TextOf(kids)) + TextOf(nodes[1..])
  }

  /** The first element of the given name among the nodes. */
  function Child(nodes: seq<Node>, name: string): Option<Node> {
    if nodes == [] then None
    else if nodes[0].Element? && nodes[0].name == name then Some(nodes[0])
    else Child(nodes[1..], name)
  }

  function CasesOf(nodes: seq<Node>): seq<ReadCase> {
    if nodes == [] then []
    else if nodes[0].Element? && nodes[0].name == "testcase" then
      var failure := Child(nodes[0].children, "failure");
      var read :=
        if failure.Some? && failure.value.Element? then
          Some(ReadFailure(AttrOf(failure.value.attrs, "message"), TextOf(failure.value.children)))
        else None;
      [ReadCase(AttrOf(nodes[0].attrs, "name"), AttrOf(nodes[0].attrs, "time"), read)] + CasesOf(nodes[1..])
    else CasesOf(nodes[1..])
  }

  function ReadDecimal(s: string): nat {
    if s == "" then 0
    else
      var c := s[|s| - 1];
      10 * ReadDecimal(s[..|s| - 1]) + if '0' <= c <= '9' then c as int - '0' as int else 0
  }

  /** Both levels of the document state the same totals. */
  predicate SameTotals(outer: seq<Attr>, inner: seq<Attr>) {
    && AttrOf(outer, "tests") == AttrOf(inner, "tests")
    && AttrOf(outer, "failures") == AttrOf(inner, "failures")
    && AttrOf(outer, "time") == AttrOf(inner, "time")
  }

  /** Reads the document element behind the prolog, then its suite and its cases. */
  function ReadJunit(xml: string): Option<ReadReport> {
    if !(PROLOG <= xml) then None
    else
      var root := ReadNode(xml[|PROLOG|..]);
      if root.None? || !root.value.0.Element? || root.value.0.name != "testsuites" || root.value.1 != "\n" then None
      else
        var suite := Child(root.value.0.children, "testsuite");
        if suite.None? || !suite.value.Element? || !SameTotals(root.value.0.attrs, suite.value.attrs) then None
        else
          Some(ReadReport(ReadDecimal(AttrOf(suite.value.attrs, "tests")),
                          ReadDecimal(AttrOf(suite.value.attrs, "failures")), AttrOf(suite.value.attrs, "time"),
                          CasesOf(suite.value.children)))
  }

  // ----- what a reader should get -----

  /** The positions of the failed scenarios. */
  function FailedAt(results: seq<ScenarioResult>): set<nat> {
    set i | 0 <= i < |results| && results[i].outcome.Fail?
  }

  /** The message is the text's first line, without its line ending, or says that there is no text. */
  predicate IsFirstLine(message: string, body: string) {
    if body == "" then message == "scenario failed"
    else
      && message <= body && '\n' !in message
      && var rest := body[|message|..];
      || rest == ""
      || "\r\n" <= rest
      || ("\n" <= rest && (message == "" || message[|message| - 1] != '\r'))
  }

  predicate CaseRead(c: ReadCase, r: ScenarioResult, seconds: nat -> PlainText) {
    && c.name == r.id + " - " + r.description
    && c.time == seconds(r.durationMs)
    && match r.outcome
       case Pass => c.failure.None?
       case Fail(body) => c.failure.Some? && IsFirstLine(c.failure.value.message, body) && c.failure.value.body == body
  }

  /** The same cases in order, and the totals of all of them. */
  predicate Reads(read: ReadReport, results: seq<ScenarioResult>, seconds: nat -> PlainText) {
    && read.tests == |results| == |read.cases|
    && read.failures == |FailedAt(results)|
    && read.time == seconds(TotalMs(results))
    && forall i :: 0 <= i < |results| ==> CaseRead(read.cases[i], results[i], seconds)
  }

  /** A text has one first line. */
  lemma FirstLineUnique(a: string, b: string, body: string)
    requires IsFirstLine(a, body) && IsFirstLine(b, body)
    ensures a == b
  {
    NoLongerLine(a, b, body);
    NoLongerLine(b, a, body);
  }

  lemma NoLongerLine(a: string, b: string, body: string)
    requires IsFirstLine(a, body) && IsFirstLine(b, body)
    ensures |a| >= |b|
  {
    if body != "" {
      assert forall i :: 0 <= i < |b| ==> b[i] == body[i] != '\n';
      EndOfLine(body, |a|);
      EndOfLine(body, |b|);
    }
  }

  lemma EndOfLine(body: string, n: nat)
    requires n <= |body|
    ensures body[n..] == "" <==> n == |body|
    ensures "\r\n" <= body[n..] <==> n + 2 <= |body| && body[n] == '\r' && body[n + 1] == '\n'
    ensures "\n" <= body[n..] <==> n < |body| && body[n] == '\n'
  {
  }

  /** What the printer counts and sums, one more result at a time. */
  lemma {:induction false} PrinterTotals(results: seq<ScenarioResult>, r: ScenarioResult)
    ensures Failed(results + [r]) == Failed(results) + if r.outcome.Fail? then 1 else 0
    ensures TotalMs(results + [r]) == TotalMs(results) + r.durationMs % TWO_64
  {
    if results == [] {
      assert [r][1..] == [];
    } else {
      PrinterTotals(results[1..], r);
      assert (results + [r])[1..] == results[1..] + [r];
    }
  }

  /** The printed failure count is the number of failed scenarios. */
  lemma {:induction false} FailedCounts(results: seq<ScenarioResult>)
    ensures Failed(results) == |FailedAt(results)|
  {
    if results == [] {
      assert FailedAt(results) == {};
    } else {
      hide Failed, FailedAt;
      var n := |results| - 1;
      FailedCounts(results[..n]);
      PrinterTotals(results[..n], results[n]);
      assert results == results[..n] + [results[n]];
      FailedAtLast(results[..n], results[n]);
    }
  }

  lemma FailedAtLast(results: seq<ScenarioResult>, r: ScenarioResult)
    ensures |FailedAt(results + [r])| == |FailedAt(results)| + if r.outcome.Fail? then 1 else 0
  {
    assert FailedAt(results + [r]) == FailedAt(results) + if r.outcome.Fail? then {|results|} else {};
  }

  lemma {:induction false} SummaryIsFirstLine(body: string)
    ensures IsFirstLine(Summary(body), body)
  {
    if body != "" {
      var n := Until(body, {'\n'});
      var m := Summary(body);
      assert '\n' !in body[..n];
      assert n < |body| ==> body[n..][0] == '\n';
      assert |m| < n ==> body[|m|..][0] == '\r' && body[|m|..][1] == '\n';
    }
  }

  function ReadOf(r: ScenarioResult, seconds: nat -> PlainText): ReadCase {
    ReadCase(CaseName(r), seconds(r.durationMs),
             match r.outcome
             case Pass => None
             case Fail(body) => Some(ReadFailure(Summary(body), body)))
  }

  function ReadsOf(results: seq<ScenarioResult>, seconds: nat -> PlainText): (r: seq<ReadCase>)
    ensures |r| == |results|
    ensures forall i :: 0 <= i < |r| ==> r[i] == ReadOf(results[i], seconds)
  {
    seq(|results|, i requires 0 <= i < |results| => ReadOf(results[i], seconds))
  }

  lemma ReadsAsExpected(results: seq<ScenarioResult>, seconds: nat -> PlainText)
    ensures Reads(ReadReport(|results|, Failed(results), seconds(TotalMs(results)), ReadsOf(results, seconds)),
                  results, seconds)
  {
    FailedCounts(results);
    forall i | 0 <= i < |results| ensures CaseRead(ReadsOf(results, seconds)[i], results[i], seconds) {
      if results[i].outcome.Fail? {
        SummaryIsFirstLine(results[i].outcome.report);
      }
    }
  }

  // ----- the document is normal and reads as expected -----

  lemma {:induction false} DecimalReads(n: nat)
    ensures ReadDecimal(Decimal(n)) == n && NeedsNoEscape(Decimal(n))
  {
    hide EscapeChar;
    DigitsNeedNoEscape(Decimal(n));
    var last := ('0' as int + n % 10) as char;
    if n < 10 {
      assert Decimal(n) == [last];
      assert [last][..0] == "";
    } else {
      DecimalReads(n / 10);
      assert Decimal(n) == Decimal(n / 10) + [last];
      assert Decimal(n)[..|Decimal(n)| - 1] == Decimal(n / 10);
    }
  }

  lemma DigitsNeedNoEscape(s: string)
    requires forall i :: 0 <= i < |s| ==> '0' <= s[i] <= '9'
    ensures NeedsNoEscape(s)
  {
  }

  lemma Names()
    ensures IsName("testsuites") && IsName("testsuite") && IsName("testcase") && IsName("failure")
    ensures IsName("classname") && IsName("name") && IsName("time") && IsName("message") && IsName("type")
    ensures IsName("tests") && IsName("failures") && IsName("errors") && IsName("skipped")
  {
  }

  lemma FailureNodesNormal(attrs: seq<Attr>, body: string)
    requires forall a: Attr <- attrs :: IsName(a.key)
    ensures AllNormal([Chars("\n      "), Element("failure", attrs, if body == "" then [] else [Chars(body)], false),
                       Chars("\n    ")])
  {
    hide IsName;
    Names();
    var failure := Element("failure", attrs, if body == "" then [] else [Chars(body)], false);
    assert AllNormal(failure.children);
    assert Normal(failure);
    var nodes := [Chars("\n      "), failure, Chars("\n    ")];
    assert nodes[1..] == [failure, Chars("\n    ")];
    assert nodes[1..][1..] == [Chars("\n    ")];
    assert AllNormal([Chars("\n    ")]);
    assert AllNormal(nodes[1..]);
  }

  lemma CaseNormal(r: ScenarioResult, seconds: nat -> PlainText)
    ensures Normal(CaseNode(r, seconds))
  {
    hide IsName, AllNormal, Summary;
    Names();
    if r.outcome.Fail? {
      FailureNodesNormal([Attr("message", Summary(r.outcome.report)), Attr("type", "AssertionError")],
                         r.outcome.report);
    } else {
      EmptyNormal();
    }
  }

  lemma EmptyNormal()
    ensures AllNormal([])
  {
  }

  lemma {:induction false} SuiteNodesNormal(results: seq<ScenarioResult>, seconds: nat -> PlainText)
    ensures AllNormal(SuiteNodes(results, seconds)) && SuiteNodes(results, seconds)[0].Chars?
  {
    hide CaseNode;
    if results == [] {
      assert AllNormal([Chars("\n  ")]);
    } else {
      SuiteNodesNormal(results[1..], seconds);
      CaseNormal(results[0], seconds);
      CaseIsElement(results[0], seconds);
      var rest := SuiteNodes(results[1..], seconds);
      PrependNormal(CaseNode(results[0], seconds), rest);
      PrependNormal(Chars("\n    "), [CaseNode(results[0], seconds)] + rest);
      assert [Chars("\n    ")] + ([CaseNode(results[0], seconds)] + rest) == SuiteNodes(results, seconds);
    }
  }

  lemma CaseIsElement(r: ScenarioResult, seconds: nat -> PlainText)
    ensures CaseNode(r, seconds).Element? && CaseNode(r, seconds).name == "testcase"
  {
  }

  lemma PrependNormal(n: Node, nodes: seq<Node>)
    requires Normal(n) && AllNormal(nodes) && nodes != [] && !(n.Chars? && nodes[0].Chars?)
    ensures AllNormal([n] + nodes)
  {
  }

  lemma DocumentNormal(results: seq<ScenarioResult>, seconds: nat -> PlainText)
    ensures Normal(Document(results, seconds))
  {
    hide IsName, AllNormal, SuiteNodes, Decimal, Failed, TotalMs;
    Names();
    SuiteNodesNormal(results, seconds);
    var suite := Document(results, seconds).children[1];
    assert Normal(suite);
    OneNode(Chars("\n"));
    PrependNormal(suite, [Chars("\n")]);
    PrependNormal(Chars("\n  "), [suite] + [Chars("\n")]);
    assert [Chars("\n  ")] + ([suite] + [Chars("\n")]) == Document(results, seconds).children;
  }

  lemma OneNode(n: Node)
    requires Normal(n)
    ensures AllNormal([n])
  {
  }

  lemma FailureReads(attrs: seq<Attr>, body: string, before: string, after: string)
    ensures var failure := Element("failure", attrs, if body == "" then [] else [Chars(body)], false);
            Child([Chars(before), failure, Chars(after)], "failure") == Some(failure)
            && TextOf(failure.children) == body
  {
  }

  lemma SecondAttr(attrs: seq<Attr>, key: string)
    requires |attrs| >= 2 && attrs[0].key != key && attrs[1].key == key
    ensures AttrOf(attrs, key) == attrs[1].value
  {
  }

  /** One printed case reads as the scenario it was made from. */
  lemma CaseReads(r: ScenarioResult, seconds: nat -> PlainText, others: seq<Node>)
    ensures CasesOf([CaseNode(r, seconds)] + others) == [ReadOf(r, seconds)] + CasesOf(others)
  {
    hide Summary, CaseName, Child, TextOf;
    var n := CaseNode(r, seconds);
    assert ([n] + others)[1..] == others;
    SecondAttr(n.attrs, "name");
    ThirdAttr(n.attrs, "time");
    match r.outcome
    case Pass =>
      NoChild("failure");
    case Fail(body) =>
      FailureReads([Attr("message", Summary(body)), Attr("type", "AssertionError")], body, "\n      ", "\n    ");
  }

  lemma NoChild(name: string)
    ensures Child([], name) == None
  {
  }

  lemma {:induction false} SuiteReads(results: seq<ScenarioResult>, seconds: nat -> PlainText)
    ensures CasesOf(SuiteNodes(results, seconds)) == ReadsOf(results, seconds)
  {
    hide CaseNode, ReadOf;
    if results == [] {
      assert [Chars("\n  ")][1..] == [];
    } else {
      var nodes, rest := SuiteNodes(results, seconds), SuiteNodes(results[1..], seconds);
      assert nodes[1..] == [CaseNode(results[0], seconds)] + rest;
      CaseReads(results[0], seconds, rest);
      SuiteReads(results[1..], seconds);
      assert [ReadOf(results[0], seconds)] + ReadsOf(results[1..], seconds) == ReadsOf(results, seconds);
    }
  }

  /** The whole round trip: any report, printed and read back, is the report. */
  lemma JunitRoundTrip(results: seq<ScenarioResult>, seconds: nat -> PlainText)
    ensures var read := ReadJunit(PROLOG + Print(Document(results, seconds)) + "\n");
            read.Some? && Reads(read.value, results, seconds)
  {
    hide Print, ReadNode, SuiteNodes, Decimal, Failed, TotalMs, Normal, ReadDecimal, CasesOf, Child, AttrOf, Reads,
      ReadsOf;
    var doc := Document(results, seconds);
    DocumentNormal(results, seconds);
    NodeReadsBack(doc, "\n");
    var xml := PROLOG + Print(doc) + "\n";
    assert xml == PROLOG + (Print(doc) + "\n");
    assert xml[|PROLOG|..] == Print(doc) + "\n";
    SuiteFound(Decimal(|results|), Decimal(Failed(results)), seconds(TotalMs(results)), SuiteNodes(results, seconds));
    SuiteReads(results, seconds);
    DecimalReads(|results|);
    DecimalReads(Failed(results));
    ReadsAsExpected(results, seconds);
  }

  lemma SuiteFound(total: string, failures: string, time: string, cases: seq<Node>)
    ensures var outer := [Attr("name", "pso-e2e"), Attr("tests", total), Attr("failures", failures), Attr("time", time)];
            var inner := [Attr("name", "pso-e2e"), Attr("tests", total), Attr("failures", failures),
                          Attr("errors", "0"), Attr("skipped", "0"), Attr("time", time)];
            var suite := Element("testsuite", inner, cases, false);
            && Child([Chars("\n  "), suite, Chars("\n")], "testsuite") == Some(suite)
            && AttrOf(inner, "tests") == total && AttrOf(inner, "failures") == failures && AttrOf(inner, "time") == time
            && SameTotals(outer, inner)
  {
    hide AttrOf, Child;
    var outer := [Attr("name", "pso-e2e"), Attr("tests", total), Attr("failures", failures), Attr("time", time)];
    var inner := [Attr("name", "pso-e2e"), Attr("tests", total), Attr("failures", failures), Attr("errors", "0"),
                  Attr("skipped", "0"), Attr("time", time)];
    SecondChild([Chars("\n  "), Element("testsuite", inner, cases, false), Chars("\n")], "testsuite");
    SecondAttr(inner, "tests");
    ThirdAttr(inner, "failures");
    LaterAttr(inner, "time", 5);
    SecondAttr(outer, "tests");
    ThirdAttr(outer, "failures");
    LaterAttr(outer, "time", 3);
  }

  lemma {:induction false} LaterAttr(attrs: seq<Attr>, key: string, k: nat)
    requires k < |attrs| && attrs[k].key == key && forall j :: 0 <= j < k ==> attrs[j].key != key
    ensures AttrOf(attrs, key) == attrs[k].value
  {
    if k > 0 {
      LaterAttr(attrs[1..], key, k - 1);
    }
  }

  lemma SecondChild(nodes: seq<Node>, name: string)
    requires |nodes| >= 2 && nodes[0].Chars? && nodes[1].Element? && nodes[1].name == name
    ensures Child(nodes, name) == Some(nodes[1])
  {
  }

  lemma ThirdAttr(attrs: seq<Attr>, key: string)
    requires |attrs| >= 3 && attrs[0].key != key && attrs[1].key != key && attrs[2].key == key
    ensures AttrOf(attrs, key) == attrs[2].value
  {
    SecondAttr(attrs[1..], key);
  }

  // ----- the document's text, as the printer pushes it -----

  /** The text pushed for the scenarios. */
  function Rows(results: seq<ScenarioResult>, seconds: nat -> PlainText): string {
    if results == [] then "" else Row(results[0], seconds) + Rows(results[1..], seconds)
  }

  function Row(r: ScenarioResult, seconds: nat -> PlainText): string {
    "    " + Print(CaseNode(r, seconds)) + "\n"
  }

  lemma RowsStep(results: seq<ScenarioResult>, seconds: nat -> PlainText, i: nat)
    requires i < |results|
    ensures Rows(results[i..], seconds) == Row(results[i], seconds) + Rows(results[i + 1..], seconds)
  {
  }

  lemma RowsEnd(results: seq<ScenarioResult>, seconds: nat -> PlainText)
    ensures Rows(results[|results|..], seconds) == "" && results[0..] == results
  {
  }

  lemma PlainConstants()
    ensures Escape("pso-e2e") == "pso-e2e" && Escape("AssertionError") == "AssertionError" && Escape("0") == "0"
    ensures Escape("\n") == "\n" && Escape("\n  ") == "\n  " && Escape("\n    ") == "\n    "
    ensures Escape("\n      ") == "\n      "
  {
    hide Escape;
    PlainLiterals();
    hide NeedsNoEscape;
    EscapePlain("pso-e2e");
    EscapePlain("AssertionError");
    EscapePlain("0");
    EscapePlain("\n");
    EscapePlain("\n  ");
    EscapePlain("\n    ");
    EscapePlain("\n      ");
  }

  lemma PlainLiterals()
    ensures NeedsNoEscape("pso-e2e") && NeedsNoEscape("AssertionError") && NeedsNoEscape("0")
    ensures NeedsNoEscape("\n") && NeedsNoEscape("\n  ") && NeedsNoEscape("\n    ") && NeedsNoEscape("\n      ")
  {
  }

  /** An opening tag up to its end, from values that are already escaped. */
  function Opening(name: string, raw: seq<Attr>): string {
    "<" + name + RawAttrs(raw)
  }

  function CaseOpening(name: string, time: string): string {
    Opening("testcase", [Attr("classname", "pso-e2e"), Attr("name", name), Attr("time", time)])
  }

  function FailureOpening(summary: string): string {
    Opening("failure", [Attr("message", summary), Attr("type", "AssertionError")])
  }

  function SuitesOpening(total: string, failures: string, time: string): string {
    Opening("testsuites",
            [Attr("name", "pso-e2e"), Attr("tests", total), Attr("failures", failures), Attr("time", time)])
  }

  function SuiteOpening(total: string, failures: string, time: string): string {
    Opening("testsuite",
            [Attr("name", "pso-e2e"), Attr("tests", total), Attr("failures", failures), Attr("errors", "0"),
             Attr("skipped", "0"), Attr("time", time)])
  }

  lemma CaseOpens(r: ScenarioResult, seconds: nat -> PlainText)
    ensures CaseOpening(Escape(CaseName(r)), seconds(r.durationMs))
            == "<" + "testcase" + PrintAttrs(CaseNode(r, seconds).attrs)
  {
    hide Escape, CaseName, PrintAttrs, RawAttrs;
    PlainConstants();
    EscapePlain(seconds(r.durationMs));
    RawIsPrinted([Attr("classname", "pso-e2e"), Attr("name", Escape(CaseName(r))), Attr("time", seconds(r.durationMs))],
                 CaseNode(r, seconds).attrs);
  }

  lemma PassText(r: ScenarioResult, seconds: nat -> PlainText)
    requires r.outcome.Pass?
    ensures Row(r, seconds) == "    " + (CaseOpening(Escape(CaseName(r)), seconds(r.durationMs)) + "/>") + "\n"
  {
    hide CaseOpening, Escape, CaseName, PrintAttrs;
    CaseOpens(r, seconds);
  }

  /** The failure element has its summary as the message and its whole text as the body. */
  lemma FailureText(body: string)
    ensures Print(Element("failure", [Attr("message", Summary(body)), Attr("type", "AssertionError")],
                          if body == "" then [] else [Chars(body)], false))
            == FailureOpening(Escape(Summary(body))) + (">" + Escape(body) + "</" + "failure" + ">")
  {
    hide Summary, Escape, PrintAttrs, RawAttrs;
    PlainConstants();
    BodyText(body);
    hide PrintAll;
    RawIsPrinted([Attr("message", Escape(Summary(body))), Attr("type", "AssertionError")],
                 [Attr("message", Summary(body)), Attr("type", "AssertionError")]);
  }

  lemma BodyText(body: string)
    ensures PrintAll(if body == "" then [] else [Chars(body)]) == Escape(body)
  {
  }

  lemma FailText(r: ScenarioResult, seconds: nat -> PlainText)
    requires r.outcome.Fail?
    ensures var body := r.outcome.report;
            Row(r, seconds)
            == "    " + CaseOpening(Escape(CaseName(r)), seconds(r.durationMs)) + ">\n"
               + ("      " + (FailureOpening(Escape(Summary(body))) + (">" + Escape(body) + "</" + "failure" + ">")) + "\n")
               + "    </testcase>\n"
  {
    hide Escape, CaseName, PrintAttrs, Summary, CaseOpening, FailureOpening;
    CaseOpens(r, seconds);
    FailureText(r.outcome.report);
    PlainConstants();
    var kids := CaseNode(r, seconds).children;
    ThreeNodes(kids[0], kids[1], kids[2]);
    var open, f := CaseOpening(Escape(CaseName(r)), seconds(r.durationMs)), Print(kids[1]);
    assert Print(CaseNode(r, seconds)) == open + (">" + ("\n      " + f + "\n    ") + "</" + "testcase" + ">");
    hide Print;
    FailLines(open, f);
  }

  lemma FailLines(open: string, f: string)
    ensures "    " + (open + (">" + ("\n      " + f + "\n    ") + "</" + "testcase" + ">")) + "\n"
            == "    " + open + ">\n" + ("      " + f + "\n") + "    </testcase>\n"
  {
  }

  lemma ThreeNodes(a: Node, b: Node, c: Node)
    ensures PrintAll([a, b, c]) == Print(a) + Print(b) + Print(c)
  {
    hide Print;
    assert [a, b, c][1..] == [b, c];
    assert [b, c][1..] == [c];
    assert [c][1..] == [];
    assert PrintAll([c]) == Print(c) + "";
  }

  lemma {:induction false} SuiteText(results: seq<ScenarioResult>, seconds: nat -> PlainText)
    ensures PrintAll(SuiteNodes(results, seconds)) == "\n" + Rows(results, seconds) + "  "
  {
    hide Escape, CaseNode;
    PlainConstants();
    if results == [] {
      assert [Chars("\n  ")][1..] == [];
      assert PrintAll([Chars("\n  ")]) == "\n  " + "";
      assert "\n" + "" + "  " == "\n  ";
    } else {
      SuiteText(results[1..], seconds);
      var n, rest := CaseNode(results[0], seconds), SuiteNodes(results[1..], seconds);
      var nodes := [Chars("\n    "), n] + rest;
      assert nodes[1..] == [n] + rest;
      assert ([n] + rest)[1..] == rest;
      assert Print(Chars("\n    ")) == "\n    ";
      assert PrintAll(nodes) == "\n    " + (Print(n) + PrintAll(rest));
      hide PrintAll, Print;
      assert "\n    " == "\n" + "    ";
      RowRegroup("\n", "    ", Print(n), Rows(results[1..], seconds), "  ");
    }
  }

  lemma RowRegroup(a: string, b: string, x: string, y: string, c: string)
    ensures (a + b) + (x + (a + y + c)) == a + ((b + x + a) + y) + c
  {
  }

  lemma SuitesOpen(total: PlainText, failures: PlainText, time: PlainText)
    ensures SuitesOpening(total, failures, time)
            == "<" + "testsuites"
               + PrintAttrs([Attr("name", "pso-e2e"), Attr("tests", total), Attr("failures", failures), Attr("time", time)])
    ensures SuiteOpening(total, failures, time)
            == "<" + "testsuite"
               + PrintAttrs([Attr("name", "pso-e2e"), Attr("tests", total), Attr("failures", failures),
                             Attr("errors", "0"), Attr("skipped", "0"), Attr("time", time)])
  {
    hide Escape, PrintAttrs, RawAttrs, NeedsNoEscape;
    PlainConstants();
    EscapePlain(total);
    EscapePlain(failures);
    EscapePlain(time);
    var outer := [Attr("name", "pso-e2e"), Attr("tests", total), Attr("failures", failures), Attr("time", time)];
    var inner := [Attr("name", "pso-e2e"), Attr("tests", total), Attr("failures", failures), Attr("errors", "0"),
                  Attr("skipped", "0"), Attr("time", time)];
    RawIsPrinted(outer, outer);
    RawIsPrinted(inner, inner);
  }

  lemma DocumentText(results: seq<ScenarioResult>, seconds: nat -> PlainText)
    ensures var total, failures, time := Decimal(|results|), Decimal(Failed(results)), seconds(TotalMs(results));
            Print(Document(results, seconds)) + "\n"
            == (SuitesOpening(total, failures, time) + ">\n") + ("  " + SuiteOpening(total, failures, time) + ">\n")
               + Rows(results, seconds) + "  </testsuite>\n" + "</testsuites>\n"
  {
    hide Escape, PrintAttrs, PrintAll, SuitesOpening, SuiteOpening, SuiteNodes, Decimal, Failed, TotalMs, Rows;
    DecimalReads(|results|);
    DecimalReads(Failed(results));
    SuitesOpen(Decimal(|results|), Decimal(Failed(results)), seconds(TotalMs(results)));
    SuiteText(results, seconds);
    PlainConstants();
    var doc := Document(results, seconds);
    var suite := doc.children[1];
    ThreeNodes(doc.children[0], suite, doc.children[2]);
    var outer, inner := "<" + "testsuites" + PrintAttrs(doc.attrs), "<" + "testsuite" + PrintAttrs(suite.attrs);
    assert Print(suite) == inner + (">" + ("\n" + Rows(results, seconds) + "  ") + "</" + "testsuite" + ">");
    assert Print(doc) == outer + (">" + ("\n  " + Print(suite) + "\n") + "</" + "testsuites" + ">");
    hide Print, Document;
    DocumentLines(outer, inner, Rows(results, seconds));
  }

  lemma DocumentLines(outer: string, inner: string, rows: string)
    ensures var suite := inner + (">" + ("\n" + rows + "  ") + "</" + "testsuite" + ">");
            outer + (">" + ("\n  " + suite + "\n") + "</" + "testsuites" + ">") + "\n"
            == (outer + ">\n") + ("  " + inner + ">\n") + rows + "  </testsuite>\n" + "</testsuites>\n"
  {
    var suite := inner + (">" + ("\n" + rows + "  ") + "</" + "testsuite" + ">");
    assert suite == inner + ">\n" + rows + "  </testsuite>";
    assert outer + (">" + ("\n  " + suite + "\n") + "</" + "testsuites" + ">") + "\n"
        == (outer + ">\n") + "  " + suite + "\n" + "</testsuites>\n";
  }

  // ----- the printer -----

  class Report {
    /** In submission order. */
    var results: seq<ScenarioResult>

    constructor ()
      ensures results == [] && Failed(results) == 0 && TotalMs(results) == 0
    {
      results := [];
    }

    method Push(r: ScenarioResult)
      modifies this
      ensures results == old(results) + [r]
      ensures Failed(results) == Failed(old(results)) + if r.outcome.Fail? then 1 else 0
      ensures TotalMs(results) == TotalMs(old(results)) + r.durationMs % TWO_64
    {
      PrinterTotals(results, r);
      results := results + [r];
    }

    /** Pushes the document piece by piece; what comes out reads back as the report. */
    method ToJunitXml(seconds: nat -> PlainText) returns (out: string)
      ensures out == PROLOG + Print(Document(results, seconds)) + "\n"
      ensures ReadJunit(out).Some? && Reads(ReadJunit(out).value, results, seconds)
    {
      hide Print, PrintAll, SuiteNodes, CaseNode, ReadJunit, Reads, Failed, TotalMs, Decimal, Document,
        SuitesOpening, SuiteOpening, Rows, Row;
      var total, failures, time := Decimal(|results|), Decimal(Failed(results)), seconds(TotalMs(results));
      out := "";
      out := out + PROLOG;
      out := out + (SuitesOpening(total, failures, time) + ">\n");
      out := out + ("  " + SuiteOpening(total, failures, time) + ">\n");
      ghost var head := out;
      RowsEnd(results, seconds);
      for i := 0 to |results|
        invariant out + Rows(results[i..], seconds) == head + Rows(results, seconds)
      {
        var row := CaseRow(results[i], seconds);
        RowsStep(results, seconds, i);
        assert out + (row + Rows(results[i + 1..], seconds)) == out + row + Rows(results[i + 1..], seconds);
        out := out + row;
      }
      assert out == head + Rows(results, seconds) by {
        assert out + "" == out;
      }
      out := out + "  </testsuite>\n";
      out := out + "</testsuites>\n";
      JunitRoundTrip(results, seconds);
      DocumentText(results, seconds);
      Behind(PROLOG, SuitesOpening(total, failures, time) + ">\n", "  " + SuiteOpening(total, failures, time) + ">\n",
             Rows(results, seconds), "  </testsuite>\n", "</testsuites>\n");
      assert PROLOG + Print(Document(results, seconds)) + "\n" == PROLOG + (Print(Document(results, seconds)) + "\n");
    }

    /** The text pushed for one scenario. */
    method CaseRow(r: ScenarioResult, seconds: nat -> PlainText) returns (out: string)
      ensures out == Row(r, seconds)
    {
      hide Escape, Unescape, Summary, CaseName, CaseOpening, FailureOpening, Row, NeedsNoEscape;
      var caseSeconds := seconds(r.durationMs);
      var name := XmlEscape(CaseName(r));
      match r.outcome
      case Pass =>
        out := "    " + (CaseOpening(name, caseSeconds) + "/>") + "\n";
        PassText(r, seconds);
      case Fail(err) =>
        var summary := XmlEscape(Summary(err));
        var body := XmlEscape(err);
        out := "    " + CaseOpening(name, caseSeconds) + ">\n";
        out := out + ("      " + (FailureOpening(summary) + (">" + body + "</" + "failure" + ">")) + "\n");
        out := out + "    </testcase>\n";
        FailText(r, seconds);
    }
  }

  lemma Behind(p: string, a: string, b: string, c: string, d: string, e: string)
    ensures p + a + b + c + d + e == p + (a + b + c + d + e)
  {
  }
}
