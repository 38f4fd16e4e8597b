/**
 XML as the report writes it, and a reader for elements, attributes and text that
 resolves the five predefined entities (section 4.6 of XML 1.0).
 */
module Xml {
  import opened Wrappers

  // ----- escaping -----

  function EscapeChar(c: char): (r: string)
    ensures |r| >= 1
  {
    if c == '<' then "&lt;"
    else if c == '>' then "&gt;"
    else if c == '&' then "&amp;"
    else if c == '"' then "&quot;"
    else if c == '\'' then "&apos;"
    else [c]
  }

  function Escape(s: string): string {
    if s == "" then "" else EscapeChar(s[0]) + Escape(s[1..])
  }

  /** The entity at the start of a text: its character and its length. */
  function Entity(s: string): (r: Option<(char, nat)>)
    ensures r.Some? ==> 0 < r.value.1 <= |s|
  {
    if "&lt;" <= s then Some(('<', 4))
    else if "&gt;" <= s then Some(('>', 4))
    else if "&amp;" <= s then Some(('&', 5))
    else if "&quot;" <= s then Some(('"', 6))
    else if "&apos;" <= s then Some(('\'', 6))
    else None
  }

  function Unescape(s: string): Option<string>
    decreases |s|
  {
    if s == "" then Some("")
    else if s[0] != '&' then
      var rest := Unescape(s[1..]);
      if rest.None? then None else Some([s[0]] + rest.value)
    else
      var e := Entity(s);
      if e.None? then None
      else
        var rest := Unescape(s[e.value.1..]);
        if rest.None? then None else Some([e.value.0] + rest.value)
  }

  lemma EntityOfEscaped(c: char, rest: string)
    ensures var s := EscapeChar(c) + rest;
            s[|EscapeChar(c)|..] == rest
            && if |EscapeChar(c)| == 1 then s[0] == c != '&' else s[0] == '&' && Entity(s) == Some((c, |EscapeChar(c)|))
  {
    var s := EscapeChar(c) + rest;
    assert s[..|EscapeChar(c)|] == EscapeChar(c);
    if |EscapeChar(c)| > 1 {
      assert s[1] == EscapeChar(c)[1] && s[2] == EscapeChar(c)[2];
    }
  }

  lemma {:induction false} UnescapeEscape(s: string)
    ensures Unescape(Escape(s)) == Some(s)
  {
    if s == "" {
    } else {
      UnescapeEscape(s[1..]);
      EntityOfEscaped(s[0], Escape(s[1..]));
      assert [s[0]] + s[1..] == s;
    }
  }

  lemma {:induction false} EscapedChars(s: string)
    ensures '<' !in Escape(s) && '"' !in Escape(s)
    ensures s != "" ==> Escape(s) != ""
  {
    if s != "" {
      EscapedChars(s[1..]);
    }
  }

  predicate NeedsNoEscape(s: string) {
    forall i :: 0 <= i < |s| ==> |EscapeChar(s[i])| == 1
  }

  lemma {:induction false} EscapePlain(s: string)
    requires NeedsNoEscape(s)
    ensures Escape(s) == s
  {
    if s != "" {
      assert forall i :: 0 <= i < |s| - 1 ==> s[1..][i] == s[i + 1];
      EscapePlain(s[1..]);
      assert EscapeChar(s[0]) == [s[0]];
    }
  }

  method XmlEscape(s: string) returns (out: string)
    ensures out == Escape(s)
    ensures Unescape(out) == Some(s) && '<' !in out && '"' !in out
  {
    out := "";
    for i := 0 to |s|
      invariant out + Escape(s[i..]) == Escape(s)
    {
      assert Escape(s[i..]) == EscapeChar(s[i]) + Escape(s[i + 1..]);
      assert out + (EscapeChar(s[i]) + Escape(s[i + 1..])) == out + EscapeChar(s[i]) + Escape(s[i + 1..]);
      match s[i]
      case '<' => out := out + "&lt;";
      case '>' => out := out + "&gt;";
      case '&' => out := out + "&amp;";
      case '"' => out := out + "&quot;";
      case '\'' => out := out + "&apos;";
      case _ => out := out + [s[i]];
    }
    UnescapeEscape(s);
    EscapedChars(s);
  }

  // ----- documents -----

  datatype Attr = Attr(key: string, value: string)

  datatype Node =
    | Element(name: string, attrs: seq<Attr>, children: seq<Node>, selfClosed: bool)
    | Chars(text: string)

  function PrintAttr(a: Attr): string {
    " " + a.key + "=\"" + Escape(a.value) + "\""
  }

  /** Attributes whose values are already text of the document. */
  function RawAttrs(attrs: seq<Attr>): string {
    if attrs == [] then "" else " " + attrs[0].key + "=\"" + attrs[0].value + "\"" + RawAttrs(attrs[1..])
  }

  function PrintAttrs(attrs: seq<Attr>): string {
    if attrs == [] then "" else PrintAttr(attrs[0]) + PrintAttrs(attrs[1..])
  }

  function Print(n: Node): string
    decreases n, 0
  {
    match n
    case Chars(text) => Escape(text)
    case Element(name, attrs, children, selfClosed) =>
      "<" + name + PrintAttrs(attrs)
      + if selfClosed then "/>" else ">" + PrintAll(children) + "</" + name + ">"
  }

  function PrintAll(nodes: seq<Node>): string {
    if nodes == [] then "" else Print(nodes[0]) + PrintAll(nodes[1..])
  }

  /** Escaping the values first and pushing them as they are prints the attributes. */
  lemma {:induction false} RawIsPrinted(raw: seq<Attr>, attrs: seq<Attr>)
    requires |raw| == |attrs|
    requires forall i :: 0 <= i < |raw| ==> raw[i].key == attrs[i].key && raw[i].value == Escape(attrs[i].value)
    ensures RawAttrs(raw) == PrintAttrs(attrs)
  {
    if raw != [] {
      RawIsPrinted(raw[1..], attrs[1..]);
    }
  }

  predicate IsName(s: string) {
    s != "" && forall c <- s :: 'a' <= c <= 'z'
  }

  /** What has one printed form: names of letters, no empty or adjacent texts, nothing inside a self-closed element. */
  predicate Normal(n: Node)
    decreases n, 0
  {
    match n
    case Chars(text) => text != ""
    case Element(name, attrs, children, selfClosed) =>
      && IsName(name)
      && (forall a: Attr <- attrs :: IsName(a.key))
      && (selfClosed ==> children == [])
      && AllNormal(children)
  }

  predicate AllNormal(nodes: seq<Node>) {
    nodes == [] || (Normal(nodes[0]) && AllNormal(nodes[1..])
                    && (|nodes| >= 2 ==> !(nodes[0].Chars? && nodes[1].Chars?)))
  }

  // ----- the reader -----

  /** The length of the text in front of the first stop character. */
  function Until(s: string, stops: set<char>): (n: nat)
    ensures n <= |s| && (n < |s| ==> s[n] in stops) && forall i :: 0 <= i < n ==> s[i] !in stops
  {
    if s == "" || s[0] in stops then 0 else 1 + Until(s[1..], stops)
  }

  lemma {:induction false} UntilIs(a: string, rest: string, stops: set<char>)
    requires forall i :: 0 <= i < |a| ==> a[i] !in stops
    requires rest != "" ==> rest[0] in stops
    ensures Until(a + rest, stops) == |a|
    ensures (a + rest)[..|a|] == a && (a + rest)[|a|..] == rest
  {
  }

  function ReadAttrs(s: string): (r: Option<(seq<Attr>, string)>)
    ensures r.Some? ==> |r.value.1| <= |s|
    decreases |s|
  {
    if s == "" || s[0] != ' ' then Some(([], s))
    else
      var k := Until(s[1..], {'='});
      var key, behind := s[1..][..k], s[1..][k..];
      if !("=\"" <= behind) then None
      else
        var v := Until(behind[2..], {'"'});
        var value, rest := Unescape(behind[2..][..v]), behind[2..][v..];
        if rest == "" || value.None? then None
        else
          var more := ReadAttrs(rest[1..]);
          if more.None? then None else Some(([Attr(key, value.value)] + more.value.0, more.value.1))
  }

  function ReadNode(s: string): (r: Option<(Node, string)>)
    ensures r.Some? ==> |r.value.1| < |s|
    decreases |s|, 0
  {
    if s == "" then None
    else if s[0] != '<' then
      var n := Until(s, {'<'});
      var text := Unescape(s[..n]);
      if text.None? then None else Some((Chars(text.value), s[n..]))
    else
      var n := Until(s[1..], {' ', '>', '/'});
      var name := s[1..][..n];
      var attrs := ReadAttrs(s[1..][n..]);
      if attrs.None? then None
      else if "/>" <= attrs.value.1 then Some((Element(name, attrs.value.0, [], true), attrs.value.1[2..]))
      else if !(">" <= attrs.value.1) then None
      else
        var inner := ReadNodes(attrs.value.1[1..]);
        var close := "</" + name + ">";
        if inner.None? || !(close <= inner.value.1) then None
        else Some((Element(name, attrs.value.0, inner.value.0, false), inner.value.1[|close|..]))
  }

  /** Nodes up to the next closing tag, or to the end. */
  function ReadNodes(s: string): (r: Option<(seq<Node>, string)>)
    ensures r.Some? ==> |r.value.1| <= |s|
    decreases |s|, 1
  {
    if s == "" || "</" <= s then Some(([], s))
    else
      var first := ReadNode(s);
      if first.None? then None
      else
        var more := ReadNodes(first.value.1);
        if more.None? then None else Some(([first.value.0] + more.value.0, more.value.1))
  }

  // ----- the reader undoes the printer -----

  lemma NameChars(name: string, stops: set<char>)
    requires IsName(name) && forall c <- stops :: !('a' <= c <= 'z')
    ensures forall i :: 0 <= i < |name| ==> name[i] !in stops
  {
    forall i | 0 <= i < |name| ensures name[i] !in stops {
      assert name[i] in name;
    }
  }

  /** One attribute comes off the front of what is read. */
  lemma AttrReads(a: Attr, more: string, s: string)
    requires IsName(a.key) && s == " " + (a.key + ("=\"" + (Escape(a.value) + ("\"" + more))))
    ensures ReadAttrs(s) == if ReadAttrs(more).None? then None
                            else Some(([a] + ReadAttrs(more).value.0, ReadAttrs(more).value.1))
  {
    hide Escape, Unescape, IsName, Until;
    var value := "\"" + more;
    var behind := "=\"" + (Escape(a.value) + value);
    NameChars(a.key, {'='});
    UntilIs(a.key, behind, {'='});
    assert s[1..] == a.key + behind;
    EscapedChars(a.value);
    UnescapeEscape(a.value);
    UntilIs(Escape(a.value), value, {'"'});
    assert behind[2..] == Escape(a.value) + value;
    assert value[1..] == more;
  }

  lemma Regroup(k: string, v: string, others: string, rest: string)
    ensures " " + k + "=\"" + v + "\"" + others + rest == " " + (k + ("=\"" + (v + ("\"" + (others + rest)))))
  {
  }

  lemma {:induction false} AttrsReadBack(attrs: seq<Attr>, rest: string)
    requires forall a: Attr <- attrs :: IsName(a.key)
    requires rest != "" && rest[0] != ' '
    ensures ReadAttrs(PrintAttrs(attrs) + rest) == Some((attrs, rest))
  {
    hide Escape, Unescape, IsName, Until;
    if attrs == [] {
      assert PrintAttrs(attrs) + rest == rest;
    } else {
      var a := attrs[0];
      var more := PrintAttrs(attrs[1..]) + rest;
      AttrsReadBack(attrs[1..], rest);
      var s := PrintAttrs(attrs) + rest;
      assert PrintAttrs(attrs) == PrintAttr(a) + PrintAttrs(attrs[1..]);
      hide ReadAttrs, PrintAttrs;
      Regroup(a.key, Escape(a.value), PrintAttrs(attrs[1..]), rest);
      AttrReads(a, more, s);
      assert [a] + attrs[1..] == attrs;
    }
  }

  lemma AttrsStart(attrs: seq<Attr>, tail: string)
    requires tail != "" && tail[0] in {'>', '/'}
    ensures var t := PrintAttrs(attrs) + tail; t != "" && t[0] in {' ', '>', '/'}
  {
  }

  /** The opening of a tag is read up to its end. */
  lemma TagOpens(name: string, attrs: seq<Attr>, tail: string, s: string)
    requires IsName(name) && (forall a: Attr <- attrs :: IsName(a.key)) && tail != "" && tail[0] in {'>', '/'}
    requires s == "<" + (name + (PrintAttrs(attrs) + tail))
    ensures |s| > 1 && s[0] == '<' && s[1] != '/'
    ensures var n := Until(s[1..], {' ', '>', '/'});
            s[1..][..n] == name && ReadAttrs(s[1..][n..]) == Some((attrs, tail))
  {
    hide PrintAttrs, ReadAttrs, Until;
    var behind := PrintAttrs(attrs) + tail;
    AttrsStart(attrs, tail);
    NameChars(name, {' ', '>', '/'});
    UntilIs(name, behind, {' ', '>', '/'});
    assert s[1..] == name + behind;
    AttrsReadBack(attrs, tail);
  }

  /** What may follow a node without being read into it. */
  predicate Fence(n: Node, rest: string) {
    n.Chars? ==> rest == "" || rest[0] == '<'
  }

  lemma CharsReadBack(text: string, rest: string)
    requires text != "" && (rest == "" || rest[0] == '<')
    ensures ReadNode(Escape(text) + rest) == Some((Chars(text), rest)) && !("</" <= Escape(text) + rest)
  {
    hide Escape, Unescape;
    var e := Escape(text);
    EscapedChars(text);
    UnescapeEscape(text);
    UntilIs(e, rest, {'<'});
    assert (e + rest)[0] == e[0] != '<';
  }

  lemma EmptyTagReadsBack(name: string, attrs: seq<Attr>, rest: string, s: string)
    requires IsName(name) && (forall a: Attr <- attrs :: IsName(a.key))
    requires s == "<" + (name + (PrintAttrs(attrs) + ("/>" + rest)))
    ensures ReadNode(s) == Some((Element(name, attrs, [], true), rest)) && !("</" <= s)
  {
    hide PrintAttrs, ReadAttrs, Until, IsName;
    var tail := "/>" + rest;
    TagOpens(name, attrs, tail, s);
    assert tail[2..] == rest;
  }

  lemma FullTagReadsBack(name: string, attrs: seq<Attr>, children: seq<Node>, body: string, rest: string, s: string)
    requires IsName(name) && (forall a: Attr <- attrs :: IsName(a.key))
    requires ReadNodes(body + ("</" + name + ">" + rest)) == Some((children, "</" + name + ">" + rest))
    requires s == "<" + (name + (PrintAttrs(attrs) + (">" + (body + ("</" + name + ">" + rest)))))
    ensures ReadNode(s) == Some((Element(name, attrs, children, false), rest)) && !("</" <= s)
  {
    hide PrintAttrs, ReadAttrs, Until, IsName, ReadNodes;
    var close := "</" + name + ">";
    var tail := ">" + (body + (close + rest));
    TagOpens(name, attrs, tail, s);
    assert tail[0] == '>' && tail[1..] == body + (close + rest);
    assert (close + rest)[|close|..] == rest;
  }

  lemma RegroupEmpty(name: string, attrs: string, rest: string)
    ensures "<" + name + attrs + "/>" + rest == "<" + (name + (attrs + ("/>" + rest)))
  {
  }

  lemma RegroupFull(name: string, attrs: string, body: string, close: string, rest: string)
    ensures "<" + name + attrs + (">" + body + close) + rest == "<" + (name + (attrs + (">" + (body + (close + rest)))))
  {
  }

  lemma {:induction false} NodeReadsBack(n: Node, rest: string)
    requires Normal(n) && Fence(n, rest)
    ensures ReadNode(Print(n) + rest) == Some((n, rest)) && !("</" <= Print(n) + rest)
    decreases n, 0
  {
    hide ReadNode, ReadNodes, Escape, PrintAttrs, IsName;
    match n
    case Chars(text) =>
      CharsReadBack(text, rest);
    case Element(name, attrs, children, selfClosed) =>
      if selfClosed {
        assert Print(n) == "<" + name + PrintAttrs(attrs) + "/>";
        hide Print, PrintAll;
        RegroupEmpty(name, PrintAttrs(attrs), rest);
        EmptyTagReadsBack(name, attrs, rest, Print(n) + rest);
      } else {
        var close := "</" + name + ">";
        NodesReadBack(children, close + rest);
        assert ">" + PrintAll(children) + "</" + name + ">" == ">" + PrintAll(children) + close;
        assert Print(n) == "<" + name + PrintAttrs(attrs) + (">" + PrintAll(children) + close);
        hide Print, PrintAll;
        RegroupFull(name, PrintAttrs(attrs), PrintAll(children), close, rest);
        FullTagReadsBack(name, attrs, children, PrintAll(children), rest, Print(n) + rest);
      }
  }

  lemma {:induction false} NodesReadBack(nodes: seq<Node>, rest: string)
    requires AllNormal(nodes) && (rest == "" || "</" <= rest)
    ensures ReadNodes(PrintAll(nodes) + rest) == Some((nodes, rest))
    decreases nodes, 1
  {
    hide ReadNode, ReadNodes, Print, Normal;
    if nodes == [] {
      ReadsNothing(rest);
      assert PrintAll(nodes) + rest == rest;
    } else {
      var first, others := nodes[0], nodes[1..];
      var more := PrintAll(others) + rest;
      NodesReadBack(others, rest);
      FollowsText(nodes, rest);
      NodeReadsBack(first, more);
      assert PrintAll(nodes) == Print(first) + PrintAll(others);
      hide PrintAll, AllNormal;
      assert PrintAll(nodes) + rest == Print(first) + more;
      ReadsFirst(Print(first) + more, first, others, more, rest);
      assert [first] + others == nodes;
    }
  }

  lemma ReadsNothing(rest: string)
    requires rest == "" || "</" <= rest
    ensures ReadNodes(rest) == Some(([], rest))
  {
  }

  lemma ReadsFirst(s: string, first: Node, others: seq<Node>, more: string, rest: string)
    requires ReadNode(s) == Some((first, more)) && !("</" <= s) && ReadNodes(more) == Some((others, rest))
    ensures ReadNodes(s) == Some(([first] + others, rest))
  {
  }

  lemma FollowsText(nodes: seq<Node>, rest: string)
    requires AllNormal(nodes) && nodes != [] && (rest == "" || "</" <= rest)
    ensures Fence(nodes[0], PrintAll(nodes[1..]) + rest)
  {
  }
}
