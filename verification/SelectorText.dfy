/** The four-byte selector inside a debug dump: an array in brackets, hex or decimal. */
module SelectorText {
  import opened Octets
  import opened Wrappers
  import opened Text
  import Hex

  // ----- tokens -----

  /** The characters with Unicode's White_Space property. */
  predicate IsSpace(c: char) {
    var n := c as int;
    9 <= n <= 13 || n == 0x20 || n == 0x85 || n == 0xA0 || n == 0x1680 || 0x2000 <= n <= 0x200A || n == 0x2028
    || n == 0x2029 || n == 0x202F || n == 0x205F || n == 0x3000
  }

  function TrimStart(s: string): string {
    if s != "" && IsSpace(s[0]) then TrimStart(s[1..]) else s
  }

  function TrimEnd(s: string): string {
    if s != "" && IsSpace(s[|s| - 1]) then TrimEnd(s[..|s| - 1]) else s
  }

  function StripAll0x(s: string): string {
    if |s| >= 2 && s[..2] == "0x" then StripAll0x(s[2..]) else s
  }

  /** `trim_start_matches` takes every prefix away, not only the first. */
  lemma StripsEvery0x(t: string)
    ensures StripAll0x("0x" + t) == StripAll0x(t)
    ensures StripAll0x("0x") == ""
  {
    assert ("0x" + t)[..2] == "0x" && ("0x" + t)[2..] == t;
    assert "0x"[..2] == "0x" && "0x"[2..] == "";
  }

  predicate IsDigitOf(c: char, radix: nat) {
    Hex.IsDigit(c) && Hex.Value(c) < radix
  }

  function DigitsValue(s: string, radix: nat): Option<nat> {
    if s == "" then Some(0)
    else
      var high := DigitsValue(s[..|s| - 1], radix);
      var c := s[|s| - 1];
      if high.None? || !IsDigitOf(c, radix) then None else Some(radix * high.value + Hex.Value(c))
  }

  /** `u8::from_str_radix`: an optional `+`, at least one digit, a value that fits a byte. */
  function ByteOfRadix(s: string, radix: nat): Option<Byte> {
    var digits := if |s| >= 2 && s[0] == '+' then s[1..] else s;
    if digits == "" then None
    else
      var v := DigitsValue(digits, radix);
      if v.None? || v.value > 255 then None else Some(v.value)
  }

  /** The 25 code points trimmed from a token: ASCII blanks, and the Unicode spaces and separators. */
  const WHITE_SPACE: seq<int> := [
    0x09, 0x0A, 0x0B, 0x0C, 0x0D, 0x20, 0x85, 0xA0, 0x1680, 0x2000, 0x2001, 0x2002, 0x2003, 0x2004, 0x2005, 0x2006,
    0x2007, 0x2008, 0x2009, 0x200A, 0x2028, 0x2029, 0x202F, 0x205F, 0x3000]

  lemma SpacesAre(c: char)
    ensures IsSpace(c) <==> c as int in WHITE_SPACE
  {
    var n := c as int;
    if IsSpace(c) {
      var k := if n <= 13 then n - 9 else if n == 0x20 then 5 else if n == 0x85 then 6 else if n == 0xA0 then 7
               else if n == 0x1680 then 8 else if n <= 0x200A then 9 + n - 0x2000 else if n == 0x2028 then 20
               else if n == 0x2029 then 21 else if n == 0x202F then 22 else if n == 0x205F then 23 else 24;
      assert WHITE_SPACE[k] == n;
    }
  }

  /** A number is read from digits of its radix only, in any amount and with leading zeros. */
  lemma {:induction false} DigitsOfRadix(s: string, radix: nat)
    requires radix == 10 || radix == 16
    ensures DigitsValue(s, radix).Some?
            <==> forall i :: 0 <= i < |s| ==> s[i] in "0123456789" || (radix == 16 && s[i] in "abcdefABCDEF")
  {
    if s != "" {
      hide IsDigitOf, Hex.IsDigit, Hex.Value;
      DigitsOfRadix(s[..|s| - 1], radix);
      DigitOfRadix(s[|s| - 1], radix);
      assert s == s[..|s| - 1] + [s[|s| - 1]];
    }
  }

  lemma DigitOfRadix(c: char, radix: nat)
    requires radix == 10 || radix == 16
    ensures IsDigitOf(c, radix) <==> c in "0123456789" || (radix == 16 && c in "abcdefABCDEF")
  {
    if '0' <= c <= '9' {
      assert "0123456789"[c as int - '0' as int] == c;
    } else if 'a' <= c <= 'f' {
      assert "abcdefABCDEF"[c as int - 'a' as int] == c;
    } else if 'A' <= c <= 'F' {
      assert "abcdefABCDEF"[6 + c as int - 'A' as int] == c;
    }
  }

  /** A sign in front of digits changes nothing, a sign alone is no number, and a number has to fit a byte. */
  lemma SignedBytes(d: string, radix: nat)
    requires radix == 10 || radix == 16
    ensures ByteOfRadix("", radix).None? && ByteOfRadix("+", radix).None?
    ensures d != "" && d[0] != '+' ==>
              && ByteOfRadix("+" + d, radix) == ByteOfRadix(d, radix)
              && (ByteOfRadix(d, radix).Some? <==> DigitsValue(d, radix).Some? && DigitsValue(d, radix).value < 256)
              && (ByteOfRadix(d, radix).Some? ==> DigitsValue(d, radix) == Some(ByteOfRadix(d, radix).value))
  {
    assert ("+" + d)[1..] == d;
    assert "+"[..0] == "";
    assert !Hex.IsDigit('+');
  }

  /** Hex is tried first; only a token that is no byte in hex is read as decimal. */
  function ByteOf(token: string): Option<Byte> {
    var t := StripAll0x(TrimEnd(TrimStart(token)));
    if ByteOfRadix(t, 16).Some? then ByteOfRadix(t, 16) else ByteOfRadix(t, 10)
  }

  function Split(s: string): (r: seq<string>)
    ensures |r| >= 1
  {
    match Find(s, ",")
    case None => [s]
    case Some(k) => [s[..k]] + Split(s[k + 1..])
  }

  /** The bytes of exactly four tokens, if all of them are bytes. */
  function FourBytes(tokens: seq<string>): Option<Bytes> {
    if |tokens| == 4 && ByteOf(tokens[0]).Some? && ByteOf(tokens[1]).Some? && ByteOf(tokens[2]).Some?
       && ByteOf(tokens[3]).Some?
    then Some([ByteOf(tokens[0]).value, ByteOf(tokens[1]).value, ByteOf(tokens[2]).value, ByteOf(tokens[3]).value])
    else None
  }

  /** What stands between the first `[` behind the key and the next `]`. */
  function Bracketed(s: string, key: string): Option<string> {
    match Find(s, key)
    case None => None
    case Some(i) =>
      var rest := s[i + |key|..];
      match Find(rest, "[")
      case None => None
      case Some(open) =>
        match Find(rest[open..], "]")
        case None => None
        case Some(close) =>
          CloseIsBehind(rest, open, close);
          Some(rest[open + 1..open + close])
  }

  lemma CloseIsBehind(rest: string, open: nat, close: nat)
    requires At(rest, "[", open) && At(rest[open..], "]", close)
    ensures close > 0
  {
    AtChar(rest, "[", open, 0);
    AtChar(rest[open..], "]", close, 0);
  }

  function SelectorAfter(s: string, key: string): Option<Bytes> {
    match Bracketed(s, key)
    case None => None
    case Some(inner) => FourBytes(Split(inner))
  }

  /** The loop as written: tokens fill four places in turn. */
  method ParseSelectorAfter(s: string, key: string) returns (r: Option<Bytes>)
    ensures r == SelectorAfter(s, key)
    ensures r.Some? ==> |r.value| == 4
  {
    hide ByteOf, Split, Bracketed;
    var inner := Bracketed(s, key);
    if inner.None? {
      return None;
    }
    var tokens := Split(inner.value);
    var out: Bytes := [0, 0, 0, 0];
    var idx := 0;
    for n := 0 to |tokens|
      invariant idx == n <= 4 && |out| == 4
      invariant forall j :: 0 <= j < n ==> ByteOf(tokens[j]) == Some(out[j])
    {
      if idx >= 4 {
        return None;
      }
      var v := ByteOf(tokens[n]);
      if v.None? {
        return None;
      }
      out := out[idx := v.value];
      idx := idx + 1;
    }
    if idx == 4 {
      assert out == [out[0], out[1], out[2], out[3]];
      return Some(out);
    }
    return None;
  }

  // ----- rendering -----

  /** `{:#04x}`: two hex digits behind `0x`. */
  function HexByte(b: Byte): string {
    "0x" + [Hex.Digit(b / 16), Hex.Digit(b % 16)]
  }

  /** `{}`: decimal, no leading zero. */
  function DecByte(b: Byte): string {
    if b < 10 then [Hex.Digit(b)]
    else if b < 100 then [Hex.Digit(b / 10), Hex.Digit(b % 10)]
    else [Hex.Digit(b / 100), Hex.Digit(b / 10 % 10), Hex.Digit(b % 10)]
  }

  /** `[a, b, c, d]` without its brackets. */
  function Joined(a: string, b: string, c: string, d: string): string {
    a + ", " + b + ", " + c + ", " + d
  }

  predicate IsToken(t: string) {
    t != "" && forall i :: 0 <= i < |t| ==> Hex.IsDigit(t[i]) || t[i] == 'x'
  }

  lemma TrimToken(t: string)
    requires IsToken(t)
    ensures TrimEnd(TrimStart(t)) == t && TrimEnd(TrimStart(" " + t)) == t
  {
  }

  lemma SplitLast(a: string)
    requires ',' !in a
    ensures Split(a) == [a]
  {
    FindNothing(a, ",", 0);
  }

  lemma SplitOnce(a: string, rest: string)
    requires ',' !in a
    ensures Split(a + "," + rest) == [a] + Split(rest)
  {
    var s := a + "," + rest;
    assert s[|a|..|a| + 1] == ",";
    FindIs(s, ",", |a|, 0);
    assert s[..|a|] == a && s[|a| + 1..] == rest;
  }

  lemma SplitJoined(a: string, b: string, c: string, d: string)
    requires IsToken(a) && IsToken(b) && IsToken(c) && IsToken(d)
    ensures Split(Joined(a, b, c, d)) == [a, " " + b, " " + c, " " + d]
    ensures ']' !in Joined(a, b, c, d)
  {
    hide Split;
    TokenChars(a);
    TokenChars(b);
    TokenChars(c);
    TokenChars(d);
    var three := " " + c + "," + (" " + d);
    var two := " " + b + "," + three;
    assert Joined(a, b, c, d) == a + "," + two;
    SplitOnce(a, two);
    SplitOnce(" " + b, three);
    SplitOnce(" " + c, " " + d);
    SplitLast(" " + d);
  }

  lemma TokenChars(t: string)
    requires IsToken(t)
    ensures ',' !in t && ']' !in t && ',' !in " " + t
  {
  }

  lemma PushDigit(s: string, n: nat, radix: nat)
    requires n < radix <= 16 && DigitsValue(s, radix).Some?
    ensures DigitsValue(s + [Hex.Digit(n)], radix) == Some(radix * DigitsValue(s, radix).value + n)
  {
    var t := s + [Hex.Digit(n)];
    assert t[..|t| - 1] == s;
  }

  /** The value of one, two or three digits. */
  lemma DigitsMean(a: nat, b: nat, c: nat, radix: nat)
    requires a < radix <= 16 && b < radix && c < radix
    ensures DigitsValue([Hex.Digit(a)], radix) == Some(a)
    ensures DigitsValue([Hex.Digit(a), Hex.Digit(b)], radix) == Some(radix * a + b)
    ensures DigitsValue([Hex.Digit(a), Hex.Digit(b), Hex.Digit(c)], radix) == Some(radix * (radix * a + b) + c)
  {
    hide Hex.Digit, Hex.Value, Hex.IsDigit;
    var one, two := [Hex.Digit(a)], [Hex.Digit(a), Hex.Digit(b)];
    assert DigitsValue("", radix) == Some(0);
    hide DigitsValue;
    PushDigit("", a, radix);
    assert "" + one == one;
    PushDigit(one, b, radix);
    assert one + [Hex.Digit(b)] == two;
    PushDigit(two, c, radix);
    assert two + [Hex.Digit(c)] == [Hex.Digit(a), Hex.Digit(b), Hex.Digit(c)];
  }

  lemma NoPrefix(t: string)
    requires forall i :: 0 <= i < |t| ==> Hex.IsDigit(t[i])
    ensures StripAll0x(t) == t
  {
    if |t| >= 2 {
      assert t[..2][1] == t[1] != 'x';
    }
  }

  lemma HexByteParses(b: Byte)
    ensures IsToken(HexByte(b)) && ByteOf(HexByte(b)) == Some(b) && ByteOf(" " + HexByte(b)) == Some(b)
  {
    hide DigitsValue;
    var t := HexByte(b);
    TrimToken(t);
    var two := [Hex.Digit(b / 16), Hex.Digit(b % 16)];
    assert t[..2] == "0x" && t[2..] == two;
    NoPrefix(two);
    assert two[0] != '+';
    DigitsMean(b / 16, b % 16, 0, 16);
  }

  function ByteValue(v: Option<nat>): Option<Byte> {
    if v.None? || v.value > 255 then None else Some(v.value)
  }

  lemma DigitsToken(t: string)
    requires t != "" && forall i :: 0 <= i < |t| ==> Hex.IsDigit(t[i])
    ensures IsToken(t) && ByteOf(" " + t) == ByteOf(t)
    ensures ByteOf(t) == if ByteValue(DigitsValue(t, 16)).Some? then ByteValue(DigitsValue(t, 16))
                         else ByteValue(DigitsValue(t, 10))
  {
    hide DigitsValue, TrimStart, TrimEnd, StripAll0x;
    TrimToken(t);
    NoPrefix(t);
    assert t[0] != '+';
  }

  /** A decimal byte is misread as hex exactly when it has two digits. */
  lemma DecByteParses(b: Byte)
    ensures IsToken(DecByte(b))
    ensures ByteOf(DecByte(b)) == Some(if 10 <= b < 100 then 16 * (b / 10) + b % 10 else b)
    ensures ByteOf(" " + DecByte(b)) == ByteOf(DecByte(b))
  {
    hide DigitsValue, ByteOf, Hex.Digit, Hex.Value;
    DigitsToken(DecByte(b));
    if b < 10 {
      DigitsMean(b, 0, 0, 16);
    } else if b < 100 {
      DigitsMean(b / 10, b % 10, 0, 16);
    } else {
      ThreeDigits(b, b / 100, b / 10 % 10, b % 10);
    }
  }

  lemma ThreeDigits(b: Byte, h: nat, t: nat, u: nat)
    requires b >= 100 && h == b / 100 && t == b / 10 % 10 && u == b % 10
    ensures ByteValue(DigitsValue([Hex.Digit(h), Hex.Digit(t), Hex.Digit(u)], 16)).None?
    ensures ByteValue(DigitsValue([Hex.Digit(h), Hex.Digit(t), Hex.Digit(u)], 10)) == Some(b)
  {
    hide DigitsValue, Hex.Digit;
    assert b == 100 * h + 10 * t + u && 1 <= h;
    DigitsMean(h, t, u, 16);
    DigitsMean(h, t, u, 10);
  }

  /** A rendered array is found inside any text without an earlier key or bracket. */
  lemma BracketedText(pre: string, mid: string, inner: string, post: string, key: string)
    requires Find(pre + key + mid + "[" + inner + "]" + post, key) == Some(|pre|)
    requires '[' !in mid && ']' !in inner
    ensures Bracketed(pre + key + mid + "[" + inner + "]" + post, key) == Some(inner)
  {
    hide Find, At, FindFrom;
    var rest := mid + "[" + inner + "]" + post;
    var s := pre + key + mid + "[" + inner + "]" + post;
    assert s == pre + key + rest;
    assert s[|pre + key|..] == rest;
    FirstBracket(mid, inner, post);
    var tail := "[" + inner + "]" + post;
    assert rest == mid + tail;
    assert rest[|mid|..] == tail;
    assert tail[1..1 + |inner|] == inner;
    assert rest[|mid| + 1..|mid| + 1 + |inner|] == rest[|mid|..][1..1 + |inner|];
  }

  lemma FirstBracket(mid: string, inner: string, post: string)
    requires '[' !in mid && ']' !in inner
    ensures Find(mid + "[" + inner + "]" + post, "[") == Some(|mid|)
    ensures Find("[" + inner + "]" + post, "]") == Some(|inner| + 1)
  {
    var rest, tail := mid + "[" + inner + "]" + post, "[" + inner + "]" + post;
    assert rest[|mid|..|mid| + 1] == "[";
    FindIs(rest, "[", |mid|, 0);
    assert tail[|inner| + 1..|inner| + 2] == "]";
    FindIs(tail, "]", |inner| + 1, 0);
  }

  /** Four bytes in hex always parse back, whatever surrounds them. */
  lemma HexSelectorRoundTrip(pre: string, mid: string, sel: Bytes, post: string, key: string)
    requires |sel| == 4
    requires var inner := Joined(HexByte(sel[0]), HexByte(sel[1]), HexByte(sel[2]), HexByte(sel[3]));
             Find(pre + key + mid + "[" + inner + "]" + post, key) == Some(|pre|)
    requires '[' !in mid
    ensures var inner := Joined(HexByte(sel[0]), HexByte(sel[1]), HexByte(sel[2]), HexByte(sel[3]));
            SelectorAfter(pre + key + mid + "[" + inner + "]" + post, key) == Some(sel)
  {
    hide HexByte, ByteOf, Joined, Split, Bracketed, Find;
    HexByteParses(sel[0]);
    HexByteParses(sel[1]);
    HexByteParses(sel[2]);
    HexByteParses(sel[3]);
    SplitJoined(HexByte(sel[0]), HexByte(sel[1]), HexByte(sel[2]), HexByte(sel[3]));
    var inner := Joined(HexByte(sel[0]), HexByte(sel[1]), HexByte(sel[2]), HexByte(sel[3]));
    BracketedText(pre, mid, inner, post, key);
    assert sel == [sel[0], sel[1], sel[2], sel[3]];
  }

  /** What a byte rendered in decimal is read as. */
  function ReadAs(b: Byte): Byte {
    if 10 <= b < 100 then 16 * (b / 10) + b % 10 else b
  }

  /** Four bytes in decimal always parse, and parse back exactly when none has two digits. */
  lemma DecSelectorRoundTrip(pre: string, mid: string, sel: Bytes, post: string, key: string)
    requires |sel| == 4
    requires var inner := Joined(DecByte(sel[0]), DecByte(sel[1]), DecByte(sel[2]), DecByte(sel[3]));
             Find(pre + key + mid + "[" + inner + "]" + post, key) == Some(|pre|)
    requires '[' !in mid
    ensures var inner := Joined(DecByte(sel[0]), DecByte(sel[1]), DecByte(sel[2]), DecByte(sel[3]));
            var parsed := SelectorAfter(pre + key + mid + "[" + inner + "]" + post, key);
            && parsed == Some([ReadAs(sel[0]), ReadAs(sel[1]), ReadAs(sel[2]), ReadAs(sel[3])])
            && (parsed == Some(sel) <==> forall i :: 0 <= i < 4 ==> !(10 <= sel[i] < 100))
  {
    hide DecByte, ByteOf, Joined, Split, Bracketed, Find;
    DecByteParses(sel[0]);
    DecByteParses(sel[1]);
    DecByteParses(sel[2]);
    DecByteParses(sel[3]);
    SplitJoined(DecByte(sel[0]), DecByte(sel[1]), DecByte(sel[2]), DecByte(sel[3]));
    var inner := Joined(DecByte(sel[0]), DecByte(sel[1]), DecByte(sel[2]), DecByte(sel[3]));
    BracketedText(pre, mid, inner, post, key);
    var parsed := SelectorAfter(pre + key + mid + "[" + inner + "]" + post, key).value;
    Misread(sel[0]);
    Misread(sel[1]);
    Misread(sel[2]);
    Misread(sel[3]);
    assert parsed == sel <==> parsed[0] == sel[0] && parsed[1] == sel[1] && parsed[2] == sel[2] && parsed[3] == sel[3];
  }

  lemma Misread(b: Byte)
    ensures 10 <= b ==> 16 * (b / 10) + b % 10 != b
  {
  }

  /** One such input: a last byte of ten comes back as sixteen. */
  lemma TenReadsAsSixteen()
    ensures SelectorAfter("selector: [0, 0, 0, 10]", "selector:") == Some([0, 0, 0, 16])
  {
    hide SelectorAfter, Find;
    var sel: Bytes, inner := [0, 0, 0, 10], "0, 0, 0, 10";
    assert Joined(DecByte(0), DecByte(0), DecByte(0), DecByte(10)) == inner;
    var text := "" + "selector:" + " " + "[" + inner + "]" + "";
    assert text == "selector: [0, 0, 0, 10]";
    assert text[0..9] == "selector:";
    FindIs(text, "selector:", 0, 0);
    DecSelectorRoundTrip("", " ", sel, "", "selector:");
  }
}
