/** Hexadecimal text, as the `hex` crate reads and writes it. */
module Hex {
  import opened Octets
  import opened Wrappers

  predicate IsDigit(c: char) {
    '0' <= c <= '9' || 'a' <= c <= 'f' || 'A' <= c <= 'F'
  }

  function Value(c: char): nat
    requires IsDigit(c)
  {
    if c <= '9' then c as int - '0' as int
    else if c <= 'F' then c as int - 'A' as int + 10
    else c as int - 'a' as int + 10
  }

  function Digit(n: nat): (c: char)
    requires n < 16
    ensures IsDigit(c) && Value(c) == n
  {
    if n < 10 then ('0' as int + n) as char else ('a' as int + n - 10) as char
  }

  /** The sixteen digits, in either case. */
  lemma DigitValues(n: nat)
    requires n < 16
    ensures IsDigit("0123456789abcdef"[n]) && Value("0123456789abcdef"[n]) == n
    ensures IsDigit("0123456789ABCDEF"[n]) && Value("0123456789ABCDEF"[n]) == n
    ensures Digit(n) == "0123456789abcdef"[n]
  {
  }

  predicate AllDigits(s: string) {
    forall i :: 0 <= i < |s| ==> IsDigit(s[i])
  }

  function Decode(s: string): Option<Bytes> {
    if s == "" then Some([])
    else if |s| == 1 || !IsDigit(s[0]) || !IsDigit(s[1]) then None
    else
      var rest := Decode(s[2..]);
      if rest.None? then None
      else
        assert Value(s[0]) <= 15 && Value(s[1]) <= 15;
        Some([16 * Value(s[0]) + Value(s[1])] + rest.value)
  }

  function Encode(b: Bytes): string {
    if b == [] then "" else [Digit(b[0] / 16), Digit(b[0] % 16)] + Encode(b[1..])
  }

  /** Decoding accepts exactly the digit strings of even length, two digits a byte. */
  lemma {:induction false} DecodeAccepts(s: string)
    ensures Decode(s).Some? <==> |s| % 2 == 0 && AllDigits(s)
    ensures Decode(s).Some? ==> 2 * |Decode(s).value| == |s|
    decreases |s|
  {
    if |s| >= 2 {
      DecodeAccepts(s[2..]);
      if AllDigits(s[2..]) && IsDigit(s[0]) && IsDigit(s[1]) {
        forall i | 0 <= i < |s| ensures IsDigit(s[i]) {
          assert i >= 2 ==> s[i] == s[2..][i - 2];
        }
      }
      assert AllDigits(s) ==> AllDigits(s[2..]);
    }
  }

  lemma {:induction false} DecodeEncode(b: Bytes)
    ensures Decode(Encode(b)) == Some(b)
  {
    if b == [] {
    } else {
      DecodeEncode(b[1..]);
      assert Encode(b)[2..] == Encode(b[1..]);
      assert [16 * (b[0] / 16) + b[0] % 16] + b[1..] == b;
    }
  }
}
