/**
 Byte strings, the fixed-width integer types of the source, and the two integer
 encodings every statement of the repository is laid out with.
 */
module Octets {

  type Byte = b: int | 0 <= b < 256
  type Bytes = seq<Byte>

  type Bytes20 = s: Bytes | |s| == 20 witness seq(20, _ => 0)
  type Bytes32 = s: Bytes | |s| == 32 witness seq(32, _ => 0)

  type U16 = n: nat | n < 0x1_0000
  type U32 = n: nat | n < 0x1_0000_0000
  type U64 = n: nat | n < 0x1_0000_0000_0000_0000
  type U128 = n: nat | n < 0x1_0000_0000_0000_0000_0000_0000_0000_0000

  const TWO_32: nat := 0x1_0000_0000
  const TWO_64: nat := 0x1_0000_0000_0000_0000
  const TWO_256: nat := 0x1_0000_0000_0000_0000_0000_0000_0000_0000_0000_0000_0000_0000_0000_0000_0000_0000

  /** The BN254 scalar modulus, the field the protocol's values live in. */
  const BN254_R: nat := 0x30644e72e131a029b85045b68181585d2833e84879b9709143e1f593f0000001

  /** The bytes of an ASCII literal such as `b"bdp-seal-id-v3"`. */
  function Ascii(s: string): (r: Bytes)
    ensures |r| == |s|
  {
    seq(|s|, i requires 0 <= i < |s| => s[i] as int % 256)
  }

  function Pow256(k: nat): (p: nat)
    ensures p > 0
  {
    if k == 0 then 1 else 256 * Pow256(k - 1)
  }

  lemma Pow256Values()
    ensures Pow256(2) == 0x1_0000
    ensures Pow256(4) == TWO_32
    ensures Pow256(8) == TWO_64
    ensures Pow256(32) == TWO_256
  {
    Pow256Sum(1, 1);
    assert Pow256(2) == 0x1_0000;
    Pow256Sum(2, 2);
    assert Pow256(4) == TWO_32;
    Pow256Sum(4, 4);
    hide Pow256;
    assert Pow256(8) == TWO_64;
    Pow256Sum(8, 8);
    Pow256Sum(16, 16);
  }

  lemma {:induction false} Pow256Sum(a: nat, b: nat)
    ensures Pow256(a + b) == Pow256(a) * Pow256(b)
  {
    if a == 0 {
    } else {
      Pow256Sum(a - 1, b);
      calc {
        Pow256(a + b);
        256 * Pow256(a - 1 + b);
        256 * (Pow256(a - 1) * Pow256(b));
        256 * Pow256(a - 1) * Pow256(b);
      }
    }
  }

  /** `to_le_bytes`: the `width` low bytes of `n`, least significant first. */
  function Le(n: nat, width: nat): (r: Bytes)
    ensures |r| == width
  {
    if width == 0 then [] else [n % 256] + Le(n / 256, width - 1)
  }

  function FromLe(s: Bytes): nat {
    if s == [] then 0 else s[0] + 256 * FromLe(s[1..])
  }

  /** `to_be_bytes`: the `width` low bytes of `n`, most significant first. */
  function Be(n: nat, width: nat): (r: Bytes)
    ensures |r| == width
  {
    if width == 0 then [] else Be(n / 256, width - 1) + [n % 256]
  }

  function FromBe(s: Bytes): nat {
    if s == [] then 0 else 256 * FromBe(s[..|s| - 1]) + s[|s| - 1]
  }

  lemma {:induction false} LeRoundTrip(n: nat, width: nat)
    requires n < Pow256(width)
    ensures FromLe(Le(n, width)) == n
  {
    if width == 0 {
    } else {
      assert n / 256 < Pow256(width - 1);
      LeRoundTrip(n / 256, width - 1);
      assert Le(n, width)[1..] == Le(n / 256, width - 1);
    }
  }

  lemma {:induction false} BeRoundTrip(n: nat, width: nat)
    requires n < Pow256(width)
    ensures FromBe(Be(n, width)) == n
  {
    if width == 0 {
    } else {
      assert n / 256 < Pow256(width - 1);
      BeRoundTrip(n / 256, width - 1);
      assert Be(n, width)[..width - 1] == Be(n / 256, width - 1);
    }
  }

  lemma {:induction false} FromBeBound(s: Bytes)
    ensures FromBe(s) < Pow256(|s|)
  {
    if s == [] {
    } else {
      FromBeBound(s[..|s| - 1]);
    }
  }

  /** Big-endian: the first byte weighs most. */
  lemma {:induction false} FirstWeighsMost(b: Byte, s: Bytes)
    ensures FromBe([b] + s) == b * Pow256(|s|) + FromBe(s)
  {
    if s == [] {
      assert FromBe([]) == 0 && [b] + s == [b] && [b][..0] == [];
    } else {
      var front, last := s[..|s| - 1], s[|s| - 1];
      FirstWeighsMost(b, front);
      assert ([b] + s)[..|s|] == [b] + front;
      assert 256 * (b * Pow256(|front|)) == b * Pow256(|s|);
    }
  }

  /** Little-endian: the last byte weighs most. */
  lemma {:induction false} LastWeighsMost(s: Bytes, b: Byte)
    ensures FromLe(s + [b]) == FromLe(s) + b * Pow256(|s|)
  {
    if s == [] {
      assert s + [b] == [b] && [b][1..] == [];
    } else {
      LastWeighsMost(s[1..], b);
      assert (s + [b])[1..] == s[1..] + [b];
      assert 256 * (b * Pow256(|s| - 1)) == b * Pow256(|s|);
    }
  }

  /** Fixed-width big-endian strings and the numbers they denote determine each other. */
  lemma {:induction false} BeOfFromBe(s: Bytes)
    ensures Be(FromBe(s), |s|) == s
  {
    if s == [] {
    } else {
      BeOfFromBe(s[..|s| - 1]);
      assert FromBe(s) / 256 == FromBe(s[..|s| - 1]);
      assert s == s[..|s| - 1] + [s[|s| - 1]];
    }
  }

  /** The `u16`, `u32` and `u64` fields of a little-endian layout read back. */
  lemma LeFields(a: U16, b: U32, c: U64)
    ensures FromLe(Le(a, 2)) == a
    ensures FromLe(Le(b, 4)) == b
    ensures FromLe(Le(c, 8)) == c
  {
    Pow256Values();
    LeRoundTrip(a, 2);
    LeRoundTrip(b, 4);
    LeRoundTrip(c, 8);
  }

  lemma {:induction false} FromLeBound(s: Bytes)
    ensures FromLe(s) < Pow256(|s|)
  {
    if s == [] {
    } else {
      FromLeBound(s[1..]);
    }
  }

  /**
   Two distinct inputs with one digest. Every binding theorem names the two inputs:
   that some collision exists would say nothing, since a digest has fixed length.
   */
  ghost predicate Collision<X, Y>(h: X -> Y, x: X, y: X) {
    x != y && h(x) == h(y)
  }
}
