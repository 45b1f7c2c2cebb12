// Machine integers and the little-endian codecs of Go's encoding/binary.

module Bytes {

  const U8 := 0x100
  const U32 := 0x1_0000_0000
  const U64 := 0x1_0000_0000_0000_0000

  type byte = x: int | 0 <= x < U8
  type int8 = x: int | -0x80 <= x < 0x80
  type uint32 = x: int | 0 <= x < U32
  type uint64 = x: int | 0 <= x < U64

  // Go's conversions between int8 and byte keep the bit pattern.
  function Int8ToByte(x: int8): byte {
    if x < 0 then x + U8 else x
  }

  function ByteToInt8(b: byte): int8 {
    if b < 0x80 then b else b - U8
  }

  function Pow256(w: nat): (p: nat)
    ensures p > 0
  {
    if w == 0 then 1 else U8 * Pow256(w - 1)
  }

  function ToLE(n: nat, w: nat): (s: seq<byte>)
    ensures |s| == w
  {
    if w == 0 then [] else [n % U8] + ToLE(n / U8, w - 1)
  }

  // The number whose digits, lowest first, are s[i..].
  function FromLE(s: seq<byte>, i: nat): (n: nat)
    requires i <= |s|
    ensures n < Pow256(|s| - i)
    decreases |s| - i
  {
    if i == |s| then 0 else s[i] + U8 * FromLE(s, i + 1)
  }

  lemma Widths()
    ensures Pow256(4) == U32 && Pow256(8) == U64
  {
    assert Pow256(2) == U8 * U8;
    assert Pow256(4) == U8 * U8 * Pow256(2);
    assert Pow256(6) == U8 * U8 * Pow256(4);
    assert Pow256(8) == U8 * U8 * Pow256(6);
  }

  // Bytes at..at + w of s hold n, lowest byte first.
  predicate HoldsAt(s: seq<byte>, at: nat, n: nat, w: nat) {
    at + w <= |s| && forall i :: 0 <= i < w ==> s[at + i] == n / Pow256(i) % 256
  }

  lemma DivideTwice(n: nat, b: nat)
    requires b > 0
    ensures n / (U8 * b) == n / U8 / b
  {
    var q := n / U8;
    var q2, r2 := q / b, q % b;
    assert q == b * q2 + r2;
    var p := b * q2;
    assert n == U8 * p + (U8 * r2 + n % U8);
    assert (U8 * b) * q2 == U8 * p;
    DivisionIs(n, U8 * b, q2, U8 * r2 + n % U8);
  }

  lemma DivisionIs(n: nat, m: nat, q: nat, r: nat)
    requires m > 0 && n == m * q + r && r < m
    ensures n / m == q
  {
    var q', r' := n / m, n % m;
    assert n == m * q' + r' && 0 <= r' < m;
    if q < q' { AtLeastOnce(m, q' - q); }
    if q > q' { AtLeastOnce(m, q - q'); }
  }

  lemma AtLeastOnce(m: nat, k: nat)
    requires k > 0
    ensures m * k == m * (k - 1) + m >= m
  {
  }

  lemma {:induction false} EncodedDigits(n: nat, w: nat)
    ensures HoldsAt(ToLE(n, w), 0, n, w)
  {
    if w > 0 {
      EncodedDigits(n / U8, w - 1);
      var s, rest := ToLE(n, w), ToLE(n / U8, w - 1);
      forall i | 0 <= i < w ensures s[0 + i] == n / Pow256(i) % 256 {
        if i > 0 {
          assert s[i] == rest[0 + (i - 1)] == n / U8 / Pow256(i - 1) % 256;
          DivideTwice(n, Pow256(i - 1));
        }
      }
    }
  }

  // Decoding inverts encoding on every number the width can hold.
  lemma {:induction false} DecodeEncode(n: nat, w: nat, pre: seq<byte>)
    requires n < Pow256(w)
    ensures FromLE(pre + ToLE(n, w), |pre|) == n
  {
    if w > 0 {
      DecodeEncode(n / U8, w - 1, pre + [n % U8]);
      assert pre + [n % U8] + ToLE(n / U8, w - 1) == pre + ToLE(n, w);
    }
  }

  // Encoding inverts decoding on every byte string.
  lemma {:induction false} EncodeDecode(s: seq<byte>, i: nat)
    requires i <= |s|
    ensures ToLE(FromLE(s, i), |s| - i) == s[i..]
    decreases |s| - i
  {
    if i < |s| {
      EncodeDecode(s, i + 1);
      assert FromLE(s, i) / U8 == FromLE(s, i + 1);
    }
  }

  function Put32(n: uint32): (s: seq<byte>)
    ensures |s| == 4
    ensures Get32(s) == n
  {
    Widths();
    DecodeEncode(n, 4, []);
    assert [] + ToLE(n, 4) == ToLE(n, 4);
    ToLE(n, 4)
  }

  function Get32(s: seq<byte>): (n: uint32)
    requires |s| == 4
  {
    Widths();
    FromLE(s, 0)
  }

  function Put64(n: uint64): (s: seq<byte>)
    ensures |s| == 8
    ensures Get64(s) == n
  {
    Widths();
    DecodeEncode(n, 8, []);
    assert [] + ToLE(n, 8) == ToLE(n, 8);
    ToLE(n, 8)
  }

  function Get64(s: seq<byte>): (n: uint64)
    requires |s| == 8
  {
    Widths();
    FromLE(s, 0)
  }

  lemma Put32Holds(n: uint32)
    ensures HoldsAt(Put32(n), 0, n, 4)
  {
    EncodedDigits(n, 4);
  }

  lemma Put64Holds(n: uint64)
    ensures HoldsAt(Put64(n), 0, n, 8)
  {
    EncodedDigits(n, 8);
  }

  // Two byte strings that hold the same number in the same place agree there.
  lemma SameHolding(s: seq<byte>, t: seq<byte>, at: nat, n: nat, w: nat)
    requires HoldsAt(s, at, n, w) && HoldsAt(t, at, n, w)
    ensures s[at..at + w] == t[at..at + w]
  {
    var a, b := s[at..at + w], t[at..at + w];
    forall i | 0 <= i < w ensures a[i] == b[i] {
      assert s[at + i] == n / Pow256(i) % 256 == t[at + i];
    }
  }

  lemma HoldsZero(s: seq<byte>, at: nat, w: nat)
    requires HoldsAt(s, at, 0, w)
    ensures forall i :: at <= i < at + w ==> s[i] == 0
  {
    forall i | at <= i < at + w ensures s[i] == 0 {
      assert s[at + (i - at)] == 0 / Pow256(i - at) % 256;
    }
  }

  lemma HoldsInside(pre: seq<byte>, x: seq<byte>, post: seq<byte>, n: nat, w: nat)
    requires HoldsAt(x, 0, n, w)
    ensures HoldsAt(pre + x + post, |pre|, n, w)
  {
    var s := pre + x + post;
    forall i | 0 <= i < w ensures s[|pre| + i] == n / Pow256(i) % 256 {
      assert s[|pre| + i] == x[0 + i];
    }
  }

  lemma SliceHolds(s: seq<byte>, at: nat, x: seq<byte>, n: nat, w: nat)
    requires HoldsAt(x, 0, n, w) && |x| == w && at + w <= |s| && s[at..at + w] == x
    ensures HoldsAt(s, at, n, w)
  {
    forall i | 0 <= i < w ensures s[at + i] == n / Pow256(i) % 256 {
      assert s[at + i] == s[at..at + w][i] == x[0 + i];
    }
  }

  lemma Slice64(s: seq<byte>, at: nat, n: uint64)
    requires at + 8 <= |s| && s[at..at + 8] == Put64(n)
    ensures HoldsAt(s, at, n, 8)
  {
    Put64Holds(n);
    SliceHolds(s, at, Put64(n), n, 8);
  }

  lemma Slice32(s: seq<byte>, at: nat, n: uint32)
    requires at + 4 <= |s| && s[at..at + 4] == Put32(n)
    ensures HoldsAt(s, at, n, 4)
  {
    Put32Holds(n);
    SliceHolds(s, at, Put32(n), n, 4);
  }

  lemma Put32Get32(s: seq<byte>)
    requires |s| == 4
    ensures Put32(Get32(s)) == s
  {
    EncodeDecode(s, 0);
  }

  lemma Put64Get64(s: seq<byte>)
    requires |s| == 8
    ensures Put64(Get64(s)) == s
  {
    EncodeDecode(s, 0);
  }
}
