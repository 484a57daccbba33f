/** Octets, big-endian integers and the per-octet exclusive or. */
module Bytes {

  newtype Byte = n: int | 0 <= n < 256

  const U32_LIMIT: nat := 0x1_0000_0000
  const U64_LIMIT: nat := 0x1_0000_0000_0000_0000

  function Pow256(k: nat): (p: nat)
    ensures p > 0
  {
    if k == 0 then 1 else 256 * Pow256(k - 1)
  }

  lemma {:induction false} Pow256Widths()
    ensures Pow256(4) == U32_LIMIT
    ensures Pow256(8) == U64_LIMIT
  {
    assert Pow256(2) == 0x1_0000;
    assert Pow256(4) == 0x1_0000 * Pow256(2);
    assert Pow256(6) == 0x1_0000 * Pow256(4);
    assert Pow256(8) == 0x1_0000 * Pow256(6);
  }

  /** The `k` low-order octets of `n`, most significant first (`to_be_bytes`). */
  function ToBe(n: nat, k: nat): (s: seq<Byte>)
    ensures |s| == k
    decreases k
  {
    if k == 0 then [] else ToBe(n / 256, k - 1) + [(n % 256) as Byte]
  }

  /** Inverse of ToBe (`from_be_bytes`). */
  function FromBe(s: seq<Byte>): nat {
    if s == [] then 0 else 256 * FromBe(s[..|s| - 1]) + s[|s| - 1] as nat
  }

  lemma {:induction false} JoinByte(hi: nat, lo: nat)
    requires lo < 256
    ensures (256 * hi + lo) / 256 == hi
    ensures (256 * hi + lo) % 256 == lo
  {
  }

  lemma {:induction false} FromBeToBe(n: nat, k: nat)
    requires n < Pow256(k)
    ensures FromBe(ToBe(n, k)) == n
    decreases k
  {
    if k > 0 {
      FromBeToBe(n / 256, k - 1);
      assert ToBe(n, k)[..k - 1] == ToBe(n / 256, k - 1);
    }
  }

  lemma {:induction false} ToBeFromBe(s: seq<Byte>)
    ensures FromBe(s) < Pow256(|s|)
    ensures ToBe(FromBe(s), |s|) == s
  {
    if s != [] {
      var init, last := s[..|s| - 1], s[|s| - 1];
      ToBeFromBe(init);
      JoinByte(FromBe(init), last as nat);
      assert s == init + [last];
    }
  }

  function Zeros(n: nat): (s: seq<Byte>)
    ensures |s| == n
  {
    seq(n, _ => 0 as Byte)
  }

  function U32Be(n: nat): (s: seq<Byte>)
    ensures |s| == 4
  {
    ToBe(n, 4)
  }

  function U64Be(n: nat): (s: seq<Byte>)
    ensures |s| == 8
  {
    ToBe(n, 8)
  }

  lemma {:induction false} U32RoundTrip(n: nat)
    requires n < U32_LIMIT
    ensures FromBe(U32Be(n)) == n
  {
    Pow256Widths();
    FromBeToBe(n, 4);
  }

  lemma {:induction false} U64RoundTrip(n: nat)
    requires n < U64_LIMIT
    ensures FromBe(U64Be(n)) == n
  {
    Pow256Widths();
    FromBeToBe(n, 8);
  }

  lemma {:induction false} U32Field(s: seq<Byte>)
    requires |s| == 4
    ensures U32Be(FromBe(s)) == s
  {
    ToBeFromBe(s);
  }

  lemma {:induction false} U64Field(s: seq<Byte>)
    requires |s| == 8
    ensures FromBe(s) < U64_LIMIT
    ensures U64Be(FromBe(s)) == s
  {
    Pow256Widths();
    ToBeFromBe(s);
  }

  function Pow2(k: nat): (p: nat)
    ensures p > 0
  {
    if k == 0 then 1 else 2 * Pow2(k - 1)
  }

  function XorBit(a: nat, b: nat): (r: nat)
    ensures r < 2
  {
    (a % 2 + b % 2) % 2
  }

  lemma {:induction false} XorBitCancels(a: nat, b: nat)
    ensures XorBit(XorBit(a, b), a) == b % 2
  {
    assert a % 2 == 0 || a % 2 == 1;
    assert b % 2 == 0 || b % 2 == 1;
  }

  lemma {:induction false} JoinBit(low: nat, high: nat)
    requires low < 2
    ensures (low + 2 * high) / 2 == high
    ensures (low + 2 * high) % 2 == low
  {
  }

  /** Exclusive or, bit by bit from the lowest. */
  function XorNat(a: nat, b: nat): nat
    decreases a + b
  {
    if a == 0 && b == 0 then 0 else XorBit(a, b) + 2 * XorNat(a / 2, b / 2)
  }

  lemma {:induction false} XorNatBound(a: nat, b: nat, k: nat)
    requires a < Pow2(k) && b < Pow2(k)
    ensures XorNat(a, b) < Pow2(k)
    decreases k
  {
    if k > 0 {
      XorNatBound(a / 2, b / 2, k - 1);
    }
  }

  lemma {:induction false} XorNatStep(a: nat, b: nat)
    ensures XorNat(a, b) == XorBit(a, b) + 2 * XorNat(a / 2, b / 2)
  {
  }

  lemma {:induction false} XorBitOfJoined(low: nat, high: nat, a: nat)
    requires low < 2
    ensures XorBit(low + 2 * high, a) == XorBit(low, a)
  {
    JoinBit(low, high);
  }

  lemma {:induction false} XorNatCancels(a: nat, b: nat)
    ensures XorNat(XorNat(a, b), a) == b
    decreases a + b
  {
    if a != 0 || b != 0 {
      hide XorNat, XorBit;
      var low, high := XorBit(a, b), XorNat(a / 2, b / 2);
      XorNatCancels(a / 2, b / 2);
      XorNatStep(a, b);
      JoinBit(low, high);
      XorNatStep(low + 2 * high, a);
      XorBitOfJoined(low, high, a);
      XorBitCancels(a, b);
    }
  }

  function XorByte(a: Byte, b: Byte): Byte {
    XorNatBound(a as nat, b as nat, 8);
    XorNat(a as nat, b as nat) as Byte
  }

  lemma {:induction false} XorByteCancels(a: Byte, b: Byte)
    ensures XorByte(XorByte(a, b), a) == b
  {
    XorNatCancels(a as nat, b as nat);
  }

  /** Octet-wise exclusive or of two equally long strings. */
  function Xor(a: seq<Byte>, b: seq<Byte>): (r: seq<Byte>)
    requires |a| == |b|
    ensures |r| == |a|
  {
    seq(|a|, i requires 0 <= i < |a| => XorByte(a[i], b[i]))
  }

  lemma {:induction false} XorCancels(a: seq<Byte>, b: seq<Byte>)
    requires |a| == |b|
    ensures Xor(Xor(a, b), a) == b
  {
    forall i | 0 <= i < |a|
      ensures Xor(Xor(a, b), a)[i] == b[i]
    {
      XorByteCancels(a[i], b[i]);
    }
  }

  /** Bit `k` of a number. */
  function Bit(n: nat, k: nat): nat
    decreases k
  {
    if k == 0 then n % 2 else Bit(n / 2, k - 1)
  }

  /** Exclusive or has a bit exactly where one of the two has it. */
  lemma {:induction false} XorBits(a: nat, b: nat, k: nat)
    ensures Bit(XorNat(a, b), k) == if Bit(a, k) == Bit(b, k) then 0 else 1
    decreases k
  {
    hide XorNat;
    XorNatStep(a, b);
    JoinBit(XorBit(a, b), XorNat(a / 2, b / 2));
    if k > 0 {
      XorBits(a / 2, b / 2, k - 1);
    }
  }

  /** Most significant octet first. */
  lemma {:induction false} BigEndianExample()
    ensures U32Be(0x01020304) == [1, 2, 3, 4]
  {
    var n: nat := 0x01020304;
    assert ToBe(0, 0) == [];
    assert ToBe(n / 256 / 256 / 256, 1) == [1];
    assert ToBe(n / 256 / 256, 2) == [1, 2];
    assert ToBe(n / 256, 3) == [1, 2, 3];
    assert ToBe(n, 4) == [1, 2, 3, 4];
  }
}
