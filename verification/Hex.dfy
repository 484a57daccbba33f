/** Lower-case hexadecimal text, as the `hex` crate writes and reads it. */
module Hex {
  import opened Prelude
  import opened Bytes

  const DIGITS: string := "0123456789abcdef"

  /** The value of a hex digit; upper case is read too. */
  function DigitValue(c: char): (v: Option<nat>)
    ensures v.Some? ==> v.value < 16
  {
    if '0' <= c <= '9' then Some((c - '0') as nat)
    else if 'a' <= c <= 'f' then Some((c - 'a') as nat + 10)
    else if 'A' <= c <= 'F' then Some((c - 'A') as nat + 10)
    else None
  }

  /** The two digits of an octet's value. */
  function DigitsOf(n: nat): (s: string)
    requires n < 256
    ensures |s| == 2
  {
    [DIGITS[n / 16], DIGITS[n % 16]]
  }

  function EncodeByte(b: Byte): (s: string)
    ensures |s| == 2
  {
    DigitsOf(b as nat)
  }

  function Encode(bytes: seq<Byte>): (s: string)
    ensures |s| == 2 * |bytes|
  {
    if bytes == [] then [] else EncodeByte(bytes[0]) + Encode(bytes[1..])
  }

  function Decode(s: string): (r: Option<seq<Byte>>)
    ensures r.Some? ==> |s| == 2 * |r.value|
  {
    if s == [] then Some([])
    else if |s| == 1 then None
    else
      var hi, lo, rest := DigitValue(s[0]), DigitValue(s[1]), Decode(s[2..]);
      if hi.None? || lo.None? || rest.None? then None
      else Some([ByteOf(hi.value, lo.value)] + rest.value)
  }

  lemma {:induction false} DigitOf(v: nat)
    requires v < 16
    ensures DigitValue(DIGITS[v]) == Some(v)
  {
  }

  function ByteOf(hi: nat, lo: nat): Byte
    requires hi < 16 && lo < 16
  {
    (16 * hi + lo) as Byte
  }

  lemma {:induction false} DigitsOfDecodes(n: nat)
    requires n < 256
    ensures var s := DigitsOf(n);
            var hi, lo := DigitValue(s[0]), DigitValue(s[1]);
            hi.Some? && lo.Some? && 16 * hi.value + lo.value == n
  {
    DigitOf(n / 16);
    DigitOf(n % 16);
  }

  lemma {:induction false} EncodedByte(b: Byte)
    ensures var s := EncodeByte(b);
            var hi, lo := DigitValue(s[0]), DigitValue(s[1]);
            hi.Some? && lo.Some? && ByteOf(hi.value, lo.value) == b
  {
    DigitsOfDecodes(b as nat);
  }

  lemma {:induction false} DecodeEncode(bytes: seq<Byte>)
    ensures Decode(Encode(bytes)) == Some(bytes)
  {
    if bytes != [] {
      var s := Encode(bytes);
      DecodeEncode(bytes[1..]);
      EncodedByte(bytes[0]);
      assert s[0] == EncodeByte(bytes[0])[0] && s[1] == EncodeByte(bytes[0])[1];
      assert s[2..] == Encode(bytes[1..]);
      assert bytes == [bytes[0]] + bytes[1..];
    }
  }

  const CAPITALS: string := "ABCDEF"

  /** A hex digit, in either case. */
  predicate IsDigit(c: char) {
    c in DIGITS || c in CAPITALS
  }

  /** The digit as `Encode` writes it. */
  function Small(c: char): char {
    if c in CAPITALS then c - 'A' + 'a' else c
  }

  lemma {:induction false} DigitValueMeans(c: char)
    ensures DigitValue(c).Some? <==> IsDigit(c)
    ensures DigitValue(c).Some? ==> DIGITS[DigitValue(c).value] == Small(c)
  {
    if '0' <= c <= '9' {
      assert DIGITS[(c - '0') as int] == c;
    } else if 'a' <= c <= 'f' {
      assert DIGITS[(c - 'a') as int + 10] == c;
    } else if 'A' <= c <= 'F' {
      assert CAPITALS[(c - 'A') as int] == c;
      assert DIGITS[(c - 'A') as int + 10] == c - 'A' + 'a';
    }
  }

  lemma {:induction false} EncodeByteOf(hi: nat, lo: nat)
    requires hi < 16 && lo < 16
    ensures EncodeByte(ByteOf(hi, lo)) == [DIGITS[hi], DIGITS[lo]]
  {
    SplitNibbles(hi, lo);
  }

  lemma {:induction false} SplitNibbles(hi: nat, lo: nat)
    requires lo < 16
    ensures (16 * hi + lo) / 16 == hi && (16 * hi + lo) % 16 == lo
  {
  }

  /** What reads at all, and as what: text of an even number of hex digits, as the octets whose hex
      text it is in small letters. */
  lemma {:induction false} DecodesExactly(s: string)
    ensures Decode(s).Some? <==> |s| % 2 == 0 && forall i :: 0 <= i < |s| ==> IsDigit(s[i])
    ensures Decode(s).Some? ==> |Encode(Decode(s).value)| == |s| && forall i :: 0 <= i < |s| ==> Encode(Decode(s).value)[i] == Small(s[i])
  {
    hide DigitValue, EncodeByte, ByteOf, IsDigit, Small;
    if |s| >= 2 {
      var rest := s[2..];
      DecodesExactly(rest);
      DigitValueMeans(s[0]);
      DigitValueMeans(s[1]);
      assert forall i :: 2 <= i < |s| ==> s[i] == rest[i - 2];
      assert forall i :: 0 <= i < |rest| ==> rest[i] == s[i + 2];
      if Decode(s).Some? {
        var hi, lo, b := DigitValue(s[0]).value, DigitValue(s[1]).value, Decode(s).value;
        EncodeByteOf(hi, lo);
        assert b[1..] == Decode(rest).value && b[0] == ByteOf(hi, lo);
      }
    }
  }

  /** The high digit comes first. */
  lemma {:induction false} HexExample()
    ensures Encode([0x1f, 0xa0]) == "1fa0"
  {
    assert EncodeByte(0x1f) == "1f" && EncodeByte(0xa0) == "a0";
    assert [0x1f as Byte, 0xa0][1..] == [0xa0] && [0xa0 as Byte][1..] == [];
    assert Encode([0xa0]) == "a0";
  }
}
