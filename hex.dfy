/**
 * Lower-case hexadecimal rendering of digests, as the service writes it with
 * `joinToString("") { "%02x".format(it) }` (a signed byte is printed as its
 * unsigned value, so every byte gives exactly two digits).
 */
module Hex {
  newtype byte = b: int | 0 <= b < 256

  /** An MD5 digest: sixteen bytes. */
  type Digest = d: seq<byte> | |d| == 16 witness seq(16, _ => 0)

  const Digits: string := "0123456789abcdef"

  function HexDigit(n: int): char
    requires 0 <= n < 16
  {
    Digits[n]
  }

  /** The value of a lower-case hex digit; -1 for any other character. */
  function DigitValue(c: char): (v: int)
    ensures -1 <= v < 16
    ensures v >= 0 ==> HexDigit(v) == c
  {
    if '0' <= c <= '9' then c as int - '0' as int
    else if 'a' <= c <= 'f' then c as int - 'a' as int + 10
    else -1
  }

  lemma DigitValueOfHexDigit(n: int)
    requires 0 <= n < 16
    ensures DigitValue(HexDigit(n)) == n
  {
  }

  predicate IsHexDigit(c: char)
  {
    DigitValue(c) >= 0
  }

  /** `"%02x".format(b)`. */
  function ByteHex(b: byte): (r: string)
    ensures |r| == 2 && IsHexDigit(r[0]) && IsHexDigit(r[1])
    ensures DigitValue(r[0]) * 16 + DigitValue(r[1]) == b as int
  {
    DigitValueOfHexDigit(b as int / 16);
    DigitValueOfHexDigit(b as int % 16);
    [HexDigit(b as int / 16), HexDigit(b as int % 16)]
  }

  /** The digest rendered as text, two digits per byte. */
  function Encode(bs: seq<byte>): (r: string)
    ensures |r| == 2 * |bs|
    decreases |bs|
  {
    if bs == [] then "" else ByteHex(bs[0]) + Encode(bs[1..])
  }

  /** The byte two hex digits stand for (0 when they are not hex digits). */
  function PairValue(hi: char, lo: char): (b: byte)
    ensures IsHexDigit(hi) && IsHexDigit(lo) ==> b as int == DigitValue(hi) * 16 + DigitValue(lo)
  {
    var v := DigitValue(hi) * 16 + DigitValue(lo);
    if 0 <= v < 256 then v as byte else 0
  }

  /** Reads two digits per byte back; the inverse of `Encode` on well-formed text. */
  function Decode(s: string): seq<byte>
    requires |s| % 2 == 0
    decreases |s|
  {
    if s == [] then [] else [PairValue(s[0], s[1])] + Decode(s[2..])
  }

  predicate IsLowerHex(s: string)
  {
    forall i :: 0 <= i < |s| ==> IsHexDigit(s[i])
  }

  lemma {:induction false} EncodeIsLowerHex(bs: seq<byte>)
    ensures IsLowerHex(Encode(bs))
    decreases |bs|
  {
    if bs != [] {
      EncodeIsLowerHex(bs[1..]);
      var h, t := ByteHex(bs[0]), Encode(bs[1..]);
      assert Encode(bs) == h + t;
      forall i | 0 <= i < |h + t| ensures IsHexDigit((h + t)[i]) {
        if i >= 2 { assert (h + t)[i] == t[i - 2]; }
      }
    }
  }

  /** The two digits of one byte stand for that byte. */
  lemma PairOfByteHex(b: byte)
    ensures PairValue(ByteHex(b)[0], ByteHex(b)[1]) == b
  {
    var r := ByteHex(b);
    assert IsHexDigit(r[0]) && IsHexDigit(r[1]);
  }

  /** Reading back the two digits of one byte. */
  lemma DecodeByteHex(b: byte, t: string)
    requires |t| % 2 == 0
    ensures Decode(ByteHex(b) + t) == [b] + Decode(t)
  {
    var r := ByteHex(b);
    var s := r + t;
    assert s[2..] == t;
    assert s[0] == r[0] && s[1] == r[1];
    PairOfByteHex(b);
  }

  /** Rendering a digest and reading it back gives the digest. */
  lemma {:induction false} DecodeEncode(bs: seq<byte>)
    ensures |Encode(bs)| % 2 == 0 && Decode(Encode(bs)) == bs
    decreases |bs|
  {
    EvenTimesTwo(|bs|);
    if bs != [] {
      var t := Encode(bs[1..]);
      DecodeEncode(bs[1..]);
      DecodeByteHex(bs[0], t);
      assert Encode(bs) == ByteHex(bs[0]) + t;
      assert [bs[0]] + bs[1..] == bs;
    }
  }

  /** Twice a number is even. */
  lemma EvenTimesTwo(n: nat)
    ensures (2 * n) % 2 == 0
  {
  }

  /** Distinct digests give distinct texts, hence distinct blob names. */
  lemma EncodeInjective(a: seq<byte>, b: seq<byte>)
    requires Encode(a) == Encode(b)
    ensures a == b
  {
    DecodeEncode(a);
    DecodeEncode(b);
  }

  /** The text of an MD5 digest is 32 lower-case hex digits. */
  lemma DigestText(d: Digest)
    ensures |Encode(d)| == 32 && IsLowerHex(Encode(d))
  {
    EncodeIsLowerHex(d);
  }
}
