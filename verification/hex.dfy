/** Bytes and their lowercase base16 text form (section 8 of RFC 4648),
    as Go's encoding/hex writes it: each byte becomes two characters, the
    high nibble first. */
module Hex {
  import opened Wrappers

  newtype byte = b: int | 0 <= b < 256

  /** The lowercase alphabet "0123456789abcdef". */
  predicate IsLowerHexDigit(c: char) {
    '0' <= c <= '9' || 'a' <= c <= 'f'
  }

  predicate IsLowerHex(s: string) {
    forall i | 0 <= i < |s| :: IsLowerHexDigit(s[i])
  }

  /** The character for a nibble. */
  function HexDigit(n: int): (c: char)
    requires 0 <= n < 16
    ensures IsLowerHexDigit(c)
  {
    if n < 10 then ('0' as int + n) as char else ('a' as int + (n - 10)) as char
  }

  /** The nibble a character stands for, for the lowercase alphabet only. */
  function DigitValue(c: char): (v: Option<int>)
    ensures v.Some? <==> IsLowerHexDigit(c)
    ensures v.Some? ==> 0 <= v.value < 16 && HexDigit(v.value) == c
  {
    if '0' <= c <= '9' then Some(c as int - '0' as int)
    else if 'a' <= c <= 'f' then Some(c as int - 'a' as int + 10)
    else None
  }

  /** hex.EncodeToString. */
  function HexEncode(bs: seq<byte>): (s: string)
    ensures |s| == 2 * |bs|
    ensures IsLowerHex(s)
  {
    if |bs| == 0 then ""
    else [HexDigit(bs[0] as int / 16), HexDigit(bs[0] as int % 16)] + HexEncode(bs[1..])
  }

  /** The inverse of HexEncode on even-length lowercase strings; None on
      anything else. */
  function HexDecode(s: string): (r: Option<seq<byte>>)
    ensures r.Some? ==> 2 * |r.value| == |s|
  {
    if |s| == 0 then Some([])
    else if |s| == 1 then None
    else
      match (DigitValue(s[0]), DigitValue(s[1]), HexDecode(s[2..]))
      case (Some(hi), Some(lo), Some(rest)) => Some([(hi * 16 + lo) as byte] + rest)
      case _ => None
  }

  lemma DigitRoundTrip(n: int)
    requires 0 <= n < 16
    ensures DigitValue(HexDigit(n)) == Some(n)
  {
  }

  /** Decoding an encoding gives back the bytes. */
  lemma {:induction false} HexRoundTrip(bs: seq<byte>)
    ensures HexDecode(HexEncode(bs)) == Some(bs)
  {
    if |bs| > 0 {
      var s := HexEncode(bs);
      var hi, lo := bs[0] as int / 16, bs[0] as int % 16;
      assert s[2..] == HexEncode(bs[1..]);
      DigitRoundTrip(hi);
      DigitRoundTrip(lo);
      HexRoundTrip(bs[1..]);
      assert (hi * 16 + lo) as byte == bs[0];
      assert [bs[0]] + bs[1..] == bs;
    }
  }

  /** Encoding a successful decoding gives back the text: together with
      HexRoundTrip, HexEncode is a bijection onto even-length lowercase
      hex strings. */
  lemma {:induction false} HexDecodeRoundTrip(s: string)
    requires HexDecode(s).Some?
    ensures HexEncode(HexDecode(s).value) == s
  {
    if |s| > 0 {
      HexDecodeRoundTrip(s[2..]);
      var hi, lo := DigitValue(s[0]).value, DigitValue(s[1]).value;
      var b := (hi * 16 + lo) as byte;
      assert b as int / 16 == hi && b as int % 16 == lo;
      assert HexDecode(s).value == [b] + HexDecode(s[2..]).value;
      assert HexDecode(s).value[1..] == HexDecode(s[2..]).value;
      assert s == [s[0], s[1]] + s[2..];
    }
  }

  /** Distinct byte strings have distinct encodings. */
  lemma HexEncodeInjective(a: seq<byte>, b: seq<byte>)
    ensures HexEncode(a) == HexEncode(b) <==> a == b
  {
    if HexEncode(a) == HexEncode(b) {
      HexRoundTrip(a);
      HexRoundTrip(b);
    }
  }
}
