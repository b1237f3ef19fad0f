/** Base16 as in section 8 of RFC 4648: every octet becomes two hexadecimal digits, high
    nibble first. Go's `hex.EncodeToString` and `fmt.Sprintf("%x", ...)` write lower-case
    digits; upper-case digits are what `strings.ToUpper` makes of them. */
module Hex {
  import opened Wrappers
  import opened Strs
  import opened Streams

  /** The digit of the nibble `d` in "0123456789abcdef". */
  function LowerDigit(d: nat): char
    requires d < 16
  {
    if d < 10 then ('0' as int + d) as char else ('a' as int + d - 10) as char
  }

  /** The digit of the nibble `d` in "0123456789ABCDEF". */
  function UpperDigit(d: nat): char
    requires d < 16
  {
    if d < 10 then ('0' as int + d) as char else ('A' as int + d - 10) as char
  }

  /** The value of a hexadecimal digit of either case. */
  function NibbleOf(c: char): (r: Option<nat>)
    ensures r.Some? ==> r.value < 16
    ensures r.Some? ==> LowerDigit(r.value) == LowerChar(c)
  {
    if '0' <= c <= '9' then Some(c as int - '0' as int)
    else if 'a' <= c <= 'f' then Some(c as int - 'a' as int + 10)
    else if 'A' <= c <= 'F' then Some(c as int - 'A' as int + 10)
    else None
  }

  /** Lower-case base16. */
  function EncodeLower(bs: Bytes): (s: string)
    ensures |s| == 2 * |bs|
  {
    if bs == [] then []
    else [LowerDigit(bs[0] / 16), LowerDigit(bs[0] % 16)] + EncodeLower(bs[1..])
  }

  /** Upper-case base16. */
  function EncodeUpper(bs: Bytes): (s: string)
    ensures |s| == 2 * |bs|
  {
    if bs == [] then []
    else [UpperDigit(bs[0] / 16), UpperDigit(bs[0] % 16)] + EncodeUpper(bs[1..])
  }

  /** Base16 decoding, accepting digits of either case; `None` for an odd length or a
      character that is not a hexadecimal digit. */
  function Decode(s: string): (r: Option<Bytes>)
    ensures r.Some? ==> 2 * |r.value| == |s|
    decreases |s|
  {
    if s == [] then Some([])
    else if |s| == 1 then None
    else match (NibbleOf(s[0]), NibbleOf(s[1]), Decode(s[2..]))
      case (Some(hi), Some(lo), Some(rest)) => Some([hi * 16 + lo] + rest)
      case _ => None
  }

  lemma DigitRoundTrip(d: nat)
    requires d < 16
    ensures NibbleOf(LowerDigit(d)) == Some(d)
    ensures NibbleOf(UpperDigit(d)) == Some(d)
  {
  }

  lemma SplitByte(b: Byte)
    ensures b / 16 < 16 && (b / 16) * 16 + b % 16 == b
  {
  }

  /** Two digits whose values are the nibbles of `b`, followed by the text of `rest`,
      decode to `b` followed by `rest`. */
  lemma DecodeStep(s: string, b: Byte, rest: Bytes)
    requires |s| >= 2
    requires NibbleOf(s[0]) == Some(b / 16) && NibbleOf(s[1]) == Some(b % 16)
    requires Decode(s[2..]) == Some(rest)
    ensures Decode(s) == Some([b] + rest)
  {
    SplitByte(b);
  }

  lemma LowerHead(bs: Bytes)
    requires bs != []
    ensures NibbleOf(EncodeLower(bs)[0]) == Some(bs[0] / 16)
    ensures NibbleOf(EncodeLower(bs)[1]) == Some(bs[0] % 16)
    ensures EncodeLower(bs)[2..] == EncodeLower(bs[1..])
  {
    SplitByte(bs[0]);
    DigitRoundTrip(bs[0] / 16);
    DigitRoundTrip(bs[0] % 16);
  }

  lemma UpperHead(bs: Bytes)
    requires bs != []
    ensures NibbleOf(EncodeUpper(bs)[0]) == Some(bs[0] / 16)
    ensures NibbleOf(EncodeUpper(bs)[1]) == Some(bs[0] % 16)
    ensures EncodeUpper(bs)[2..] == EncodeUpper(bs[1..])
  {
    SplitByte(bs[0]);
    DigitRoundTrip(bs[0] / 16);
    DigitRoundTrip(bs[0] % 16);
  }

  /** Decoding lower-case base16 gives the octets back. */
  lemma {:induction false} DecodeEncodeLower(bs: Bytes)
    ensures Decode(EncodeLower(bs)) == Some(bs)
  {
    if bs != [] {
      DecodeEncodeLower(bs[1..]);
      DecodeLowerStep(bs);
    }
  }

  lemma DecodeLowerStep(bs: Bytes)
    requires bs != [] && Decode(EncodeLower(bs[1..])) == Some(bs[1..])
    ensures Decode(EncodeLower(bs)) == Some(bs)
  {
    LowerHead(bs);
    DecodeStep(EncodeLower(bs), bs[0], bs[1..]);
    assert [bs[0]] + bs[1..] == bs;
  }

  /** Decoding upper-case base16 gives the octets back. */
  lemma {:induction false} DecodeEncodeUpper(bs: Bytes)
    ensures Decode(EncodeUpper(bs)) == Some(bs)
  {
    if bs != [] {
      DecodeEncodeUpper(bs[1..]);
      DecodeUpperStep(bs);
    }
  }

  lemma DecodeUpperStep(bs: Bytes)
    requires bs != [] && Decode(EncodeUpper(bs[1..])) == Some(bs[1..])
    ensures Decode(EncodeUpper(bs)) == Some(bs)
  {
    UpperHead(bs);
    DecodeStep(EncodeUpper(bs), bs[0], bs[1..]);
    assert [bs[0]] + bs[1..] == bs;
  }

  /** Upper-casing lower-case base16 gives upper-case base16. */
  lemma {:induction false} UpperOfLower(bs: Bytes)
    ensures ToUpper(EncodeLower(bs)) == EncodeUpper(bs)
  {
    if bs != [] {
      var lo, up := EncodeLower(bs), EncodeUpper(bs);
      UpperOfLower(bs[1..]);
      assert forall k :: 0 <= k < 16 ==> UpperChar(LowerDigit(k)) == UpperDigit(k);
      forall k | 0 <= k < |lo|
        ensures ToUpper(lo)[k] == up[k]
      {
        if k >= 2 {
          assert lo[k] == EncodeLower(bs[1..])[k - 2];
          assert up[k] == EncodeUpper(bs[1..])[k - 2];
        }
      }
    }
  }

  /** Two octet strings with the same base16 text are equal. */
  lemma EncodeUpperInjective(a: Bytes, b: Bytes)
    ensures EncodeUpper(a) == EncodeUpper(b) ==> a == b
  {
    DecodeEncodeUpper(a);
    DecodeEncodeUpper(b);
  }
}
