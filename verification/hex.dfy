/** The lowercase hexadecimal text Node's `Hash.digest('hex')` produces:
    two characters per byte, high nibble first, digits `0-9a-f`. */
module Hex {
  import opened Wrappers

  newtype byte = x: int | 0 <= x < 256

  predicate IsHexDigit(c: char) {
    '0' <= c <= '9' || 'a' <= c <= 'f'
  }

  /** The character for a nibble value. */
  function DigitChar(n: int): (c: char)
    requires 0 <= n < 16
    ensures IsHexDigit(c)
  {
    if n < 10 then ('0' as int + n) as char else ('a' as int + (n - 10)) as char
  }

  /** The nibble value of a lowercase hexadecimal digit, `None` for any other character. */
  function DigitValue(c: char): (r: Option<int>)
    ensures r.Some? <==> IsHexDigit(c)
    ensures r.Some? ==> 0 <= r.value < 16 && DigitChar(r.value) == c
  {
    if '0' <= c <= '9' then Some(c as int - '0' as int)
    else if 'a' <= c <= 'f' then Some(c as int - 'a' as int + 10)
    else None
  }

  lemma DigitRoundTrip(n: int)
    requires 0 <= n < 16
    ensures DigitValue(DigitChar(n)) == Some(n)
  {
  }

  function ByteChars(b: byte): string {
    [DigitChar(b as int / 16), DigitChar(b as int % 16)]
  }

  /** Hex-encodes a byte string. */
  function Encode(bs: seq<byte>): (s: string)
    ensures |s| == 2 * |bs|
    ensures forall i :: 0 <= i < |s| ==> IsHexDigit(s[i])
  {
    if bs == [] then [] else ByteChars(bs[0]) + Encode(bs[1..])
  }

  /** Reads back text of the shape `Encode` writes; odd length or any
      character outside `0-9a-f` is rejected. */
  function Decode(s: string): (r: Option<seq<byte>>)
    ensures r.Some? ==> |s| == 2 * |r.value|
    decreases |s|
  {
    if |s| == 0 then Some([])
    else if |s| == 1 then None
    else
      match (DigitValue(s[0]), DigitValue(s[1]), Decode(s[2..]))
      case (Some(hi), Some(lo), Some(rest)) => Some([(hi * 16 + lo) as byte] + rest)
      case _ => None
  }

  /** Decoding undoes encoding. */
  lemma {:induction false} DecodeEncode(bs: seq<byte>)
    ensures Decode(Encode(bs)) == Some(bs)
  {
    if bs != [] {
      var s := Encode(bs);
      var b := bs[0] as int;
      assert s == ByteChars(bs[0]) + Encode(bs[1..]);
      assert s[2..] == Encode(bs[1..]);
      DigitRoundTrip(b / 16);
      DigitRoundTrip(b % 16);
      DecodeEncode(bs[1..]);
      assert [(b / 16 * 16 + b % 16) as byte] + bs[1..] == bs;
    }
  }

  /** Encoding undoes a successful decode, so `Decode` accepts exactly the
      texts `Encode` can produce. */
  lemma {:induction false} EncodeDecode(s: string, bs: seq<byte>)
    requires Decode(s) == Some(bs)
    ensures Encode(bs) == s
  {
    if |s| != 0 {
      var hi := DigitValue(s[0]).value;
      var lo := DigitValue(s[1]).value;
      var rest := Decode(s[2..]).value;
      assert bs == [(hi * 16 + lo) as byte] + rest;
      EncodeDecode(s[2..], rest);
      assert bs[1..] == rest;
      assert (hi * 16 + lo) / 16 == hi && (hi * 16 + lo) % 16 == lo;
      assert s == [s[0], s[1]] + s[2..];
    }
  }

  /** Distinct digests have distinct hex texts. */
  lemma EncodeInjective(a: seq<byte>, b: seq<byte>)
    requires Encode(a) == Encode(b)
    ensures a == b
  {
    DecodeEncode(a);
    DecodeEncode(b);
  }
}
