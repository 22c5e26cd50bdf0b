/** Go's `encoding/hex`: lower-case hexadecimal text for byte strings. */
module HexEncoding {
  import opened Wrappers

  newtype byte = b: int | 0 <= b < 256

  const HexTable: string := "0123456789abcdef"

  predicate IsLowerHexDigit(c: char)
  {
    '0' <= c <= '9' || 'a' <= c <= 'f'
  }

  /** `hex.EncodeToString`: each byte becomes its high and then its low nibble. */
  function EncodeToString(src: seq<byte>): (s: string)
    ensures |s| == 2 * |src|
    ensures forall i :: 0 <= i < |s| ==> IsLowerHexDigit(s[i])
    ensures forall i :: 0 <= i < |src| ==>
      s[2 * i] == HexTable[src[i] as int / 16] && s[2 * i + 1] == HexTable[src[i] as int % 16]
  {
    if src == [] then ""
    else
      var rest := EncodeToString(src[1..]);
      assert forall i :: 1 <= i < |src| ==> src[i] == src[1..][i - 1];
      [HexTable[src[0] as int / 16], HexTable[src[0] as int % 16]] + rest
  }

  /** The value of one hexadecimal digit; both cases are accepted, as Go's decoder does. */
  function FromHexChar(c: char): (v: Option<int>)
    ensures v.Some? ==> 0 <= v.value < 16
  {
    if '0' <= c <= '9' then Some(c as int - '0' as int)
    else if 'a' <= c <= 'f' then Some(c as int - 'a' as int + 10)
    else if 'A' <= c <= 'F' then Some(c as int - 'A' as int + 10)
    else None
  }

  /** `hex.DecodeString`: None for an odd length or a character that is not a digit. */
  function DecodeString(s: string): (r: Option<seq<byte>>)
    ensures r.Some? <==> |s| % 2 == 0 && forall i :: 0 <= i < |s| ==> FromHexChar(s[i]).Some?
    ensures r.Some? ==> 2 * |r.value| == |s|
    decreases |s|
  {
    if s == "" then Some([])
    else if |s| == 1 then None
    else
      assert forall i :: 2 <= i < |s| ==> s[i] == s[2..][i - 2];
      match (FromHexChar(s[0]), FromHexChar(s[1]), DecodeString(s[2..]))
      case (Some(hi), Some(lo), Some(rest)) => Some([(hi * 16 + lo) as byte] + rest)
      case _ => None
  }

  lemma HexTableDigit(n: int)
    requires 0 <= n < 16
    ensures FromHexChar(HexTable[n]) == Some(n)
  {
  }

  lemma LowerHexDigitValue(c: char)
    requires IsLowerHexDigit(c)
    ensures FromHexChar(c).Some? && HexTable[FromHexChar(c).value] == c
  {
  }

  lemma NibbleSplit(hi: int, lo: int)
    requires 0 <= hi < 16 && 0 <= lo < 16
    ensures (hi * 16 + lo) / 16 == hi && (hi * 16 + lo) % 16 == lo
  {
  }

  lemma ByteNibbles(b: int)
    requires 0 <= b < 256
    ensures 0 <= b / 16 < 16 && 0 <= b % 16 < 16 && (b / 16) * 16 + b % 16 == b
  {
  }

  /** Decoding undoes encoding. */
  lemma {:induction false} DecodeEncode(src: seq<byte>)
    ensures DecodeString(EncodeToString(src)) == Some(src)
    decreases |src|
  {
    if src != [] {
      var b := src[0] as int;
      ByteNibbles(b);
      var hi, lo := b / 16, b % 16;
      var rest := EncodeToString(src[1..]);
      var s := EncodeToString(src);
      assert s[0] == HexTable[hi] && s[1] == HexTable[lo];
      assert s[2..] == rest;
      HexTableDigit(hi);
      HexTableDigit(lo);
      DecodeEncode(src[1..]);
      assert DecodeString(s) == Some([(hi * 16 + lo) as byte] + src[1..]);
      assert [src[0]] + src[1..] == src;
    }
  }

  /** Encoding undoes decoding on lower-case text, so lower-case hex text and bytes correspond one to one. */
  lemma {:induction false} EncodeDecode(s: string)
    requires forall i :: 0 <= i < |s| ==> IsLowerHexDigit(s[i])
    requires DecodeString(s).Some?
    ensures EncodeToString(DecodeString(s).value) == s
    decreases |s|
  {
    if s != "" {
      LowerHexDigitValue(s[0]);
      LowerHexDigitValue(s[1]);
      var hi := FromHexChar(s[0]).value;
      var lo := FromHexChar(s[1]).value;
      EncodeDecode(s[2..]);
      var b := (hi * 16 + lo) as byte;
      NibbleSplit(hi, lo);
      assert DecodeString(s).value[1..] == DecodeString(s[2..]).value;
      assert s == [s[0], s[1]] + s[2..];
    }
  }

}
