/** Bytes and their hexadecimal text. */
module Hex {
  import opened Options

  type Byte = x: int | 0 <= x < 256
  type Bytes = seq<Byte>

  function HexDigit(n: int): (c: char)
    requires 0 <= n < 16
    ensures HexValue(c) == Some(n)
  {
    if n < 10 then ('0' as int + n) as char else ('a' as int + n - 10) as char
  }

  function HexValue(c: char): (n: Option<int>)
    ensures n.Some? ==> 0 <= n.value < 16
  {
    if '0' <= c <= '9' then Some(c as int - '0' as int)
    else if 'a' <= c <= 'f' then Some(c as int - 'a' as int + 10)
    else if 'A' <= c <= 'F' then Some(c as int - 'A' as int + 10)
    else None
  }

  function HexEncode(b: Bytes): (s: string)
    ensures |s| == 2 * |b|
  {
    if b == [] then "" else [HexDigit(b[0] / 16), HexDigit(b[0] % 16)] + HexEncode(b[1..])
  }

  /** The byte two hex digits denote. */
  function ByteOf(high: char, low: char): Option<Byte> {
    if HexValue(high).Some? && HexValue(low).Some? then Some(HexValue(high).value * 16 + HexValue(low).value) else None
  }

  /** None is an odd length or a character that is no hex digit. */
  function HexDecode(s: string): Option<Bytes> {
    if s == "" then Some([])
    else if |s| == 1 then None
    else
      var first, rest := ByteOf(s[0], s[1]), HexDecode(s[2..]);
      if first.None? || rest.None? then None else Some([first.value] + rest.value)
  }

  lemma ByteBack(x: Byte)
    ensures ByteOf(HexDigit(x / 16), HexDigit(x % 16)) == Some(x)
  {
  }

  lemma {:induction false} HexRoundTrip(b: Bytes)
    ensures HexDecode(HexEncode(b)) == Some(b)
    ensures forall i :: 0 <= i < |HexEncode(b)| ==> HexValue(HexEncode(b)[i]).Some?
  {
    if b != [] {
      HexRoundTrip(b[1..]);
      ByteBack(b[0]);
      assert HexEncode(b)[2..] == HexEncode(b[1..]);
      assert b == [b[0]] + b[1..];
    }
  }

  /** The digits of either case, and no other character. */
  lemma HexDigitsExactly(c: char)
    ensures HexValue(c).Some? <==>
            c in {'0', '1', '2', '3', '4', '5', '6', '7', '8', '9',
                  'a', 'b', 'c', 'd', 'e', 'f', 'A', 'B', 'C', 'D', 'E', 'F'}
    ensures 'a' <= c <= 'f' ==> HexValue(c) == HexValue((c as int - 32) as char) == Some(c as int - 87)
  {
  }

  /** Decoding takes exactly the texts of an even number of hex digits, two to a byte. */
  lemma {:induction false} HexDecodeExactly(s: string)
    ensures HexDecode(s).Some? <==> |s| % 2 == 0 && forall i :: 0 <= i < |s| ==> HexValue(s[i]).Some?
    ensures HexDecode(s).Some? ==> |s| == 2 * |HexDecode(s).value|
  {
    if |s| >= 2 {
      HexDecodeExactly(s[2..]);
      assert s == [s[0], s[1]] + s[2..];
    }
  }
}
