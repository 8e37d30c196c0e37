/**
 * Bytes and their lower-case hexadecimal spelling, the form `str` gives a
 * MongoDB ObjectId (twelve bytes, twenty-four hexadecimal digits).
 */
module Bytes {

  newtype byte = x: int | 0 <= x < 256

  function HexDigit(d: nat): (c: char)
    requires d < 16
    ensures ('0' <= c <= '9') || ('a' <= c <= 'f')
  {
    if d < 10 then ('0' as int + d) as char else ('a' as int + d - 10) as char
  }

  predicate IsHexDigit(c: char) {
    ('0' <= c <= '9') || ('a' <= c <= 'f')
  }

  function HexValue(c: char): (d: nat)
    requires IsHexDigit(c)
    ensures d < 16
  {
    if c <= '9' then c as int - '0' as int else c as int - 'a' as int + 10
  }

  /** Two lower-case hexadecimal digits per byte, most significant first. */
  function Hex(bs: seq<byte>): (s: string)
    ensures |s| == 2 * |bs|
    ensures forall i :: 0 <= i < |s| ==> IsHexDigit(s[i])
    decreases |bs|
  {
    if |bs| == 0 then []
    else [HexDigit(bs[0] as int / 16), HexDigit(bs[0] as int % 16)] + Hex(bs[1..])
  }

  /** Reading hexadecimal digits back, two per byte. */
  function Unhex(s: string): seq<byte>
    requires |s| % 2 == 0
    requires forall i :: 0 <= i < |s| ==> IsHexDigit(s[i])
    decreases |s|
  {
    if |s| == 0 then []
    else [(16 * HexValue(s[0]) + HexValue(s[1])) as byte] + Unhex(s[2..])
  }

  /** The hexadecimal spelling loses nothing. */
  lemma {:induction false} UnhexHex(bs: seq<byte>)
    ensures Unhex(Hex(bs)) == bs
    decreases |bs|
  {
    if |bs| > 0 {
      UnhexHex(bs[1..]);
      var s := Hex(bs);
      assert s[2..] == Hex(bs[1..]);
      assert HexValue(s[0]) == bs[0] as int / 16;
      assert HexValue(s[1]) == bs[0] as int % 16;
      assert [bs[0]] + bs[1..] == bs;
    }
  }

  /** Distinct byte strings have distinct spellings. */
  lemma HexInjective(a: seq<byte>, b: seq<byte>)
    ensures Hex(a) == Hex(b) <==> a == b
  {
    if Hex(a) == Hex(b) {
      UnhexHex(a);
      UnhexHex(b);
    }
  }
}
