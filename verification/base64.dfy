/**
 * Base64 with `=` padding, the alphabet of section 4 of RFC 4648: what
 * `Buffer.prototype.toString('base64')` produces.
 */
module Base64 {
  import opened Common

  /** The character for a 6-bit value: `A`-`Z`, `a`-`z`, `0`-`9`, `+`, `/`. */
  function IndexChar(i: int): (c: char)
    requires 0 <= i < 64
    ensures c != '='
  {
    if i < 26 then ('A' as int + i) as char
    else if i < 52 then ('a' as int + (i - 26)) as char
    else if i < 62 then ('0' as int + (i - 52)) as char
    else if i == 62 then '+'
    else '/'
  }

  /** The 6-bit value of an alphabet character; anything else reads as 0. */
  function CharIndex(c: char): (i: int)
    ensures 0 <= i < 64
  {
    if 'A' <= c <= 'Z' then c as int - 'A' as int
    else if 'a' <= c <= 'z' then c as int - 'a' as int + 26
    else if '0' <= c <= '9' then c as int - '0' as int + 52
    else if c == '+' then 62
    else if c == '/' then 63
    else 0
  }

  lemma CharIndexOfIndexChar(i: int)
    requires 0 <= i < 64
    ensures CharIndex(IndexChar(i)) == i
  {
  }

  /** Encodes three bytes (or fewer at the end, padded with `=`) per four characters. */
  function Encode(bs: seq<byte>): string
  {
    if |bs| == 0 then []
    else if |bs| < 3 then Final(bs)
    else Quad(bs[0], bs[1], bs[2]) + Encode(bs[3..])
  }

  /** The four characters of a full three-byte group. */
  function Quad(a: byte, b: byte, c: byte): (q: string)
    ensures |q| == 4
  {
    var a: int, b: int, c: int := a, b, c;
    [IndexChar(a / 4), IndexChar((a % 4) * 16 + b / 16), IndexChar((b % 16) * 4 + c / 64), IndexChar(c % 64)]
  }

  /** The four characters of a last group of one or two bytes, padded with `=`. */
  function Final(bs: seq<byte>): (q: string)
    requires 1 <= |bs| <= 2
    ensures |q| == 4
  {
    var a: int := bs[0];
    if |bs| == 1 then [IndexChar(a / 4), IndexChar((a % 4) * 16), '=', '=']
    else
      var b: int := bs[1];
      [IndexChar(a / 4), IndexChar((a % 4) * 16 + b / 16), IndexChar((b % 16) * 4), '=']
  }

  /** Four characters for every started group of three bytes. */
  lemma {:induction false} EncodeLength(bs: seq<byte>)
    ensures |Encode(bs)| == 4 * ((|bs| + 2) / 3)
  {
    if |bs| >= 3 {
      EncodeLength(bs[3..]);
      assert (|bs| + 2) / 3 == (|bs[3..]| + 2) / 3 + 1;
    }
  }

  /** The bytes of one group of four characters: one, two or three, by the padding. */
  function Group(s: string): (g: seq<byte>)
    requires |s| == 4
    ensures 1 <= |g| <= 3
  {
    var i0, i1, i2, i3 := CharIndex(s[0]), CharIndex(s[1]), CharIndex(s[2]), CharIndex(s[3]);
    var a := i0 * 4 + i1 / 16;
    var b := (i1 % 16) * 16 + i2 / 4;
    var c := (i2 % 4) * 64 + i3;
    if s[2] == '=' then [a]
    else if s[3] == '=' then [a, b]
    else [a, b, c]
  }

  /** Reads four characters at a time back into bytes, stopping after a padded group. */
  function Decode(s: string): seq<byte>
  {
    if |s| < 4 then []
    else
      var g := Group(s[..4]);
      if |g| < 3 then g else g + Decode(s[4..])
  }

  lemma GroupRoundTrip(a: int, b: int, c: int)
    requires 0 <= a < 256 && 0 <= b < 256 && 0 <= c < 256
    ensures (a / 4) * 4 + ((a % 4) * 16 + b / 16) / 16 == a
    ensures (((a % 4) * 16 + b / 16) % 16) * 16 + ((b % 16) * 4 + c / 64) / 4 == b
    ensures (((b % 16) * 4 + c / 64) % 4) * 64 + c % 64 == c
  {
  }

  lemma GroupOfQuad(a: byte, b: byte, c: byte)
    ensures Group(Quad(a, b, c)) == [a, b, c]
  {
    var a: int, b: int, c: int := a, b, c;
    CharIndexOfIndexChar(a / 4);
    CharIndexOfIndexChar((a % 4) * 16 + b / 16);
    CharIndexOfIndexChar((b % 16) * 4 + c / 64);
    CharIndexOfIndexChar(c % 64);
    GroupRoundTrip(a, b, c);
  }

  lemma GroupOfFinal(bs: seq<byte>)
    requires 1 <= |bs| <= 2
    ensures Group(Final(bs)) == bs
  {
    var a: int := bs[0];
    var b: int := if |bs| == 2 then bs[1] else 0;
    CharIndexOfIndexChar(a / 4);
    CharIndexOfIndexChar((a % 4) * 16 + b / 16);
    CharIndexOfIndexChar((b % 16) * 4);
    GroupRoundTrip(a, b, 0);
  }

  /** Decoding undoes encoding. */
  lemma {:induction false} DecodeEncode(bs: seq<byte>)
    ensures Decode(Encode(bs)) == bs
  {
    if 1 <= |bs| < 3 {
      var e := Final(bs);
      assert e[..4] == e;
      GroupOfFinal(bs);
    } else if |bs| >= 3 {
      var q, rest := Quad(bs[0], bs[1], bs[2]), Encode(bs[3..]);
      var e := q + rest;
      assert e[..4] == q && e[4..] == rest;
      GroupOfQuad(bs[0], bs[1], bs[2]);
      DecodeEncode(bs[3..]);
      assert bs == [bs[0], bs[1], bs[2]] + bs[3..];
    }
  }

  /** Distinct byte strings have distinct encodings. */
  lemma EncodeInjective(x: seq<byte>, y: seq<byte>)
    requires Encode(x) == Encode(y)
    ensures x == y
  {
    DecodeEncode(x);
    DecodeEncode(y);
  }
}
