/** Base 64 encoding with the standard alphabet and `=` padding, as section 4 of
    RFC 4648 defines it (Python's `base64.b64encode`), together with the decoder
    that undoes it. */
module Base64 {
  import opened Common

  /** The character of the RFC 4648 alphabet for a 6-bit group:
      `A`-`Z`, `a`-`z`, `0`-`9`, `+`, `/`. */
  function CharOf(v: int): (c: char)
    requires 0 <= v < 64
    ensures c != '='
  {
    if v < 26 then ('A' as int + v) as char
    else if v < 52 then ('a' as int + (v - 26)) as char
    else if v < 62 then ('0' as int + (v - 52)) as char
    else if v == 62 then '+'
    else '/'
  }

  /** The 6-bit group an alphabet character stands for; `None` for the padding
      character and for anything outside the alphabet. */
  function IndexOf(c: char): (r: Option<int>)
    ensures r.Some? ==> 0 <= r.value < 64 && CharOf(r.value) == c
    ensures c == '=' ==> r.None?
  {
    if 'A' <= c <= 'Z' then Some(c as int - 'A' as int)
    else if 'a' <= c <= 'z' then Some(c as int - 'a' as int + 26)
    else if '0' <= c <= '9' then Some(c as int - '0' as int + 52)
    else if c == '+' then Some(62)
    else if c == '/' then Some(63)
    else None
  }

  /** Every alphabet character is read back as the group it was written for. */
  lemma IndexOfCharOf(v: int)
    requires 0 <= v < 64
    ensures IndexOf(CharOf(v)) == Some(v)
  {
  }

  /** Three bytes become four characters. */
  function EncodeBlock(b0: byte, b1: byte, b2: byte): (s: string)
    ensures |s| == 4 && '=' !in s
  {
    [CharOf(b0 / 4), CharOf((b0 % 4) * 16 + b1 / 16), CharOf((b1 % 16) * 4 + b2 / 64), CharOf(b2 % 64)]
  }

  /** `base64.b64encode`: blocks of three bytes, and a final block of one or two
      bytes padded with `=`. */
  function Encode(b: seq<byte>): (s: string)
    ensures |s| == 4 * ((|b| + 2) / 3)
    decreases |b|
  {
    if |b| == 0 then ""
    else if |b| == 1 then
      [CharOf(b[0] / 4), CharOf((b[0] % 4) * 16), '=', '=']
    else if |b| == 2 then
      [CharOf(b[0] / 4), CharOf((b[0] % 4) * 16 + b[1] / 16), CharOf((b[1] % 16) * 4), '=']
    else
      EncodeBlock(b[0], b[1], b[2]) + Encode(b[3..])
  }

  /** Every character of an encoding is the padding character or one of the
      alphabet. */
  lemma {:induction false} EncodeAlphabet(b: seq<byte>)
    ensures forall i :: 0 <= i < |Encode(b)| ==> Encode(b)[i] == '=' || IndexOf(Encode(b)[i]).Some?
    decreases |b|
  {
    if |b| >= 3 {
      EncodeAlphabet(b[3..]);
      var head := EncodeBlock(b[0], b[1], b[2]);
      var tail := Encode(b[3..]);
      assert Encode(b) == head + tail;
      forall i | 0 <= i < |Encode(b)|
        ensures Encode(b)[i] == '=' || IndexOf(Encode(b)[i]).Some?
      {
        if i < 4 {
          assert Encode(b)[i] == head[i];
        } else {
          assert Encode(b)[i] == tail[i - 4];
        }
      }
    }
  }

  /** Reassembles the three bytes of a block from its four 6-bit groups. */
  function DecodeBlock(a: int, b: int, c: int, d: int): (r: seq<byte>)
    requires 0 <= a < 64 && 0 <= b < 64 && 0 <= c < 64 && 0 <= d < 64
    ensures |r| == 3
  {
    [a * 4 + b / 16, (b % 16) * 16 + c / 4, (c % 4) * 64 + d]
  }

  /** The decoder: `None` for a text that is not a padded encoding. */
  function Decode(s: string): (r: Option<seq<byte>>)
    decreases |s|
  {
    if |s| == 0 then Some([])
    else if |s| < 4 then None
    else
      var i0, i1, i2, i3 := IndexOf(s[0]), IndexOf(s[1]), IndexOf(s[2]), IndexOf(s[3]);
      if i0.None? || i1.None? then None
      else if |s| == 4 && s[2] == '=' && s[3] == '=' then
        Some([i0.value * 4 + i1.value / 16])
      else if |s| == 4 && i2.Some? && s[3] == '=' then
        Some([i0.value * 4 + i1.value / 16, (i1.value % 16) * 16 + i2.value / 4])
      else if i2.None? || i3.None? then None
      else
        match Decode(s[4..])
        case None => None
        case Some(rest) => Some(DecodeBlock(i0.value, i1.value, i2.value, i3.value) + rest)
  }

  /** The 6-bit groups of one block give back its bytes. */
  lemma BlockRoundTrip(b0: byte, b1: byte, b2: byte)
    ensures DecodeBlock(b0 / 4, (b0 % 4) * 16 + b1 / 16, (b1 % 16) * 4 + b2 / 64, b2 % 64) == [b0, b1, b2]
  {
  }

  /** Four characters ending in `==` decode to the byte their groups give
      back. */
  lemma DecodePaddedSingle(s: string, b: seq<byte>, x: int, y: int)
    requires 0 <= x < 64 && 0 <= y < 64
    requires s == [CharOf(x), CharOf(y), '=', '=']
    requires |b| == 1 && b[0] as int == x * 4 + y / 16
    ensures Decode(s) == Some(b)
  {
    IndexOfCharOf(x);
    IndexOfCharOf(y);
    assert b == [b[0]];
  }

  /** A final block of one byte, padded with `==`, decodes to that byte. */
  lemma OneByteRoundTrip(b: seq<byte>)
    requires |b| == 1
    ensures Decode(Encode(b)) == Some(b)
  {
    var b0 := b[0] as int;
    var x, y := b0 / 4, (b0 % 4) * 16;
    assert x * 4 + y / 16 == b0;
    DecodePaddedSingle(Encode(b), b, x, y);
  }

  /** The 6-bit groups of a final block of two bytes, and the bytes they
      give back. */
  lemma TwoByteGroups(b0: int, b1: int, x: int, y: int, z: int)
    requires 0 <= b0 < 256 && 0 <= b1 < 256
    requires x == b0 / 4 && y == (b0 % 4) * 16 + b1 / 16 && z == (b1 % 16) * 4
    ensures 0 <= x < 64 && 0 <= y < 64 && 0 <= z < 64
    ensures x * 4 + y / 16 == b0 && (y % 16) * 16 + z / 4 == b1
  {
  }

  /** Four characters ending in one `=` decode to the two bytes their groups
      give back. */
  lemma DecodePaddedPair(s: string, b: seq<byte>, x: int, y: int, z: int)
    requires 0 <= x < 64 && 0 <= y < 64 && 0 <= z < 64
    requires s == [CharOf(x), CharOf(y), CharOf(z), '=']
    requires |b| == 2 && b[0] as int == x * 4 + y / 16 && b[1] as int == (y % 16) * 16 + z / 4
    ensures Decode(s) == Some(b)
  {
    IndexOfCharOf(x);
    IndexOfCharOf(y);
    IndexOfCharOf(z);
    assert b == [b[0], b[1]];
  }

  /** A final block of two bytes, padded with `=`, decodes to those bytes. */
  lemma TwoByteRoundTrip(b: seq<byte>)
    requires |b| == 2
    ensures Decode(Encode(b)) == Some(b)
  {
    var b0, b1 := b[0] as int, b[1] as int;
    var x, y, z := b0 / 4, (b0 % 4) * 16 + b1 / 16, (b1 % 16) * 4;
    TwoByteGroups(b0, b1, x, y, z);
    DecodePaddedPair(Encode(b), b, x, y, z);
  }

  /** A full block in front of any text decodes to its three bytes in front of
      whatever that text decodes to. */
  lemma DecodeAfterBlock(b0: byte, b1: byte, b2: byte, t: string)
    ensures Decode(EncodeBlock(b0, b1, b2) + t) ==
            if Decode(t).Some? then Some([b0, b1, b2] + Decode(t).value) else None
  {
    var s := EncodeBlock(b0, b1, b2) + t;
    IndexOfCharOf(b0 / 4);
    IndexOfCharOf((b0 % 4) * 16 + b1 / 16);
    IndexOfCharOf((b1 % 16) * 4 + b2 / 64);
    IndexOfCharOf(b2 % 64);
    assert s[4..] == t;
    BlockRoundTrip(b0, b1, b2);
  }

  /** Three or more bytes are encoded as a full block followed by the rest. */
  lemma EncodeFullBlock(b: seq<byte>)
    requires |b| >= 3
    ensures Encode(b) == EncodeBlock(b[0], b[1], b[2]) + Encode(b[3..])
  {
    assert |b| != 0 && |b| != 1 && |b| != 2;
  }

  /** A sequence of three or more bytes is its first three followed by the rest. */
  lemma SplitFirstThree(b: seq<byte>)
    requires |b| >= 3
    ensures [b[0], b[1], b[2]] + b[3..] == b
  {
  }

  /** The step of the round trip: one more full block in front. */
  lemma BlockStep(b: seq<byte>)
    requires |b| >= 3 && Decode(Encode(b[3..])) == Some(b[3..])
    ensures Decode(Encode(b)) == Some(b)
  {
    var b0, b1, b2 := b[0], b[1], b[2];
    var t := Encode(b[3..]);
    EncodeFullBlock(b);
    DecodeAfterBlock(b0, b1, b2, t);
    SplitFirstThree(b);
  }

  /** Decoding undoes encoding, for every byte string. */
  lemma {:induction false} DecodeEncode(b: seq<byte>)
    ensures Decode(Encode(b)) == Some(b)
    decreases |b|
  {
    if |b| == 1 {
      OneByteRoundTrip(b);
    } else if |b| == 2 {
      TwoByteRoundTrip(b);
    } else if |b| >= 3 {
      DecodeEncode(b[3..]);
      BlockStep(b);
    }
  }
}
