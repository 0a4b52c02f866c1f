/** Base 64 encoding with the standard alphabet and `=` padding (section 4
    of RFC 4648), as `base64.b64encode` produces it on line 64, together with
    a decoder that inverts it. */
module Base64 {
  import opened Bytes

  /** The character for a 6-bit value: `A`-`Z`, `a`-`z`, `0`-`9`, `+`, `/`. */
  function Sextet(v: nat): (c: char)
    requires v < 64
  {
    if v < 26 then (('A' as int) + v) as char
    else if v < 52 then (('a' as int) + (v - 26)) as char
    else if v < 62 then (('0' as int) + (v - 52)) as char
    else if v == 62 then '+'
    else '/'
  }

  /** The 6-bit value of an alphabet character; None for any other
      character, the pad `=` included. */
  function SextetValue(c: char): (r: Option<nat>)
    ensures r.Some? ==> r.value < 64 && Sextet(r.value) == c
  {
    if 'A' <= c <= 'Z' then Some(c as int - 'A' as int)
    else if 'a' <= c <= 'z' then Some(c as int - 'a' as int + 26)
    else if '0' <= c <= '9' then Some(c as int - '0' as int + 52)
    else if c == '+' then Some(62)
    else if c == '/' then Some(63)
    else None
  }

  /** The alphabet is a bijection onto its 64 characters. */
  lemma SextetValueOfSextet(v: nat)
    requires v < 64
    ensures SextetValue(Sextet(v)) == Some(v)
  {
  }

  predicate IsAlphabet(c: char)
  {
    SextetValue(c).Some?
  }

  /** Three bytes (24 bits) as four characters. */
  function EncodeTriple(b0: byte, b1: byte, b2: byte): seq<char>
  {
    [ Sextet(b0 as nat / 4),
      Sextet((b0 as nat % 4) * 16 + b1 as nat / 16),
      Sextet((b1 as nat % 16) * 4 + b2 as nat / 64),
      Sextet(b2 as nat % 64) ]
  }

  /** A final single byte: two characters and two pads. */
  function EncodeSingle(b0: byte): seq<char>
  {
    [Sextet(b0 as nat / 4), Sextet((b0 as nat % 4) * 16), '=', '=']
  }

  /** A final pair of bytes: three characters and one pad. */
  function EncodePair(b0: byte, b1: byte): seq<char>
  {
    [ Sextet(b0 as nat / 4),
      Sextet((b0 as nat % 4) * 16 + b1 as nat / 16),
      Sextet((b1 as nat % 16) * 4), '=' ]
  }

  /** `base64.b64encode`: each group of three bytes becomes four characters;
      a final group of one or two bytes is zero-filled and padded with `=`. */
  function Encode(s: seq<byte>): (r: seq<char>)
    decreases |s|
    ensures |r| == 4 * ((|s| + 2) / 3)
    ensures forall i :: 0 <= i < |r| ==> IsAlphabet(r[i]) || r[i] == '='
    ensures |s| % 3 == 0 ==> forall i :: 0 <= i < |r| ==> IsAlphabet(r[i])
  {
    if |s| == 0 then []
    else if |s| == 1 then EncodeSingle(s[0])
    else if |s| == 2 then EncodePair(s[0], s[1])
    else
      var head := EncodeTriple(s[0], s[1], s[2]);
      var tail := Encode(s[3..]);
      assert forall i :: 0 <= i < 4 ==> IsAlphabet(head[i]);
      head + tail
  }

  /** Four characters back to one, two or three bytes: `xx==` carries one
      byte, `xxx=` two, `xxxx` three. */
  function DecodeQuad(q: seq<char>): Option<seq<byte>>
    requires |q| == 4
  {
    if !IsAlphabet(q[0]) || !IsAlphabet(q[1]) then None
    else
      var v0, v1 := SextetValue(q[0]).value, SextetValue(q[1]).value;
      var b0 := (v0 * 4 + v1 / 16) as byte;
      if q[2] == '=' && q[3] == '=' then Some([b0])
      else if !IsAlphabet(q[2]) then None
      else
        var v2 := SextetValue(q[2]).value;
        var b1 := ((v1 % 16) * 16 + v2 / 4) as byte;
        if q[3] == '=' then Some([b0, b1])
        else if !IsAlphabet(q[3]) then None
        else
          var v3 := SextetValue(q[3]).value;
          Some([b0, b1, ((v2 % 4) * 64 + v3) as byte])
  }

  /** Decodes groups of four characters; padding may only close the text. */
  function Decode(t: seq<char>): Option<seq<byte>>
    decreases |t|
  {
    if |t| == 0 then Some([])
    else if |t| < 4 then None
    else
      match DecodeQuad(t[..4])
      case None => None
      case Some(g) =>
        if |g| < 3 then (if |t| == 4 then Some(g) else None)
        else
          match Decode(t[4..])
          case None => None
          case Some(rest) => Some(g + rest)
  }

  /** One full group decodes back to its three bytes. */
  lemma DecodeEncodeTriple(b0: byte, b1: byte, b2: byte)
    ensures DecodeQuad(EncodeTriple(b0, b1, b2)) == Some([b0, b1, b2])
  {
    var x0, x1, x2 := b0 as nat, b1 as nat, b2 as nat;
    var v0, v1 := x0 / 4, (x0 % 4) * 16 + x1 / 16;
    var v2, v3 := (x1 % 16) * 4 + x2 / 64, x2 % 64;
    SextetValueOfSextet(v0);
    SextetValueOfSextet(v1);
    SextetValueOfSextet(v2);
    SextetValueOfSextet(v3);
    assert v1 / 16 == x0 % 4 && v1 % 16 == x1 / 16;
    assert v2 / 4 == x1 % 16 && v2 % 4 == x2 / 64;
    assert v0 * 4 + v1 / 16 == x0;
    assert (v1 % 16) * 16 + v2 / 4 == x1;
    assert (v2 % 4) * 64 + v3 == x2;
  }

  /** A final single byte, padded `xx==`, decodes back to itself. */
  lemma DecodeEncodeSingle(b0: byte)
    ensures DecodeQuad(EncodeSingle(b0)) == Some([b0])
  {
    var x0 := b0 as nat;
    var v0, v1 := x0 / 4, (x0 % 4) * 16;
    SextetValueOfSextet(v0);
    SextetValueOfSextet(v1);
    assert v1 / 16 == x0 % 4;
    assert v0 * 4 + v1 / 16 == x0;
  }

  /** A final pair of bytes, padded `xxx=`, decodes back to itself. */
  lemma DecodeEncodePair(b0: byte, b1: byte)
    ensures DecodeQuad(EncodePair(b0, b1)) == Some([b0, b1])
  {
    var x0, x1 := b0 as nat, b1 as nat;
    var v0, v1, v2 := x0 / 4, (x0 % 4) * 16 + x1 / 16, (x1 % 16) * 4;
    SextetValueOfSextet(v0);
    SextetValueOfSextet(v1);
    SextetValueOfSextet(v2);
    assert v1 / 16 == x0 % 4 && v1 % 16 == x1 / 16;
    assert v2 / 4 == x1 % 16;
    assert v0 * 4 + v1 / 16 == x0;
    assert (v1 % 16) * 16 + v2 / 4 == x1;
  }

  /** Decoding what `Encode` produced gives back the original bytes. */
  lemma {:induction false} DecodeEncode(s: seq<byte>)
    decreases |s|
    ensures Decode(Encode(s)) == Some(s)
  {
    if |s| == 1 {
      DecodeEncodeSingle(s[0]);
      assert Encode(s)[..4] == Encode(s);
      assert [s[0]] == s;
    } else if |s| == 2 {
      DecodeEncodePair(s[0], s[1]);
      assert Encode(s)[..4] == Encode(s);
      assert [s[0], s[1]] == s;
    } else if |s| >= 3 {
      var t := Encode(s);
      DecodeEncodeTriple(s[0], s[1], s[2]);
      DecodeEncode(s[3..]);
      assert t[..4] == EncodeTriple(s[0], s[1], s[2]);
      assert t[4..] == Encode(s[3..]);
      assert [s[0], s[1], s[2]] + s[3..] == s;
    }
  }
}
