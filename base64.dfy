/** Base64 as in section 4 of RFC 4648: three bytes become four characters of
    the standard alphabet, and a final group of one or two bytes is completed
    with '=' padding. */
module Base64 {
  import opened Options

  type Byte = b: int | 0 <= b < 256
  type Sextet = v: int | 0 <= v < 64

  const Padding := '='

  /** Table 1 of RFC 4648: 'A'-'Z', 'a'-'z', '0'-'9', '+', '/'. */
  function IndexChar(v: Sextet): (c: char)
    ensures c != Padding
  {
    if v < 26 then ('A' as int + v) as char
    else if v < 52 then ('a' as int + (v - 26)) as char
    else if v < 62 then ('0' as int + (v - 52)) as char
    else if v == 62 then '+'
    else '/'
  }

  /** The alphabet position of a character, `None` for a character outside it. */
  function CharIndex(c: char): (r: Option<Sextet>)
    ensures r.Some? ==> IndexChar(r.value) == c
  {
    if 'A' <= c <= 'Z' then Some(c as int - 'A' as int)
    else if 'a' <= c <= 'z' then Some(c as int - 'a' as int + 26)
    else if '0' <= c <= '9' then Some(c as int - '0' as int + 52)
    else if c == '+' then Some(62)
    else if c == '/' then Some(63)
    else None
  }

  lemma CharIndexOfIndexChar(v: Sextet)
    ensures CharIndex(IndexChar(v)) == Some(v)
  {
  }

  /** The four characters of a complete group of three bytes. */
  function EncodeGroup(a: Byte, b: Byte, c: Byte): (q: string)
    ensures |q| == 4 && forall i :: 0 <= i < 4 ==> CharIndex(q[i]).Some?
  {
    var v0: Sextet, v1: Sextet, v2: Sextet, v3: Sextet := a / 4, (a % 4) * 16 + b / 16, (b % 16) * 4 + c / 64, c % 64;
    CharIndexOfIndexChar(v0); CharIndexOfIndexChar(v1); CharIndexOfIndexChar(v2); CharIndexOfIndexChar(v3);
    [IndexChar(v0), IndexChar(v1), IndexChar(v2), IndexChar(v3)]
  }

  function Encode(bytes: seq<Byte>): (s: string)
    ensures |s| == 4 * ((|bytes| + 2) / 3)
    ensures forall i :: 0 <= i < |s| ==> s[i] == Padding || CharIndex(s[i]).Some?
    ensures ';' !in s
    decreases |bytes|
  {
    if |bytes| == 0 then []
    else if |bytes| == 1 then
      var v0: Sextet, v1: Sextet := bytes[0] / 4, (bytes[0] % 4) * 16;
      CharIndexOfIndexChar(v0); CharIndexOfIndexChar(v1);
      [IndexChar(v0), IndexChar(v1), Padding, Padding]
    else if |bytes| == 2 then
      var v0: Sextet, v1: Sextet, v2: Sextet := bytes[0] / 4, (bytes[0] % 4) * 16 + bytes[1] / 16, (bytes[1] % 16) * 4;
      CharIndexOfIndexChar(v0); CharIndexOfIndexChar(v1); CharIndexOfIndexChar(v2);
      [IndexChar(v0), IndexChar(v1), IndexChar(v2), Padding]
    else
      EncodeGroup(bytes[0], bytes[1], bytes[2]) + Encode(bytes[3..])
  }

  /** Three bytes from four alphabet positions. */
  function Bytes3(v0: Sextet, v1: Sextet, v2: Sextet, v3: Sextet): seq<Byte>
  {
    [v0 * 4 + v1 / 16, (v1 % 16) * 16 + v2 / 4, (v2 % 4) * 64 + v3]
  }

  /** A group of four characters; padding is accepted only in the last group. */
  function DecodeGroup(q: string, last: bool): (r: Option<seq<Byte>>)
    requires |q| == 4
    ensures r.Some? ==> 1 <= |r.value| <= 3 && (!last ==> |r.value| == 3)
    ensures (exists i :: 0 <= i < 4 && q[i] != Padding && CharIndex(q[i]).None?) ==> r.None?
  {
    var c0, c1 := CharIndex(q[0]), CharIndex(q[1]);
    if c0.None? || c1.None? then None
    else if last && q[2] == Padding && q[3] == Padding then
      Some([c0.value * 4 + c1.value / 16])
    else
      var c2 := CharIndex(q[2]);
      if c2.None? then None
      else if last && q[3] == Padding then
        Some([c0.value * 4 + c1.value / 16, (c1.value % 16) * 16 + c2.value / 4])
      else
        var c3 := CharIndex(q[3]);
        if c3.None? then None
        else Some(Bytes3(c0.value, c1.value, c2.value, c3.value))
  }

  /** The bytes of a Base64 text; `None` when the text is not a multiple of
      four characters long, holds a character outside the alphabet, or has
      padding anywhere but at the end. */
  function Decode(s: string): (r: Option<seq<Byte>>)
    ensures r.Some? ==> |s| % 4 == 0
    decreases |s|
  {
    if |s| == 0 then Some([])
    else if |s| < 4 then None
    else
      match DecodeGroup(s[..4], |s| == 4)
      case None => None
      case Some(head) =>
        match Decode(s[4..])
        case None => None
        case Some(tail) => Some(head + tail)
  }

  /** A decoded text is four characters per three bytes, less at most two for
      the padding, and any character outside the alphabet and the padding
      makes decoding fail. */
  lemma {:induction false} DecodeShape(s: string)
    ensures Decode(s).Some? ==> |s| / 4 * 3 - 2 <= |Decode(s).value| <= |s| / 4 * 3
    ensures (exists i :: 0 <= i < |s| && s[i] != Padding && CharIndex(s[i]).None?) ==> Decode(s).None?
    decreases |s|
  {
    if |s| >= 4 {
      DecodeShape(s[4..]);
      if exists i :: 0 <= i < |s| && s[i] != Padding && CharIndex(s[i]).None? {
        var i :| 0 <= i < |s| && s[i] != Padding && CharIndex(s[i]).None?;
        if i < 4 {
          assert s[..4][i] == s[i];
        } else {
          assert s[4..][i - 4] == s[i];
        }
      }
      if Decode(s).Some? {
        var n := |s| / 4;
        assert |s[4..]| / 4 == n - 1;
        if |s| > 4 {
          assert |Decode(s[4..]).value| >= 1;
        }
      }
    }
  }

  lemma GroupRoundTrip(a: Byte, b: Byte, c: Byte)
    ensures a / 4 * 4 + ((a % 4) * 16 + b / 16) / 16 == a
    ensures (((a % 4) * 16 + b / 16) % 16) * 16 + ((b % 16) * 4 + c / 64) / 4 == b
    ensures (((b % 16) * 4 + c / 64) % 4) * 64 + c % 64 == c
  {
  }

  lemma DecodeLastOne(a: Byte)
    ensures Decode(Encode([a])) == Some([a])
  {
    var s := Encode([a]);
    GroupRoundTrip(a, 0, 0);
    CharIndexOfIndexChar(a / 4);
    CharIndexOfIndexChar((a % 4) * 16);
    assert s[..4] == s && s[4..] == [];
    assert DecodeGroup(s, true) == Some([a]);
    assert Decode(s[4..]) == Some([]);
    assert [a] + [] == [a];
  }

  lemma DecodeLastTwo(a: Byte, b: Byte)
    ensures Decode(Encode([a, b])) == Some([a, b])
  {
    var s := Encode([a, b]);
    GroupRoundTrip(a, b, 0);
    CharIndexOfIndexChar(a / 4);
    CharIndexOfIndexChar((a % 4) * 16 + b / 16);
    CharIndexOfIndexChar((b % 16) * 4);
    assert s[..4] == s && s[4..] == [];
    assert DecodeGroup(s, true) == Some([a, b]);
    assert Decode(s[4..]) == Some([]);
    assert [a, b] + [] == [a, b];
  }

  lemma DecodeFullGroup(a: Byte, b: Byte, c: Byte, last: bool)
    ensures DecodeGroup(EncodeGroup(a, b, c), last) == Some([a, b, c])
  {
    var v0: Sextet, v1: Sextet, v2: Sextet, v3: Sextet := a / 4, (a % 4) * 16 + b / 16, (b % 16) * 4 + c / 64, c % 64;
    var q := EncodeGroup(a, b, c);
    assert q == [IndexChar(v0), IndexChar(v1), IndexChar(v2), IndexChar(v3)];
    CharIndexOfIndexChar(v0);
    CharIndexOfIndexChar(v1);
    CharIndexOfIndexChar(v2);
    CharIndexOfIndexChar(v3);
    SextetsDecode(q, v0, v1, v2, v3, last);
    GroupRoundTrip(a, b, c);
    assert Bytes3(v0, v1, v2, v3) == [a, b, c];
  }

  /** A group of four alphabet characters decodes to its three bytes. */
  lemma SextetsDecode(q: string, v0: Sextet, v1: Sextet, v2: Sextet, v3: Sextet, last: bool)
    requires |q| == 4
    requires CharIndex(q[0]) == Some(v0) && CharIndex(q[1]) == Some(v1)
    requires CharIndex(q[2]) == Some(v2) && CharIndex(q[3]) == Some(v3)
    ensures DecodeGroup(q, last) == Some(Bytes3(v0, v1, v2, v3))
  {
    assert q[2] != Padding && q[3] != Padding;
  }

  /** Decoding a complete group followed by the rest of the text. */
  lemma DecodeGroupThenRest(a: Byte, b: Byte, c: Byte, rest: string)
    ensures Decode(EncodeGroup(a, b, c) + rest) ==
      match Decode(rest)
      case None => None
      case Some(tail) => Some([a, b, c] + tail)
  {
    var s := EncodeGroup(a, b, c) + rest;
    assert s[..4] == EncodeGroup(a, b, c);
    assert s[4..] == rest;
    DecodeFullGroup(a, b, c, rest == []);
    if rest == [] {
      assert [a, b, c] + [] == [a, b, c];
    }
  }

  /** Decoding undoes encoding. */
  lemma {:induction false} DecodeEncode(bytes: seq<Byte>)
    ensures Decode(Encode(bytes)) == Some(bytes)
    decreases |bytes|
  {
    if |bytes| == 1 {
      assert bytes == [bytes[0]];
      DecodeLastOne(bytes[0]);
    } else if |bytes| == 2 {
      assert bytes == [bytes[0], bytes[1]];
      DecodeLastTwo(bytes[0], bytes[1]);
    } else if |bytes| > 2 {
      DecodeEncode(bytes[3..]);
      DecodeEncodeStep(bytes);
    }
  }

  /** One complete group in front of a text that already round-trips. */
  lemma DecodeEncodeStep(bytes: seq<Byte>)
    requires |bytes| > 2
    requires Decode(Encode(bytes[3..])) == Some(bytes[3..])
    ensures Decode(Encode(bytes)) == Some(bytes)
  {
    var a, b, c, tail := bytes[0], bytes[1], bytes[2], bytes[3..];
    var rest := Encode(tail);
    assert Encode(bytes) == EncodeGroup(a, b, c) + rest;
    DecodeGroupThenRest(a, b, c, rest);
    assert Decode(EncodeGroup(a, b, c) + rest) == Some([a, b, c] + tail);
    FirstThreeThenRest(bytes);
  }

  lemma FirstThreeThenRest<T>(xs: seq<T>)
    requires |xs| > 2
    ensures [xs[0], xs[1], xs[2]] + xs[3..] == xs
  {
  }
}
