/**
 * Unpadded base64url as e2ekit/ad.go uses it: sections 3.5 and 5 of RFC 4648, with the
 * strict decoder of Go, which rejects non-zero trailing bits but skips CR and LF.
 */
module Base64 {
  import opened Common
  import opened Bytes

  type sextet = v: int | 0 <= v < 64

  function EncodeChar(v: sextet): byte {
    if v < 26 then 65 + v             // A-Z
    else if v < 52 then 71 + v        // a-z
    else if v < 62 then v - 4         // 0-9
    else if v == 62 then 45           // '-'
    else 95                           // '_'
  }

  function DecodeChar(c: byte): Option<sextet> {
    if 65 <= c <= 90 then Some(c - 65)
    else if 97 <= c <= 122 then Some(c - 71)
    else if 48 <= c <= 57 then Some(c + 4)
    else if c == 45 then Some(62)
    else if c == 95 then Some(63)
    else None
  }

  function Encode(raw: seq<byte>): seq<byte> {
    if raw == [] then []
    else if |raw| == 1 then [EncodeChar(raw[0] / 4), EncodeChar(raw[0] % 4 * 16)]
    else if |raw| == 2 then
      [EncodeChar(raw[0] / 4), EncodeChar(raw[0] % 4 * 16 + raw[1] / 16), EncodeChar(raw[1] % 16 * 4)]
    else
      [EncodeChar(raw[0] / 4), EncodeChar(raw[0] % 4 * 16 + raw[1] / 16),
       EncodeChar(raw[1] % 16 * 4 + raw[2] / 64), EncodeChar(raw[2] % 64)] + Encode(raw[3..])
  }

  function EncodedLen(n: nat): nat { n / 3 * 4 + (n % 3 * 8 + 5) / 6 }

  /** The sextets of a text without line breaks; none if a character is foreign. */
  function Sextets(s: seq<byte>): Option<seq<sextet>> {
    if s == [] then Some([])
    else
      var head, rest := DecodeChar(s[0]), Sextets(s[1..]);
      if head.None? || rest.None? then None else Some([head.value] + rest.value)
  }

  function High(a: int, b: int): byte
    requires 0 <= a < 64 && 0 <= b < 64
  {
    a * 4 + b / 16
  }

  function Middle(b: int, c: int): byte
    requires 0 <= b < 64 && 0 <= c < 64
  {
    b % 16 * 16 + c / 4
  }

  function Low(c: int, d: int): byte
    requires 0 <= c < 64 && 0 <= d < 64
  {
    c % 4 * 64 + d
  }

  /** Bytes from sextets; a lone sextet or non-zero trailing bits are refused. */
  function Pack(v: seq<sextet>): Option<seq<byte>> {
    if v == [] then Some([])
    else if |v| == 1 then None
    else if |v| == 2 then
      if v[1] % 16 != 0 then None else Some([High(v[0], v[1])])
    else if |v| == 3 then
      if v[2] % 4 != 0 then None else Some([High(v[0], v[1]), Middle(v[1], v[2])])
    else
      var rest := Pack(v[4..]);
      if rest.None? then None
      else Some([High(v[0], v[1]), Middle(v[1], v[2]), Low(v[2], v[3])] + rest.value)
  }

  /** The decoder skips carriage returns and line feeds wherever they stand. */
  function SkipBreaks(s: seq<byte>): (r: seq<byte>)
    ensures |r| <= |s|
    ensures |r| == |s| ==> r == s
  {
    if s == [] then []
    else if s[0] == 10 || s[0] == 13 then SkipBreaks(s[1..])
    else [s[0]] + SkipBreaks(s[1..])
  }

  function Decode(s: seq<byte>): Option<seq<byte>> {
    var v := Sextets(SkipBreaks(s));
    if v.None? then None else Pack(v.value)
  }

  /** DecodeBin: exactly the encoded length in, exactly `n` bytes out. */
  function DecodeBin(s: seq<byte>, n: nat): Option<seq<byte>> {
    if |s| != EncodedLen(n) then None
    else
      var raw := Decode(s);
      if raw.None? || |raw.value| != n then None else raw
  }

  // ---------------------------------------------------------------------

  lemma CharInverse(v: sextet)
    ensures DecodeChar(EncodeChar(v)) == Some(v)
    ensures EncodeChar(v) != 10 && EncodeChar(v) != 13
  {
  }

  lemma CharOnly(c: byte)
    requires DecodeChar(c).Some?
    ensures EncodeChar(DecodeChar(c).value) == c
  {
  }

  function Chars(v: seq<sextet>): (s: seq<byte>)
    ensures |s| == |v|
  {
    seq(|v|, i requires 0 <= i < |v| => EncodeChar(v[i]))
  }

  lemma {:induction false} SextetsInverse(v: seq<sextet>)
    ensures Sextets(Chars(v)) == Some(v)
  {
    if v != [] {
      SextetsInverse(v[1..]);
      CharInverse(v[0]);
      assert Chars(v)[1..] == Chars(v[1..]);
      assert v == [v[0]] + v[1..];
    }
  }

  lemma {:induction false} SextetsOnly(s: seq<byte>)
    requires Sextets(s).Some?
    ensures Chars(Sextets(s).value) == s
  {
    if s != [] {
      SextetsOnly(s[1..]);
      CharOnly(s[0]);
      var v := Sextets(s).value;
      assert v[1..] == Sextets(s[1..]).value;
      assert Chars(v) == [EncodeChar(v[0])] + Chars(v[1..]);
    }
  }

  /** The sextets of the encoding. */
  function Unpack(raw: seq<byte>): seq<sextet> {
    if raw == [] then []
    else if |raw| == 1 then [raw[0] / 4, raw[0] % 4 * 16]
    else if |raw| == 2 then [raw[0] / 4, raw[0] % 4 * 16 + raw[1] / 16, raw[1] % 16 * 4]
    else [raw[0] / 4, raw[0] % 4 * 16 + raw[1] / 16, raw[1] % 16 * 4 + raw[2] / 64, raw[2] % 64] + Unpack(raw[3..])
  }

  lemma {:induction false} EncodeIsChars(raw: seq<byte>)
    ensures Encode(raw) == Chars(Unpack(raw))
    ensures |Unpack(raw)| == EncodedLen(|raw|)
  {
    if |raw| >= 3 {
      EncodeIsChars(raw[3..]);
      assert |raw| / 3 == (|raw| - 3) / 3 + 1 && |raw| % 3 == (|raw| - 3) % 3;
      var head, rest := Unpack(raw)[..4], Unpack(raw)[4..];
      assert Chars(Unpack(raw)) == Chars(head) + Chars(rest);
    }
  }

  lemma HighHalves(a: sextet, b: sextet)
    ensures High(a, b) / 4 == a && High(a, b) % 4 == b / 16
  {
  }

  lemma MiddleHalves(b: sextet, c: sextet)
    ensures Middle(b, c) / 16 == b % 16 && Middle(b, c) % 16 == c / 4
  {
  }

  lemma LowHalves(c: sextet, d: sextet)
    ensures Low(c, d) / 64 == c % 4 && Low(c, d) % 64 == d
  {
  }

  lemma HighOf(x: byte, rest: int)
    requires 0 <= rest < 16
    ensures High(x / 4, x % 4 * 16 + rest) == x && (x % 4 * 16 + rest) % 16 == rest
  {
  }

  lemma MiddleOf(y: byte, lead: int, rest: int)
    requires 0 <= lead < 4 && 0 <= rest < 4
    ensures Middle(lead * 16 + y / 16, y % 16 * 4 + rest) == y && (y % 16 * 4 + rest) % 4 == rest
  {
    assert (lead * 16 + y / 16) % 16 == y / 16;
  }

  lemma LowOf(z: byte, lead: int)
    requires 0 <= lead < 16
    ensures Low(lead * 4 + z / 64, z % 64) == z
  {
    assert (lead * 4 + z / 64) % 4 == z / 64;
  }

  lemma {:induction false} PackInverse(raw: seq<byte>)
    ensures Pack(Unpack(raw)) == Some(raw)
  {
    var v := Unpack(raw);
    if |raw| == 1 {
      HighOf(raw[0], 0);
      assert Pack(v).value == raw;
    } else if |raw| == 2 {
      HighOf(raw[0], raw[1] / 16);
      MiddleOf(raw[1], raw[0] % 4, 0);
      assert Pack(v).value == raw;
    } else if |raw| >= 3 {
      PackInverse(raw[3..]);
      HighOf(raw[0], raw[1] / 16);
      MiddleOf(raw[1], raw[0] % 4, raw[2] / 64);
      LowOf(raw[2], raw[1] % 16);
      assert v[4..] == Unpack(raw[3..]);
      assert Pack(v).value == [raw[0], raw[1], raw[2]] + raw[3..] == raw;
    }
  }

  lemma {:induction false} UnpackInverse(v: seq<sextet>)
    requires Pack(v).Some?
    ensures Unpack(Pack(v).value) == v
  {
    var raw := Pack(v).value;
    if |v| >= 2 {
      HighHalves(v[0], v[1]);
      assert v[1] == v[1] / 16 * 16 + v[1] % 16;
    }
    if |v| >= 3 {
      MiddleHalves(v[1], v[2]);
      assert v[2] == v[2] / 4 * 4 + v[2] % 4;
    }
    if |v| >= 4 {
      LowHalves(v[2], v[3]);
      UnpackInverse(v[4..]);
      assert raw[3..] == Pack(v[4..]).value;
      assert v == [v[0], v[1], v[2], v[3]] + v[4..];
    }
  }

  lemma {:induction false} NoBreaks(v: seq<sextet>)
    ensures SkipBreaks(Chars(v)) == Chars(v)
  {
    if v != [] {
      NoBreaks(v[1..]);
      CharInverse(v[0]);
      assert Chars(v)[1..] == Chars(v[1..]);
      assert Chars(v) == [EncodeChar(v[0])] + Chars(v[1..]);
    }
  }

  lemma DecodeInvertsEncode(raw: seq<byte>)
    ensures Decode(Encode(raw)) == Some(raw)
  {
    EncodeIsChars(raw);
    NoBreaks(Unpack(raw));
    SextetsInverse(Unpack(raw));
    PackInverse(raw);
  }

  /** What decodes is, line breaks aside, the encoding of the result. */
  lemma EncodeInvertsDecode(s: seq<byte>)
    requires Decode(s).Some?
    ensures Encode(Decode(s).value) == SkipBreaks(s)
    ensures |SkipBreaks(s)| == EncodedLen(|Decode(s).value|)
  {
    var v := Sextets(SkipBreaks(s)).value;
    SextetsOnly(SkipBreaks(s));
    UnpackInverse(v);
    EncodeIsChars(Decode(s).value);
  }

  /** DecodeBin accepts exactly the canonical encoding of exactly `n` bytes. */
  lemma DecodeBinIff(s: seq<byte>, n: nat, raw: seq<byte>)
    ensures DecodeBin(s, n) == Some(raw) <==> |raw| == n && s == Encode(raw)
  {
    if |raw| == n && s == Encode(raw) {
      DecodeInvertsEncode(raw);
      EncodeIsChars(raw);
    }
    if DecodeBin(s, n) == Some(raw) {
      EncodeInvertsDecode(s);
    }
  }

  lemma {:induction false} SkipBreaksAppend(a: seq<byte>, b: seq<byte>)
    ensures SkipBreaks(a + b) == SkipBreaks(a) + SkipBreaks(b)
  {
    if a == [] {
      assert a + b == b;
    } else {
      SkipBreaksAppend(a[1..], b);
      assert (a + b)[1..] == a[1..] + b;
    }
  }

  /** Without the length check a line break anywhere slips through the strict decoder. */
  lemma BreaksAreSkipped(a: seq<byte>, c: byte, b: seq<byte>)
    requires c == 10 || c == 13
    ensures Decode(a + [c] + b) == Decode(a + b)
  {
    assert [c][1..] == [];
    SkipBreaksAppend(a, b);
    SkipBreaksAppend(a, [c]);
    SkipBreaksAppend(a + [c], b);
    assert SkipBreaks(a) + [] == SkipBreaks(a);
  }
}
