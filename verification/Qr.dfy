/** The pairing QR codec, e2ekit/qr.go. Texts are byte strings. */
module Qr {
  import opened Common
  import opened Bytes
  import opened Text
  import Base64


  const I64_LIMIT: int := 0x8000_0000_0000_0000

  type i64 = n: int | -I64_LIMIT <= n < I64_LIMIT

  datatype Payload = Payload(version: i64, relay: seq<byte>, hostId: Id16, hostPk: Id32,
                             token: Id32, bind: Id16, expires: i64)

  datatype Error = BadScheme | BadVersion | Duplicate | UnknownParam | Malformed | Missing | RelayEncoding

  datatype Result<T> = Ok(value: T) | Err(error: Error)

  // ---------------------------------------------------------------------
  // Percent-encoding of the relay origin (sections 2.1 and 3.4 of RFC 3986)
  // ---------------------------------------------------------------------

  /** Query characters that stay as they are; '&', '=', '#' and '%' never do. */
  predicate RelayAllowed(c: byte) {
    || 65 <= c <= 90 || 97 <= c <= 122 || 48 <= c <= 57
    || c in {45, 46, 95, 126}                             // - . _ ~
    || c in {33, 36, 39, 40, 41, 42, 43, 44, 59}          // ! $ ' ( ) * + , ;
    || c in {58, 64, 47, 63}                              // : @ / ?
  }

  function UpperHex(v: int): byte
    requires 0 <= v < 16
  {
    if v < 10 then 48 + v else 55 + v
  }

  function HexNibble(c: byte): (r: Result<byte>)
    ensures r.Ok? ==> r.value < 16
  {
    if 48 <= c <= 57 then Ok(c - 48)
    else if 65 <= c <= 70 then Ok(c - 55)
    else if 97 <= c <= 102 then Ok(c - 87)
    else Err(Malformed)
  }

  function EscapeByte(c: byte): seq<byte> {
    if RelayAllowed(c) then [c] else [37, UpperHex(c / 16), UpperHex(c % 16)]
  }

  function Escape(s: seq<byte>): seq<byte> {
    if s == [] then [] else Escape(s[..|s| - 1]) + EscapeByte(s[|s| - 1])
  }

  function Prepend(a: seq<byte>, r: Result<seq<byte>>): Result<seq<byte>> {
    if r.Ok? then Ok(a + r.value) else r
  }

  function Unescape(s: seq<byte>): Result<seq<byte>> {
    if s == [] then Ok([])
    else if s[0] == 37 then
      if |s| < 3 then Err(RelayEncoding)
      else
        var hi, lo := HexNibble(s[1]), HexNibble(s[2]);
        if hi.Err? || lo.Err? then Err(RelayEncoding)
        else Prepend([hi.value * 16 + lo.value], Unescape(s[3..]))
    else if RelayAllowed(s[0]) then Prepend([s[0]], Unescape(s[1..]))
    else Err(RelayEncoding)
  }

  method EscapeRelay(s: seq<byte>) returns (out: seq<byte>)
    ensures out == Escape(s)
  {
    out := [];
    for i := 0 to |s|
      invariant out == Escape(s[..i])
    {
      assert s[..i + 1][..i] == s[..i];
      if RelayAllowed(s[i]) {
        out := out + [s[i]];
      } else {
        out := out + [37, UpperHex(s[i] / 16), UpperHex(s[i] % 16)];
      }
    }
    assert s[..|s|] == s;
  }

  method UnescapeRelay(s: seq<byte>) returns (r: Result<seq<byte>>)
    ensures r == Unescape(s)
  {
    var out: seq<byte> := [];
    var i := 0;
    assert s[0..] == s;
    PrependNothing(Unescape(s));
    while i < |s|
      invariant 0 <= i <= |s|
      invariant Unescape(s) == Prepend(out, Unescape(s[i..]))
    {
      var c := s[i];
      if c == 37 {
        if i + 2 >= |s| {
          return Err(RelayEncoding);
        }
        var hi, lo := HexNibble(s[i + 1]), HexNibble(s[i + 2]);
        if hi.Err? || lo.Err? {
          return Err(RelayEncoding);
        }
        assert s[i..][3..] == s[i + 3..];
        PrependTwice(out, hi.value * 16 + lo.value, Unescape(s[i + 3..]));
        out := out + [hi.value * 16 + lo.value];
        i := i + 3;
      } else if RelayAllowed(c) {
        assert s[i..][1..] == s[i + 1..];
        PrependTwice(out, c, Unescape(s[i + 1..]));
        out := out + [c];
        i := i + 1;
      } else {
        return Err(RelayEncoding);
      }
    }
    assert out + [] == out;
    r := Ok(out);
  }

  lemma PrependNothing(r: Result<seq<byte>>)
    ensures Prepend([], r) == r
  {
    if r.Ok? {
      assert [] + r.value == r.value;
    }
  }

  lemma PrependTwice(a: seq<byte>, c: byte, r: Result<seq<byte>>)
    ensures Prepend(a, Prepend([c], r)) == Prepend(a + [c], r)
  {
    if r.Ok? {
      assert a + ([c] + r.value) == a + [c] + r.value;
    }
  }

  lemma HexInverse(c: byte)
    ensures HexNibble(UpperHex(c / 16)) == Ok(c / 16) && HexNibble(UpperHex(c % 16)) == Ok(c % 16)
  {
  }

  lemma UnescapeByte(c: byte, t: seq<byte>)
    ensures Unescape(EscapeByte(c) + t) == Prepend([c], Unescape(t))
  {
    var e := EscapeByte(c) + t;
    if RelayAllowed(c) {
      assert e[1..] == t;
    } else {
      HexInverse(c);
      assert e[3..] == t;
    }
  }

  lemma {:induction false} UnescapeOnto(s: seq<byte>, t: seq<byte>)
    ensures Unescape(Escape(s) + t) == Prepend(s, Unescape(t))
  {
    if s == [] {
      assert [] + t == t;
      PrependNothing(Unescape(t));
    } else {
      var most, c := s[..|s| - 1], s[|s| - 1];
      assert Escape(s) + t == Escape(most) + (EscapeByte(c) + t);
      UnescapeOnto(most, EscapeByte(c) + t);
      UnescapeByte(c, t);
      PrependTwice(most, c, Unescape(t));
      assert most + [c] == s;
    }
  }

  /** Every byte string survives escaping, whatever bytes it holds. */
  lemma UnescapeInvertsEscape(s: seq<byte>)
    ensures Unescape(Escape(s)) == Ok(s)
  {
    UnescapeOnto(s, []);
    assert Escape(s) + [] == Escape(s) && s + [] == s;
  }

  lemma {:induction false} EscapeWithoutAmp(s: seq<byte>)
    ensures Without(Escape(s), 38)
  {
    if s != [] {
      EscapeWithoutAmp(s[..|s| - 1]);
    }
  }

  // ---------------------------------------------------------------------
  // Parameters
  // ---------------------------------------------------------------------

  const PREFIX: seq<byte> := Ascii("kenaz://pair?")

  /** v r h k t a e, the canonical order. */
  const KEYS: seq<byte> := [118, 114, 104, 107, 116, 97, 101]

  type Params = map<byte, seq<byte>>

  predicate WellFormed(part: seq<byte>) {
    IndexOf(part, 61) < |part| && IndexOf(part, 61) == 1 && part[0] in KEYS
  }

  function Key(part: seq<byte>): byte
    requires WellFormed(part)
  {
    part[0]
  }

  function Val(part: seq<byte>): seq<byte>
    requires WellFormed(part)
  {
    part[2..]
  }

  /** One parameter: present separator, nonempty known key, not seen before. */
  function AddParam(m: Params, part: seq<byte>): Result<Params> {
    var i := IndexOf(part, 61);
    if i == |part| || i == 0 then Err(Malformed)
    else if i != 1 || part[0] !in KEYS then Err(UnknownParam)
    else if part[0] in m then Err(Duplicate)
    else Ok(m[part[0] := part[2..]])
  }

  function Collect(parts: seq<seq<byte>>): Result<Params> {
    if parts == [] then Ok(map[])
    else
      var m := Collect(parts[..|parts| - 1]);
      if m.Err? then m else AddParam(m.value, parts[|parts| - 1])
  }

  method CollectParams(parts: seq<seq<byte>>) returns (r: Result<Params>)
    ensures r == Collect(parts)
  {
    r := Ok(map[]);
    for i := 0 to |parts|
      invariant r.Ok? && r == Collect(parts[..i])
    {
      assert parts[..i + 1][..i] == parts[..i];
      r := AddParam(r.value, parts[i]);
      if r.Err? {
        CollectFails(parts, i + 1);
        return;
      }
    }
    assert parts[..|parts|] == parts;
  }

  lemma {:induction false} CollectFails(parts: seq<seq<byte>>, i: nat)
    requires i <= |parts| && Collect(parts[..i]).Err?
    ensures Collect(parts) == Collect(parts[..i])
    decreases |parts|
  {
    if i < |parts| {
      assert parts[..|parts| - 1][..i] == parts[..i];
      CollectFails(parts[..|parts| - 1], i);
    } else {
      assert parts[..i] == parts;
    }
  }

  // ---------------------------------------------------------------------
  // Parse and encode
  // ---------------------------------------------------------------------

  predicate Complete(m: Params) { forall k :: k in KEYS ==> k in m }

  function ParseExpires(e: seq<byte>): Result<i64> {
    if e == [] || !AllDigits(e) then Err(Malformed)
    else if DecimalValue(e) >= I64_LIMIT then Err(Malformed)
    else Ok(DecimalValue(e))
  }

  /** The seven values, in the order the source checks them. */
  function Fields(m: Params): Result<Payload>
    requires Complete(m)
  {
    if m[118] != [49] then Err(BadVersion)
    else
      var r := Unescape(m[114]);
      if r.Err? then Err(r.error)
      else
        var h, k, t, a := Base64.DecodeBin(m[104], 16), Base64.DecodeBin(m[107], 32),
                          Base64.DecodeBin(m[116], 32), Base64.DecodeBin(m[97], 16);
        if h.None? || k.None? || t.None? || a.None? then Err(Malformed)
        else
          var e := ParseExpires(m[101]);
          if e.Err? then Err(e.error)
          else Ok(Payload(1, r.value, h.value, k.value, t.value, a.value, e.value))
  }

  function Parse(uri: seq<byte>): Result<Payload> {
    if !(PREFIX <= uri) then Err(BadScheme) else ParseParts(Split(uri[|PREFIX|..], 38))
  }

  function ParseParts(parts: seq<seq<byte>>): Result<Payload> {
    var m := Collect(parts);
    if m.Err? then Err(m.error)
    else if !Complete(m.value) then Err(Missing)
    else Fields(m.value)
  }

  function Values(p: Payload): (v: seq<seq<byte>>)
    ensures |v| == 7
  {
    [SignedDecimal(p.version), Escape(p.relay), Base64.Encode(p.hostId), Base64.Encode(p.hostPk),
     Base64.Encode(p.token), Base64.Encode(p.bind), SignedDecimal(p.expires)]
  }

  /** key '=' value for each key and value. */
  function Pairs(keys: seq<byte>, vals: seq<seq<byte>>): (r: seq<seq<byte>>)
    requires |keys| == |vals|
    ensures |r| == |keys|
  {
    seq(|keys|, i requires 0 <= i < |keys| => [keys[i], 61] + vals[i])
  }

  function Encode(p: Payload): seq<byte> { PREFIX + Join(Pairs(KEYS, Values(p)), 38) }

  // ---------------------------------------------------------------------
  // Round trip
  // ---------------------------------------------------------------------

  lemma PairWellFormed(k: byte, v: seq<byte>)
    requires k in KEYS
    ensures WellFormed([k, 61] + v) && Key([k, 61] + v) == k && Val([k, 61] + v) == v
  {
    assert [k] + [61] + v == [k, 61] + v;
    IndexOfFirst([k], 61, v);
  }

  function ParamMap(keys: seq<byte>, vals: seq<seq<byte>>): Params
    requires |keys| == |vals|
  {
    if keys == [] then map[]
    else ParamMap(keys[..|keys| - 1], vals[..|keys| - 1])[keys[|keys| - 1] := vals[|keys| - 1]]
  }

  predicate Distinct(keys: seq<byte>) {
    forall i, j :: 0 <= i < j < |keys| ==> keys[i] != keys[j]
  }

  lemma {:induction false} ParamMapAt(keys: seq<byte>, vals: seq<seq<byte>>)
    requires |keys| == |vals| && Distinct(keys)
    ensures forall i :: 0 <= i < |keys| ==> keys[i] in ParamMap(keys, vals) && ParamMap(keys, vals)[keys[i]] == vals[i]
    ensures forall k :: k in ParamMap(keys, vals) ==> k in keys
    decreases |keys|
  {
    if keys != [] {
      var n := |keys| - 1;
      ParamMapAt(keys[..n], vals[..n]);
      assert keys == keys[..n] + [keys[n]];
    }
  }

  lemma AddPair(m: Params, k: byte, v: seq<byte>)
    requires k in KEYS && k !in m
    ensures AddParam(m, [k, 61] + v) == Ok(m[k := v])
  {
    PairWellFormed(k, v);
  }

  lemma {:induction false} CollectPairs(keys: seq<byte>, vals: seq<seq<byte>>)
    requires |keys| == |vals| && Distinct(keys)
    requires forall i :: 0 <= i < |keys| ==> keys[i] in KEYS
    ensures Collect(Pairs(keys, vals)) == Ok(ParamMap(keys, vals))
    decreases |keys|
  {
    if keys != [] {
      var n := |keys| - 1;
      CollectPairs(keys[..n], vals[..n]);
      ParamMapAt(keys[..n], vals[..n]);
      assert Pairs(keys, vals)[..n] == Pairs(keys[..n], vals[..n]);
      assert keys[n] !in keys[..n];
      AddPair(ParamMap(keys[..n], vals[..n]), keys[n], vals[n]);
    }
  }

  lemma PairsWithoutAmp(keys: seq<byte>, vals: seq<seq<byte>>)
    requires |keys| == |vals|
    requires forall i :: 0 <= i < |keys| ==> keys[i] != 38 && Without(vals[i], 38)
    ensures forall i :: 0 <= i < |keys| ==> Without(Pairs(keys, vals)[i], 38)
  {
  }

  lemma {:induction false} Base64WithoutAmp(raw: seq<byte>)
    ensures Without(Base64.Encode(raw), 38)
  {
    Base64.EncodeIsChars(raw);
  }

  lemma ValuesWithoutAmp(p: Payload)
    ensures forall i :: 0 <= i < 7 ==> Without(Values(p)[i], 38)
  {
    EscapeWithoutAmp(p.relay);
    Base64WithoutAmp(p.hostId);
    Base64WithoutAmp(p.hostPk);
    Base64WithoutAmp(p.token);
    Base64WithoutAmp(p.bind);
  }

  /** The parameters of an encoded payload. */
  function Written(p: Payload): Params { ParamMap(KEYS, Values(p)) }

  lemma WrittenValues(p: Payload)
    ensures var m, v := Written(p), Values(p);
            && Complete(m)
            && m[118] == v[0] && m[114] == v[1] && m[104] == v[2] && m[107] == v[3]
            && m[116] == v[4] && m[97] == v[5] && m[101] == v[6]
  {
    AllWritten(Values(p));
  }

  lemma AllWritten(v: seq<seq<byte>>)
    requires |v| == 7
    ensures var m := ParamMap(KEYS, v);
            && Complete(m)
            && m[118] == v[0] && m[114] == v[1] && m[104] == v[2] && m[107] == v[3]
            && m[116] == v[4] && m[97] == v[5] && m[101] == v[6]
  {
    ParamMapAt(KEYS, v);
    assert KEYS[0] == 118 && KEYS[1] == 114 && KEYS[2] == 104 && KEYS[3] == 107;
    assert KEYS[4] == 116 && KEYS[5] == 97 && KEYS[6] == 101;
  }

  lemma ParseJoined(parts: seq<seq<byte>>)
    requires parts != [] && forall i :: 0 <= i < |parts| ==> Without(parts[i], 38)
    ensures Parse(PREFIX + Join(parts, 38)) == ParseParts(parts)
  {
    SplitInvertsJoin(parts, 38);
    assert (PREFIX + Join(parts, 38))[|PREFIX|..] == Join(parts, 38);
  }

  lemma ParseKeyed(keys: seq<byte>, v: seq<seq<byte>>, m: Params)
    requires keys != [] && |keys| == |v| && forall i :: 0 <= i < |keys| ==> keys[i] != 38 && Without(v[i], 38)
    requires Collect(Pairs(keys, v)) == Ok(m) && Complete(m)
    ensures Parse(PREFIX + Join(Pairs(keys, v), 38)) == Fields(m)
  {
    PairsWithoutAmp(keys, v);
    ParseJoined(Pairs(keys, v));
  }

  lemma ParseValues(v: seq<seq<byte>>)
    requires |v| == 7 && forall i :: 0 <= i < 7 ==> Without(v[i], 38)
    ensures Complete(ParamMap(KEYS, v)) && Parse(PREFIX + Join(Pairs(KEYS, v), 38)) == Fields(ParamMap(KEYS, v))
  {
    AllWritten(v);
    CollectPairs(KEYS, v);
    ParseKeyed(KEYS, v, ParamMap(KEYS, v));
  }

  /** An encoded payload parses to whatever its seven values parse to. */
  lemma ParseEncoded(p: Payload)
    ensures Complete(Written(p)) && Parse(Encode(p)) == Fields(Written(p))
  {
    ValuesWithoutAmp(p);
    ParseValues(Values(p));
  }

  lemma OneOnly(n: i64)
    ensures SignedDecimal(n) == [49] <==> n == 1
  {
    if n >= 0 {
      DecimalInverse(n);
      assert DecimalValue([49]) == 1 by { assert [49][..0] == []; }
    }
  }

  lemma ExpiresInverse(n: i64)
    ensures ParseExpires(SignedDecimal(n)) == if n >= 0 then Ok(n) else Err(Malformed)
  {
    if n >= 0 {
      DecimalInverse(n);
    } else {
      assert !IsDigit(SignedDecimal(n)[0]);
    }
  }

  lemma IdInverse(raw: seq<byte>, n: nat)
    requires |raw| == n
    ensures Base64.DecodeBin(Base64.Encode(raw), n) == Some(raw)
  {
    Base64.DecodeBinIff(Base64.Encode(raw), n, raw);
  }

  /** A payload parses back from its encoding exactly when it is version 1 with nonnegative expiry. */
  lemma ParseInvertsEncode(p: Payload)
    ensures Parse(Encode(p)) == Ok(p) <==> p.version == 1 && p.expires >= 0
  {
    ParseEncoded(p);
    WrittenValues(p);
    OneOnly(p.version);
    if p.version == 1 {
      UnescapeInvertsEscape(p.relay);
      IdInverse(p.hostId, 16);
      IdInverse(p.hostPk, 32);
      IdInverse(p.token, 32);
      IdInverse(p.bind, 16);
      ExpiresInverse(p.expires);
    }
  }

  lemma FieldsShape(m: Params)
    requires Complete(m) && Fields(m).Ok?
    ensures Fields(m).value.version == 1 && Fields(m).value.expires >= 0
  {
  }

  /** Re-encoding an accepted URI and parsing again changes nothing. */
  lemma ParseStable(u: seq<byte>)
    requires Parse(u).Ok?
    ensures Parse(Encode(Parse(u).value)) == Parse(u)
  {
    FieldsShape(Collect(Split(u[|PREFIX|..], 38)).value);
    ParseInvertsEncode(Parse(u).value);
  }

  // ---------------------------------------------------------------------
  // Parameter order
  // ---------------------------------------------------------------------

  /** Well-formed parts, no key twice. */
  ghost predicate GoodBag(bag: multiset<seq<byte>>) {
    && (forall p :: p in bag ==> WellFormed(p) && bag[p] == 1)
    && (forall p, q :: p in bag && q in bag && p[..1] == q[..1] ==> p == q)
  }

  ghost predicate Holds(m: Params, bag: multiset<seq<byte>>)
    requires GoodBag(bag)
  {
    && (forall p :: p in bag ==> Key(p) in m && m[Key(p)] == Val(p))
    && (forall k :: k in m ==> exists p :: p in bag && Key(p) == k)
  }

  lemma GoodBagAdd(bag: multiset<seq<byte>>, part: seq<byte>)
    ensures GoodBag(bag + multiset{part})
       <==> GoodBag(bag) && WellFormed(part) && forall q :: q in bag ==> q[..1] != part[..1]
  {
    var more := bag + multiset{part};
    if GoodBag(more) {
      assert part in more && more[part] == bag[part] + 1;
      forall p | p in bag ensures WellFormed(p) && bag[p] == 1 && p[..1] != part[..1] {
        assert p in more && more[p] == bag[p] + (if p == part then 1 else 0);
      }
    }
    if GoodBag(bag) && WellFormed(part) && forall q :: q in bag ==> q[..1] != part[..1] {
      forall p | p in more ensures WellFormed(p) && more[p] == 1 {
        assert more[p] == bag[p] + (if p == part then 1 else 0);
      }
    }
  }

  lemma {:induction false} CollectIff(parts: seq<seq<byte>>)
    ensures Collect(parts).Ok? <==> GoodBag(multiset(parts))
    ensures Collect(parts).Ok? ==> Holds(Collect(parts).value, multiset(parts))
    decreases |parts|
  {
    if parts != [] {
      var n := |parts| - 1;
      var most, part := parts[..n], parts[n];
      CollectIff(most);
      assert parts == most + [part];
      assert multiset(parts) == multiset(most) + multiset{part};
      GoodBagAdd(multiset(most), part);
      if Collect(most).Ok? {
        AddToBag(Collect(most).value, multiset(most), part);
      }
    }
  }

  lemma KeySeenIff(m: Params, bag: multiset<seq<byte>>, part: seq<byte>)
    requires GoodBag(bag) && Holds(m, bag) && WellFormed(part)
    ensures Key(part) !in m <==> forall q :: q in bag ==> q[..1] != part[..1]
  {
    if q :| q in bag && q[..1] == part[..1] {
      assert q[0] == q[..1][0] == part[..1][0] == part[0];
    }
    if Key(part) in m {
      var q :| q in bag && Key(q) == Key(part);
      assert q[..1] == [q[0]] == part[..1];
    }
  }

  lemma HoldsMore(m: Params, bag: multiset<seq<byte>>, part: seq<byte>)
    requires GoodBag(bag) && Holds(m, bag) && WellFormed(part) && Key(part) !in m && GoodBag(bag + multiset{part})
    ensures Holds(m[Key(part) := Val(part)], bag + multiset{part})
  {
    var m', bag' := m[Key(part) := Val(part)], bag + multiset{part};
    forall p | p in bag' ensures Key(p) in m' && m'[Key(p)] == Val(p) {
      if p != part { assert p in bag; }
    }
    forall k | k in m' ensures exists p :: p in bag' && Key(p) == k {
      if k == Key(part) {
        assert part in bag';
      } else {
        var p :| p in bag && Key(p) == k;
        assert p in bag';
      }
    }
  }

  lemma AddToBag(m: Params, bag: multiset<seq<byte>>, part: seq<byte>)
    requires GoodBag(bag) && Holds(m, bag)
    ensures AddParam(m, part).Ok? <==> GoodBag(bag + multiset{part})
    ensures AddParam(m, part).Ok? ==> Holds(AddParam(m, part).value, bag + multiset{part})
  {
    GoodBagAdd(bag, part);
    if WellFormed(part) {
      KeySeenIff(m, bag, part);
      if Key(part) !in m {
        HoldsMore(m, bag, part);
      }
    }
  }

  lemma HoldsWithin(m: Params, m': Params, bag: multiset<seq<byte>>, k: byte)
    requires GoodBag(bag) && Holds(m, bag) && Holds(m', bag) && k in m
    ensures k in m' && m'[k] == m[k]
  {
    var p :| p in bag && Key(p) == k;
  }

  lemma HoldsUnique(m: Params, m': Params, bag: multiset<seq<byte>>)
    requires GoodBag(bag) && Holds(m, bag) && Holds(m', bag)
    ensures m == m'
  {
    forall k | k in m ensures k in m' && m'[k] == m[k] {
      HoldsWithin(m, m', bag, k);
    }
    forall k | k in m' ensures k in m {
      HoldsWithin(m', m, bag, k);
    }
  }

  /** Reordering the parameters of an accepted URI changes nothing. */
  lemma OrderIrrelevant(u: seq<byte>, parts: seq<seq<byte>>)
    requires Parse(u).Ok?
    requires multiset(parts) == multiset(Split(u[|PREFIX|..], 38))
    ensures parts != [] && Parse(PREFIX + Join(parts, 38)) == Parse(u)
  {
    var orig := Split(u[|PREFIX|..], 38);
    JoinInvertsSplit(u[|PREFIX|..], 38);
    assert orig[0] in multiset(orig);
    forall i | 0 <= i < |parts| ensures Without(parts[i], 38) {
      assert parts[i] in multiset(parts);
      assert parts[i] in orig;
    }
    ParseJoined(parts);
    CollectIff(orig);
    CollectIff(parts);
    HoldsUnique(Collect(orig).value, Collect(parts).value, multiset(orig));
  }
}
