/** Which accepted QR texts are the one Encode writes, e2ekit/qr.go. */
module QrCanonical {
  import opened Bytes
  import opened Text
  import opened Qr
  import Base64

  predicate IsUpperHex(c: byte) { 48 <= c <= 57 || 65 <= c <= 70 }

  /** Escapes in upper-case hex, and only of bytes that need one. */
  predicate MinimalEscapes(s: seq<byte>) {
    if s == [] then true
    else if s[0] == 37 then
      && |s| >= 3 && IsUpperHex(s[1]) && IsUpperHex(s[2])
      && !RelayAllowed(HexNibble(s[1]).value * 16 + HexNibble(s[2]).value)
      && MinimalEscapes(s[3..])
    else MinimalEscapes(s[1..])
  }

  lemma {:induction false} EscapeCons(c: byte, s: seq<byte>)
    ensures Escape([c] + s) == EscapeByte(c) + Escape(s)
  {
    var all := [c] + s;
    if s == [] {
      assert all[..0] == [];
    } else {
      var front, last := s[..|s| - 1], s[|s| - 1];
      EscapeCons(c, front);
      assert all[..|all| - 1] == [c] + front && all[|all| - 1] == last;
      assert Escape(all) == (EscapeByte(c) + Escape(front)) + EscapeByte(last);
      assert Escape(s) == Escape(front) + EscapeByte(last);
    }
  }

  lemma HexUpperIff(c: byte)
    requires HexNibble(c).Ok?
    ensures c == UpperHex(HexNibble(c).value) <==> IsUpperHex(c)
  {
  }

  lemma SplitByte(hi: int, lo: int)
    requires 0 <= hi < 16 && 0 <= lo < 16
    ensures (hi * 16 + lo) / 16 == hi && (hi * 16 + lo) % 16 == lo
  {
  }

  /** A relay value is the encoding of what it decodes to exactly if its escapes are minimal. */
  lemma {:induction false} EscapedIff(s: seq<byte>, r: seq<byte>)
    requires Unescape(s) == Ok(r)
    ensures s == Escape(r) <==> MinimalEscapes(s)
    decreases |s|
  {
    if s == [] {
    } else if s[0] == 37 {
      var hi, lo, rest := HexNibble(s[1]).value, HexNibble(s[2]).value, Unescape(s[3..]).value;
      EscapedIff(s[3..], rest);
      var c: byte := hi * 16 + lo;
      assert Escape(r) == EscapeByte(c) + Escape(rest) by {
        assert r == [c] + rest;
        EscapeCons(c, rest);
      }
      EscapedByteIff(s, hi, lo, Escape(rest));
      HexUpperIff(s[1]);
      HexUpperIff(s[2]);
    } else {
      var rest := Unescape(s[1..]).value;
      EscapedIff(s[1..], rest);
      assert Escape(r) == EscapeByte(s[0]) + Escape(rest) by {
        assert r == [s[0]] + rest;
        EscapeCons(s[0], rest);
      }
      PlainByteIff(s, Escape(rest));
    }
  }

  lemma PlainByteIff(s: seq<byte>, tail: seq<byte>)
    requires s != [] && RelayAllowed(s[0])
    ensures s == EscapeByte(s[0]) + tail <==> s[1..] == tail
  {
    CutPrefix([s[0]], s, tail);
  }

  lemma EscapedByteIff(s: seq<byte>, hi: byte, lo: byte, tail: seq<byte>)
    requires |s| >= 3 && s[0] == 37 && hi < 16 && lo < 16
    ensures s == EscapeByte(hi * 16 + lo) + tail
       <==> !RelayAllowed(hi * 16 + lo) && s[1] == UpperHex(hi) && s[2] == UpperHex(lo) && s[3..] == tail
  {
    var c := hi * 16 + lo;
    SplitByte(hi, lo);
    if RelayAllowed(c) {
      assert (EscapeByte(c) + tail)[0] == c != 37;
    } else if s[1] == UpperHex(hi) && s[2] == UpperHex(lo) {
      assert s[..3] == EscapeByte(c);
      CutPrefix(EscapeByte(c), s, tail);
    } else {
      assert (EscapeByte(c) + tail)[1] == UpperHex(hi) && (EscapeByte(c) + tail)[2] == UpperHex(lo);
    }
  }

  lemma Decoded(m: Params, p: Payload)
    requires Complete(m) && Fields(m) == Ok(p)
    ensures p.version == 1 && m[118] == [49] && Unescape(m[114]) == Ok(p.relay) && ParseExpires(m[101]) == Ok(p.expires)
  {
  }

  /** Of the seven values only the relay and the expiry can be written in more than one way. */
  lemma ValuesIff(m: Params, p: Payload)
    requires Complete(m) && Fields(m) == Ok(p)
    ensures m[118] == SignedDecimal(p.version)
    ensures m[104] == Base64.Encode(p.hostId) && m[107] == Base64.Encode(p.hostPk)
    ensures m[116] == Base64.Encode(p.token) && m[97] == Base64.Encode(p.bind)
    ensures m[114] == Escape(p.relay) <==> MinimalEscapes(m[114])
    ensures m[101] == SignedDecimal(p.expires) <==> NoLeadingZero(m[101])
  {
    IdsWritten(m, p);
    Decoded(m, p);
    assert m[118] == SignedDecimal(p.version) by { OneOnly(p.version); }
    assert m[114] == Escape(p.relay) <==> MinimalEscapes(m[114]) by { EscapedIff(m[114], p.relay); }
    assert m[101] == SignedDecimal(p.expires) <==> NoLeadingZero(m[101]) by { ExpiryIff(m[101], p.expires); }
  }

  lemma IdsWritten(m: Params, p: Payload)
    requires Complete(m) && Fields(m) == Ok(p)
    ensures m[104] == Base64.Encode(p.hostId) && m[107] == Base64.Encode(p.hostPk)
    ensures m[116] == Base64.Encode(p.token) && m[97] == Base64.Encode(p.bind)
  {
    Base64.DecodeBinIff(m[104], 16, p.hostId);
    Base64.DecodeBinIff(m[107], 32, p.hostPk);
    Base64.DecodeBinIff(m[116], 32, p.token);
    Base64.DecodeBinIff(m[97], 16, p.bind);
  }

  lemma ExpiryIff(e: seq<byte>, n: i64)
    requires ParseExpires(e) == Ok(n)
    ensures e == SignedDecimal(n) <==> NoLeadingZero(e)
  {
    DecimalIff(e);
  }

  /** The keys come in the order v r h k t a e. */
  predicate KeysInOrder(parts: seq<seq<byte>>) {
    |parts| == |KEYS| && forall i :: 0 <= i < |KEYS| ==> parts[i] != [] && parts[i][0] == KEYS[i]
  }

  function PartsOf(u: seq<byte>): seq<seq<byte>>
    requires PREFIX <= u
  {
    Split(u[|PREFIX|..], 38)
  }

  /** Accepted parts in order are the pairs of keys and collected values. */
  lemma OrderedParts(parts: seq<seq<byte>>, v: seq<seq<byte>>)
    requires Collect(parts).Ok? && KeysInOrder(parts) && |v| == |KEYS|
    requires forall i :: 0 <= i < |KEYS| ==> KEYS[i] in Collect(parts).value && Collect(parts).value[KEYS[i]] == v[i]
    ensures parts == Pairs(KEYS, v)
  {
    CollectIff(parts);
    forall i | 0 <= i < |parts| ensures parts[i] == Pairs(KEYS, v)[i] {
      assert parts[i] in multiset(parts);
      assert parts[i] == [parts[i][0], 61] + parts[i][2..];
    }
  }

  lemma SameParts(u: seq<byte>, parts: seq<seq<byte>>)
    requires PREFIX <= u && parts != [] && forall i :: 0 <= i < |parts| ==> Without(parts[i], 38)
    ensures u == PREFIX + Join(parts, 38) <==> PartsOf(u) == parts
  {
    CutPrefix(PREFIX, u, Join(parts, 38));
    JoinIff(u[|PREFIX|..], parts);
  }

  lemma JoinIff(x: seq<byte>, parts: seq<seq<byte>>)
    requires parts != [] && forall i :: 0 <= i < |parts| ==> Without(parts[i], 38)
    ensures x == Join(parts, 38) <==> Split(x, 38) == parts
  {
    SplitInvertsJoin(parts, 38);
    JoinInvertsSplit(x, 38);
  }

  lemma EncodedParts(u: seq<byte>, p: Payload)
    requires PREFIX <= u
    ensures u == Encode(p) <==> PartsOf(u) == Pairs(KEYS, Values(p))
  {
    ValuesWithoutAmp(p);
    PairsWithoutAmp(KEYS, Values(p));
    SameParts(u, Pairs(KEYS, Values(p)));
  }

  lemma KeyValues(m: Params, v: seq<seq<byte>>)
    requires Complete(m) && |v| == 7
    ensures (forall i :: 0 <= i < |KEYS| ==> KEYS[i] in m && m[KEYS[i]] == v[i])
       <==> (m[118] == v[0] && m[114] == v[1] && m[104] == v[2] && m[107] == v[3] && m[116] == v[4] && m[97] == v[5] && m[101] == v[6])
  {
    assert KEYS[0] == 118 && KEYS[1] == 114 && KEYS[2] == 104 && KEYS[3] == 107;
    assert KEYS[4] == 116 && KEYS[5] == 97 && KEYS[6] == 101;
  }

  /** The collected values are those of the encoding exactly if relay and expiry are written as it writes them. */
  lemma ValuesHeld(m: Params, p: Payload)
    requires Complete(m) && Fields(m) == Ok(p)
    ensures (forall i :: 0 <= i < |KEYS| ==> KEYS[i] in m && m[KEYS[i]] == Values(p)[i])
       <==> MinimalEscapes(m[114]) && NoLeadingZero(m[101])
  {
    ValuesIff(m, p);
    KeyValues(m, Values(p));
  }

  lemma WrittenOrder(v: seq<seq<byte>>)
    requires |v| == 7
    ensures KeysInOrder(Pairs(KEYS, v))
  {
  }

  /** Accepted parts are those of the encoding exactly if they are in order and hold its values. */
  lemma PartsIff(parts: seq<seq<byte>>, m: Params, v: seq<seq<byte>>)
    requires Collect(parts) == Ok(m) && Complete(m) && |v| == 7
    ensures parts == Pairs(KEYS, v)
       <==> KeysInOrder(parts) && forall i :: 0 <= i < |KEYS| ==> KEYS[i] in m && m[KEYS[i]] == v[i]
  {
    if parts == Pairs(KEYS, v) {
      WrittenOrder(v);
      CollectPairs(KEYS, v);
      ParamMapAt(KEYS, v);
    } else if KeysInOrder(parts) && forall i :: 0 <= i < |KEYS| ==> KEYS[i] in m && m[KEYS[i]] == v[i] {
      OrderedParts(parts, v);
    }
  }

  /**
   * An accepted URI is the one Encode writes for its payload if and only if its parameters
   * come in order, its relay escapes only what it must in upper case, and its expiry has no
   * leading zero.
   */
  lemma CanonicalIff(u: seq<byte>)
    requires Parse(u).Ok?
    ensures var parts, m := PartsOf(u), Collect(PartsOf(u)).value;
            u == Encode(Parse(u).value) <==> KeysInOrder(parts) && MinimalEscapes(m[114]) && NoLeadingZero(m[101])
  {
    var p, m := Parse(u).value, Collect(PartsOf(u)).value;
    EncodedParts(u, p);
    PartsIff(PartsOf(u), m, Values(p));
    ValuesHeld(m, p);
  }

  lemma ZeroParses(n: i64)
    requires n >= 0
    ensures ParseExpires([48] + Decimal(n)) == Ok(n) && ParseExpires(Decimal(n)) == Ok(n)
  {
    DecimalInverse(n);
    ZeroInFront(Decimal(n));
  }

  lemma OtherExpiry(m: Params, m': Params)
    requires Complete(m) && Complete(m') && ParseExpires(m[101]) == ParseExpires(m'[101])
    requires m[118] == m'[118] && m[114] == m'[114] && m[104] == m'[104] && m[107] == m'[107] && m[116] == m'[116] && m[97] == m'[97]
    ensures Fields(m) == Fields(m')
  {
  }

  lemma OtherText(v: seq<seq<byte>>, p: Payload)
    requires |v| == 7 && (forall i :: 0 <= i < 7 ==> Without(v[i], 38)) && |v[6]| != |Values(p)[6]|
    ensures PREFIX + Join(Pairs(KEYS, v), 38) != Encode(p)
  {
    var u := PREFIX + Join(Pairs(KEYS, v), 38);
    PairsWithoutAmp(KEYS, v);
    SameParts(u, Pairs(KEYS, v));
    EncodedParts(u, p);
    assert |Pairs(KEYS, v)[6]| != |Pairs(KEYS, Values(p))[6]|;
  }

  /** Every payload that parses back is also accepted with a zero put before its expiry. */
  lemma LeadingZeroAccepted(p: Payload) returns (u: seq<byte>)
    requires p.version == 1 && p.expires >= 0
    ensures Parse(u) == Ok(p) && u != Encode(p)
  {
    var v := Values(p)[6 := [48] + Decimal(p.expires)];
    u := PREFIX + Join(Pairs(KEYS, v), 38);
    ValuesWithoutAmp(p);
    OtherText(v, p);
    ParseValues(v);
    AllWritten(v);
    WrittenValues(p);
    ZeroParses(p.expires);
    OtherExpiry(ParamMap(KEYS, v), Written(p));
    ParseInvertsEncode(p);
    ParseEncoded(p);
  }
}
