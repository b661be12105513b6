/**
 * The wire formats as texts and bytes: alphabets, labels, field order and byte order, each
 * written out on its own rather than through the functions that produce it.
 */
module WireFormats {
  import opened Common
  import opened Bytes
  import opened Sequence
  import opened Text
  import B64 = Base64
  import AD = AssociatedData
  import KS = Schedule
  import Qr

  // ---------------------------------------------------------------------
  // base64url, section 5 of RFC 4648
  // ---------------------------------------------------------------------

  /** The value of a character of the alphabet A-Z a-z 0-9 - _, and 64 for any other. */
  function Digit(c: char): nat {
    if 'A' <= c <= 'Z' then c as int - 'A' as int
    else if 'a' <= c <= 'z' then 26 + (c as int - 'a' as int)
    else if '0' <= c <= '9' then 52 + (c as int - '0' as int)
    else if c == '-' then 62
    else if c == '_' then 63
    else 64
  }

  lemma CharOf(v: B64.sextet)
    ensures Digit(B64.EncodeChar(v) as char) == v
  {
  }

  /** The number two, three and four characters write in base 64, most significant first. */
  function Two64(a: byte, b: byte): nat { Digit(a as char) * 64 + Digit(b as char) }
  function Three64(a: byte, b: byte, c: byte): nat { Two64(a, b) * 64 + Digit(c as char) }
  function Four64(a: byte, b: byte, c: byte, d: byte): nat { Three64(a, b, c) * 64 + Digit(d as char) }

  /** The number of three bytes, most significant first. */
  function Triple(x: int, y: int, z: int): int { (x * 256 + y) * 256 + z }

  function Double(x: int, y: int): int { x * 256 + y }

  function Times(x: int, y: int): int { x * y }

  /** Only characters of the alphabet. */
  lemma {:induction false} EncodeAlphabet(raw: seq<byte>, i: nat)
    requires i < |B64.Encode(raw)|
    ensures Digit(B64.Encode(raw)[i] as char) < 64
    decreases |raw|
  {
    B64.EncodeIsChars(raw);
    CharOf(B64.Unpack(raw)[i]);
  }

  /** Three bytes and four characters that hold the same bits write the same number. */
  lemma GroupWrites(x: byte, y: byte, z: byte)
    ensures Four64(B64.EncodeChar(x / 4), B64.EncodeChar(x % 4 * 16 + y / 16), B64.EncodeChar(y % 16 * 4 + z / 64), B64.EncodeChar(z % 64))
         == Triple(x, y, z)
  {
    CharOf(x / 4);
    CharOf(x % 4 * 16 + y / 16);
    CharOf(y % 16 * 4 + z / 64);
    CharOf(z % 64);
    GroupNumber(x, y, z);
  }

  lemma GroupNumber(x: int, y: int, z: int)
    ensures ((x / 4 * 64 + (x % 4 * 16 + y / 16)) * 64 + (y % 16 * 4 + z / 64)) * 64 + z % 64 == Triple(x, y, z)
  {
  }

  lemma EncodeShifts(raw: seq<byte>)
    requires |raw| >= 3
    ensures |B64.Encode(raw)| >= 4 && B64.Encode(raw)[4..] == B64.Encode(raw[3..])
  {
  }

  /** Every three bytes and their four characters write the same number. */
  lemma {:induction false} EncodeGroups(raw: seq<byte>, q: nat)
    requires 3 * q + 3 <= |raw|
    ensures var t, r := B64.Encode(raw), raw;
            && 4 * q + 4 <= |t|
            && Four64(t[4 * q], t[4 * q + 1], t[4 * q + 2], t[4 * q + 3]) == Triple(r[3 * q], r[3 * q + 1], r[3 * q + 2])
    decreases q
  {
    EncodeShifts(raw);
    if q > 0 {
      EncodeGroups(raw[3..], q - 1);
      var t, u := B64.Encode(raw), B64.Encode(raw[3..]);
      assert t[4 * q..] == u[4 * (q - 1)..];
    } else {
      GroupWrites(raw[0], raw[1], raw[2]);
    }
  }

  /** One or two bytes left over are written with zero bits behind them. */
  lemma EncodeRest(raw: seq<byte>)
    ensures |raw| == 1 ==> var t := B64.Encode(raw); |t| == 2 && Two64(t[0], t[1]) == Times(raw[0], 16)
    ensures |raw| == 2 ==> var t := B64.Encode(raw); |t| == 3 && Three64(t[0], t[1], t[2]) == Times(Double(raw[0], raw[1]), 4)
  {
    if |raw| == 1 {
      CharOf(raw[0] / 4);
      CharOf(raw[0] % 4 * 16);
    } else if |raw| == 2 {
      CharOf(raw[0] / 4);
      CharOf(raw[0] % 4 * 16 + raw[1] / 16);
      CharOf(raw[1] % 16 * 4);
    }
  }

  // ---------------------------------------------------------------------
  // Associated data
  // ---------------------------------------------------------------------

  /** Channel id, the number with its most significant byte first, the push class. */
  lemma AdBytes(channel: Id16, n: u64, pushClass: byte)
    ensures var ad := AD.BuildAd(channel, n, pushClass);
            && |ad| == 25 && ad[..16] == channel && ad[24] == pushClass
            && forall i :: 0 <= i < 8 ==> ad[23 - i] == ByteAt(n, i)
  {
    var ad := AD.BuildAd(channel, n, pushClass);
    forall i | 0 <= i < 8 ensures ad[23 - i] == ByteAt(n, i) {
      BigEndianAt(n, 8, i);
      assert ad[23 - i] == BigEndian(n, 8)[7 - i];
    }
  }

  /** The three push classes and their codes. */
  lemma PushClasses(s: seq<byte>, code: byte)
    ensures AD.ParsePushClass(s) == Some(code)
       <==> (s == Ascii("none") && code == 0) || (s == Ascii("wake") && code == 1) || (s == Ascii("attention") && code == 2)
  {
    assert Ascii("none") == AD.NONE && Ascii("wake") == AD.WAKE && Ascii("attention") == AD.ATTENTION;
  }

  // ---------------------------------------------------------------------
  // Key schedule
  // ---------------------------------------------------------------------

  lemma TranscriptBytes(proto: byte, hostId: Id16, deviceId: Id16, nD: Id32, nH: Id32)
    ensures var t := KS.Transcript(proto, hostId, deviceId, nD, nH);
            |t| == 97 && t[0] == proto && t[1..17] == hostId && t[17..33] == deviceId && t[33..65] == nD && t[65..] == nH
  {
  }

  /** The text hashed under version `p` with label `l`, before its fields. */
  function Labelled(p: byte, l: string): seq<byte>
    requires forall i :: 0 <= i < |l| ==> l[i] < 128 as char
  {
    Ascii("KENAZ-REMOTE-v") + Decimal(p) + Ascii(":") + Ascii(l)
  }

  lemma LabelIs(p: byte, l: string)
    requires forall i :: 0 <= i < |l| ==> l[i] < 128 as char
    ensures Labelled(p, l) == KS.Ds(p, Ascii(l))
  {
    assert Ascii(":") == [58];
  }

  /** What is hashed for the two session keys and the confirmation. */
  lemma HashedSessions(p: byte, h: Id16, d: Id16, nD: Id32, nH: Id32)
    ensures KS.Hashed(p, KS.SessionH2D(h, d, nD, nH)) == Labelled(p, "session:h2d") + ([p] + h + d + nD + nH)
    ensures KS.Hashed(p, KS.SessionD2H(h, d, nD, nH)) == Labelled(p, "session:d2h") + ([p] + h + d + nD + nH)
    ensures KS.Hashed(p, KS.Confirm(h, d, nD, nH)) == Labelled(p, "confirm") + ([p] + h + d + nD + nH)
  {
    LabelIs(p, "session:h2d");
    LabelIs(p, "session:d2h");
    LabelIs(p, "confirm");
  }

  /** What is hashed for the mailbox key, the pairing MAC and the account binding. */
  lemma HashedOthers(p: byte, h: Id16, d: Id16, hPk: Id32, dPk: Id32, nD: Id32, bind: Id16, sub: seq<byte>)
    ensures KS.Hashed(p, KS.Mailbox(h, d)) == Labelled(p, "mailbox:h2d") + ([p] + h + d)
    ensures KS.Hashed(p, KS.PairMac(h, hPk, d, dPk, nD, bind)) == Labelled(p, "pair-mac") + ([p] + h + hPk + d + dPk + nD + bind)
    ensures KS.Hashed(p, KS.AccountBind(hPk, sub)) == Labelled(p, "account-bind") + (hPk + sub)
  {
    LabelIs(p, "mailbox:h2d");
    LabelIs(p, "pair-mac");
    LabelIs(p, "account-bind");
  }

  // ---------------------------------------------------------------------
  // The pairing QR
  // ---------------------------------------------------------------------

  /** Section 3.4 of RFC 3986: letters, digits, the unreserved and sub-delimiter marks but '&' and '=', and ':' '@' '/' '?'. */
  predicate QueryChar(c: char) {
    'A' <= c <= 'Z' || 'a' <= c <= 'z' || '0' <= c <= '9' || c in "-._~" || c in "!$'()*+,;" || c in ":@/?"
  }

  /** A byte stays unescaped exactly if it is such a character. */
  lemma AllowedIff(c: byte)
    ensures Qr.RelayAllowed(c) <==> QueryChar(c as char)
  {
  }

  /** A relay is written as it is exactly if it has only such characters, and then read as it is. */
  lemma {:induction false} PlainRelay(s: seq<byte>)
    requires forall i :: 0 <= i < |s| ==> QueryChar(s[i] as char)
    ensures Qr.Escape(s) == s && Qr.Unescape(s) == Qr.Ok(s)
  {
    if s != [] {
      var front, last := s[..|s| - 1], s[|s| - 1];
      PlainRelay(front);
      AllowedIff(last);
      assert s == front + [last];
    }
    Qr.UnescapeInvertsEscape(s);
  }

  lemma OrdinaryOrigin()
    ensures var s := Ascii("https://relay.example"); Qr.Escape(s) == s && Qr.Unescape(s) == Qr.Ok(s)
  {
    PlainRelay(Ascii("https://relay.example"));
  }

  /** Hex digit `v`, upper case. */
  predicate HexAt(v: nat, c: byte) { (v < 10 && c == '0' as int + v) || (10 <= v < 16 && c == 'A' as int + (v - 10)) }

  /** Any other byte is written as '%' and its two hex digits. */
  lemma EscapedByte(c: byte)
    requires !QueryChar(c as char)
    ensures var e := Qr.Escape([c]);
            |e| == 3 && e[0] == '%' as int && HexAt(c / 16, e[1]) && HexAt(c % 16, e[2])
  {
    AllowedIff(c);
    assert [c][..0] == [];
  }

  /** A hex digit of either case. */
  predicate ReadsAs(c: byte, v: nat) { HexAt(v, c) || (10 <= v < 16 && c == 'a' as int + (v - 10)) }

  lemma NibbleIff(c: byte, v: byte)
    ensures Qr.HexNibble(c) == Qr.Ok(v) <==> ReadsAs(c, v)
  {
  }

  /** An escape is read as the byte its two hex digits write, and refused exactly if they are not hex digits. */
  lemma ReadEscape(a: byte, b: byte, hi: byte, lo: byte)
    ensures ReadsAs(a, hi) && ReadsAs(b, lo) ==> Qr.Unescape(['%' as int, a, b]) == Qr.Ok([hi * 16 + lo])
    ensures Qr.Unescape(['%' as int, a, b]).Err? <==> forall x: byte, y: byte :: !ReadsAs(a, x) || !ReadsAs(b, y)
  {
    var s: seq<byte> := [37, a, b];
    assert s[3..] == [];
    NibbleIff(a, hi);
    NibbleIff(b, lo);
    if ReadsAs(a, hi) && ReadsAs(b, lo) {
      assert [hi * 16 + lo] + [] == [hi * 16 + lo];
      assert Qr.Unescape(s) == Qr.Prepend([hi * 16 + lo], Qr.Unescape([]));
    }
    forall x: byte, y: byte ensures ReadsAs(a, x) && ReadsAs(b, y) ==> Qr.HexNibble(a).Ok? && Qr.HexNibble(b).Ok? {
      NibbleIff(a, x);
      NibbleIff(b, y);
    }
    if Qr.HexNibble(a).Ok? { NibbleIff(a, Qr.HexNibble(a).value); }
    if Qr.HexNibble(b).Ok? { NibbleIff(b, Qr.HexNibble(b).value); }
  }

  lemma KeyText()
    ensures Ascii("v=") == [118, 61] && Ascii("r=") == [114, 61] && Ascii("h=") == [104, 61] && Ascii("k=") == [107, 61]
    ensures Ascii("t=") == [116, 61] && Ascii("a=") == [97, 61] && Ascii("e=") == [101, 61]
  {
  }

  /** The text of a payload: the scheme, then seven parameters in this order between ampersands. */
  lemma EncodedText(p: Qr.Payload)
    ensures Qr.Encode(p)
         == Ascii("kenaz://pair?")
            + Join([Ascii("v=") + SignedDecimal(p.version), Ascii("r=") + Qr.Escape(p.relay), Ascii("h=") + B64.Encode(p.hostId),
                    Ascii("k=") + B64.Encode(p.hostPk), Ascii("t=") + B64.Encode(p.token), Ascii("a=") + B64.Encode(p.bind),
                    Ascii("e=") + SignedDecimal(p.expires)], '&' as int)
  {
    KeyText();
    var v := Qr.Values(p);
    var parts := Qr.Pairs(Qr.KEYS, v);
    assert parts == [[118, 61] + v[0], [114, 61] + v[1], [104, 61] + v[2], [107, 61] + v[3], [116, 61] + v[4], [97, 61] + v[5], [101, 61] + v[6]];
  }

  // Why a text is refused.

  /** One of the seven keys and an equals sign stand first. */
  predicate Keyed(part: seq<byte>) { |part| >= 2 && (part[0] as char) in "vrhktae" && part[1] == '=' as int }

  lemma KeyedIff(part: seq<byte>)
    ensures Qr.WellFormed(part) <==> Keyed(part)
  {
    if |part| >= 2 && part[1] == 61 && part[0] != 61 {
      assert [part[0]] + [61] + part[2..] == part;
      IndexOfFirst([part[0]], 61, part[2..]);
    }
  }

  /** What is wrong with a parameter, given those before it. */
  lemma ParamFaults(m: Qr.Params, part: seq<byte>)
    ensures Qr.AddParam(m, part) == Qr.Err(Qr.Malformed) <==> Without(part, '=' as int) || part[0] == '=' as int
    ensures Qr.AddParam(m, part) == Qr.Err(Qr.UnknownParam)
       <==> !Without(part, '=' as int) && part[0] != '=' as int && !Keyed(part)
    ensures Qr.AddParam(m, part) == Qr.Err(Qr.Duplicate) <==> Keyed(part) && part[0] in m
    ensures Qr.AddParam(m, part).Ok? <==> Keyed(part) && part[0] !in m
    ensures Qr.AddParam(m, part).Ok? ==> Qr.AddParam(m, part).value == m[part[0] := part[2..]]
  {
    KeyedIff(part);
    var i := IndexOf(part, 61);
    assert i == |part| <==> Without(part, 61);
  }

  lemma {:induction false} CollectFaults(parts: seq<seq<byte>>)
    ensures Qr.Collect(parts).Err? ==> Qr.Collect(parts).error in {Qr.Malformed, Qr.UnknownParam, Qr.Duplicate}
  {
    if parts != [] {
      CollectFaults(parts[..|parts| - 1]);
    }
  }

  lemma {:induction false} UnescapeFaults(s: seq<byte>)
    ensures Qr.Unescape(s).Err? ==> Qr.Unescape(s).error == Qr.RelayEncoding
  {
    if s != [] {
      if s[0] == 37 && |s| >= 3 { UnescapeFaults(s[3..]); }
      if s[0] != 37 { UnescapeFaults(s[1..]); }
    }
  }

  /** Another scheme, a missing parameter, another version: each has its own refusal. */
  lemma Refusals(u: seq<byte>)
    ensures Qr.Parse(u) == Qr.Err(Qr.BadScheme) <==> !(Ascii("kenaz://pair?") <= u)
    ensures Ascii("kenaz://pair?") <= u ==>
              var parts := Split(u[13..], '&' as int);
              var m := Qr.Collect(parts);
              && (m.Err? ==> Qr.Parse(u) == Qr.Err(m.error))
              && (m.Ok? ==> (Qr.Parse(u) == Qr.Err(Qr.Missing) <==> exists k: byte :: (k as char) in "vrhktae" && k !in m.value))
              && (m.Ok? && (forall k: byte :: (k as char) in "vrhktae" ==> k in m.value) ==>
                    (Qr.Parse(u) == Qr.Err(Qr.BadVersion) <==> m.value['v' as int] != Ascii("1")))
  {
    assert Ascii("1") == [49];
    if Ascii("kenaz://pair?") <= u {
      var parts := Split(u[13..], 38);
      var m := Qr.Collect(parts);
      CollectFaults(parts);
      if m.Ok? {
        KeySet(m.value);
        if Qr.Complete(m.value) { UnescapeFaults(m.value[114]); }
      }
    }
  }

  lemma KeySet(m: Qr.Params)
    ensures Qr.Complete(m) <==> forall k: byte :: (k as char) in "vrhktae" ==> k in m
  {
    forall k: byte ensures k in Qr.KEYS <==> (k as char) in "vrhktae" {
    }
  }
}
