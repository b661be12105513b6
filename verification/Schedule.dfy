/**
 * The key schedule of e2ekit/schedule.go, as the exact byte strings it hashes. No two
 * purposes, versions or field values ever hash the same string.
 */
module Schedule {
  import opened Bytes
  import opened Text


  /** Everything the schedule hashes, with its fields. */
  datatype Input =
    | SessionH2D(hostId: Id16, deviceId: Id16, nD: Id32, nH: Id32)
    | SessionD2H(hostId: Id16, deviceId: Id16, nD: Id32, nH: Id32)
    | Confirm(hostId: Id16, deviceId: Id16, nD: Id32, nH: Id32)
    | Mailbox(hostId: Id16, deviceId: Id16)
    | PairMac(hostId: Id16, hostPk: Id32, deviceId: Id16, devPk: Id32, nD: Id32, bind: Id16)
    | AccountBind(hostPk: Id32, sub: seq<byte>)

  const LABEL: seq<byte> := Ascii("KENAZ-REMOTE-v")

  /** The domain-separation string of a protocol version. */
  function Ds(proto: byte, tail: seq<byte>): seq<byte> { LABEL + Decimal(proto) + [58] + tail }

  function Tail(x: Input): seq<byte> {
    match x
    case SessionH2D(_, _, _, _) => Ascii("session:h2d")
    case SessionD2H(_, _, _, _) => Ascii("session:d2h")
    case Confirm(_, _, _, _) => Ascii("confirm")
    case Mailbox(_, _) => Ascii("mailbox:h2d")
    case PairMac(_, _, _, _, _, _) => Ascii("pair-mac")
    case AccountBind(_, _) => Ascii("account-bind")
  }

  /** proto, host_id, device_id, n_d, n_h: always 97 bytes. */
  function Transcript(proto: byte, hostId: Id16, deviceId: Id16, nD: Id32, nH: Id32): (t: seq<byte>)
    ensures |t| == 97
  {
    [proto] + hostId + deviceId + nD + nH
  }

  /** The transcript filled into its buffer, field by field. */
  method FillTranscript(proto: byte, hostId: Id16, deviceId: Id16, nD: Id32, nH: Id32) returns (t: array<byte>)
    ensures fresh(t) && t[..] == Transcript(proto, hostId, deviceId, nD, nH)
  {
    t := new byte[97](_ => 0);
    t[0] := proto;
    forall i | 1 <= i < 17 { t[i] := hostId[i - 1]; }
    forall i | 17 <= i < 33 { t[i] := deviceId[i - 17]; }
    forall i | 33 <= i < 65 { t[i] := nD[i - 33]; }
    forall i | 65 <= i < 97 { t[i] := nH[i - 65]; }
  }

  function Body(proto: byte, x: Input): seq<byte> {
    match x
    case SessionH2D(h, d, nD, nH) => Transcript(proto, h, d, nD, nH)
    case SessionD2H(h, d, nD, nH) => Transcript(proto, h, d, nD, nH)
    case Confirm(h, d, nD, nH) => Transcript(proto, h, d, nD, nH)
    case Mailbox(h, d) => [proto] + h + d
    case PairMac(h, hPk, d, dPk, nD, b) => [proto] + h + hPk + d + dPk + nD + b
    case AccountBind(hPk, sub) => hPk + sub
  }

  /** The byte string hashed for a purpose under a protocol version. */
  function Hashed(proto: byte, x: Input): seq<byte> { Ds(proto, Tail(x)) + Body(proto, x) }

  /** The parsers of both sides agree on where the version number ends. */
  lemma DecimalColon(m: nat, a: seq<byte>, n: nat, b: seq<byte>)
    requires Decimal(m) + [58] + a == Decimal(n) + [58] + b
    ensures m == n && a == b
  {
    IndexOfFirst(Decimal(m), 58, a);
    IndexOfFirst(Decimal(n), 58, b);
    SplitConcat(Decimal(m) + [58], a, Decimal(n) + [58], b);
    SplitConcat(Decimal(m), [58], Decimal(n), [58]);
    DecimalInverse(m);
    DecimalInverse(n);
  }

  /** No purpose's tail is a prefix of what another purpose hashes. */
  lemma TailsPrefixFree(x: Input, a: seq<byte>, y: Input, b: seq<byte>)
    requires Tail(x) + a == Tail(y) + b
    ensures Tail(x) == Tail(y)
    ensures x.SessionH2D? == y.SessionH2D? && x.SessionD2H? == y.SessionD2H? && x.Confirm? == y.Confirm?
    ensures x.Mailbox? == y.Mailbox? && x.PairMac? == y.PairMac?
  {
    var s, t := Tail(x) + a, Tail(y) + b;
    assert s[0] == Tail(x)[0] && t[0] == Tail(y)[0];
    if (x.SessionH2D? || x.SessionD2H?) && (y.SessionH2D? || y.SessionD2H?) {
      assert s[8] == Tail(x)[8] && t[8] == Tail(y)[8];
    }
  }

  lemma TranscriptInjective(p: byte, h: Id16, d: Id16, nD: Id32, nH: Id32,
                            p': byte, h': Id16, d': Id16, nD': Id32, nH': Id32)
    requires Transcript(p, h, d, nD, nH) == Transcript(p', h', d', nD', nH')
    ensures p == p' && h == h' && d == d' && nD == nD' && nH == nH'
  {
    SplitConcat([p] + h + d + nD, nH, [p'] + h' + d' + nD', nH');
    SplitConcat([p] + h + d, nD, [p'] + h' + d', nD');
    SplitConcat([p] + h, d, [p'] + h', d');
    SplitConcat([p], h, [p'], h');
  }

  lemma PairBodyInjective(x: Input, y: Input, p: byte)
    requires x.PairMac? && y.PairMac? && Body(p, x) == Body(p, y)
    ensures x == y
  {
    var h, hk, d, dk, n := x.hostId, x.hostPk, x.deviceId, x.devPk, x.nD;
    var h', hk', d', dk', n' := y.hostId, y.hostPk, y.deviceId, y.devPk, y.nD;
    SplitConcat([p] + h + hk + d + dk + n, x.bind, [p] + h' + hk' + d' + dk' + n', y.bind);
    SplitConcat([p] + h + hk + d + dk, n, [p] + h' + hk' + d' + dk', n');
    SplitConcat([p] + h + hk + d, dk, [p] + h' + hk' + d', dk');
    SplitConcat([p] + h + hk, d, [p] + h' + hk', d');
    SplitConcat([p] + h, hk, [p] + h', hk');
    SplitConcat([p], h, [p], h');
  }

  lemma BodyInjective(x: Input, y: Input, p: byte)
    requires Tail(x) == Tail(y) && Body(p, x) == Body(p, y)
    requires x.SessionH2D? == y.SessionH2D? && x.SessionD2H? == y.SessionD2H? && x.Confirm? == y.Confirm?
    requires x.Mailbox? == y.Mailbox? && x.PairMac? == y.PairMac?
    ensures x == y
  {
    if x.SessionH2D? || x.SessionD2H? || x.Confirm? {
      TranscriptInjective(p, x.hostId, x.deviceId, x.nD, x.nH, p, y.hostId, y.deviceId, y.nD, y.nH);
    } else if x.Mailbox? {
      SplitConcat([p] + x.hostId, x.deviceId, [p] + y.hostId, y.deviceId);
      SplitConcat([p], x.hostId, [p], y.hostId);
    } else if x.PairMac? {
      PairBodyInjective(x, y, p);
    } else {
      SplitConcat(x.hostPk, x.sub, y.hostPk, y.sub);
    }
  }

  lemma DsGroups(p: byte, tail: seq<byte>, body: seq<byte>)
    ensures Ds(p, tail) + body == LABEL + (Decimal(p) + [58] + (tail + body))
  {
  }

  lemma SameVersion(p: byte, a: seq<byte>, q: byte, b: seq<byte>)
    requires LABEL + (Decimal(p) + [58] + a) == LABEL + (Decimal(q) + [58] + b)
    ensures p == q && a == b
  {
    SplitConcat(LABEL, Decimal(p) + [58] + a, LABEL, Decimal(q) + [58] + b);
    DecimalColon(p, a, q, b);
  }

  /** Two hash inputs coincide only if version, purpose and every field coincide. */
  lemma HashedInjective(p: byte, x: Input, q: byte, y: Input)
    requires Hashed(p, x) == Hashed(q, y)
    ensures p == q && x == y
  {
    DsGroups(p, Tail(x), Body(p, x));
    DsGroups(q, Tail(y), Body(q, y));
    SameVersion(p, Tail(x) + Body(p, x), q, Tail(y) + Body(q, y));
    TailsPrefixFree(x, Body(p, x), y, Body(q, y));
    SplitConcat(Tail(x), Body(p, x), Tail(y), Body(q, y));
    BodyInjective(x, y, p);
  }
}
