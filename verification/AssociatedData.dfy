/** The 25-byte associated data, e2ekit/ad.go and wire/frame.go. */
module AssociatedData {
  import opened Common
  import opened Bytes
  import opened Sequence
  import opened Base64


  const NONE: seq<byte> := [110, 111, 110, 101]                                  // "none"
  const WAKE: seq<byte> := [119, 97, 107, 101]                                   // "wake"
  const ATTENTION: seq<byte> := [97, 116, 116, 101, 110, 116, 105, 111, 110]     // "attention"

  function ParsePushClass(s: seq<byte>): Option<byte> {
    if s == NONE then Some(0) else if s == WAKE then Some(1) else if s == ATTENTION then Some(2) else None
  }

  function BuildAd(channel: Id16, n: u64, pushClass: byte): seq<byte> {
    channel + BigEndian(n, 8) + [pushClass]
  }

  /** The three-field plaintext header; strings as bytes. */
  datatype Header = Header(channel: seq<byte>, n: u64, pushClass: seq<byte>)

  /** Header.AD: none when the channel or the push class does not decode. */
  function Ad(h: Header): Option<seq<byte>> {
    var id, pc := DecodeBin(h.channel, 16), ParsePushClass(h.pushClass);
    if id.None? || pc.None? then None else Some(BuildAd(id.value, h.n, pc.value))
  }

  /** BuildAD: copy, big-endian words, last byte, into a fresh buffer. */
  method FillAd(channel: Id16, n: u64, pushClass: byte) returns (ad: array<byte>)
    ensures fresh(ad) && ad[..] == BuildAd(channel, n, pushClass)
  {
    ad := new byte[25](_ => 0);
    forall i | 0 <= i < 16 { ad[i] := channel[i]; }
    var be := BigEndian(n, 8);
    forall i | 16 <= i < 24 { ad[i] := be[i - 16]; }
    ad[24] := pushClass;
  }

  lemma PushClassInjective(a: seq<byte>, b: seq<byte>)
    requires ParsePushClass(a).Some? && ParsePushClass(a) == ParsePushClass(b)
    ensures a == b
  {
  }

  lemma BuildAdInjective(c: Id16, n: u64, p: byte, c': Id16, n': u64, p': byte)
    requires BuildAd(c, n, p) == BuildAd(c', n', p')
    ensures c == c' && n == n' && p == p'
  {
    SplitConcat(c + BigEndian(n, 8), [p], c' + BigEndian(n', 8), [p']);
    SplitConcat(c, BigEndian(n, 8), c', BigEndian(n', 8));
    Pow256Widths();
    BigEndianInjective(n, n', 8);
  }

  /**
   * Two accepted headers have the same associated data only if they are the same
   * header: same channel string, same number, same push-class string.
   */
  lemma AdInjective(h: Header, h': Header)
    requires Ad(h).Some? && Ad(h) == Ad(h')
    ensures h == h'
  {
    var id, id' := DecodeBin(h.channel, 16).value, DecodeBin(h'.channel, 16).value;
    BuildAdInjective(id, h.n, ParsePushClass(h.pushClass).value, id', h'.n, ParsePushClass(h'.pushClass).value);
    DecodeBinIff(h.channel, 16, id);
    DecodeBinIff(h'.channel, 16, id');
    PushClassInjective(h.pushClass, h'.pushClass);
  }

  /** Every channel id, number and push class is some accepted header's associated data. */
  lemma AdOnto(channel: Id16, n: u64, pushClass: byte)
    requires pushClass <= 2
    ensures exists h :: Ad(h) == Some(BuildAd(channel, n, pushClass))
  {
    var h := Header(Encode(channel), n, if pushClass == 0 then NONE else if pushClass == 1 then WAKE else ATTENTION);
    DecodeBinIff(h.channel, 16, channel);
    assert WAKE[0] != NONE[0] && ATTENTION[0] != NONE[0] && ATTENTION[0] != WAKE[0];
    assert Ad(h) == Some(BuildAd(channel, n, pushClass));
  }
}
