/**
 * The secretstream construction of e2ekit/secretstream.go as functions on values:
 * what one push and one pull compute, and what holds over whole streams.
 * ChaCha20, HChaCha20 and Poly1305 are parameters; nothing is assumed about them.
 */
module SecretStreamSpec {
  import opened Bytes

  type Key = s: seq<byte> | |s| == 32 witness Zeros(32)
  type Nonce = s: seq<byte> | |s| == 12 witness Zeros(12)
  type Header = s: seq<byte> | |s| == 24 witness Zeros(24)
  type Mac = s: seq<byte> | |s| == 16 witness Zeros(16)

  /** The primitives the construction is built from. */
  datatype Primitives = Primitives(
    hchacha: (Key, seq<byte>) -> Key,
    keystream: (Key, Nonce, nat) -> byte,
    poly1305: (Key, seq<byte>) -> Mac)

  const TAG_REKEY: byte := 2
  const TAG_FINAL: byte := 3
  const OVERHEAD: nat := 17

  /** One directional stream; the nonce is counter(4, little-endian) then inonce(8). */
  datatype State = State(k: Key, nonce: Nonce, finished: bool)

  predicate HasRekeyBit(tag: byte) { tag / TAG_REKEY % 2 == 1 }

  function Counter(st: State): nat { FromLittleEndian(st.nonce[..4]) }

  function InitState(p: Primitives, key: Key, header: Header): State {
    State(p.hchacha(key, header[..16]), [1, 0, 0, 0] + header[16..], false)
  }

  /** `data` XORed with the keystream from byte position `pos` on. */
  function XorStream(p: Primitives, k: Key, n: Nonce, pos: nat, data: seq<byte>): (r: seq<byte>)
    ensures |r| == |data|
  {
    seq(|data|, i requires 0 <= i < |data| => Xor(data[i], p.keystream(k, n, pos + i)))
  }

  /** The Poly1305 key: the first half of keystream block 0. */
  function PolyKey(p: Primitives, st: State): Key {
    var half := seq<byte>(32, i requires 0 <= i < 32 => p.keystream(st.k, st.nonce, i));
    half
  }

  /** The 64-byte tag block as MACed: the encrypted tag followed by raw keystream. */
  function TagBlock(p: Primitives, st: State, wireTag: byte): (b: seq<byte>)
    ensures |b| == 64
  {
    [wireTag] + seq<byte>(63, i requires 0 <= i < 63 => p.keystream(st.k, st.nonce, 65 + i))
  }

  function SealTag(p: Primitives, st: State, tag: byte): byte {
    Xor(tag, p.keystream(st.k, st.nonce, 64))
  }

  function AdPad(adlen: nat): nat { (16 - adlen % 16) % 16 }

  /** The exact byte string Poly1305 authenticates. */
  function MacInput(ad: seq<byte>, block: seq<byte>, ct: seq<byte>): seq<byte> {
    ad + Zeros(AdPad(|ad|)) + block + ct + Zeros(|ct| % 16)
    + LittleEndian(|ad|, 8) + LittleEndian(64 + |ct|, 8)
  }

  function FrameMac(p: Primitives, st: State, wireTag: byte, ct: seq<byte>, ad: seq<byte>): Mac {
    p.poly1305(PolyKey(p, st), MacInput(ad, TagBlock(p, st, wireTag), ct))
  }

  function XorSeq(a: seq<byte>, b: seq<byte>): (r: seq<byte>)
    requires |a| <= |b|
    ensures |r| == |a|
  {
    seq(|a|, i requires 0 <= i < |a| => Xor(a[i], b[i]))
  }

  /** The nonce after a frame, before any rekey: inonce XOR mac, counter plus one mod 2^32. */
  function StepNonce(n: Nonce, mac: Mac): Nonce {
    LittleEndian((FromLittleEndian(n[..4]) + 1) % U32_SIZE, 4) + XorSeq(n[4..], mac)
  }

  function RekeyState(p: Primitives, st: State): State {
    var buf := XorStream(p, st.k, st.nonce, 0, st.k + st.nonce[4..]);
    State(buf[..32], [1, 0, 0, 0] + buf[32..], st.finished)
  }

  function AdvanceState(p: Primitives, st: State, mac: Mac, tag: byte): State {
    var stepped := st.(nonce := StepNonce(st.nonce, mac));
    var keyed := if HasRekeyBit(tag) || Counter(stepped) == 0 then RekeyState(p, stepped) else stepped;
    if tag == TAG_FINAL then keyed.(finished := true) else keyed
  }

  datatype Sent = Sent(msg: seq<byte>, ad: seq<byte>, tag: byte)
  datatype Sealed = Sealed(frame: seq<byte>, state: State)

  /** pushRaw: seal one frame and advance. */
  function Seal(p: Primitives, st: State, x: Sent): Sealed {
    var wireTag := SealTag(p, st, x.tag);
    var ct := XorStream(p, st.k, st.nonce, 128, x.msg);
    var mac := FrameMac(p, st, wireTag, ct, x.ad);
    Sealed([wireTag] + ct + mac, AdvanceState(p, st, mac, x.tag))
  }

  datatype Opened = Failed | Opened(msg: seq<byte>, tag: byte, state: State)

  /** pullRaw: verify, then open and advance; a refused frame yields no new state. */
  function Open(p: Primitives, st: State, frame: seq<byte>, ad: seq<byte>): Opened {
    if |frame| < OVERHEAD then Failed
    else
      var n := |frame| - OVERHEAD;
      var ct := frame[1..1 + n];
      var mac := FrameMac(p, st, frame[0], ct, ad);
      if mac != frame[1 + n..] then Failed
      else
        var tag := SealTag(p, st, frame[0]);
        Opened(XorStream(p, st.k, st.nonce, 128, ct), tag, AdvanceState(p, st, mac, tag))
  }

  // ---------------------------------------------------------------------
  // One frame
  // ---------------------------------------------------------------------

  lemma XorStreamInvolutive(p: Primitives, k: Key, n: Nonce, pos: nat, data: seq<byte>)
    ensures XorStream(p, k, n, pos, XorStream(p, k, n, pos, data)) == data
  {
    forall i | 0 <= i < |data|
      ensures XorStream(p, k, n, pos, XorStream(p, k, n, pos, data))[i] == data[i]
    {
      XorNatCancel(data[i], p.keystream(k, n, pos + i));
    }
  }

  /** Opening a sealed frame gives back message and tag and reaches the sender's state. */
  lemma OpenInvertsSeal(p: Primitives, st: State, x: Sent)
    ensures Open(p, st, Seal(p, st, x).frame, x.ad) == Opened(x.msg, x.tag, Seal(p, st, x).state)
  {
    var f := Seal(p, st, x).frame;
    var ct := XorStream(p, st.k, st.nonce, 128, x.msg);
    assert f[1..1 + |ct|] == ct;
    assert f[1 + |ct|..] == FrameMac(p, st, f[0], ct, x.ad);
    XorStreamInvolutive(p, st.k, st.nonce, 128, x.msg);
    XorNatCancel(x.tag, p.keystream(st.k, st.nonce, 64));
  }

  /** Every frame that opens is byte for byte the frame a sender in this state seals. */
  lemma SealInvertsOpen(p: Primitives, st: State, frame: seq<byte>, ad: seq<byte>)
    requires Open(p, st, frame, ad).Opened?
    ensures var o := Open(p, st, frame, ad);
            Seal(p, st, Sent(o.msg, ad, o.tag)) == Sealed(frame, o.state)
  {
    var n := |frame| - OVERHEAD;
    var ct := frame[1..1 + n];
    XorStreamInvolutive(p, st.k, st.nonce, 128, ct);
    XorNatCancel(frame[0], p.keystream(st.k, st.nonce, 64));
    assert frame == [frame[0]] + ct + frame[1 + n..];
  }

  /** A frame is accepted under `ad` exactly when some message and tag seal to it. */
  lemma AcceptedIffSealable(p: Primitives, st: State, frame: seq<byte>, ad: seq<byte>)
    ensures Open(p, st, frame, ad).Opened?
       <==> exists msg, tag :: Seal(p, st, Sent(msg, ad, tag)).frame == frame
  {
    if Open(p, st, frame, ad).Opened? {
      SealInvertsOpen(p, st, frame, ad);
      var o := Open(p, st, frame, ad);
      assert Seal(p, st, Sent(o.msg, ad, o.tag)).frame == frame;
    }
    if msg, tag :| Seal(p, st, Sent(msg, ad, tag)).frame == frame {
      OpenInvertsSeal(p, st, Sent(msg, ad, tag));
    }
  }

  // ---------------------------------------------------------------------
  // The MAC input
  // ---------------------------------------------------------------------

  lemma {:induction false} LengthWordInjective(m: nat, n: nat)
    requires m < U64_SIZE && n < U64_SIZE
    requires LittleEndian(m, 8) == LittleEndian(n, 8)
    ensures m == n
  {
    Pow256Widths();
    LittleEndianInverse(m, 8);
    LittleEndianInverse(n, 8);
  }

  /** The authenticated byte string determines associated data, tag block and ciphertext. */
  lemma MacInputInjective(ad: seq<byte>, block: seq<byte>, ct: seq<byte>,
                          ad': seq<byte>, block': seq<byte>, ct': seq<byte>)
    requires |block| == 64 && |block'| == 64
    requires |ad| < U64_SIZE && |ad'| < U64_SIZE
    requires 64 + |ct| < U64_SIZE && 64 + |ct'| < U64_SIZE
    requires MacInput(ad, block, ct) == MacInput(ad', block', ct')
    ensures ad == ad' && block == block' && ct == ct'
  {
    var head := ad + Zeros(AdPad(|ad|)) + block + ct + Zeros(|ct| % 16);
    var head' := ad' + Zeros(AdPad(|ad'|)) + block' + ct' + Zeros(|ct'| % 16);
    var x, x' := head + LittleEndian(|ad|, 8), head' + LittleEndian(|ad'|, 8);
    assert |x| == |x'|;
    SplitConcat(x, LittleEndian(64 + |ct|, 8), x', LittleEndian(64 + |ct'|, 8));
    LengthWordInjective(64 + |ct|, 64 + |ct'|);
    assert |head| == |head'|;
    SplitConcat(head, LittleEndian(|ad|, 8), head', LittleEndian(|ad'|, 8));
    LengthWordInjective(|ad|, |ad'|);
    SplitConcat(ad + Zeros(AdPad(|ad|)) + block + ct, Zeros(|ct| % 16),
                ad' + Zeros(AdPad(|ad'|)) + block' + ct', Zeros(|ct'| % 16));
    SplitConcat(ad + Zeros(AdPad(|ad|)) + block, ct, ad' + Zeros(AdPad(|ad'|)) + block', ct');
    SplitConcat(ad + Zeros(AdPad(|ad|)), block, ad' + Zeros(AdPad(|ad'|)), block');
    SplitConcat(ad, Zeros(AdPad(|ad|)), ad', Zeros(AdPad(|ad'|)));
  }

  /** The trailing pad is the pad of section 2.8 of RFC 8439 exactly at multiples of eight. */
  lemma TrailingPadMatchesRfc8439(mlen: nat)
    ensures mlen % 16 == (16 - (64 + mlen) % 16) % 16 <==> mlen % 8 == 0
  {
    var r := mlen % 16;
    assert (64 + mlen) % 16 == r;
    assert mlen % 8 == r % 8 by {
      assert mlen == 16 * (mlen / 16) + r;
    }
  }

  /**
   * A frame sealed under one associated data that opens under another exhibits
   * two different Poly1305 inputs with the same MAC under the same key.
   */
  lemma OtherAdMeansCollision(p: Primitives, st: State, x: Sent, ad: seq<byte>)
    requires ad != x.ad
    requires |ad| < U64_SIZE && |x.ad| < U64_SIZE && 64 + |x.msg| < U64_SIZE
    requires Open(p, st, Seal(p, st, x).frame, ad).Opened?
    ensures var wireTag := SealTag(p, st, x.tag);
            var ct := XorStream(p, st.k, st.nonce, 128, x.msg);
            var block := TagBlock(p, st, wireTag);
            && MacInput(ad, block, ct) != MacInput(x.ad, block, ct)
            && p.poly1305(PolyKey(p, st), MacInput(ad, block, ct))
               == p.poly1305(PolyKey(p, st), MacInput(x.ad, block, ct))
  {
    var f := Seal(p, st, x).frame;
    var ct := XorStream(p, st.k, st.nonce, 128, x.msg);
    assert f[1..1 + |ct|] == ct;
    assert f[1 + |ct|..] == FrameMac(p, st, f[0], ct, x.ad);
    var block := TagBlock(p, st, f[0]);
    if MacInput(ad, block, ct) == MacInput(x.ad, block, ct) {
      MacInputInjective(ad, block, ct, x.ad, block, ct);
    }
  }

  // ---------------------------------------------------------------------
  // Whole streams
  // ---------------------------------------------------------------------

  /** How many of `items` a sender gets to send: up to and including the first TAG_FINAL. */
  function Sendable(items: seq<Sent>): (n: nat)
    ensures n <= |items|
  {
    if items == [] then 0
    else if items[0].tag == TAG_FINAL then 1
    else 1 + Sendable(items[1..])
  }

  datatype PushRun = PushRun(frames: seq<seq<byte>>, state: State)

  /** Push every item in turn; Push refuses once the stream is finished. */
  function PushAll(p: Primitives, st: State, items: seq<Sent>): PushRun
    decreases |items|
  {
    if items == [] || st.finished then PushRun([], st)
    else
      var s := Seal(p, st, items[0]);
      var rest := PushAll(p, s.state, items[1..]);
      PushRun([s.frame] + rest.frames, rest.state)
  }

  datatype Wire = Wire(frame: seq<byte>, ad: seq<byte>)
  datatype PullRun = PullRun(items: seq<Sent>, accepted: seq<seq<byte>>, state: State)

  /** Pull every wire item in turn; refused frames leave the state where it was. */
  function PullAll(p: Primitives, st: State, wire: seq<Wire>): PullRun
    decreases |wire|
  {
    if wire == [] || st.finished then PullRun([], [], st)
    else
      match Open(p, st, wire[0].frame, wire[0].ad)
      case Failed => PullAll(p, st, wire[1..])
      case Opened(msg, tag, st') =>
        var rest := PullAll(p, st', wire[1..]);
        PullRun([Sent(msg, wire[0].ad, tag)] + rest.items, [wire[0].frame] + rest.accepted, rest.state)
  }

  function Wires(frames: seq<seq<byte>>, items: seq<Sent>): (w: seq<Wire>)
    requires |frames| <= |items|
    ensures |w| == |frames|
  {
    seq(|frames|, i requires 0 <= i < |frames| => Wire(frames[i], items[i].ad))
  }

  lemma WiresTail(frames: seq<seq<byte>>, items: seq<Sent>, f: seq<byte>, rest: seq<seq<byte>>)
    requires |frames| <= |items| && frames == [f] + rest
    ensures Wires(frames, items)[0] == Wire(f, items[0].ad)
    ensures Wires(frames, items)[1..] == Wires(rest, items[1..])
  {
  }

  lemma PullFirst(p: Primitives, st: State, x: Sent, wire: seq<Wire>)
    requires !st.finished && wire != [] && wire[0] == Wire(Seal(p, st, x).frame, x.ad)
    ensures var rest := PullAll(p, Seal(p, st, x).state, wire[1..]);
            PullAll(p, st, wire) == PullRun([x] + rest.items, [wire[0].frame] + rest.accepted, rest.state)
  {
    OpenInvertsSeal(p, st, x);
  }

  lemma FinalRest(p: Primitives, st: State, x: Sent, tail: seq<Sent>)
    requires st.finished <==> x.tag == TAG_FINAL
    ensures x.tag == TAG_FINAL ==> PushAll(p, st, tail) == PushRun([], st) && PullAll(p, st, Wires([], tail)) == PullRun([], [], st)
  {
  }

  /**
   * For every list of pushes, the sender emits a frame for each item up to and
   * including the first TAG_FINAL, and a receiver starting in the same state pulls
   * exactly those items in order and ends in the sender's final state.
   */
  lemma {:induction false} StreamDelivers(p: Primitives, st: State, items: seq<Sent>)
    requires !st.finished
    ensures var sent := PushAll(p, st, items);
            && |sent.frames| == Sendable(items)
            && PullAll(p, st, Wires(sent.frames, items)) == PullRun(items[..Sendable(items)], sent.frames, sent.state)
    decreases |items|
  {
    if items != [] {
      var x, tail := items[0], items[1..];
      var s := Seal(p, st, x);
      var rest := PushAll(p, s.state, tail);
      var n := Sendable(items) - 1;
      assert |rest.frames| == n && PullAll(p, s.state, Wires(rest.frames, tail)) == PullRun(tail[..n], rest.frames, rest.state) by {
        FinalRest(p, s.state, x, tail);
        if x.tag != TAG_FINAL {
          StreamDelivers(p, s.state, tail);
        }
      }
      var frames := [s.frame] + rest.frames;
      assert PushAll(p, st, items) == PushRun(frames, rest.state);
      WiresTail(frames, items, s.frame, rest.frames);
      PullFirst(p, st, x, Wires(frames, items));
      assert items[..n + 1] == [x] + tail[..n];
    }
  }

  /**
   * Whatever an adversary puts on the wire, the frames a receiver accepted are
   * exactly the frames a sender in the same initial state emits for the messages
   * delivered, and the two end in the same state.
   */
  lemma {:induction false} AcceptedIsATranscript(p: Primitives, st: State, wire: seq<Wire>)
    ensures var got := PullAll(p, st, wire);
            PushAll(p, st, got.items) == PushRun(got.accepted, got.state)
    decreases |wire|
  {
    if wire != [] && !st.finished {
      var w := wire[0];
      var got := PullAll(p, st, wire);
      match Open(p, st, w.frame, w.ad) {
        case Failed =>
          AcceptedIsATranscript(p, st, wire[1..]);
        case Opened(msg, tag, st') =>
          SealInvertsOpen(p, st, w.frame, w.ad);
          AcceptedIsATranscript(p, st', wire[1..]);
          assert got.items[1..] == PullAll(p, st', wire[1..]).items;
      }
    }
  }

  // ---------------------------------------------------------------------
  // Counter and key epochs
  // ---------------------------------------------------------------------

  /** Frames sent since the last rekey, from the tags alone. */
  function SinceRekey(tags: seq<byte>): nat {
    if tags == [] then 0
    else
      var n := SinceRekey(tags[..|tags| - 1]);
      if HasRekeyBit(tags[|tags| - 1]) || n + 1 == U32_SIZE - 1 then 0 else n + 1
  }

  /** The frame sent at position `i` ends its key epoch. */
  predicate RekeysAt(tags: seq<byte>, i: nat)
    requires i < |tags|
  {
    HasRekeyBit(tags[i]) || SinceRekey(tags[..i]) + 1 == U32_SIZE - 1
  }

  function Tags(items: seq<Sent>): (t: seq<byte>)
    ensures |t| == |items|
  {
    seq(|items|, i requires 0 <= i < |items| => items[i].tag)
  }

  /** The state after the cryptographic push of all of `items`. */
  function After(p: Primitives, st: State, items: seq<Sent>): State {
    if items == [] then st
    else Seal(p, After(p, st, items[..|items| - 1]), items[|items| - 1]).state
  }

  lemma CounterOf(inonce: seq<byte>, n: nat)
    requires |inonce| == 8 && n < U32_SIZE
    ensures FromLittleEndian((LittleEndian(n, 4) + inonce)[..4]) == n
  {
    Pow256Widths();
    assert (LittleEndian(n, 4) + inonce)[..4] == LittleEndian(n, 4);
    LittleEndianInverse(n, 4);
  }

  lemma FreshCounter(inonce: seq<byte>)
    requires |inonce| == 8
    ensures FromLittleEndian(([1, 0, 0, 0] + inonce)[..4]) == 1
  {
    assert LittleEndian(1, 4) == [1, 0, 0, 0] by {
      assert LittleEndian(0, 3) == [0, 0, 0] by {
        assert LittleEndian(0, 2) == [0, 0];
      }
    }
    CounterOf(inonce, 1);
  }

  lemma StepCounter(n: Nonce, mac: Mac)
    ensures FromLittleEndian(n[..4]) < U32_SIZE
    ensures FromLittleEndian(StepNonce(n, mac)[..4]) == (FromLittleEndian(n[..4]) + 1) % U32_SIZE
  {
    Pow256Widths();
    FromLittleEndianInverse(n[..4]);
    CounterOf(XorSeq(n[4..], mac), (FromLittleEndian(n[..4]) + 1) % U32_SIZE);
  }

  lemma RekeyCounter(p: Primitives, st: State)
    ensures Counter(RekeyState(p, st)) == 1
  {
    var buf := XorStream(p, st.k, st.nonce, 0, st.k + st.nonce[4..]);
    FreshCounter(buf[32..]);
  }

  /** One frame resets the counter to 1 on a rekey, and else adds one under the same key. */
  lemma AdvanceCounter(p: Primitives, st: State, mac: Mac, tag: byte)
    ensures Counter(st) < U32_SIZE
    ensures var next := AdvanceState(p, st, mac, tag);
            if HasRekeyBit(tag) || Counter(st) + 1 == U32_SIZE then Counter(next) == 1
            else Counter(next) == Counter(st) + 1 && next.k == st.k
  {
    var stepped := st.(nonce := StepNonce(st.nonce, mac));
    StepCounter(st.nonce, mac);
    assert Counter(stepped) == (Counter(st) + 1) % U32_SIZE;
    if HasRekeyBit(tag) || Counter(stepped) == 0 {
      RekeyCounter(p, stepped);
    }
  }

  lemma SealCounter(p: Primitives, st: State, x: Sent)
    ensures Counter(st) < U32_SIZE
    ensures var next := Seal(p, st, x).state;
            if HasRekeyBit(x.tag) || Counter(st) + 1 == U32_SIZE then Counter(next) == 1
            else Counter(next) == Counter(st) + 1 && next.k == st.k
  {
    var mac := FrameMac(p, st, SealTag(p, st, x.tag), XorStream(p, st.k, st.nonce, 128, x.msg), x.ad);
    AdvanceCounter(p, st, mac, x.tag);
  }

  /**
   * At every frame boundary the counter is one plus the number of frames since the
   * last rekey, hence never zero, and an epoch holds at most 2^32 - 1 frames.
   */
  lemma {:induction false} CounterCountsFrames(p: Primitives, key: Key, header: Header, items: seq<Sent>)
    ensures var st := After(p, InitState(p, key, header), items);
            && Counter(st) == 1 + SinceRekey(Tags(items))
            && 1 <= Counter(st) < U32_SIZE
    decreases |items|
  {
    if items == [] {
      FreshCounter(header[16..]);
    } else {
      var most := items[..|items| - 1];
      CounterCountsFrames(p, key, header, most);
      assert Tags(items)[..|items| - 1] == Tags(most);
      SealCounter(p, After(p, InitState(p, key, header), most), items[|items| - 1]);
    }
  }

  lemma AfterStep(p: Primitives, st: State, items: seq<Sent>, j: nat)
    requires 1 <= j <= |items|
    ensures After(p, st, items[..j]) == Seal(p, After(p, st, items[..j - 1]), items[j - 1]).state
  {
    assert items[..j][..j - 1] == items[..j - 1];
  }

  lemma EpochStep(p: Primitives, key: Key, header: Header, items: seq<Sent>, j: nat)
    requires 1 <= j <= |items|
    requires !RekeysAt(Tags(items), j - 1)
    ensures var init := InitState(p, key, header);
            var st, next := After(p, init, items[..j - 1]), After(p, init, items[..j]);
            next.k == st.k && Counter(next) == Counter(st) + 1
  {
    assert Tags(items)[..j - 1] == Tags(items[..j - 1]);
    CounterCountsFrames(p, key, header, items[..j - 1]);
    AfterStep(p, InitState(p, key, header), items, j);
    SealCounter(p, After(p, InitState(p, key, header), items[..j - 1]), items[j - 1]);
  }

  /** Within a key epoch the key stays and the counter counts up by one per frame. */
  lemma {:induction false} EpochGrows(p: Primitives, key: Key, header: Header, items: seq<Sent>, i: nat, j: nat)
    requires i <= j <= |items|
    requires forall m :: i <= m < j ==> !RekeysAt(Tags(items), m)
    ensures var init := InitState(p, key, header);
            && After(p, init, items[..j]).k == After(p, init, items[..i]).k
            && Counter(After(p, init, items[..j])) == Counter(After(p, init, items[..i])) + (j - i)
    decreases j - i
  {
    if i < j {
      EpochGrows(p, key, header, items, i, j - 1);
      EpochStep(p, key, header, items, j);
    }
  }

  /** No two frames of one key epoch are sealed under the same key and nonce. */
  lemma NoNonceReuse(p: Primitives, key: Key, header: Header, items: seq<Sent>, i: nat, j: nat)
    requires i < j <= |items|
    requires forall m :: i <= m < j ==> !RekeysAt(Tags(items), m)
    ensures var init := InitState(p, key, header);
            && After(p, init, items[..i]).k == After(p, init, items[..j]).k
            && After(p, init, items[..i]).nonce != After(p, init, items[..j]).nonce
            && j - i < U32_SIZE - 1
  {
    EpochGrows(p, key, header, items, i, j);
    CounterCountsFrames(p, key, header, items[..i]);
    CounterCountsFrames(p, key, header, items[..j]);
  }
}
