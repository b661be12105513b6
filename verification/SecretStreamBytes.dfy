/**
 * The secretstream format byte by byte: where every byte of a frame, of the authenticated
 * text and of the next state comes from, in terms of the primitives alone.
 */
module SecretStreamBytes {
  import opened Bytes
  import opened SecretStreamSpec

  /** Keystream byte `i` of the frame sealed from `st`. */
  function Stream(p: Primitives, st: State, i: nat): byte { p.keystream(st.k, st.nonce, i) }

  // ---------------------------------------------------------------------
  // One frame
  // ---------------------------------------------------------------------

  /** Tag byte from block 1, message from block 2 on, sixteen bytes of MAC. */
  lemma FrameBytes(p: Primitives, st: State, x: Sent)
    ensures var f := Seal(p, st, x).frame;
            && |f| == |x.msg| + 17
            && f[0] == Xor(x.tag, Stream(p, st, 64))
            && forall i :: 0 <= i < |x.msg| ==> f[1 + i] == Xor(x.msg[i], Stream(p, st, 128 + i))
  {
    var ct := XorStream(p, st.k, st.nonce, 128, x.msg);
    var f := Seal(p, st, x).frame;
    forall i | 0 <= i < |x.msg| ensures f[1 + i] == Xor(x.msg[i], Stream(p, st, 128 + i)) {
      assert f[1 + i] == ct[i];
    }
  }

  function RoundUp16(n: nat): nat { (n + 15) / 16 * 16 }

  predicate AllZero(s: seq<byte>) { forall i :: 0 <= i < |s| ==> s[i] == 0 }

  /** Eight bytes holding a length, least significant first. */
  predicate IsLength(w: seq<byte>, n: nat) { |w| == 8 && forall i :: 0 <= i < 8 ==> w[i] == ByteAt(n, i) }

  /** What stands around associated data, tag block and ciphertext in the authenticated text. */
  datatype Framing = Framing(pad: seq<byte>, trail: seq<byte>, adLength: seq<byte>, ctLength: seq<byte>)

  /**
   * The authenticated text: associated data padded with zeros to a multiple of sixteen, the
   * tag block, the ciphertext, as many zeros as its length modulo sixteen, and the two
   * lengths, the second counting the 64 bytes of the tag block.
   */
  predicate AuthLayout(text: seq<byte>, ad: seq<byte>, block: seq<byte>, ct: seq<byte>, g: Framing) {
    && text == ad + g.pad + block + ct + g.trail + g.adLength + g.ctLength
    && AllZero(g.pad) && |ad| + |g.pad| == RoundUp16(|ad|)
    && AllZero(g.trail) && |g.trail| == |ct| % 16
    && IsLength(g.adLength, |ad|) && IsLength(g.ctLength, 64 + |ct|)
  }

  lemma LengthWord(n: nat)
    ensures IsLength(LittleEndian(n, 8), n)
  {
    forall i | 0 <= i < 8 ensures LittleEndian(n, 8)[i] == ByteAt(n, i) {
      LittleEndianAt(n, 8, i);
    }
  }

  lemma MacInputLayout(ad: seq<byte>, block: seq<byte>, ct: seq<byte>) returns (g: Framing)
    ensures AuthLayout(MacInput(ad, block, ct), ad, block, ct, g)
  {
    var w1, w2 := LittleEndian(|ad|, 8), LittleEndian(64 + |ct|, 8);
    g := Framing(Zeros(AdPad(|ad|)), Zeros(|ct| % 16), w1, w2);
    assert IsLength(w1, |ad|) by { LengthWord(|ad|); }
    assert IsLength(w2, 64 + |ct|) by { LengthWord(64 + |ct|); }
    assert |ad| + |g.pad| == RoundUp16(|ad|) by { PadLength(|ad|); }
    assert AllZero(g.pad) && AllZero(g.trail);
  }

  lemma PadLength(n: nat)
    ensures n + AdPad(n) == RoundUp16(n)
  {
  }

  /** The zeros after the ciphertext are the pad of section 2.8 of RFC 8439 only for messages of whole eight-byte groups. */
  lemma TrailMatchesRfc8439(text: seq<byte>, ad: seq<byte>, block: seq<byte>, ct: seq<byte>, g: Framing)
    requires AuthLayout(text, ad, block, ct, g)
    ensures 64 + |ct| + |g.trail| == RoundUp16(64 + |ct|) <==> |ct| % 8 == 0
  {
    PadLength(64 + |ct|);
    TrailingPadMatchesRfc8439(|ct|);
  }

  /** The last sixteen bytes of a frame: Poly1305, keyed by keystream bytes 0 to 31, of that text. */
  lemma FrameAuthenticated(p: Primitives, st: State, x: Sent)
    returns (key: Key, block: seq<byte>, text: seq<byte>, g: Framing)
    ensures var f := Seal(p, st, x).frame;
            && (forall i :: 0 <= i < 32 ==> key[i] == Stream(p, st, i))
            && |block| == 64 && block[0] == f[0] && (forall i :: 1 <= i < 64 ==> block[i] == Stream(p, st, 64 + i))
            && |f| == |x.msg| + 17 && AuthLayout(text, x.ad, block, f[1..|f| - 16], g)
            && f[|f| - 16..] == p.poly1305(key, text)
  {
    var f := Seal(p, st, x).frame;
    var ct := XorStream(p, st.k, st.nonce, 128, x.msg);
    key, block := PolyKey(p, st), TagBlock(p, st, SealTag(p, st, x.tag));
    text := MacInput(x.ad, block, ct);
    g := MacInputLayout(x.ad, block, ct);
    assert f[1..|f| - 16] == ct && f[|f| - 16..] == FrameMac(p, st, SealTag(p, st, x.tag), ct, x.ad);
  }

  // ---------------------------------------------------------------------
  // The next state
  // ---------------------------------------------------------------------

  /** A stream starts from HChaCha20 of key and header, counter 1, and the header's last eight bytes. */
  lemma InitBytes(p: Primitives, key: Key, header: Header)
    ensures var st := InitState(p, key, header);
            && st.k == p.hchacha(key, header[..16]) && !st.finished
            && st.nonce[0] == 1 && st.nonce[1] == st.nonce[2] == st.nonce[3] == 0
            && st.nonce[4..] == header[16..]
  {
  }

  /** Tag 3 ends the stream; the rekey bit is the second lowest of the tag. */
  lemma TagBits(p: Primitives, st: State, x: Sent)
    ensures Seal(p, st, x).state.finished <==> st.finished || x.tag == 3
    ensures HasRekeyBit(x.tag) <==> Bit(x.tag, 1) == 1
  {
    assert Bit(x.tag, 1) == Bit(x.tag / 2, 0);
  }

  /** Byte `i` of the MAC of a frame. */
  function MacByte(f: seq<byte>, i: nat): byte
    requires i < 16 <= |f|
  {
    f[|f| - 16 + i]
  }

  predicate Rekeys(st: State, x: Sent) { HasRekeyBit(x.tag) || Counter(st) + 1 == U32_SIZE }

  /** The nonce after a frame, before any rekey: counter plus one, inonce XOR the frame's MAC. */
  predicate Stepped(st: State, f: seq<byte>, n: Nonce)
    requires |f| >= 16
  {
    && FromLittleEndian(n[..4]) == (Counter(st) + 1) % U32_SIZE
    && forall i :: 0 <= i < 8 ==> n[4 + i] == Xor(st.nonce[4 + i], MacByte(f, i))
  }

  lemma StepBytes(n: Nonce, mac: Mac)
    ensures var next := StepNonce(n, mac);
            && FromLittleEndian(next[..4]) == (FromLittleEndian(n[..4]) + 1) % U32_SIZE
            && forall i :: 0 <= i < 8 ==> next[4 + i] == Xor(n[4 + i], mac[i])
  {
    StepCounter(n, mac);
    var next := StepNonce(n, mac);
    assert next[4..] == XorSeq(n[4..], mac);
    forall i | 0 <= i < 8 ensures next[4 + i] == Xor(n[4 + i], mac[i]) {
      assert next[4 + i] == next[4..][i];
    }
  }

  /** The MAC of a frame stands at its end. */
  lemma MacAtEnd(p: Primitives, st: State, x: Sent) returns (mac: Mac)
    ensures var s := Seal(p, st, x);
            && |s.frame| >= 16 && (forall i :: 0 <= i < 16 ==> MacByte(s.frame, i) == mac[i])
            && s.state == AdvanceState(p, st, mac, x.tag)
  {
    mac := FrameMac(p, st, SealTag(p, st, x.tag), XorStream(p, st.k, st.nonce, 128, x.msg), x.ad);
  }

  lemma SteppedNonce(p: Primitives, st: State, x: Sent) returns (n: Nonce)
    ensures var s := Seal(p, st, x);
            && |s.frame| >= 16 && Stepped(st, s.frame, n)
            && s.state == (var keyed := if Rekeys(st, x) then RekeyState(p, st.(nonce := n)) else st.(nonce := n);
                           keyed.(finished := st.finished || x.tag == 3))
  {
    var mac := MacAtEnd(p, st, x);
    n := StepNonce(st.nonce, mac);
    StepBytes(st.nonce, mac);
    StepCounter(st.nonce, mac);
  }

  /** Without a rekey the key stays and the inonce takes in the MAC. */
  lemma InonceStep(p: Primitives, st: State, x: Sent, i: nat)
    requires !Rekeys(st, x) && i < 8
    ensures var s := Seal(p, st, x);
            |s.frame| >= 16 && s.state.k == st.k && s.state.nonce[4 + i] == Xor(st.nonce[4 + i], MacByte(s.frame, i))
  {
    var n := SteppedNonce(p, st, x);
  }

  /** A rekey encrypts key and inonce with the stepped nonce and restarts the counter at 1. */
  lemma RekeyBytes(p: Primitives, st: State, x: Sent) returns (n: Nonce)
    requires Rekeys(st, x)
    ensures var s := Seal(p, st, x);
            && |s.frame| >= 16 && Stepped(st, s.frame, n)
            && (forall i :: 0 <= i < 32 ==> s.state.k[i] == Xor(st.k[i], p.keystream(st.k, n, i)))
            && (forall i :: 0 <= i < 8 ==> s.state.nonce[4..][i] == Xor(n[4..][i], p.keystream(st.k, n, 32 + i)))
            && s.state.nonce[0] == 1 && s.state.nonce[1] == s.state.nonce[2] == s.state.nonce[3] == 0
  {
    n := SteppedNonce(p, st, x);
    var buf := XorStream(p, st.k, n, 0, st.k + n[4..]);
    var s := Seal(p, st, x);
    assert s.state.k == buf[..32] && s.state.nonce == [1, 0, 0, 0] + buf[32..];
  }

  // ---------------------------------------------------------------------
  // Whole epochs
  // ---------------------------------------------------------------------

  /** The frame sealed at position `j` of the stream. */
  function FrameAt(p: Primitives, st: State, items: seq<Sent>, j: nat): (f: seq<byte>)
    requires j < |items|
    ensures |f| >= 16
  {
    Seal(p, After(p, st, items[..j]), items[j]).frame
  }

  /** A byte mixed with the bytes numbered `i` up to `j`. */
  function Mixed(start: byte, bytes: nat -> byte, i: nat, j: nat): byte
    requires i <= j
    decreases j
  {
    if i == j then start else Xor(Mixed(start, bytes, i, j - 1), bytes(j - 1))
  }

  /** Byte `b` of the MAC of each frame of the stream. */
  function MacBytes(p: Primitives, st: State, items: seq<Sent>, b: nat): nat -> byte
    requires b < 8
  {
    (m: nat) => if m < |items| then MacByte(FrameAt(p, st, items, m), b) else 0
  }

  /** Byte `b` of the inonce after each number of frames. */
  function Inonces(p: Primitives, st: State, items: seq<Sent>, b: nat): nat -> byte
    requires b < 8
  {
    (m: nat) => if m <= |items| then After(p, st, items[..m]).nonce[4 + b] else 0
  }

  lemma EpochInonceStep(p: Primitives, key: Key, header: Header, items: seq<Sent>, j: nat, b: nat)
    requires 1 <= j <= |items| && b < 8 && !RekeysAt(Tags(items), j - 1)
    ensures var init := InitState(p, key, header);
            Inonces(p, init, items, b)(j) == Xor(Inonces(p, init, items, b)(j - 1), MacBytes(p, init, items, b)(j - 1))
  {
    var init := InitState(p, key, header);
    AfterStep(p, init, items, j);
    CounterCountsFrames(p, key, header, items[..j - 1]);
    assert Tags(items)[..j - 1] == Tags(items[..j - 1]);
    InonceStep(p, After(p, init, items[..j - 1]), items[j - 1], b);
  }

  lemma {:induction false} MixedSteps(values: nat -> byte, bytes: nat -> byte, i: nat, j: nat)
    requires i <= j && forall m :: i < m <= j ==> values(m) == Xor(values(m - 1), bytes(m - 1))
    ensures values(j) == Mixed(values(i), bytes, i, j)
    decreases j
  {
    if i < j {
      MixedSteps(values, bytes, i, j - 1);
    }
  }

  /** Within a key epoch the inonce is the one it began with, XORed with the MAC of every frame since. */
  lemma EpochInonce(p: Primitives, key: Key, header: Header, items: seq<Sent>, i: nat, j: nat, b: nat)
    requires i <= j <= |items| && b < 8
    requires forall m :: i <= m < j ==> !RekeysAt(Tags(items), m)
    ensures var init := InitState(p, key, header);
            Inonces(p, init, items, b)(j) == Mixed(Inonces(p, init, items, b)(i), MacBytes(p, init, items, b), i, j)
  {
    var values, bytes := Inonces(p, InitState(p, key, header), items, b), MacBytes(p, InitState(p, key, header), items, b);
    forall m | i < m <= j ensures values(m) == Xor(values(m - 1), bytes(m - 1)) {
      EpochInonceStep(p, key, header, items, m, b);
    }
    MixedSteps(values, bytes, i, j);
  }
}
