/**
 * The secretstream state machine as e2ekit/secretstream.go runs it: a cipher consumed
 * contiguously, a MAC fed piece by piece, key and nonce buffers updated in place.
 * Each method is proved to compute the corresponding function of SecretStreamSpec.
 */
module SecretStream {
  import opened Bytes
  import opened SecretStreamSpec

  datatype Error = StreamFinished | DecryptFailed
  datatype PushResult = Pushed(frame: seq<byte>) | PushRefused(error: Error)
  datatype PullResult = Pulled(msg: seq<byte>, tag: byte) | PullRefused(error: Error)

  /** A ChaCha20 cipher: a position in the keystream of one key and nonce. */
  class Cipher {
    const p: Primitives
    const k: Key
    const n: Nonce
    var pos: nat

    constructor (p: Primitives, k: Key, n: Nonce)
      ensures this.p == p && this.k == k && this.n == n && pos == 0
    {
      this.p, this.k, this.n, pos := p, k, n, 0;
    }

    /** XOR `src` with the next keystream bytes into `dst[off..]`. */
    method XorKeyStream(dst: array<byte>, off: nat, src: seq<byte>)
      requires off + |src| <= dst.Length
      modifies this`pos, dst
      ensures pos == old(pos) + |src|
      ensures dst[..] == old(dst[..off]) + XorStream(p, k, n, old(pos), src) + old(dst[off + |src|..])
    {
      var start := pos;
      var i := 0;
      while i < |src|
        invariant 0 <= i <= |src| && pos == start + i
        invariant dst[..off] == old(dst[..off])
        invariant dst[off..off + i] == XorStream(p, k, n, start, src)[..i]
        invariant dst[off + i..] == old(dst[off + i..])
      {
        dst[off + i] := Xor(src[i], p.keystream(k, n, pos));
        pos := pos + 1;
        i := i + 1;
      }
    }
  }

  /** A running Poly1305: it has absorbed `input` so far. */
  class Poly {
    const p: Primitives
    const key: Key
    var input: seq<byte>

    constructor (p: Primitives, key: Key)
      ensures this.p == p && this.key == key && input == []
    {
      this.p, this.key, input := p, key, [];
    }

    method Write(data: seq<byte>)
      modifies this`input
      ensures input == old(input) + data
    {
      input := input + data;
    }

    method Sum() returns (mac: Mac)
      ensures mac == p.poly1305(key, input)
    {
      mac := p.poly1305(key, input);
    }
  }

  class Stream {
    const p: Primitives
    const k: array<byte>
    const nonce: array<byte>
    var finished: bool

    ghost predicate Valid()
    {
      k.Length == 32 && nonce.Length == 12 && k != nonce
    }

    ghost function View(): State
      requires Valid()
      reads this, k, nonce
    {
      State(k[..], nonce[..], finished)
    }

    constructor (p: Primitives, key: Key, header: Header)
      ensures Valid() && fresh(k) && fresh(nonce)
      ensures this.p == p && View() == InitState(p, key, header)
    {
      var sub := p.hchacha(key, header[..16]);
      var kk := new byte[32](i requires 0 <= i < 32 => sub[i]);
      var nn := new byte[12](i requires 0 <= i < 12 =>
        if i == 0 then 1 else if i < 4 then 0 else header[16..][i - 4]);
      assert kk[..] == sub;
      assert nn[..] == [1, 0, 0, 0] + header[16..];
      this.p, k, nonce, finished := p, kk, nn, false;
    }

    /** The frame's cipher, past keystream block 0, and the MAC keyed from that block. */
    method NewCipher() returns (c: Cipher, poly: Poly)
      requires Valid()
      ensures fresh(c) && fresh(poly)
      ensures c.p == p && c.k == k[..] && c.n == nonce[..] && c.pos == 64
      ensures poly.p == p && poly.key == PolyKey(p, View()) && poly.input == []
    {
      c := new Cipher(p, k[..], nonce[..]);
      var block0 := new byte[64](_ => 0);
      c.XorKeyStream(block0, 0, Zeros(64));
      forall i | 0 <= i < 32 ensures block0[i] == PolyKey(p, View())[i] {
        assert block0[..][i] == XorStream(p, k[..], nonce[..], 0, Zeros(64))[i];
        XorNatZero(p.keystream(k[..], nonce[..], i));
      }
      assert block0[..32] == PolyKey(p, View());
      poly := new Poly(p, block0[..32]);
    }

    /** The trailing pad and the two length words. */
    static method MacTail(poly: Poly, adlen: nat, mlen: nat)
      modifies poly
      ensures poly.input == old(poly.input) + Zeros(mlen % 16) + LittleEndian(adlen, 8) + LittleEndian(64 + mlen, 8)
    {
      poly.Write(Zeros(mlen % 16));
      poly.Write(LittleEndian(adlen, 8));
      poly.Write(LittleEndian(64 + mlen, 8));
    }

    /** Absorb the associated data and pad it to a multiple of sixteen bytes. */
    static method MacHead(poly: Poly, ad: seq<byte>)
      modifies poly
      ensures poly.input == old(poly.input) + ad + Zeros(AdPad(|ad|))
    {
      poly.Write(ad);
      poly.Write(Zeros((16 - |ad| % 16) % 16));
    }

    /** Run the 64-byte tag block, holding `first` and zeros, through the cipher. */
    static method CryptTagBlock(c: Cipher, ghost st: State, first: byte) returns (block: array<byte>)
      requires c.pos == 64 && c.k == st.k && c.n == st.nonce
      modifies c
      ensures fresh(block) && block.Length == 64 && c.pos == 128
      ensures block[..] == TagBlock(c.p, st, SealTag(c.p, st, first))
      ensures block[1..] == TagBlock(c.p, st, first)[1..]
    {
      block := new byte[64](_ => 0);
      block[0] := first;
      ghost var plain := block[..];
      c.XorKeyStream(block, 0, block[..]);
      EncryptedBlock(c.p, st, first, plain, block[..]);
    }

    /** Absorb tag block, ciphertext and tail after the associated data, and finish the MAC. */
    static method FinishMac(poly: Poly, ghost ad: seq<byte>, adlen: nat, block: seq<byte>, ct: seq<byte>) returns (mac: Mac)
      requires adlen == |ad| && poly.input == ad + Zeros(AdPad(|ad|))
      modifies poly
      ensures mac == poly.p.poly1305(poly.key, MacInput(ad, block, ct))
    {
      poly.Write(block);
      poly.Write(ct);
      MacTail(poly, adlen, |ct|);
      mac := poly.Sum();
    }

    /** Encrypt and authenticate one frame; the stream itself does not move. */
    method SealFrame(plaintext: seq<byte>, ad: seq<byte>, tag: byte) returns (frame: array<byte>, mac: Mac)
      requires Valid()
      ensures fresh(frame) && frame.Length == 1 + |plaintext| + 16
      ensures var ct := XorStream(p, k[..], nonce[..], 128, plaintext);
              && frame[..1 + |plaintext|] == [SealTag(p, View(), tag)] + ct
              && mac == FrameMac(p, View(), SealTag(p, View(), tag), ct, ad)
    {
      ghost var st := View();
      var c, poly := NewCipher();
      MacHead(poly, ad);
      var block := CryptTagBlock(c, st, tag);
      frame := EncryptBody(c, block[0], plaintext);
      assert frame[1..1 + |plaintext|] == frame[..1 + |plaintext|][1..];
      mac := FinishMac(poly, ad, |ad|, block[..], frame[1..1 + |plaintext|]);
    }

    /** A frame buffer holding the wire tag and the encrypted message, with room for the MAC. */
    static method EncryptBody(c: Cipher, wireTag: byte, plaintext: seq<byte>) returns (frame: array<byte>)
      modifies c
      ensures fresh(frame) && frame.Length == 1 + |plaintext| + 16
      ensures frame[..1 + |plaintext|] == [wireTag] + XorStream(c.p, c.k, c.n, old(c.pos), plaintext)
    {
      frame := new byte[1 + |plaintext| + 16](_ => 0);
      frame[0] := wireTag;
      c.XorKeyStream(frame, 1, plaintext);
      assert frame[..1 + |plaintext|] == frame[..][..1 + |plaintext|];
    }

    /** The cryptographic push, without the finished check. */
    method PushRaw(plaintext: seq<byte>, ad: seq<byte>, tag: byte) returns (out: seq<byte>)
      requires Valid()
      modifies this`finished, k, nonce
      ensures Sealed(out, View()) == Seal(p, old(View()), Sent(plaintext, ad, tag))
    {
      var frame, mac := SealFrame(plaintext, ad, tag);
      out := frame[..1 + |plaintext|] + mac;
      Advance(mac, tag);
    }

    /** Push: refuse after TAG_FINAL, else seal one frame. */
    method Push(plaintext: seq<byte>, ad: seq<byte>, tag: byte) returns (r: PushResult)
      requires Valid()
      modifies this`finished, k, nonce
      ensures old(finished) ==> r == PushRefused(StreamFinished) && View() == old(View())
      ensures !old(finished) ==> r.Pushed? && Sealed(r.frame, View()) == Seal(p, old(View()), Sent(plaintext, ad, tag))
    {
      if finished {
        return PushRefused(StreamFinished);
      }
      var frame := PushRaw(plaintext, ad, tag);
      r := Pushed(frame);
    }

    /** The cryptographic pull: verify first, open and advance only then. */
    method PullRaw(frame: seq<byte>, ad: seq<byte>) returns (r: PullResult)
      requires Valid()
      modifies this`finished, k, nonce
      ensures match Open(p, old(View()), frame, ad)
              case Failed => r == PullRefused(DecryptFailed) && View() == old(View())
              case Opened(msg, tag, st) => r == Pulled(msg, tag) && View() == st
    {
      if |frame| < OVERHEAD {
        return PullRefused(DecryptFailed);
      }
      var mlen := |frame| - OVERHEAD;
      var c, tag, mac := VerifyFrame(frame[0], frame[1..1 + mlen], ad);
      if mac != frame[1 + mlen..] {
        return PullRefused(DecryptFailed);
      }
      var msg := Decrypt(c, frame[1..1 + mlen]);
      Advance(mac, tag);
      r := Pulled(msg, tag);
    }

    /** The message from where the cipher stands. */
    method Decrypt(c: Cipher, ct: seq<byte>) returns (msg: seq<byte>)
      modifies c`pos
      ensures msg == XorStream(c.p, c.k, c.n, old(c.pos), ct)
    {
      var buf := new byte[|ct|](_ => 0);
      c.XorKeyStream(buf, 0, ct);
      msg := buf[..];
      assert msg == XorStream(c.p, c.k, c.n, old(c.pos), ct);
    }

    /** The MAC of a received frame and its decrypted tag; the wire byte is restored before MACing. */
    method VerifyFrame(wireTag: byte, ct: seq<byte>, ad: seq<byte>) returns (c: Cipher, tag: byte, mac: Mac)
      requires Valid()
      ensures fresh(c) && c.p == p && c.k == k[..] && c.n == nonce[..] && c.pos == 128
      ensures tag == SealTag(p, View(), wireTag)
      ensures mac == FrameMac(p, View(), wireTag, ct, ad)
    {
      ghost var st := View();
      var poly;
      c, poly := NewCipher();
      MacHead(poly, ad);
      var block := CryptTagBlock(c, st, wireTag);
      tag := block[0];
      block[0] := wireTag;
      assert block[..] == TagBlock(p, st, wireTag);
      mac := FinishMac(poly, ad, |ad|, block[..], ct);
    }

    /** Pull: refuse after TAG_FINAL without opening, else open one frame. */
    method Pull(frame: seq<byte>, ad: seq<byte>) returns (r: PullResult)
      requires Valid()
      modifies this`finished, k, nonce
      ensures old(finished) ==> r == PullRefused(StreamFinished)
      ensures !old(finished) ==>
                match Open(p, old(View()), frame, ad)
                case Failed => r == PullRefused(DecryptFailed)
                case Opened(msg, tag, st) => r == Pulled(msg, tag) && View() == st
      ensures r.PullRefused? ==> View() == old(View())
    {
      if finished {
        return PullRefused(StreamFinished);
      }
      r := PullRaw(frame, ad);
    }

    /** The post-frame transition. */
    method Advance(mac: Mac, tag: byte)
      requires Valid()
      modifies this`finished, k, nonce
      ensures View() == AdvanceState(p, old(View()), mac, tag)
    {
      var ctr := StepInPlace(mac);
      if HasRekeyBit(tag) || ctr == 0 {
        Rekey();
      }
      if tag == TAG_FINAL {
        finished := true;
      }
    }

    /** Fold the MAC into the inonce and count the frame. */
    method StepInPlace(mac: Mac) returns (ctr: nat)
      requires Valid()
      modifies nonce
      ensures nonce[..] == StepNonce(old(nonce[..]), mac)
      ensures ctr == FromLittleEndian(nonce[..4])
    {
      XorInonce(mac);
      ctr := (FromLittleEndian(nonce[..4]) + 1) % U32_SIZE;
      PutCounter(ctr);
      StepCounter(old(nonce[..]), mac);
    }

    method XorInonce(mac: Mac)
      requires Valid()
      modifies nonce
      ensures nonce[..4] == old(nonce[..4]) && nonce[4..] == XorSeq(old(nonce[4..]), mac)
    {
      var i := 0;
      while i < 8
        invariant 0 <= i <= 8
        invariant forall j :: 0 <= j < 12 ==> nonce[j] == if 4 <= j < 4 + i then Xor(old(nonce[j]), mac[j - 4]) else old(nonce[j])
      {
        nonce[4 + i] := Xor(nonce[4 + i], mac[i]);
        i := i + 1;
      }
    }

    /** Overwrite the four counter bytes. */
    method PutCounter(ctr: nat)
      requires Valid()
      modifies nonce
      ensures nonce[..] == LittleEndian(ctr, 4) + old(nonce[4..])
    {
      var le := LittleEndian(ctr, 4);
      nonce[0], nonce[1], nonce[2], nonce[3] := le[0], le[1], le[2], le[3];
      assert nonce[..4] == le;
    }

    method Rekey()
      requires Valid()
      modifies k, nonce
      ensures View() == RekeyState(p, old(View()))
    {
      var k0, n0 := k[..], nonce[..];
      var buf := new byte[40](_ => 0);
      var c := new Cipher(p, k0, n0);
      c.XorKeyStream(buf, 0, k0 + n0[4..]);
      var b := buf[..];
      assert b == XorStream(p, k0, n0, 0, k0 + n0[4..]);
      Overwrite(b);
    }

    /** Take key and inonce from `b` and reset the counter to 1. */
    method Overwrite(b: seq<byte>)
      requires Valid() && |b| == 40
      modifies k, nonce
      ensures k[..] == b[..32] && nonce[..] == [1, 0, 0, 0] + b[32..]
    {
      forall i | 0 <= i < 32 { k[i] := b[i]; }
      forall i | 4 <= i < 12 { nonce[i] := b[28 + i]; }
      nonce[0], nonce[1], nonce[2], nonce[3] := 1, 0, 0, 0;
    }
  }

  /** Encrypting one byte and 63 zeros at counter 1 yields the sealed byte and raw keystream. */
  lemma EncryptedBlock(p: Primitives, st: State, first: byte, plain: seq<byte>, enc: seq<byte>)
    requires |plain| == 64 && plain[0] == first && forall i :: 1 <= i < 64 ==> plain[i] == 0
    requires enc == XorStream(p, st.k, st.nonce, 64, plain)
    ensures enc == TagBlock(p, st, SealTag(p, st, first))
    ensures enc[1..] == TagBlock(p, st, first)[1..]
  {
    forall i | 1 <= i < 64 ensures enc[i] == p.keystream(st.k, st.nonce, 64 + i) {
      XorNatZero(p.keystream(st.k, st.nonce, 64 + i));
    }
  }
}
