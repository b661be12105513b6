/**
 * The device side of a pairing, devclient/session.go and devclient/state.go: the
 * persisted counters, the mailbox drain, the handshake confirmation, live receive
 * and send. Decryption and envelope parsing arrive as the outcome `Opening`.
 */
module DeviceSession {
  import opened Bytes
  import opened Sequence

  datatype Envelope = Envelope(kind: string, body: seq<byte>)

  /** What decryption and parsing made of a body. */
  datatype Opening = Refused | Garbled | Content(env: Envelope, tag: byte)

  /** A fetched mailbox item; `readable` says its push class and base64 body parsed. */
  datatype Item = Item(n: u64, readable: bool, opening: Opening)

  /** One response of the mailbox endpoint; `saves` says whether a save after it succeeds. */
  datatype Page = FetchFailed | Page(items: seq<Item>, truncated: bool, saves: bool)

  /** The two counters of the saved record. */
  datatype Record = Record(d2h: u64, h2d: u64)

  /** The counters in memory and on disk. */
  datatype Dev = Dev(mem: Record, disk: Record)

  function Save(d: Dev, ok: bool): Dev { if ok then d.(disk := d.mem) else d }

  function SetMark(d: Dev, n: u64, ok: bool): Dev { Save(d.(mem := d.mem.(h2d := n)), ok) }

  function SaveDrainMark(d: Dev, n: u64, ok: bool): Dev {
    if n > d.mem.h2d then SetMark(d, n, ok) else d
  }

  /** The session fields the sequence rules touch. */
  datatype Sess = Sess(tracker: Tracker, reconcile: bool, drained: seq<Envelope>, revoked: bool)

  function NewSess(d: Dev): Sess { Sess(Tracker(d.mem.h2d, false), false, [], false) }

  datatype PageEnd = PageDone | Abandoned | Fatal(error: SeqError)

  /** A drained page: the session after it, the numbers it took, and how it ended. */
  datatype Drained = Drained(sess: Sess, taken: seq<u64>, end: PageEnd)

  function DrainItems(s: Sess, items: seq<Item>): Drained
    requires !s.tracker.inSession
    decreases |items|
  {
    if items == [] then Drained(s, [], PageDone)
    else if !items[0].readable || items[0].opening.Refused? then
      Drained(s.(reconcile := true), [], Abandoned)
    else
      match AcceptMailbox(s.tracker, items[0].n)
      case Rejected(e) => Drained(s, [], Fatal(e))
      case Accepted(t, gap) =>
        var s' := s.(tracker := t, reconcile := s.reconcile || gap);
        if items[0].opening.Garbled? then Drained(s'.(reconcile := true), [items[0].n], Abandoned)
        else
          var rest := DrainItems(s'.(drained := s'.drained + [items[0].opening.env]), items[1..]);
          rest.(taken := [items[0].n] + rest.taken)
  }

  datatype DrainEnd = Proceed | DrainError(error: SeqError) | FetchError

  datatype DrainRun = DrainRun(sess: Sess, dev: Dev, end: DrainEnd)

  /** The paging loop: save after every page, stop at the first that is not truncated. */
  function DrainPages(s: Sess, d: Dev, pages: seq<Page>): DrainRun
    requires !s.tracker.inSession
    decreases |pages|
  {
    if pages == [] || pages[0].FetchFailed? then DrainRun(s, d, FetchError)
    else
      var out := DrainItems(s, pages[0].items);
      DrainKeepsRegime(s, pages[0].items);
      if out.end.Fatal? then DrainRun(out.sess, d, DrainError(out.end.error))
      else
        var d' := SaveDrainMark(d, out.sess.tracker.lastSeen, pages[0].saves);
        if out.end.Abandoned? || !pages[0].truncated then DrainRun(out.sess, d', Proceed)
        else DrainPages(out.sess, d', pages[1..])
  }

  lemma {:induction false} DrainKeepsRegime(s: Sess, items: seq<Item>)
    requires !s.tracker.inSession
    ensures !DrainItems(s, items).sess.tracker.inSession
    decreases |items|
  {
    if items != [] && items[0].readable && !items[0].opening.Refused? {
      match AcceptMailbox(s.tracker, items[0].n) {
        case Rejected(_) =>
        case Accepted(t, gap) =>
          if items[0].opening.Content? {
            DrainKeepsRegime(s.(tracker := t, reconcile := s.reconcile || gap,
                                drained := s.drained + [items[0].opening.env]), items[1..]);
          }
      }
    }
  }

  /** A live frame as read from the socket. */
  datatype Frame = Frame(n: u64, opening: Opening)

  datatype RecvOutcome =
    | KeepReading                      // a plaintext control frame that is not sess.denied
    | Delivered(env: Envelope)
    | SeqAbort(error: SeqError)
    | AuthAbort
    | BadEnvelope
    | Denied

  datatype RecvStep = RecvStep(sess: Sess, dev: Dev, out: RecvOutcome)

  /** One turn of the receive loop. */
  function RecvFrame(s: Sess, d: Dev, f: Frame, saves: bool): RecvStep {
    if f.n == 0 then
      RecvStep(s, d, if !f.opening.Content? then BadEnvelope
                     else if f.opening.env.kind == "sess.denied" then Denied else KeepReading)
    else
      match Accept(s.tracker, f.n)
      case Rejected(e) => RecvStep(s, d, SeqAbort(e))
      case Accepted(t, _) =>
        var s' := s.(tracker := t);
        if f.opening.Refused? then RecvStep(s', d, AuthAbort)
        else
          var d' := SetMark(d, t.lastSeen, saves);
          if f.opening.Garbled? then RecvStep(s', d', BadEnvelope)
          else
            var final := f.opening.tag == 3 || f.opening.env.kind == "session.revoked";
            RecvStep(s'.(revoked := s.revoked || final), d', Delivered(f.opening.env))
  }

  datatype RecvResult = Revoked | SocketClosed | Got(out: RecvOutcome)

  datatype RecvRun = RecvRun(sess: Sess, dev: Dev, res: RecvResult)

  /** Recv: skip plaintext control frames, return on the first frame that is not one. */
  function RecvLoop(s: Sess, d: Dev, frames: seq<Frame>, saves: bool): RecvRun
    decreases |frames|
  {
    if frames == [] then RecvRun(s, d, SocketClosed)
    else
      var r := RecvFrame(s, d, frames[0], saves);
      if r.out.KeepReading? then RecvLoop(r.sess, r.dev, frames[1..], saves)
      else RecvRun(r.sess, r.dev, Got(r.out))
  }

  datatype ConfirmStep = ConfirmStep(sess: Sess, dev: Dev, ok: bool)

  /** The host's sess.confirm, first AEAD frame of the session. */
  function ConfirmFrame(s: Sess, d: Dev, f: Frame, macOk: bool, saves: bool): ConfirmStep {
    match Accept(s.tracker.(inSession := false), f.n)
    case Rejected(_) => ConfirmStep(s.(tracker := s.tracker.(inSession := false)), d, false)
    case Accepted(t, jump) =>
      var s' := s.(tracker := t, reconcile := s.reconcile || jump);
      if !f.opening.Content? || f.opening.env.kind != "sess.confirm" || !macOk then ConfirmStep(s', d, false)
      else ConfirmStep(s', SetMark(d, t.lastSeen, saves), true)
  }

  datatype SendStep = SendStep(dev: Dev, sent: seq<u64>)

  /** sendEncrypted: count, save, and only then let the frame leave. */
  function SendFrame(d: Dev, saves: bool): SendStep {
    var n := (d.mem.d2h + 1) % U64_SIZE;
    var d' := Save(d.(mem := d.mem.(d2h := n)), saves);
    SendStep(d', if saves then [n] else [])
  }

  // ---------------------------------------------------------------------
  // The objects
  // ---------------------------------------------------------------------

  /** The device's pairing record; `disk` is the content of state.json. */
  class State {
    var d2hLastSent: u64
    var h2dLastSeen: u64
    var disk: Record

    ghost function View(): Dev
      reads this
    {
      Dev(Record(d2hLastSent, h2dLastSeen), disk)
    }

    /** Load: the counters restart from the saved record. */
    constructor (saved: Record)
      ensures View() == Dev(saved, saved)
    {
      d2hLastSent, h2dLastSeen, disk := saved.d2h, saved.h2d, saved;
    }

    /** Write the record; an atomic rename, so a failure leaves the old one. */
    method Store(ok: bool)
      modifies this`disk
      ensures View() == Save(old(View()), ok)
    {
      if ok {
        disk := Record(d2hLastSent, h2dLastSeen);
      }
    }
  }

  class Session {
    const state: State
    const tracker: SeqTracker
    var reconcileExpected: bool
    var drainedEnvelopes: seq<Envelope>
    var revoked: bool

    ghost function View(): Sess
      reads this, tracker
    {
      Sess(tracker.View(), reconcileExpected, drainedEnvelopes, revoked)
    }

    constructor (state: State)
      ensures this.state == state && fresh(tracker)
      ensures View() == NewSess(state.View())
    {
      this.state := state;
      tracker := new SeqTracker(state.h2dLastSeen);
      reconcileExpected, drainedEnvelopes, revoked := false, [], false;
    }

    method SaveMark(ok: bool)
      modifies state
      ensures state.View() == SaveDrainMark(old(state.View()), tracker.lastSeen, ok)
    {
      if tracker.lastSeen > state.h2dLastSeen {
        state.h2dLastSeen := tracker.lastSeen;
        state.Store(ok);
      }
    }

    /** Drain one page, item by item, up to an unreadable item or a replayed number. */
    method DrainPage(items: seq<Item>) returns (end: PageEnd)
      requires !tracker.inSession
      modifies this`reconcileExpected, this`drainedEnvelopes, tracker`lastSeen
      ensures View() == DrainItems(old(View()), items).sess
      ensures end == DrainItems(old(View()), items).end
    {
      ghost var all := DrainItems(View(), items);
      var i := 0;
      while i < |items|
        invariant 0 <= i <= |items|
        invariant !tracker.inSession && revoked == old(revoked)
        invariant all.sess == DrainItems(View(), items[i..]).sess && all.end == DrainItems(View(), items[i..]).end
      {
        var it := items[i];
        assert items[i..][0] == it && items[i..][1..] == items[i + 1..];
        if !it.readable || it.opening.Refused? {
          reconcileExpected := true;
          return Abandoned;
        }
        var v := tracker.AcceptDrained(it.n);
        if v.Rejected? {
          return Fatal(v.error);
        }
        if v.jump {
          reconcileExpected := true;
        }
        if it.opening.Garbled? {
          reconcileExpected := true;
          return Abandoned;
        }
        drainedEnvelopes := drainedEnvelopes + [it.opening.env];
        i := i + 1;
      }
      end := PageDone;
    }

    /** The whole drain against the relay's successive responses. */
    method DrainMailbox(pages: seq<Page>) returns (end: DrainEnd)
      requires !tracker.inSession
      modifies this`reconcileExpected, this`drainedEnvelopes, tracker`lastSeen, state
      ensures DrainRun(View(), state.View(), end) == DrainPages(old(View()), old(state.View()), pages)
    {
      ghost var all := DrainPages(View(), state.View(), pages);
      var i := 0;
      while i < |pages|
        invariant 0 <= i <= |pages|
        invariant !tracker.inSession && revoked == old(revoked)
        invariant all == DrainPages(View(), state.View(), pages[i..])
      {
        var page := pages[i];
        assert pages[i..][0] == page && pages[i..][1..] == pages[i + 1..];
        if page.FetchFailed? {
          return FetchError;
        }
        var e := DrainPage(page.items);
        if e.Fatal? {
          return DrainError(e.error);
        }
        SaveMark(page.saves);
        if e.Abandoned? || !page.truncated {
          return Proceed;
        }
        i := i + 1;
      }
      end := FetchError;
    }

    /** The last part of Connect: session-start regime, authenticate, confirm, record. */
    method Confirm(f: Frame, macOk: bool, saves: bool) returns (ok: bool)
      modifies this`reconcileExpected, tracker, state
      ensures ConfirmStep(View(), state.View(), ok) == ConfirmFrame(old(View()), old(state.View()), f, macOk, saves)
    {
      tracker.StartSession();
      var v := tracker.AcceptFrame(f.n);
      if v.Rejected? {
        return false;
      }
      if v.jump {
        reconcileExpected := true;
      }
      if !f.opening.Content? || f.opening.env.kind != "sess.confirm" || !macOk {
        return false;
      }
      state.h2dLastSeen := tracker.lastSeen;
      state.Store(saves);
      ok := true;
    }

    /** One turn of Recv's loop. */
    method RecvOne(f: Frame, saves: bool) returns (out: RecvOutcome)
      modifies this`revoked, tracker, state
      ensures RecvStep(View(), state.View(), out) == RecvFrame(old(View()), old(state.View()), f, saves)
    {
      if f.n == 0 {
        if !f.opening.Content? {
          return BadEnvelope;
        }
        return if f.opening.env.kind == "sess.denied" then Denied else KeepReading;
      }
      var v := tracker.AcceptFrame(f.n);
      if v.Rejected? {
        return SeqAbort(v.error);
      }
      if f.opening.Refused? {
        return AuthAbort;
      }
      state.h2dLastSeen := tracker.lastSeen;
      state.Store(saves);
      if f.opening.Garbled? {
        return BadEnvelope;
      }
      if f.opening.tag == 3 || f.opening.env.kind == "session.revoked" {
        revoked := true;
      }
      return Delivered(f.opening.env);
    }

    /** Recv over the frames the socket yields; after a final frame it refuses forever. */
    method Recv(frames: seq<Frame>, saves: bool) returns (res: RecvResult)
      modifies this`revoked, tracker, state
      ensures old(revoked) ==> res == Revoked && View() == old(View()) && state.View() == old(state.View())
      ensures !old(revoked) ==>
                RecvRun(View(), state.View(), res) == RecvLoop(old(View()), old(state.View()), frames, saves)
    {
      if revoked {
        return Revoked;
      }
      ghost var all := RecvLoop(View(), state.View(), frames, saves);
      var i := 0;
      while i < |frames|
        invariant 0 <= i <= |frames|
        invariant reconcileExpected == old(reconcileExpected) && drainedEnvelopes == old(drainedEnvelopes)
        invariant all == RecvLoop(View(), state.View(), frames[i..], saves)
      {
        assert frames[i..][0] == frames[i] && frames[i..][1..] == frames[i + 1..];
        var out := RecvOne(frames[i], saves);
        if !out.KeepReading? {
          return Got(out);
        }
        i := i + 1;
      }
      res := SocketClosed;
    }

    /** sendEncrypted: the number is on disk before the frame leaves. */
    method SendEncrypted(saves: bool) returns (sent: seq<u64>)
      modifies state
      ensures SendStep(state.View(), sent) == SendFrame(old(state.View()), saves)
    {
      state.d2hLastSent := (state.d2hLastSent + 1) % U64_SIZE;
      var n := state.d2hLastSent;
      state.Store(saves);
      if !saves {
        return [];
      }
      return [n];
    }
  }
}
