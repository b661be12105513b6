/**
 * The host-to-device sequence protocol over whole runs: one host counter feeding
 * class L and class M frames, a relay that shows the device whatever it likes, and a
 * device that drains, connects, receives, sends, fails to save and crashes.
 */
module DeviceProtocol {
  import opened Bytes
  import opened Sequence
  import opened DeviceSession

  /** How the host sealed a frame: on a session stream at a position, or for the mailbox. */
  datatype Kind = ClassL(key: nat, pos: nat) | ClassM

  /** One sealed host frame; `ct` names the ciphertext. */
  datatype Seal = Seal(kind: Kind, n: u64, pc: byte, ct: nat)

  datatype Phase = Draining | Ready | Keyed | Live | Dead

  /** A device session with the key and position of its pull stream. */
  datatype Conn = Conn(sess: Sess, phase: Phase, key: nat, pos: nat, authFailed: bool)

  /** A number the device recorded, and whether its session then expected a reconcile. */
  datatype Recd = Recd(n: u64, flagged: bool)

  /**
   * `authed` logs every number accepted on a body that authenticated, `recorded` those
   * that moved the mark, `wire` the device's own numbers.
   */
  datatype World = World(
    sent: seq<Seal>, h2dSent: u64, hostKey: nat,
    dev: Dev, conns: seq<Conn>, recorded: seq<Recd>, authed: seq<u64>, wire: seq<u64>)

  /** What the relay hands over, with the header and ciphertext it chose. */
  datatype NetItem = NetItem(item: Item, pc: byte, ct: nat)
  datatype NetFrame = NetFrame(frame: Frame, pc: byte, ct: nat)

  datatype Event =
    | HostHello                                   // a new host session
    | HostBurn                                    // a number consumed by a send that failed
    | HostSendL(pc: byte, ct: nat)
    | HostSendM(pc: byte, ct: nat)
    | Connect
    | DrainPage(i: nat, net: seq<NetItem>, truncated: bool, saves: bool)
    | Handshake(i: nat, key: nat)
    | Confirm(i: nat, f: NetFrame, macOk: bool, saves: bool)
    | Recv(i: nat, f: NetFrame, saves: bool)
    | Send(saves: bool)
    | Crash                                       // restart from the saved record

  function Items(net: seq<NetItem>): (r: seq<Item>)
    ensures |r| == |net|
  {
    seq(|net|, j requires 0 <= j < |net| => net[j].item)
  }

  function LCount(sent: seq<Seal>, key: nat): nat {
    if sent == [] then 0
    else LCount(sent[..|sent| - 1], key)
         + (if sent[|sent| - 1].kind.ClassL? && sent[|sent| - 1].kind.key == key then 1 else 0)
  }

  function HostSeal(w: World, kind: Kind, pc: byte, ct: nat): World {
    var n := (w.h2dSent + 1) % U64_SIZE;
    w.(h2dSent := n, sent := w.sent + [Seal(kind, n, pc, ct)])
  }

  function Records(taken: seq<u64>, flagged: bool): (r: seq<Recd>)
    ensures |r| == |taken|
  {
    seq(|taken|, j requires 0 <= j < |taken| => Recd(taken[j], flagged))
  }

  function StepDrain(w: World, i: nat, net: seq<NetItem>, truncated: bool, saves: bool): World
    requires i < |w.conns| && !w.conns[i].sess.tracker.inSession
  {
    var c := w.conns[i];
    var out := DrainItems(c.sess, Items(net));
    var authed := w.authed + out.taken;
    if out.end.Fatal? then w.(conns := w.conns[i := c.(sess := out.sess, phase := Dead)], authed := authed)
    else
      var n := out.sess.tracker.lastSeen;
      var phase := if out.end.PageDone? && truncated then Draining else Ready;
      w.(conns := w.conns[i := c.(sess := out.sess, phase := phase)],
         dev := SaveDrainMark(w.dev, n, saves), authed := authed,
         recorded := if n > w.dev.mem.h2d then w.recorded + Records(out.taken, out.sess.reconcile) else w.recorded)
  }

  /** The frame is accepted as the first of a session and authenticates. */
  predicate Confirms(s: Sess, f: Frame) {
    Accept(s.tracker.(inSession := false), f.n).Accepted? && !f.opening.Refused?
  }

  function StepConfirm(w: World, i: nat, f: NetFrame, macOk: bool, saves: bool): World
    requires i < |w.conns|
  {
    var c := w.conns[i];
    var r := ConfirmFrame(c.sess, w.dev, f.frame, macOk, saves);
    w.(conns := w.conns[i := c.(sess := r.sess, phase := if r.ok then Live else Dead, pos := 1)],
       dev := r.dev,
       authed := if Confirms(c.sess, f.frame) then w.authed + [f.frame.n] else w.authed,
       recorded := if r.ok then w.recorded + [Recd(f.frame.n, r.sess.reconcile)] else w.recorded)
  }

  /** The frame moved the mark: it was accepted and it authenticated. */
  predicate Recorded(f: Frame, r: RecvStep) {
    f.n != 0 && !r.out.SeqAbort? && !r.out.AuthAbort?
  }

  function StepRecv(w: World, i: nat, f: NetFrame, saves: bool): World
    requires i < |w.conns|
  {
    var c := w.conns[i];
    var r := RecvFrame(c.sess, w.dev, f.frame, saves);
    w.(conns := w.conns[i := c.(sess := r.sess,
                                pos := c.pos + (if Recorded(f.frame, r) then 1 else 0),
                                authFailed := c.authFailed || r.out.AuthAbort?)],
       dev := r.dev,
       authed := if Recorded(f.frame, r) then w.authed + [f.frame.n] else w.authed,
       recorded := if Recorded(f.frame, r) then w.recorded + [Recd(f.frame.n, r.sess.reconcile)] else w.recorded)
  }

  predicate InPhase(w: World, i: nat, phase: Phase) {
    i < |w.conns| && w.conns[i].phase == phase
  }

  /** One step; an event that is not enabled changes nothing. */
  function Step(w: World, e: Event): World {
    match e
    case HostHello => w.(hostKey := w.hostKey + 1)
    case HostBurn => w.(h2dSent := (w.h2dSent + 1) % U64_SIZE)
    case HostSendL(pc, ct) => HostSeal(w, ClassL(w.hostKey, LCount(w.sent, w.hostKey)), pc, ct)
    case HostSendM(pc, ct) => HostSeal(w, ClassM, pc, ct)
    case Connect => w.(conns := w.conns + [Conn(NewSess(w.dev), Draining, 0, 0, false)])
    case DrainPage(i, net, truncated, saves) =>
      if InPhase(w, i, Draining) && !w.conns[i].sess.tracker.inSession
      then StepDrain(w, i, net, truncated, saves) else w
    case Handshake(i, key) =>
      if InPhase(w, i, Ready) then w.(conns := w.conns[i := w.conns[i].(phase := Keyed, key := key)]) else w
    case Confirm(i, f, macOk, saves) =>
      if InPhase(w, i, Keyed) then StepConfirm(w, i, f, macOk, saves) else w
    case Recv(i, f, saves) =>
      if InPhase(w, i, Live) && !w.conns[i].sess.revoked then StepRecv(w, i, f, saves) else w
    case Send(saves) =>
      var r := SendFrame(w.dev, saves);
      w.(dev := r.dev, wire := w.wire + r.sent)
    case Crash => w.(dev := Dev(w.dev.disk, w.dev.disk), conns := [])
  }

  function Exec(w: World, es: seq<Event>): World
    decreases |es|
  {
    if es == [] then w else Exec(Step(w, es[0]), es[1..])
  }

  // ---------------------------------------------------------------------
  // A whole drain is a run of pages
  // ---------------------------------------------------------------------

  predicate PagesFor(i: nat, es: seq<Event>) { forall j :: 0 <= j < |es| ==> es[j].DrainPage? && es[j].i == i }

  function PagesOf(i: nat, es: seq<Event>): (r: seq<Page>)
    requires PagesFor(i, es)
    ensures |r| == |es|
  {
    seq(|es|, j requires 0 <= j < |es| => Page(Items(es[j].net), es[j].truncated, es[j].saves))
  }

  function PhaseAfter(end: DrainEnd): Phase {
    match end
    case Proceed => Ready
    case DrainError(_) => Dead
    case FetchError => Draining
  }

  /** Once a session is no longer draining, further pages change nothing. */
  lemma {:induction false} DrainedStays(w: World, i: nat, es: seq<Event>)
    requires i < |w.conns| && w.conns[i].phase != Draining && PagesFor(i, es)
    ensures Exec(w, es) == w
    decreases |es|
  {
    if es != [] {
      DrainedStays(w, i, es[1..]);
    }
  }

  /** The paging loop of a session, run on its pages, is their events one after the other. */
  lemma {:induction false} DrainIsRun(w: World, i: nat, es: seq<Event>)
    requires InPhase(w, i, Draining) && !w.conns[i].sess.tracker.inSession && PagesFor(i, es)
    ensures var run, w' := DrainPages(w.conns[i].sess, w.dev, PagesOf(i, es)), Exec(w, es);
            && w'.dev == run.dev && |w'.conns| == |w.conns|
            && w'.conns[i] == w.conns[i].(sess := run.sess, phase := PhaseAfter(run.end))
    decreases |es|
  {
    if es != [] {
      var pages := PagesOf(i, es);
      assert pages[1..] == PagesOf(i, es[1..]);
      var w1 := StepDrain(w, i, es[0].net, es[0].truncated, es[0].saves);
      DrainKeepsRegime(w.conns[i].sess, pages[0].items);
      if w1.conns[i].phase == Draining {
        DrainIsRun(w1, i, es[1..]);
      } else {
        DrainedStays(w1, i, es[1..]);
      }
    }
  }

  // ---------------------------------------------------------------------
  // Premises on runs
  // ---------------------------------------------------------------------

  predicate SealedM(w: World, x: NetItem) { Seal(ClassM, x.item.n, x.pc, x.ct) in w.sent }

  predicate SealedL(w: World, key: nat, pos: nat, f: NetFrame) {
    Seal(ClassL(key, pos), f.frame.n, f.pc, f.ct) in w.sent
  }

  /** Ideal AEAD: a body opens only if the host sealed it under this key, position and header. */
  ghost predicate IdealAead(w: World, e: Event) {
    match e
    case DrainPage(_, net, _, _) =>
      forall j :: 0 <= j < |net| && !net[j].item.opening.Refused? ==> SealedM(w, net[j])
    case Confirm(i, f, _, _) =>
      i < |w.conns| && !f.frame.opening.Refused? ==> SealedL(w, w.conns[i].key, 0, f)
    case Recv(i, f, _) =>
      i < |w.conns| && f.frame.n != 0 && !f.frame.opening.Refused? ==>
        SealedL(w, w.conns[i].key, w.conns[i].pos, f)
    case _ => true
  }

  /** The caller uses only the newest session, and not after an authentication failure. */
  predicate Disciplined(w: World, e: Event) {
    match e
    case DrainPage(i, _, _, _) => i == |w.conns| - 1
    case Handshake(i, _) => i == |w.conns| - 1
    case Confirm(i, _, _, _) => i == |w.conns| - 1
    case Recv(i, _, _) => i == |w.conns| - 1 && (i < |w.conns| ==> !w.conns[i].authFailed)
    case _ => true
  }

  /** A crash happens only when the mark in memory is the one on disk. */
  predicate CrashSaved(w: World, e: Event) {
    e.Crash? ==> w.dev.disk.h2d == w.dev.mem.h2d
  }

  ghost predicate AllIdeal(w: World, es: seq<Event>)
    decreases |es|
  {
    es == [] || (IdealAead(w, es[0]) && AllIdeal(Step(w, es[0]), es[1..]))
  }

  predicate AllDisciplined(w: World, es: seq<Event>)
    decreases |es|
  {
    es == [] || (Disciplined(w, es[0]) && AllDisciplined(Step(w, es[0]), es[1..]))
  }

  predicate AllCrashesSaved(w: World, es: seq<Event>)
    decreases |es|
  {
    es == [] || (CrashSaved(w, es[0]) && AllCrashesSaved(Step(w, es[0]), es[1..]))
  }

  /** A device process starting from a saved record. */
  function Start(saved: Record): World { World([], 0, 0, Dev(saved, saved), [], [], [], []) }

  // ---------------------------------------------------------------------
  // Authenticity: every recorded number was sent by the host under that number
  // ---------------------------------------------------------------------

  ghost predicate SentAs(sent: seq<Seal>, n: u64) {
    exists j :: 0 <= j < |sent| && sent[j].n == n
  }

  /** Every authenticated number was sent, and every recorded one authenticated. */
  ghost predicate Authentic(w: World) {
    && (forall k :: 0 <= k < |w.authed| ==> SentAs(w.sent, w.authed[k]))
    && (forall k :: 0 <= k < |w.recorded| ==> w.recorded[k].n in w.authed)
  }

  /** The numbers a page takes are those of a prefix of its items, all of which opened. */
  lemma {:induction false} TakenOpened(s: Sess, items: seq<Item>)
    requires !s.tracker.inSession
    ensures var taken := DrainItems(s, items).taken;
            && |taken| <= |items|
            && forall j :: 0 <= j < |taken| ==> taken[j] == items[j].n && !items[j].opening.Refused?
    decreases |items|
  {
    if items != [] && items[0].readable && !items[0].opening.Refused? {
      match AcceptMailbox(s.tracker, items[0].n) {
        case Rejected(_) =>
        case Accepted(t, gap) =>
          if items[0].opening.Content? {
            TakenOpened(s.(tracker := t, reconcile := s.reconcile || gap,
                           drained := s.drained + [items[0].opening.env]), items[1..]);
          }
      }
    }
  }

  lemma SentAsSeal(sent: seq<Seal>, x: Seal)
    requires x in sent
    ensures SentAs(sent, x.n)
  {
  }

  /** Sent numbers stay sent, and further ones may be logged. */
  lemma MoreAuthed(w: World, sent: seq<Seal>, more: seq<u64>)
    requires Authentic(w) && w.sent <= sent
    requires forall j :: 0 <= j < |more| ==> SentAs(sent, more[j])
    ensures forall k :: 0 <= k < |w.authed + more| ==> SentAs(sent, (w.authed + more)[k])
  {
    forall k | 0 <= k < |w.authed + more| ensures SentAs(sent, (w.authed + more)[k]) {
      if k < |w.authed| {
        var j :| 0 <= j < |w.sent| && w.sent[j].n == w.authed[k];
        assert sent[j] == w.sent[j];
      } else {
        assert (w.authed + more)[k] == more[k - |w.authed|];
      }
    }
  }

  lemma DrainAuthentic(w: World, i: nat, net: seq<NetItem>, truncated: bool, saves: bool)
    requires Authentic(w) && IdealAead(w, DrainPage(i, net, truncated, saves))
    requires InPhase(w, i, Draining) && !w.conns[i].sess.tracker.inSession
    ensures Authentic(StepDrain(w, i, net, truncated, saves))
  {
    var out := DrainItems(w.conns[i].sess, Items(net));
    TakenOpened(w.conns[i].sess, Items(net));
    forall j | 0 <= j < |out.taken| ensures SentAs(w.sent, out.taken[j]) {
      assert Items(net)[j] == net[j].item;
      assert SealedM(w, net[j]);
      SentAsSeal(w.sent, Seal(ClassM, net[j].item.n, net[j].pc, net[j].ct));
    }
    MoreAuthed(w, w.sent, out.taken);
  }

  lemma StepAuthentic(w: World, e: Event)
    requires Authentic(w) && IdealAead(w, e)
    ensures Authentic(Step(w, e))
  {
    MoreAuthed(w, Step(w, e).sent, []);
    assert w.authed + [] == w.authed;
    if e.DrainPage? && InPhase(w, e.i, Draining) && !w.conns[e.i].sess.tracker.inSession {
      DrainAuthentic(w, e.i, e.net, e.truncated, e.saves);
    } else if (e.Confirm? || e.Recv?) && Step(w, e).authed != w.authed {
      var c := w.conns[e.i];
      SentAsSeal(w.sent, Seal(ClassL(c.key, if e.Recv? then c.pos else 0), e.f.frame.n, e.f.pc, e.f.ct));
      MoreAuthed(w, w.sent, [e.f.frame.n]);
    }
  }

  /** In every run whatsoever, ideal AEAD alone makes every authenticated number a sent one. */
  lemma {:induction false} RunAuthentic(w: World, es: seq<Event>)
    requires Authentic(w) && AllIdeal(w, es)
    ensures Authentic(Exec(w, es))
    decreases |es|
  {
    if es != [] {
      StepAuthentic(w, es[0]);
      RunAuthentic(Step(w, es[0]), es[1..]);
    }
  }

  // ---------------------------------------------------------------------
  // The mark moves only to numbers whose frame authenticated
  // ---------------------------------------------------------------------

  predicate Earned(start: u64, w: World, n: u64) { n == start || n in w.authed }

  /** The mark in memory, the mark on disk, and every tracker that may still move them. */
  predicate MarksEarned(start: u64, w: World) {
    && Earned(start, w, w.dev.mem.h2d) && Earned(start, w, w.dev.disk.h2d)
    && forall i :: 0 <= i < |w.conns| && w.conns[i].phase == Draining ==> Earned(start, w, w.conns[i].sess.tracker.lastSeen)
  }

  /** A page leaves the tracker where it was or at a number it took. */
  lemma PageEndsAt(s: Sess, items: seq<Item>)
    requires !s.tracker.inSession
    ensures var out := DrainItems(s, items);
            out.sess.tracker.lastSeen == s.tracker.lastSeen || out.sess.tracker.lastSeen in out.taken
  {
    var out := DrainItems(s, items);
    PageChain(s, items, true);
    var rs := Records(out.taken, true);
    if rs != [] { assert rs[|rs| - 1].n == out.taken[|rs| - 1]; }
  }

  lemma StepMarksEarned(start: u64, w: World, e: Event)
    requires MarksEarned(start, w)
    ensures MarksEarned(start, Step(w, e))
  {
    var w' := Step(w, e);
    assert forall n :: n in w.authed ==> n in w'.authed;
    if e.DrainPage? && InPhase(w, e.i, Draining) && !w.conns[e.i].sess.tracker.inSession {
      PageEndsAt(w.conns[e.i].sess, Items(e.net));
      assert Earned(start, w, w.conns[e.i].sess.tracker.lastSeen);
    }
  }

  lemma {:induction false} RunMarksEarned(start: u64, w: World, es: seq<Event>)
    requires MarksEarned(start, w)
    ensures MarksEarned(start, Exec(w, es))
    decreases |es|
  {
    if es != [] {
      StepMarksEarned(start, w, es[0]);
      RunMarksEarned(start, Step(w, es[0]), es[1..]);
    }
  }

  /**
   * Whatever sessions the caller uses, whichever saves fail and wherever it crashes: the
   * mark in memory and the mark on disk are each the one the process started from or a
   * number the host sent.
   */
  lemma MarksAreSent(saved: Record, es: seq<Event>)
    requires AllIdeal(Start(saved), es)
    ensures var w := Exec(Start(saved), es);
            && MarksEarned(saved.h2d, w)
            && (w.dev.mem.h2d == saved.h2d || SentAs(w.sent, w.dev.mem.h2d))
            && (w.dev.disk.h2d == saved.h2d || SentAs(w.sent, w.dev.disk.h2d))
  {
    RunMarksEarned(saved.h2d, Start(saved), es);
    RunAuthentic(Start(saved), es);
  }

  // ---------------------------------------------------------------------
  // Order and gaps
  // ---------------------------------------------------------------------

  /** From `start` the numbers only go up, and every skip is flagged. */
  predicate Chain(start: u64, rs: seq<Recd>)
    decreases |rs|
  {
    rs == [] || (start < rs[0].n && (rs[0].n == start + 1 || rs[0].flagged) && Chain(rs[0].n, rs[1..]))
  }

  function End(start: u64, rs: seq<Recd>): u64 {
    if rs == [] then start else rs[|rs| - 1].n
  }

  lemma {:induction false} ChainAppend(start: u64, a: seq<Recd>, b: seq<Recd>)
    requires Chain(start, a)
    ensures Chain(start, a + b) <==> Chain(End(start, a), b)
    ensures End(start, a + b) == End(End(start, a), b)
    decreases |a|
  {
    if a == [] {
      assert a + b == b;
    } else {
      ChainAppend(a[0].n, a[1..], b);
      assert (a + b)[1..] == a[1..] + b;
    }
  }

  /** A page takes a chain from the tracker's mark, flagged if it skips anything. */
  lemma {:induction false} PageChain(s: Sess, items: seq<Item>, flagged: bool)
    requires !s.tracker.inSession
    requires DrainItems(s, items).sess.reconcile ==> flagged
    ensures var out := DrainItems(s, items);
            && Chain(s.tracker.lastSeen, Records(out.taken, flagged))
            && out.sess.tracker == Tracker(End(s.tracker.lastSeen, Records(out.taken, flagged)), false)
            && (s.reconcile ==> out.sess.reconcile)
    decreases |items|
  {
    var out := DrainItems(s, items);
    if items != [] && items[0].readable && !items[0].opening.Refused? {
      match AcceptMailbox(s.tracker, items[0].n) {
        case Rejected(_) =>
        case Accepted(t, gap) =>
          if items[0].opening.Content? {
            var s' := s.(tracker := t, reconcile := s.reconcile || gap,
                         drained := s.drained + [items[0].opening.env]);
            PageChain(s', items[1..], flagged);
            assert Records(out.taken, flagged)[1..] == Records(DrainItems(s', items[1..]).taken, flagged);
          } else {
            assert Records(out.taken, flagged)[1..] == [];
          }
      }
    }
  }

  lemma ChainRises(start: u64, rs: seq<Recd>)
    requires Chain(start, rs)
    ensures start <= End(start, rs)
    ensures rs != [] ==> start < End(start, rs)
    decreases |rs|
  {
    if rs != [] {
      ChainRises(rs[0].n, rs[1..]);
    }
  }

  /** The newest session's tracker stands at the mark in memory. */
  predicate TrackerAtMark(w: World) {
    && w.dev.disk.h2d <= w.dev.mem.h2d
    && (w.conns != [] ==>
          var c := w.conns[|w.conns| - 1];
          && (c.phase in {Draining, Ready, Keyed} ==> c.sess.tracker == Tracker(w.dev.mem.h2d, false))
          && (c.phase == Live && !c.authFailed ==> c.sess.tracker == Tracker(w.dev.mem.h2d, true)))
  }

  lemma DrainAtMark(w: World, i: nat, net: seq<NetItem>, truncated: bool, saves: bool)
    requires TrackerAtMark(w) && InPhase(w, i, Draining) && i == |w.conns| - 1
    ensures TrackerAtMark(StepDrain(w, i, net, truncated, saves))
    ensures w.dev.mem.h2d <= StepDrain(w, i, net, truncated, saves).dev.mem.h2d
    ensures w.dev.disk.h2d <= StepDrain(w, i, net, truncated, saves).dev.disk.h2d
  {
    var s := w.conns[i].sess;
    PageChain(s, Items(net), true);
    ChainRises(s.tracker.lastSeen, Records(DrainItems(s, Items(net)).taken, true));
  }

  lemma StepAtMark(w: World, e: Event)
    requires TrackerAtMark(w) && Disciplined(w, e)
    ensures TrackerAtMark(Step(w, e))
    ensures !e.Crash? ==> w.dev.mem.h2d <= Step(w, e).dev.mem.h2d
    ensures w.dev.disk.h2d <= Step(w, e).dev.disk.h2d
  {
    if e.DrainPage? && InPhase(w, e.i, Draining) {
      DrainAtMark(w, e.i, e.net, e.truncated, e.saves);
    }
  }

  lemma ChainSnoc(start: u64, rs: seq<Recd>, r: Recd)
    requires Chain(start, rs)
    ensures Chain(start, rs + [r])
       <==> End(start, rs) < r.n && (r.n == End(start, rs) + 1 || r.flagged)
    ensures End(start, rs + [r]) == r.n
    decreases |rs|
  {
    if rs != [] {
      ChainSnoc(rs[0].n, rs[1..], r);
      assert (rs + [r])[1..] == rs[1..] + [r];
    }
  }

  /** A disciplined caller that crashes only on a saved mark meets every guard. */
  lemma {:induction false} DisciplineKeepsOrder(w: World, es: seq<Event>)
    requires TrackerAtMark(w) && AllDisciplined(w, es) && AllCrashesSaved(w, es)
    ensures AllKeepOrder(w, es)
    decreases |es|
  {
    if es != [] {
      StepAtMark(w, es[0]);
      DisciplineKeepsOrder(Step(w, es[0]), es[1..]);
    }
  }

  /** So its records are a chain up to the mark after every step. */
  lemma RunInOrder(saved: Record, es: seq<Event>)
    requires AllDisciplined(Start(saved), es) && AllCrashesSaved(Start(saved), es)
    ensures AllOrdered(saved.h2d, Start(saved), es)
  {
    DisciplineKeepsOrder(Start(saved), es);
    RunFromSavedOrderedIff(saved, es);
  }

  lemma {:induction false} ChainIncreasing(start: u64, rs: seq<Recd>, j: nat, k: nat)
    requires Chain(start, rs) && j < k < |rs|
    ensures start < rs[j].n < rs[k].n
    decreases |rs|
  {
    if j == 0 {
      ChainRises(rs[0].n, rs[1..k + 1]) by {
        ChainPrefix(rs[0].n, rs[1..], k);
        assert rs[1..k + 1] == rs[1..][..k];
      }
    } else {
      ChainIncreasing(rs[0].n, rs[1..], j - 1, k - 1);
    }
  }

  lemma {:induction false} ChainPrefix(start: u64, rs: seq<Recd>, n: nat)
    requires Chain(start, rs) && n <= |rs|
    ensures Chain(start, rs[..n])
    decreases |rs|
  {
    if n != 0 {
      ChainPrefix(rs[0].n, rs[1..], n - 1);
      assert rs[..n][1..] == rs[1..][..n - 1];
    }
  }

  /** A number passed over by the chain is passed over by a flagged record. */
  lemma {:induction false} ChainFlagsSkips(start: u64, rs: seq<Recd>, n: u64) returns (k: nat)
    requires Chain(start, rs) && start < n <= End(start, rs)
    requires forall j :: 0 <= j < |rs| ==> rs[j].n != n
    ensures k < |rs| && n < rs[k].n && rs[k].flagged && forall j :: 0 <= j < k ==> rs[j].n < n
    decreases |rs|
  {
    if n < rs[0].n {
      k := 0;
    } else {
      var k' := ChainFlagsSkips(rs[0].n, rs[1..], n);
      k := k' + 1;
      forall j | 0 <= j < k ensures rs[j].n < n {
        if j > 0 { assert rs[j] == rs[1..][j - 1]; }
      }
    }
  }

  /** Record `k` is the first above `n`, and its session expects a reconcile. */
  ghost predicate PassesOver(rs: seq<Recd>, k: nat, n: u64) {
    && k < |rs| && n < rs[k].n && rs[k].flagged
    && forall j :: 0 <= j < k ==> rs[j].n < n
  }

  ghost predicate WasRecorded(rs: seq<Recd>, n: u64) {
    exists k :: 0 <= k < |rs| && rs[k].n == n
  }

  ghost predicate Accounted(rs: seq<Recd>, n: u64) {
    WasRecorded(rs, n) || exists k :: PassesOver(rs, k, n)
  }

  /**
   * Over every run of host sends, relay behaviour, reconnects and crashes in which ideal
   * AEAD holds and every step meets its guard: the recorded numbers strictly increase, the
   * host sent each under that number, and every number up to the mark was recorded or is
   * passed over by a session that expects a reconcile.
   */
  lemma RecordedInOrder(saved: Record, es: seq<Event>)
    requires AllIdeal(Start(saved), es) && AllKeepOrder(Start(saved), es)
    ensures var w := Exec(Start(saved), es);
            && (forall k :: 0 <= k < |w.recorded| ==> SentAs(w.sent, w.recorded[k].n))
            && (forall j, k :: 0 <= j < k < |w.recorded| ==> saved.h2d < w.recorded[j].n < w.recorded[k].n)
            && (forall n: u64 {:trigger Accounted(w.recorded, n)} ::
                  saved.h2d < n <= w.dev.mem.h2d ==> Accounted(w.recorded, n))
  {
    RunAuthentic(Start(saved), es);
    RunFromSavedOrderedIff(saved, es);
    OrderedAtEnd(saved.h2d, Start(saved), es);
    var w := Exec(Start(saved), es);
    forall k | 0 <= k < |w.recorded| ensures SentAs(w.sent, w.recorded[k].n) {
      var j :| 0 <= j < |w.authed| && w.authed[j] == w.recorded[k].n;
    }
    forall j, k | 0 <= j < k < |w.recorded| ensures saved.h2d < w.recorded[j].n < w.recorded[k].n {
      ChainIncreasing(saved.h2d, w.recorded, j, k);
    }
    forall n: u64 {:trigger Accounted(w.recorded, n)} | saved.h2d < n <= w.dev.mem.h2d
      ensures Accounted(w.recorded, n)
    {
      if !WasRecorded(w.recorded, n) {
        var k := ChainFlagsSkips(saved.h2d, w.recorded, n);
        assert PassesOver(w.recorded, k, n);
      }
    }
  }

  /** With no flag raised, every number up to the mark was recorded: nothing is lost silently. */
  lemma NoFlagNoLoss(saved: Record, es: seq<Event>, n: u64)
    requires AllIdeal(Start(saved), es) && AllKeepOrder(Start(saved), es)
    requires forall k :: 0 <= k < |Exec(Start(saved), es).recorded| ==> !Exec(Start(saved), es).recorded[k].flagged
    requires saved.h2d < n <= Exec(Start(saved), es).dev.mem.h2d
    ensures WasRecorded(Exec(Start(saved), es).recorded, n)
  {
    RecordedInOrder(saved, es);
    assert Accounted(Exec(Start(saved), es).recorded, n);
  }

  lemma {:induction false} OrderedAtEnd(start: u64, w: World, es: seq<Event>)
    requires AllOrdered(start, w, es)
    ensures Ordered(start, Exec(w, es))
    decreases |es|
  {
    if es != [] {
      OrderedAtEnd(start, Step(w, es[0]), es[1..]);
    }
  }

  // ---------------------------------------------------------------------
  // When the order is kept, exactly
  // ---------------------------------------------------------------------

  /** The records are a chain from `start` that ends at the mark. */
  predicate Ordered(start: u64, w: World) {
    Chain(start, w.recorded) && End(start, w.recorded) == w.dev.mem.h2d
  }

  /** The guard of a step, on the session it uses, the mark and what the relay shows. */
  predicate KeepsOrder(w: World, e: Event) {
    match e
    case DrainPage(i, net, _, _) =>
      InPhase(w, i, Draining) && !w.conns[i].sess.tracker.inSession ==>
        var out := DrainItems(w.conns[i].sess, Items(net));
        || out.end.Fatal? || out.sess.tracker.lastSeen <= w.dev.mem.h2d       // nothing is recorded
        || w.conns[i].sess.tracker.lastSeen == w.dev.mem.h2d
        || (out.taken != [] && out.taken[0] > w.dev.mem.h2d)
    case Confirm(i, f, macOk, saves) =>
      InPhase(w, i, Keyed) && ConfirmFrame(w.conns[i].sess, w.dev, f.frame, macOk, saves).ok ==>
        f.frame.n > w.dev.mem.h2d
    case Recv(i, f, saves) =>
      InPhase(w, i, Live) && !w.conns[i].sess.revoked
      && Recorded(f.frame, RecvFrame(w.conns[i].sess, w.dev, f.frame, saves)) ==>
        var s := w.conns[i].sess;
        s.tracker.lastSeen == w.dev.mem.h2d || (s.tracker.lastSeen > w.dev.mem.h2d && s.reconcile)
    case Crash => w.dev.disk.h2d == w.dev.mem.h2d
    case _ => true
  }

  /** A session that has not confirmed is not ahead of the mark; a live one is in session. */
  predicate BehindMark(w: World, c: Conn) {
    && (c.phase in {Draining, Ready, Keyed} ==> !c.sess.tracker.inSession && c.sess.tracker.lastSeen <= w.dev.mem.h2d)
    && (c.phase == Live ==> c.sess.tracker.inSession)
  }

  predicate AllBehind(w: World) {
    forall i :: 0 <= i < |w.conns| ==> BehindMark(w, w.conns[i])
  }

  /** A chain also starts from a later mark exactly when its first number is above that mark. */
  lemma ChainFromLater(t: u64, mark: u64, rs: seq<Recd>)
    requires Chain(t, rs) && t <= mark && rs != []
    ensures Chain(mark, rs) <==> mark < rs[0].n
  {
  }

  lemma DrainOrderedIff(start: u64, w: World, i: nat, net: seq<NetItem>, truncated: bool, saves: bool)
    requires Ordered(start, w) && InPhase(w, i, Draining) && BehindMark(w, w.conns[i])
    ensures Ordered(start, StepDrain(w, i, net, truncated, saves)) <==> KeepsOrder(w, DrainPage(i, net, truncated, saves))
  {
    var s, mark := w.conns[i].sess, w.dev.mem.h2d;
    var out := DrainItems(s, Items(net));
    if !out.end.Fatal? && out.sess.tracker.lastSeen > mark {
      var rs := Records(out.taken, out.sess.reconcile);
      PageChain(s, Items(net), out.sess.reconcile);
      ChainAppend(start, w.recorded, rs);
      ChainFromLater(s.tracker.lastSeen, mark, rs);
      assert rs[0].n == out.taken[0];
    }
  }

  lemma ConfirmOrderedIff(start: u64, w: World, e: Event)
    requires Ordered(start, w) && e.Confirm? && InPhase(w, e.i, Keyed) && BehindMark(w, w.conns[e.i])
    ensures Ordered(start, Step(w, e)) <==> KeepsOrder(w, e)
  {
    var r := ConfirmFrame(w.conns[e.i].sess, w.dev, e.f.frame, e.macOk, e.saves);
    ChainSnoc(start, w.recorded, Recd(e.f.frame.n, r.sess.reconcile));
  }

  lemma RecvOrderedIff(start: u64, w: World, e: Event)
    requires Ordered(start, w) && e.Recv? && InPhase(w, e.i, Live) && BehindMark(w, w.conns[e.i])
    ensures Ordered(start, Step(w, e)) <==> KeepsOrder(w, e)
  {
    ChainSnoc(start, w.recorded, Recd(e.f.frame.n, w.conns[e.i].sess.reconcile));
  }

  /** One step keeps the records a chain up to the mark exactly when it meets the guard. */
  lemma StepOrderedIff(start: u64, w: World, e: Event)
    requires Ordered(start, w) && AllBehind(w)
    ensures Ordered(start, Step(w, e)) <==> KeepsOrder(w, e)
  {
    if e.DrainPage? && InPhase(w, e.i, Draining) {
      assert BehindMark(w, w.conns[e.i]);
      DrainOrderedIff(start, w, e.i, e.net, e.truncated, e.saves);
    } else if e.Confirm? && InPhase(w, e.i, Keyed) {
      assert BehindMark(w, w.conns[e.i]);
      ConfirmOrderedIff(start, w, e);
    } else if e.Recv? && InPhase(w, e.i, Live) {
      assert BehindMark(w, w.conns[e.i]);
      RecvOrderedIff(start, w, e);
    }
  }

  // What a caller can decide on its own session and mark, whatever the relay then shows.

  /** A receive keeps the order on every frame exactly when the tracker stands at the mark, or ahead with a reconcile. */
  lemma RecvKeepsOrderIff(start: u64, w: World, i: nat)
    requires Ordered(start, w) && InPhase(w, i, Live) && !w.conns[i].sess.revoked && BehindMark(w, w.conns[i])
    ensures var s := w.conns[i].sess;
            (forall f, saves :: Ordered(start, Step(w, Recv(i, f, saves))))
            <==> (|| s.tracker.lastSeen == w.dev.mem.h2d
                  || (s.tracker.lastSeen > w.dev.mem.h2d && s.reconcile)
                  || s.tracker.lastSeen + 1 == U64_SIZE)
  {
    forall f, saves ensures Ordered(start, Step(w, Recv(i, f, saves))) <==> KeepsOrder(w, Recv(i, f, saves)) {
      RecvOrderedIff(start, w, Recv(i, f, saves));
    }
    var t := w.conns[i].sess.tracker;
    if t.lastSeen + 1 < U64_SIZE {
      var e := Recv(i, Plain(t.lastSeen + 1), true);
      assert Recorded(e.f.frame, RecvFrame(w.conns[i].sess, w.dev, e.f.frame, true));
      assert Ordered(start, Step(w, e)) <==> KeepsOrder(w, e);
    }
  }

  /** A confirmation exactly when the tracker stands at the mark. */
  lemma ConfirmKeepsOrderIff(start: u64, w: World, i: nat)
    requires Ordered(start, w) && InPhase(w, i, Keyed) && BehindMark(w, w.conns[i])
    ensures (forall f, macOk, saves :: Ordered(start, Step(w, Confirm(i, f, macOk, saves))))
       <==> w.conns[i].sess.tracker.lastSeen == w.dev.mem.h2d
  {
    forall f, macOk, saves
      ensures Ordered(start, Step(w, Confirm(i, f, macOk, saves))) <==> KeepsOrder(w, Confirm(i, f, macOk, saves))
    {
      ConfirmOrderedIff(start, w, Confirm(i, f, macOk, saves));
    }
    var t := w.conns[i].sess.tracker;
    if t.lastSeen < w.dev.mem.h2d {
      assert !Ordered(start, Step(w, Confirm(i, Plain(t.lastSeen + 1), true, true)));
    }
  }

  lemma TwoItems(s: Sess, net: seq<NetItem>, n: u64, m: u64)
    requires !s.tracker.inSession && s.tracker.lastSeen < n < m && net == [PlainItem(n), PlainItem(m)]
    ensures var out := DrainItems(s, Items(net));
            out.sess.tracker == Tracker(m, false) && out.taken == [n, m] && out.end == PageDone
  {
    var s' := s.(tracker := Tracker(n, false), reconcile := s.reconcile || n > s.tracker.lastSeen + 1,
                 drained := s.drained + [CONFIRM.env]);
    assert Items(net)[1..] == Items([PlainItem(m)]);
    OneItem(s', [PlainItem(m)], m);
  }

  /** A page exactly when the tracker stands at the mark, short of the last number of all. */
  lemma DrainKeepsOrderIff(start: u64, w: World, i: nat)
    requires Ordered(start, w) && InPhase(w, i, Draining) && BehindMark(w, w.conns[i])
    ensures (forall net, truncated, saves :: Ordered(start, Step(w, DrainPage(i, net, truncated, saves))))
       <==> w.conns[i].sess.tracker.lastSeen == w.dev.mem.h2d || w.dev.mem.h2d + 1 == U64_SIZE
  {
    forall net, truncated, saves
      ensures Ordered(start, Step(w, DrainPage(i, net, truncated, saves))) <==> KeepsOrder(w, DrainPage(i, net, truncated, saves))
    {
      DrainOrderedIff(start, w, i, net, truncated, saves);
    }
    var s, mark := w.conns[i].sess, w.dev.mem.h2d;
    if s.tracker.lastSeen < mark && mark + 1 < U64_SIZE {
      var net := [PlainItem(s.tracker.lastSeen + 1), PlainItem(mark + 1)];
      TwoItems(s, net, s.tracker.lastSeen + 1, mark + 1);
      assert !Ordered(start, Step(w, DrainPage(i, net, false, true)));
    }
  }

  lemma StepBehind(w: World, e: Event)
    requires AllBehind(w) && KeepsOrder(w, e)
    ensures AllBehind(Step(w, e))
  {
    if e.DrainPage? && InPhase(w, e.i, Draining) {
      DrainKeepsRegime(w.conns[e.i].sess, Items(e.net));
    }
    if !e.Crash? {
      assert w.dev.mem.h2d <= Step(w, e).dev.mem.h2d;
    }
  }

  predicate AllKeepOrder(w: World, es: seq<Event>)
    decreases |es|
  {
    es == [] || (KeepsOrder(w, es[0]) && AllKeepOrder(Step(w, es[0]), es[1..]))
  }

  predicate AllOrdered(start: u64, w: World, es: seq<Event>)
    decreases |es|
  {
    Ordered(start, w) && (es == [] || AllOrdered(start, Step(w, es[0]), es[1..]))
  }

  lemma {:induction false} RunOrderedIff(start: u64, w: World, es: seq<Event>)
    requires Ordered(start, w) && AllBehind(w)
    ensures AllOrdered(start, w, es) <==> AllKeepOrder(w, es)
    decreases |es|
  {
    if es != [] {
      StepOrderedIff(start, w, es[0]);
      if KeepsOrder(w, es[0]) {
        StepBehind(w, es[0]);
        RunOrderedIff(start, Step(w, es[0]), es[1..]);
      }
    }
  }

  /**
   * Over every run whatsoever from a saved record, after every step the records are a
   * chain of increasing numbers with every skip flagged, ending at the mark, if and only
   * if every step meets its guard.
   */
  lemma RunFromSavedOrderedIff(saved: Record, es: seq<Event>)
    ensures AllOrdered(saved.h2d, Start(saved), es) <==> AllKeepOrder(Start(saved), es)
  {
    RunOrderedIff(saved.h2d, Start(saved), es);
  }

  // ---------------------------------------------------------------------
  // Crashes and failed saves
  // ---------------------------------------------------------------------

  /** Numbers on the wire increase and none exceeds the saved counter. */
  predicate WireSaved(w: World) {
    && w.dev.disk.d2h <= w.dev.mem.d2h
    && (forall j :: 0 <= j < |w.wire| ==> w.wire[j] <= w.dev.disk.d2h)
    && (forall j, k :: 0 <= j < k < |w.wire| ==> w.wire[j] < w.wire[k])
  }

  /** No send finds the counter at its maximum, where it would wrap to zero. */
  predicate NoWrap(w: World, es: seq<Event>)
    decreases |es|
  {
    es == [] || ((es[0].Send? ==> w.dev.mem.d2h + 1 < U64_SIZE) && NoWrap(Step(w, es[0]), es[1..]))
  }

  lemma SendKeepsWire(w: World, saves: bool)
    requires WireSaved(w) && w.dev.mem.d2h + 1 < U64_SIZE
    ensures WireSaved(Step(w, Send(saves)))
  {
  }

  lemma OtherKeepsWire(w: World, e: Event)
    requires WireSaved(w) && !e.Send?
    ensures WireSaved(Step(w, e))
  {
    assert Step(w, e).wire == w.wire;
  }

  /** Wherever the process crashes, no d2h number reaches the wire twice. */
  lemma {:induction false} WireNeverRepeats(w: World, es: seq<Event>)
    requires WireSaved(w) && NoWrap(w, es)
    ensures WireSaved(Exec(w, es))
    decreases |es|
  {
    if es != [] {
      if es[0].Send? { SendKeepsWire(w, es[0].saves); } else { OtherKeepsWire(w, es[0]); }
      WireNeverRepeats(Step(w, es[0]), es[1..]);
    }
  }

  ghost predicate MarksRecorded(start: u64, w: World) {
    && (w.dev.mem.h2d == start || WasRecorded(w.recorded, w.dev.mem.h2d))
    && (w.dev.disk.h2d == start || WasRecorded(w.recorded, w.dev.disk.h2d))
  }

  lemma RecordedStays(rs: seq<Recd>, more: seq<Recd>, n: u64)
    requires WasRecorded(rs, n)
    ensures WasRecorded(rs + more, n)
  {
    var k :| 0 <= k < |rs| && rs[k].n == n;
    assert (rs + more)[k] == rs[k];
  }

  lemma LastIsRecorded(rs: seq<Recd>, more: seq<Recd>)
    requires more != []
    ensures WasRecorded(rs + more, more[|more| - 1].n)
  {
    assert (rs + more)[|rs| + |more| - 1] == more[|more| - 1];
  }

  /** A step adds records, and moves the mark in memory, unless it crashes, only to the last of them. */
  lemma StepMovesTo(w: World, e: Event) returns (more: seq<Recd>)
    requires TrackerAtMark(w) && Disciplined(w, e)
    ensures Step(w, e).recorded == w.recorded + more
    ensures !e.Crash? && Step(w, e).dev.mem.h2d != w.dev.mem.h2d ==> more != [] && Step(w, e).dev.mem.h2d == more[|more| - 1].n
  {
    more := [];
    if e.DrainPage? && InPhase(w, e.i, Draining) {
      var s := w.conns[e.i].sess;
      var out := DrainItems(s, Items(e.net));
      PageChain(s, Items(e.net), out.sess.reconcile);
      if !out.end.Fatal? && out.sess.tracker.lastSeen > w.dev.mem.h2d {
        more := Records(out.taken, out.sess.reconcile);
      }
    } else if (e.Confirm? || e.Recv?) && Step(w, e).recorded != w.recorded {
      more := [Step(w, e).recorded[|w.recorded|]];
    }
  }

  lemma StepMarksRecorded(start: u64, w: World, e: Event)
    requires TrackerAtMark(w) && Disciplined(w, e) && MarksRecorded(start, w)
    ensures MarksRecorded(start, Step(w, e))
  {
    var more := StepMovesTo(w, e);
    if more != [] { LastIsRecorded(w.recorded, more); }
    if w.dev.mem.h2d != start { RecordedStays(w.recorded, more, w.dev.mem.h2d); }
    if w.dev.disk.h2d != start { RecordedStays(w.recorded, more, w.dev.disk.h2d); }
    DiskFollows(w, e);
  }

  /** The disk holds its old mark or the one in memory. */
  lemma DiskFollows(w: World, e: Event)
    ensures Step(w, e).dev.disk.h2d == w.dev.disk.h2d || Step(w, e).dev.disk.h2d == Step(w, e).dev.mem.h2d
    ensures e.Crash? ==> Step(w, e).dev.mem.h2d == w.dev.disk.h2d
  {
  }

  /**
   * A disciplined caller, whichever saves fail and wherever it crashes: both marks are the
   * one it started from or a recorded number, never one that was merely claimed.
   */
  lemma {:induction false} RunMarksRecorded(start: u64, w: World, es: seq<Event>)
    requires TrackerAtMark(w) && MarksRecorded(start, w) && AllDisciplined(w, es)
    ensures MarksRecorded(start, Exec(w, es))
    decreases |es|
  {
    if es != [] {
      StepMarksRecorded(start, w, es[0]);
      StepAtMark(w, es[0]);
      RunMarksRecorded(start, Step(w, es[0]), es[1..]);
    }
  }

  /** Whatever saves fail and wherever the process crashes, the saved mark never goes back. */
  lemma {:induction false} SavedMarkMonotone(w: World, es: seq<Event>, i: nat, j: nat)
    requires TrackerAtMark(w) && AllDisciplined(w, es)
    requires i <= j <= |es|
    ensures Exec(w, es[..i]).dev.disk.h2d <= Exec(w, es[..j]).dev.disk.h2d
    decreases |es|, j
  {
    if es != [] && j > 0 {
      StepAtMark(w, es[0]);
      assert es[..j][1..] == es[1..][..j - 1];
      if i == 0 {
        SavedMarkMonotone(Step(w, es[0]), es[1..], 0, j - 1);
        assert es[1..][..0] == [] && es[..0] == [];
      } else {
        assert es[..i][1..] == es[1..][..i - 1];
        SavedMarkMonotone(Step(w, es[0]), es[1..], i - 1, j - 1);
      }
    }
  }

  // ---------------------------------------------------------------------
  // When the saved mark goes back, exactly
  // ---------------------------------------------------------------------

  /** What a step would save is not below what is saved. */
  predicate KeepsSaved(w: World, e: Event) {
    var saved := w.dev.disk.h2d;
    match e
    case DrainPage(i, net, _, saves) =>
      InPhase(w, i, Draining) && !w.conns[i].sess.tracker.inSession && saves ==>
        var out := DrainItems(w.conns[i].sess, Items(net));
        out.end.Fatal? || out.sess.tracker.lastSeen <= w.dev.mem.h2d || out.sess.tracker.lastSeen >= saved
    case Confirm(i, f, macOk, saves) =>
      InPhase(w, i, Keyed) && saves && ConfirmFrame(w.conns[i].sess, w.dev, f.frame, macOk, saves).ok ==> f.frame.n >= saved
    case Recv(i, f, saves) =>
      InPhase(w, i, Live) && !w.conns[i].sess.revoked && saves ==>
        (Recorded(f.frame, RecvFrame(w.conns[i].sess, w.dev, f.frame, saves)) ==> f.frame.n >= saved)
    case Send(saves) => saves ==> w.dev.mem.h2d >= saved
    case _ => true
  }

  /** The step does not lower the mark on disk. */
  predicate SavedKept(w: World, e: Event) { w.dev.disk.h2d <= Step(w, e).dev.disk.h2d }

  lemma StepSavedIff(w: World, e: Event)
    ensures SavedKept(w, e) <==> KeepsSaved(w, e)
  {
  }

  predicate AllKeepSaved(w: World, es: seq<Event>)
    decreases |es|
  {
    es == [] || (KeepsSaved(w, es[0]) && AllKeepSaved(Step(w, es[0]), es[1..]))
  }

  /** The mark on disk never goes back along the run. */
  predicate SavedRises(w: World, es: seq<Event>)
    decreases |es|
  {
    es == [] || (SavedKept(w, es[0]) && SavedRises(Step(w, es[0]), es[1..]))
  }

  /** Over every run whatsoever the saved mark never goes back if and only if no step saves a lower one. */
  lemma {:induction false} RunSavedIff(w: World, es: seq<Event>)
    ensures SavedRises(w, es) <==> AllKeepSaved(w, es)
    decreases |es|
  {
    if es != [] {
      StepSavedIff(w, es[0]);
      RunSavedIff(Step(w, es[0]), es[1..]);
    }
  }

  function Plain(n: u64): NetFrame { NetFrame(Frame(n, CONFIRM), 0, 0) }

  function PlainItem(n: u64): NetItem { NetItem(Item(n, true, CONFIRM), 0, 0) }

  /** Whatever frame the relay shows, a receive lowers the saved mark only on a tracker more than one below it. */
  lemma RecvSavesRisingIff(w: World, i: nat)
    requires InPhase(w, i, Live) && !w.conns[i].sess.revoked && w.conns[i].sess.tracker.inSession
    ensures (forall f, saves :: SavedKept(w, Recv(i, f, saves)))
       <==> w.conns[i].sess.tracker.lastSeen + 1 >= w.dev.disk.h2d
  {
    var t := w.conns[i].sess.tracker;
    if t.lastSeen + 1 < w.dev.disk.h2d {
      assert !SavedKept(w, Recv(i, Plain(t.lastSeen + 1), true));
    }
  }

  /** The same for a confirmation. */
  lemma ConfirmSavesRisingIff(w: World, i: nat)
    requires InPhase(w, i, Keyed)
    ensures (forall f, macOk, saves :: SavedKept(w, Confirm(i, f, macOk, saves)))
       <==> w.conns[i].sess.tracker.lastSeen + 1 >= w.dev.disk.h2d
  {
    var t := w.conns[i].sess.tracker;
    if t.lastSeen + 1 < w.dev.disk.h2d {
      assert !SavedKept(w, Confirm(i, Plain(t.lastSeen + 1), true, true));
    }
  }

  lemma OneItem(s: Sess, net: seq<NetItem>, n: u64)
    requires !s.tracker.inSession && n > s.tracker.lastSeen && net == [PlainItem(n)]
    ensures var out := DrainItems(s, Items(net));
            out.sess.tracker == Tracker(n, false) && out.taken == [n] && out.end == PageDone
  {
    var s' := s.(tracker := Tracker(n, false), reconcile := s.reconcile || n > s.tracker.lastSeen + 1,
                 drained := s.drained + [CONFIRM.env]);
    assert Items(net)[1..] == [];
    assert DrainItems(s', []) == Drained(s', [], PageDone);
  }

  /** The lowest mark a page can move to: the tracker if it is ahead of the mark in memory, else one above that. */
  function LowestMove(w: World, s: Sess): nat {
    if s.tracker.lastSeen > w.dev.mem.h2d then s.tracker.lastSeen else w.dev.mem.h2d + 1
  }

  /** The same for a page of a drain. */
  lemma DrainSavesRisingIff(w: World, i: nat)
    requires InPhase(w, i, Draining) && !w.conns[i].sess.tracker.inSession
    ensures (forall net, truncated, saves :: SavedKept(w, DrainPage(i, net, truncated, saves)))
       <==> LowestMove(w, w.conns[i].sess) >= w.dev.disk.h2d
  {
    var s := w.conns[i].sess;
    if LowestMove(w, s) >= w.dev.disk.h2d {
      forall net, truncated, saves ensures SavedKept(w, DrainPage(i, net, truncated, saves)) {
        PageChain(s, Items(net), true);
        ChainRises(s.tracker.lastSeen, Records(DrainItems(s, Items(net)).taken, true));
      }
    } else if s.tracker.lastSeen > w.dev.mem.h2d {
      assert DrainItems(s, Items([])) == Drained(s, [], PageDone);
      assert !SavedKept(w, DrainPage(i, [], false, true));
    } else {
      var net := [PlainItem(w.dev.mem.h2d + 1)];
      OneItem(s, net, w.dev.mem.h2d + 1);
      assert !SavedKept(w, DrainPage(i, net, false, true));
    }
  }

  // ---------------------------------------------------------------------
  // Each premise is needed
  // ---------------------------------------------------------------------

  const CONFIRM := Content(Envelope("sess.confirm", []), 0)
  const EVENT := Content(Envelope("event", []), 0)

  function Live1(n: u64, ct: nat, o: Opening): NetFrame { NetFrame(Frame(n, o), 0, ct) }

  /** Some run with ideal AEAD from a fresh pairing ends in `w`. */
  ghost predicate Reachable(w: World) {
    exists es :: AllIdeal(Start(Record(0, 0)), es) && Exec(Start(Record(0, 0)), es) == w
  }

  lemma {:induction false} ExecSnoc(w: World, es: seq<Event>, e: Event)
    ensures Exec(w, es + [e]) == Step(Exec(w, es), e)
    ensures AllIdeal(w, es + [e]) <==> AllIdeal(w, es) && IdealAead(Exec(w, es), e)
    decreases |es|
  {
    if es == [] {
      assert [e][1..] == [] && es + [e] == [e];
    } else {
      assert (es + [e])[1..] == es[1..] + [e];
      ExecSnoc(Step(w, es[0]), es[1..], e);
    }
  }

  lemma Reach(w: World, e: Event) returns (w': World)
    requires Reachable(w) && IdealAead(w, e)
    ensures w' == Step(w, e) && Reachable(w')
  {
    var es :| AllIdeal(Start(Record(0, 0)), es) && Exec(Start(Record(0, 0)), es) == w;
    ExecSnoc(Start(Record(0, 0)), es, e);
    w' := Step(w, e);
  }

  lemma ReachStart()
    ensures Reachable(Start(Record(0, 0)))
  {
    assert AllIdeal(Start(Record(0, 0)), []) && Exec(Start(Record(0, 0)), []) == Start(Record(0, 0));
  }

  const FIRST := Seal(ClassL(1, 0), 1, 0, 10)

  function LiveConn(n: u64, key: nat, flagged: bool): Conn {
    Conn(Sess(Tracker(n, true), flagged, [], false), Live, key, 1, false)
  }

  /** A first session, established by the host's frame 1. */
  const ESTABLISHED: World :=
    World([FIRST], 1, 1, Dev(Record(0, 1), Record(0, 1)), [LiveConn(1, 1, false)], [Recd(1, false)], [1], [])

  lemma ReachEstablished()
    ensures Reachable(ESTABLISHED)
  {
    ReachStart();
    var w := Reach(Start(Record(0, 0)), HostHello);
    w := Reach(w, Connect);
    w := Reach(w, DrainPage(0, [], false, true));
    w := Reach(w, Handshake(0, 1));
    assert LCount(w.sent, 1) == 0;
    w := Reach(w, HostSendL(0, 10));
    assert w.sent == [FIRST];
    w := Reach(w, Confirm(0, Live1(1, 10, CONFIRM), true, true));
    assert w == ESTABLISHED;
  }

  lemma OneLFrame()
    ensures LCount([FIRST], 1) == 1 && LCount([FIRST], 2) == 0
  {
    assert [FIRST][..0] == [];
  }

  /**
   * A caller that keeps receiving after an authentication failure: a forged frame
   * numbered 2 moves the tracker, and the host's frame 3 is then recorded although
   * the mailbox frame 2 never was, with no reconcile expected.
   */
  lemma ReceivingOnAfterAuthFailure() returns (w: World)
    ensures Reachable(w) && |w.conns| == 1
    ensures w.recorded == [Recd(1, false), Recd(3, false)]
    ensures w.conns[0].phase == Live && !w.conns[0].sess.reconcile && SentAs(w.sent, 2)
  {
    ReachEstablished();
    OneLFrame();
    w := Reach(ESTABLISHED, HostSendM(0, 20));
    assert LCount(w.sent, 1) == 1 by { assert w.sent[..1] == [FIRST]; }
    w := Reach(w, HostSendL(0, 30));
    assert w.sent == [FIRST, Seal(ClassM, 2, 0, 20), Seal(ClassL(1, 1), 3, 0, 30)];
    w := Reach(w, Recv(0, Live1(2, 99, Refused), true));
    w := Reach(w, Recv(0, Live1(3, 30, EVENT), true));
    assert w.sent[1].n == 2;
  }

  const DELAYED := Seal(ClassL(1, 1), 2, 0, 20)

  /** A second session, established by frame 3 while frame 2 of the first is in flight. */
  const REPLACED: World :=
    World([FIRST, DELAYED, Seal(ClassL(2, 0), 3, 0, 30)], 3, 2, Dev(Record(0, 3), Record(0, 3)),
          [LiveConn(1, 1, false), LiveConn(3, 2, true)], [Recd(1, false), Recd(3, true)], [1, 3], [])

  /** The first session still open, the second past its handshake messages. */
  const RECONNECTING: World :=
    World([FIRST, DELAYED], 2, 2, Dev(Record(0, 1), Record(0, 1)),
          [LiveConn(1, 1, false), Conn(Sess(Tracker(1, false), false, [], false), Keyed, 2, 0, false)],
          [Recd(1, false)], [1], [])

  lemma ReachReconnecting()
    ensures Reachable(RECONNECTING)
  {
    ReachEstablished();
    OneLFrame();
    var w := Reach(ESTABLISHED, HostSendL(0, 20));
    assert w.sent == [FIRST, DELAYED];
    w := Reach(w, HostHello);
    w := Reach(w, Connect);
    assert w.conns[1] == Conn(Sess(Tracker(1, false), false, [], false), Draining, 0, 0, false);
    w := Reach(w, DrainPage(1, [], false, true));
    w := Reach(w, Handshake(1, 2));
    assert w == RECONNECTING;
  }

  lemma ReachReplaced()
    ensures Reachable(REPLACED)
  {
    ReachReconnecting();
    OneLFrame();
    assert LCount(RECONNECTING.sent, 2) == 0 by { assert RECONNECTING.sent[..1] == [FIRST]; }
    var w := Reach(RECONNECTING, HostSendL(0, 30));
    assert w.sent == REPLACED.sent;
    w := Reach(w, Confirm(1, Live1(3, 30, CONFIRM), true, true));
    assert w == REPLACED;
  }

  /**
   * A caller that goes back to a replaced session: its delayed frame 2 is recorded
   * after the new session recorded 3, and the saved mark falls from 3 to 2.
   */
  lemma ReceivingOnAReplacedSession() returns (e: Event)
    ensures Reachable(REPLACED) && IdealAead(REPLACED, e)
    ensures REPLACED.dev.disk.h2d == 3 && Step(REPLACED, e).dev.disk.h2d == 2
  {
    ReachReplaced();
    e := Recv(0, Live1(2, 20, EVENT), true);
    assert DELAYED in REPLACED.sent;
  }

  /** The replaced session moved the mark in memory back to 2, and that save failed. */
  const LAGGING: World := Step(REPLACED, Recv(0, Live1(2, 20, EVENT), false))

  /** A send saves the whole record, so it too can lower the saved mark, from 3 to 2. */
  lemma SendingOnALaggingMark()
    ensures Reachable(LAGGING) && IdealAead(LAGGING, Send(true))
    ensures LAGGING.dev.disk.h2d == 3 && Step(LAGGING, Send(true)).dev.disk.h2d == 2
  {
    ReachReplaced();
    assert DELAYED in REPLACED.sent;
    var w := Reach(REPLACED, Recv(0, Live1(2, 20, EVENT), false));
  }

  /** Two sessions past their handshake messages, the host's confirmations 1 and 2 in flight. */
  const OVERTAKING: World :=
    World([FIRST, Seal(ClassL(2, 0), 2, 0, 20)], 2, 2, Dev(Record(0, 0), Record(0, 0)),
          [KeyedConn(1), KeyedConn(2)], [], [], [])

  function KeyedConn(key: nat): Conn {
    Conn(Sess(Tracker(0, false), false, [], false), Keyed, key, 0, false)
  }

  lemma ReachOvertaking()
    ensures Reachable(OVERTAKING)
  {
    ReachStart();
    OneLFrame();
    var w := Reach(Start(Record(0, 0)), HostHello);
    w := Reach(w, Connect);
    w := Reach(w, DrainPage(0, [], false, true));
    w := Reach(w, Handshake(0, 1));
    assert LCount(w.sent, 1) == 0;
    w := Reach(w, HostSendL(0, 10));
    assert w.sent == [FIRST];
    w := Reach(w, HostHello);
    w := Reach(w, Connect);
    assert w.conns[1] == Conn(Sess(Tracker(0, false), false, [], false), Draining, 0, 0, false);
    w := Reach(w, DrainPage(1, [], false, true));
    w := Reach(w, Handshake(1, 2));
    w := Reach(w, HostSendL(0, 20));
    assert w == OVERTAKING;
  }

  /**
   * A session that confirms after a newer one has: its older number is recorded last and
   * the saved mark falls from 2 to 1, without any receive or crash.
   */
  lemma ConfirmingAnOvertakenSession() returns (w: World)
    ensures Reachable(w) && w.recorded == [Recd(2, true), Recd(1, false)] && w.dev.disk.h2d == 1
  {
    ReachOvertaking();
    assert OVERTAKING.sent[1] == Seal(ClassL(2, 0), 2, 0, 20) && OVERTAKING.sent[0] == FIRST;
    w := Reach(OVERTAKING, Confirm(1, Live1(2, 20, CONFIRM), true, true));
    assert w.conns[0] == KeyedConn(1) && w.sent[0] == FIRST;
    w := Reach(w, Confirm(0, Live1(1, 10, CONFIRM), true, true));
  }

  lemma PageOfOne(s: Sess, page: seq<NetItem>)
    requires s.tracker == Tracker(0, false) && page == [NetItem(Item(1, true, EVENT), 0, 10)]
    ensures DrainItems(s, Items(page))
         == Drained(s.(tracker := Tracker(1, false), drained := s.drained + [EVENT.env]), [1], PageDone)
  {
    var s' := s.(tracker := Tracker(1, false), drained := s.drained + [EVENT.env]);
    assert Items(page)[1..] == [];
    assert DrainItems(s', []) == Drained(s', [], PageDone);
  }

  /** Mailbox frame 1 drained, the save after it failed. */
  const UNSAVED: World :=
    World([Seal(ClassM, 1, 0, 10)], 1, 0, Dev(Record(0, 1), Record(0, 0)),
          [Conn(Sess(Tracker(1, false), false, [EVENT.env], false), Ready, 0, 0, false)], [Recd(1, false)], [1], [])

  const PAGE := [NetItem(Item(1, true, EVENT), 0, 10)]

  lemma ReachUnsaved()
    ensures Reachable(UNSAVED)
  {
    ReachStart();
    var w := Reach(Start(Record(0, 0)), HostSendM(0, 10));
    assert w.sent == UNSAVED.sent;
    w := Reach(w, Connect);
    PageOfOne(w.conns[0].sess, PAGE);
    w := Reach(w, DrainPage(0, PAGE, false, false));
    assert w.conns[0].sess.drained == [EVENT.env] && w.conns == UNSAVED.conns;
    assert w.recorded == UNSAVED.recorded;
    assert w == UNSAVED;
  }

  /** A crash while the save of the mark had failed: the same mailbox frame is recorded twice. */
  lemma CrashingOnAnUnsavedMark() returns (w: World)
    ensures Reachable(w) && w.recorded == [Recd(1, false), Recd(1, false)]
  {
    ReachUnsaved();
    w := Reach(UNSAVED, Crash);
    w := Reach(w, Connect);
    PageOfOne(w.conns[0].sess, PAGE);
    w := Reach(w, DrainPage(0, PAGE, false, true));
  }
}
