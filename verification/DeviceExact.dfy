/**
 * What each device step does, stated on the frame it is shown and nothing else: when a
 * session goes live, what it delivers, when it is revoked, what a page takes, and which
 * numbers are spent.
 */
module DeviceExact {
  import opened Bytes
  import opened Sequence
  import opened DeviceSession
  import opened DeviceProtocol

  // ---------------------------------------------------------------------
  // Confirmation
  // ---------------------------------------------------------------------

  /** A session goes live exactly on an authentic sess.confirm above its tracker whose transcript MAC is right. */
  lemma ConfirmLiveIff(w: World, i: nat, f: NetFrame, macOk: bool, saves: bool)
    requires InPhase(w, i, Keyed)
    ensures var w', n := Step(w, Confirm(i, f, macOk, saves)), f.frame.n;
            && i < |w'.conns|
            && (w'.conns[i].phase == Live
                <==> macOk && n > w.conns[i].sess.tracker.lastSeen && f.frame.opening.Content? && f.frame.opening.env.kind == "sess.confirm")
            && (w'.conns[i].phase != Live ==> w'.conns[i].phase == Dead && w'.dev == w.dev && w'.recorded == w.recorded)
            && (w'.conns[i].phase == Live ==>
                  && w'.dev.mem == Record(w.dev.mem.d2h, n)
                  && w'.dev.disk == (if saves then w'.dev.mem else w.dev.disk)
                  && w'.conns[i].sess.tracker == Tracker(n, true)
                  && (w'.conns[i].sess.reconcile
                      <==> w.conns[i].sess.reconcile || n > w.conns[i].sess.tracker.lastSeen + 1))
  {
  }

  /** A session is live only if some confirmation of it, since the last restart, had the right transcript MAC. */
  ghost predicate Confirmed(es: seq<Event>, i: nat) {
    exists j :: && 0 <= j < |es| && es[j].Confirm? && es[j].i == i && es[j].macOk
                && es[j].f.frame.opening.Content? && es[j].f.frame.opening.env.kind == "sess.confirm"
                && forall k :: j < k < |es| ==> es[k] != Crash
  }

  lemma ConfirmedStays(es: seq<Event>, e: Event, i: nat)
    requires Confirmed(es, i) && e != Crash
    ensures Confirmed(es + [e], i)
  {
    var j :| && 0 <= j < |es| && es[j].Confirm? && es[j].i == i && es[j].macOk
             && es[j].f.frame.opening.Content? && es[j].f.frame.opening.env.kind == "sess.confirm"
             && forall k :: j < k < |es| ==> es[k] != Crash;
    assert (es + [e])[j] == es[j];
  }

  lemma LiveStep(w: World, e: Event, i: nat)
    requires InPhase(Step(w, e), i, Live)
    ensures e != Crash
    ensures || InPhase(w, i, Live)
            || (&& e.Confirm? && e.i == i && e.macOk
                && e.f.frame.opening.Content? && e.f.frame.opening.env.kind == "sess.confirm")
  {
  }

  lemma {:induction false} RunLiveConfirmed(saved: Record, es: seq<Event>, i: nat)
    requires InPhase(Exec(Start(saved), es), i, Live)
    ensures Confirmed(es, i)
    decreases |es|
  {
    if es != [] {
      var front, e := es[..|es| - 1], es[|es| - 1];
      assert es == front + [e];
      ExecSnoc(Start(saved), front, e);
      LiveStep(Exec(Start(saved), front), e, i);
      if InPhase(Exec(Start(saved), front), i, Live) {
        RunLiveConfirmed(saved, front, i);
        ConfirmedStays(front, e, i);
      } else {
        assert es[|es| - 1] == e;
      }
    }
  }

  // ---------------------------------------------------------------------
  // Receiving
  // ---------------------------------------------------------------------

  /** The frame is the very next of the session and authenticates. */
  predicate Next(s: Sess, f: Frame) { f.n == s.tracker.lastSeen + 1 && !f.opening.Refused? }

  /** What a live session makes of a frame: outcome, mark, tracker and revocation. */
  lemma RecvExact(s: Sess, d: Dev, f: Frame, saves: bool)
    requires s.tracker.inSession
    ensures var r := RecvFrame(s, d, f, saves);
            && (r.dev.mem == if Next(s, f) then Record(d.mem.d2h, f.n) else d.mem)
            && (r.dev.disk == if Next(s, f) && saves then r.dev.mem else d.disk)
            && (r.sess.tracker.lastSeen == if f.n == s.tracker.lastSeen + 1 then f.n else s.tracker.lastSeen)
            && (forall env :: r.out == Delivered(env) <==> Next(s, f) && f.opening.Content? && f.opening.env == env)
            && (r.out == AuthAbort <==> f.n == s.tracker.lastSeen + 1 && f.opening.Refused?)
            && (r.out == Denied <==> f.n == 0 && f.opening.Content? && f.opening.env.kind == "sess.denied")
            && (r.out == KeepReading <==> f.n == 0 && f.opening.Content? && f.opening.env.kind != "sess.denied")
            && (r.out.SeqAbort? <==> f.n != 0 && f.n != s.tracker.lastSeen + 1)
            && r.sess.reconcile == s.reconcile && r.sess.drained == s.drained
  {
  }

  /** A session is revoked exactly by an authentic next frame that carries tag 3 or says session.revoked. */
  lemma RevokedIff(s: Sess, d: Dev, f: Frame, saves: bool)
    requires s.tracker.inSession && !s.revoked
    ensures RecvFrame(s, d, f, saves).sess.revoked
       <==> Next(s, f) && f.opening.Content? && (f.opening.tag == 3 || f.opening.env.kind == "session.revoked")
  {
  }

  /** Plaintext control other than a denial, which Recv reads over. */
  predicate Ignored(f: Frame) { f.n == 0 && f.opening.Content? && f.opening.env.kind != "sess.denied" }

  /** Recv acts on the first frame that is not ignored, and on that one alone. */
  lemma {:induction false} RecvFirst(s: Sess, d: Dev, frames: seq<Frame>, k: nat, saves: bool)
    requires k <= |frames| && (forall j :: 0 <= j < k ==> Ignored(frames[j])) && (k < |frames| ==> !Ignored(frames[k]))
    ensures RecvLoop(s, d, frames, saves)
         == if k == |frames| then RecvRun(s, d, SocketClosed)
            else var r := RecvFrame(s, d, frames[k], saves); RecvRun(r.sess, r.dev, Got(r.out))
    decreases k
  {
    if k > 0 {
      assert Ignored(frames[0]);
      RecvFirst(s, d, frames[1..], k - 1, saves);
    }
  }

  /** A revoked session hears nothing more: until a restart, no step touches it, and receiving on it changes nothing at all. */
  lemma RevokedStep(w: World, e: Event, i: nat)
    requires InPhase(w, i, Live) && w.conns[i].sess.revoked && e != Crash
    ensures i < |Step(w, e).conns| && Step(w, e).conns[i] == w.conns[i]
    ensures e.Recv? && e.i == i ==> Step(w, e) == w
  {
  }

  lemma {:induction false} RunRevoked(w: World, es: seq<Event>, i: nat)
    requires InPhase(w, i, Live) && w.conns[i].sess.revoked && Crash !in es
    ensures i < |Exec(w, es).conns| && Exec(w, es).conns[i] == w.conns[i]
    decreases |es|
  {
    if es != [] {
      RevokedStep(w, es[0], i);
      RunRevoked(Step(w, es[0]), es[1..], i);
    }
  }

  /** The only ways a session moves on: drained, then handshaken, then confirmed. */
  lemma PhaseOrder(w: World, e: Event, i: nat)
    requires i < |w.conns| && e != Crash
    ensures i < |Step(w, e).conns|
    ensures var c, c' := w.conns[i], Step(w, e).conns[i];
            || c'.phase == c.phase
            || (c.phase == Draining && e.DrainPage? && e.i == i && (c'.phase == Ready || c'.phase == Dead))
            || (c.phase == Ready && e == Handshake(i, c'.key) && c'.phase == Keyed)
            || (c.phase == Keyed && e.Confirm? && e.i == i && (c'.phase == Live || c'.phase == Dead))
  {
  }

  // ---------------------------------------------------------------------
  // Draining
  // ---------------------------------------------------------------------

  /** Item `k` of the page is above everything before it and above the tracker. */
  predicate Rises(s: Sess, items: seq<Item>, k: nat)
    requires k < |items|
  {
    items[k].n > if k == 0 then s.tracker.lastSeen else items[k - 1].n
  }

  predicate Opens(x: Item) { x.readable && !x.opening.Refused? }

  /** The session after one good item. */
  function Took(s: Sess, x: Item): Sess
    requires x.opening.Content?
  {
    s.(tracker := Tracker(x.n, false), reconcile := s.reconcile || x.n > s.tracker.lastSeen + 1,
       drained := s.drained + [x.opening.env])
  }

  predicate TakesFirst(s: Sess, items: seq<Item>) {
    items != [] && Opens(items[0]) && items[0].n > s.tracker.lastSeen && items[0].opening.Content?
  }

  lemma TakeFirst(s: Sess, items: seq<Item>)
    requires !s.tracker.inSession && TakesFirst(s, items)
    ensures var rest := DrainItems(Took(s, items[0]), items[1..]);
            DrainItems(s, items) == rest.(taken := [items[0].n] + rest.taken)
  {
  }

  /** A page takes a prefix of its items: each opens, and is above the one before. */
  lemma {:induction false} DrainTakes(s: Sess, items: seq<Item>)
    requires !s.tracker.inSession
    ensures var taken := DrainItems(s, items).taken;
            && |taken| <= |items|
            && (forall j :: 0 <= j < |taken| ==> taken[j] == items[j].n && Opens(items[j]) && Rises(s, items, j))
            && (forall j :: 0 <= j < |taken| - 1 ==> items[j].opening.Content?)
    decreases |items|
  {
    if TakesFirst(s, items) {
      TakeFirst(s, items);
      var s' := Took(s, items[0]);
      DrainTakes(s', items[1..]);
      var taken := DrainItems(s, items).taken;
      forall j | 1 <= j < |taken| ensures taken[j] == items[j].n && Opens(items[j]) && Rises(s, items, j) {
        assert Rises(s', items[1..], j - 1);
      }
    }
  }

  /** Where it stops, and why. */
  lemma {:induction false} DrainEnds(s: Sess, items: seq<Item>)
    requires !s.tracker.inSession
    ensures var out := DrainItems(s, items);
            var k := |out.taken|;
            && k <= |items|
            && out.sess.tracker == Tracker(if k == 0 then s.tracker.lastSeen else items[k - 1].n, false)
            && (out.end == PageDone <==> k == |items| && (k > 0 ==> items[k - 1].opening.Content?))
            && (out.end == Abandoned <==> (k > 0 && items[k - 1].opening.Garbled?) || (k < |items| && !Opens(items[k])))
            && (out.end.Fatal? ==> k < |items| && Opens(items[k]) && !Rises(s, items, k))
    decreases |items|
  {
    if TakesFirst(s, items) {
      TakeFirst(s, items);
      DrainEnds(Took(s, items[0]), items[1..]);
    }
  }

  /** The envelopes of the items taken, a garbled last one having none. */
  function Envelopes(items: seq<Item>, k: nat): seq<Envelope>
    requires k <= |items|
  {
    if k == 0 then [] else Envelopes(items, k - 1) + if items[k - 1].opening.Content? then [items[k - 1].opening.env] else []
  }

  lemma {:induction false} EnvelopesTail(items: seq<Item>, k: nat)
    requires 0 < k <= |items| && items[0].opening.Content?
    ensures Envelopes(items, k) == [items[0].opening.env] + Envelopes(items[1..], k - 1)
  {
    if k > 1 {
      EnvelopesTail(items, k - 1);
    }
  }

  /** What it hands on: the envelopes it took, in order. */
  lemma {:induction false} DrainDelivers(s: Sess, items: seq<Item>)
    requires !s.tracker.inSession
    ensures var out := DrainItems(s, items);
            |out.taken| <= |items| && out.sess.drained == s.drained + Envelopes(items, |out.taken|)
    decreases |items|
  {
    if TakesFirst(s, items) {
      TakeFirst(s, items);
      DrainDelivers(Took(s, items[0]), items[1..]);
      EnvelopesTail(items, |DrainItems(s, items).taken|);
    }
  }

  /** Item `j` is not the next number. */
  predicate SkipsAt(s: Sess, items: seq<Item>, j: nat)
    requires j < |items|
  {
    items[j].n > (if j == 0 then s.tracker.lastSeen else items[j - 1].n) + 1
  }

  predicate Skips(s: Sess, items: seq<Item>, k: nat)
    requires k <= |items|
  {
    exists j :: 0 <= j < k && SkipsAt(s, items, j)
  }

  lemma SkipsTail(s: Sess, items: seq<Item>, k: nat)
    requires 0 < k <= |items| && items[0].opening.Content?
    ensures Skips(s, items, k) <==> SkipsAt(s, items, 0) || Skips(Took(s, items[0]), items[1..], k - 1)
  {
    var s', rest := Took(s, items[0]), items[1..];
    if j :| 0 <= j < k && SkipsAt(s, items, j) {
      if j > 0 { assert SkipsAt(s', rest, j - 1); }
    }
    if j :| 0 <= j < k - 1 && SkipsAt(s', rest, j) {
      assert SkipsAt(s, items, j + 1);
    }
  }

  /** A reconcile is expected exactly if it was before, something was skipped, or the page was abandoned. */
  lemma {:induction false} DrainReconciles(s: Sess, items: seq<Item>)
    requires !s.tracker.inSession
    ensures var out := DrainItems(s, items);
            |out.taken| <= |items| && (out.sess.reconcile <==> s.reconcile || out.end == Abandoned || Skips(s, items, |out.taken|))
    decreases |items|
  {
    var k := |DrainItems(s, items).taken|;
    if TakesFirst(s, items) {
      TakeFirst(s, items);
      DrainReconciles(Took(s, items[0]), items[1..]);
      SkipsTail(s, items, k);
    }
  }

  /** A page moves the mark to where its tracker ended, if that is higher and no number was out of order, and saves it. */
  lemma DrainStepExact(w: World, i: nat, net: seq<NetItem>, truncated: bool, saves: bool)
    requires InPhase(w, i, Draining) && !w.conns[i].sess.tracker.inSession
    ensures var w', out := Step(w, DrainPage(i, net, truncated, saves)), DrainItems(w.conns[i].sess, Items(net));
            var moves := !out.end.Fatal? && out.sess.tracker.lastSeen > w.dev.mem.h2d;
            && w'.dev.mem == Record(w.dev.mem.d2h, if moves then out.sess.tracker.lastSeen else w.dev.mem.h2d)
            && w'.dev.disk == (if moves && saves then w'.dev.mem else w.dev.disk)
            && i < |w'.conns| && w'.conns[i].sess == out.sess
            && w'.conns[i].phase == (if out.end.Fatal? then Dead else if out.end == PageDone && truncated then Draining else Ready)
  {
  }

  /** A session starts from the mark in memory; a restart forgets everything but the saved record. */
  lemma StartExact(w: World)
    ensures var w' := Step(w, Connect);
            && w'.dev == w.dev && |w'.conns| == |w.conns| + 1
            && w'.conns[|w.conns|] == Conn(Sess(Tracker(w.dev.mem.h2d, false), false, [], false), Draining, 0, 0, false)
    ensures var w' := Step(w, Crash);
            w'.conns == [] && w'.dev == Dev(w.dev.disk, w.dev.disk) && w'.sent == w.sent && w'.recorded == w.recorded && w'.wire == w.wire
  {
  }

  // ---------------------------------------------------------------------
  // Numbers
  // ---------------------------------------------------------------------

  /** A send spends the next number and puts it on the wire exactly if the record with it was saved. */
  lemma SendExact(w: World, saves: bool)
    ensures var w', n := Step(w, Send(saves)), (w.dev.mem.d2h + 1) % 0x1_0000_0000_0000_0000;
            && w'.dev.mem == Record(n, w.dev.mem.h2d)
            && w'.dev.disk == (if saves then w'.dev.mem else w.dev.disk)
            && w'.wire == w.wire + (if saves then [n] else [])
  {
  }

  /** The host's numbers rise along everything it sealed, whichever construction, and end at its counter. */
  predicate HostRises(w: World) {
    && (forall j :: 0 <= j < |w.sent| ==> 0 < w.sent[j].n <= w.h2dSent)
    && (forall j, k :: 0 <= j < k < |w.sent| ==> w.sent[j].n < w.sent[k].n)
  }

  predicate NoHostWrap(w: World, es: seq<Event>)
    decreases |es|
  {
    es == [] || (w.h2dSent + 1 < U64_SIZE && NoHostWrap(Step(w, es[0]), es[1..]))
  }

  lemma StepHostRises(w: World, e: Event)
    requires HostRises(w) && w.h2dSent + 1 < U64_SIZE
    ensures HostRises(Step(w, e))
  {
    var w' := Step(w, e);
    if !e.HostSendL? && !e.HostSendM? {
      assert w'.sent == w.sent && w'.h2dSent >= w.h2dSent;
    }
  }

  /** So no number is used for two frames, and class L and class M share one sequence. */
  lemma {:induction false} RunHostRises(w: World, es: seq<Event>)
    requires HostRises(w) && NoHostWrap(w, es)
    ensures HostRises(Exec(w, es))
    decreases |es|
  {
    if es != [] {
      StepHostRises(w, es[0]);
      RunHostRises(Step(w, es[0]), es[1..]);
    }
  }

  /** Each seal takes the next number; class L seals of a session count its stream positions up from zero. */
  lemma SealExact(w: World, pc: byte, ct: nat)
    ensures var n := (w.h2dSent + 1) % 0x1_0000_0000_0000_0000;
            && Step(w, HostSendM(pc, ct)).sent == w.sent + [Seal(ClassM, n, pc, ct)]
            && Step(w, HostSendL(pc, ct)).sent == w.sent + [Seal(ClassL(w.hostKey, LCount(w.sent, w.hostKey)), n, pc, ct)]
            && Step(w, HostSendM(pc, ct)).h2dSent == Step(w, HostSendL(pc, ct)).h2dSent == Step(w, HostBurn).h2dSent == n
  {
  }

  predicate PositionsCount(sent: seq<Seal>) {
    forall j :: 0 <= j < |sent| && sent[j].kind.ClassL? ==> sent[j].kind.pos == LCount(sent[..j], sent[j].kind.key)
  }

  lemma StepPositions(w: World, e: Event)
    requires PositionsCount(w.sent)
    ensures PositionsCount(Step(w, e).sent)
  {
    var sent' := Step(w, e).sent;
    if e.HostSendL? || e.HostSendM? {
      forall j | 0 <= j < |w.sent| ensures sent'[..j] == w.sent[..j] {
      }
      assert sent'[..|w.sent|] == w.sent;
    } else {
      assert sent' == w.sent;
    }
  }

  lemma {:induction false} RunPositions(w: World, es: seq<Event>)
    requires PositionsCount(w.sent)
    ensures PositionsCount(Exec(w, es).sent)
    decreases |es|
  {
    if es != [] {
      StepPositions(w, es[0]);
      RunPositions(Step(w, es[0]), es[1..]);
    }
  }
}
