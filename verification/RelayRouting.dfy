/**
 * What the relay does with the frames of one durable channel over any run: who is
 * attached, what is queued, what is mailboxed and what the host is told.
 */
module RelayRouting {
  import opened Common
  import opened Registry
  import opened RelayMachine
  import opened RelayAccounts
  import Mailbox

  // ---------------------------------------------------------------------
  // Reading a channel's history back out of the log
  // ---------------------------------------------------------------------

  /** A channel as its log alone tells it, since its pairing was last deleted. */
  datatype View = View(
    live: set<nat>,               // connections attached and not yet detached
    calls: seq<Mailbox.Call>,     // appends and fetches
    told: seq<bool>)              // presence changes published to the host

  const NOTHING := View({}, [], [])

  function Changed(told: seq<bool>, published: bool, to: bool): seq<bool> { if published then told + [to] else told }

  function After(v: View, x: Entry, c: string): View {
    match x
    case Attached(ch, conn, told) =>
      if ch == c then v.(live := v.live + {conn}, told := Changed(v.told, told, true)) else v
    case Detached(ch, conn, told) =>
      if ch == c then v.(live := v.live - {conn}, told := Changed(v.told, told, false)) else v
    case Boxed(f, at) => if f.channel == c then v.(calls := v.calls + [Mailbox.Put(ItemOf(f, at))]) else v
    case Fetched(ch, _, at) => if ch == c then v.(calls := v.calls + [Mailbox.Read(at)]) else v
    case Dropped(ch) => if ch == c then NOTHING else v
    case _ => v
  }

  function ViewOf(log: seq<Entry>, c: string): View {
    if log == [] then NOTHING else After(ViewOf(log[..|log| - 1], c), log[|log| - 1], c)
  }

  /** Attached exactly while connections are, and the host was told every change. */
  ghost predicate PresenceAgrees(st: State, v: View, c: string) {
    && At(st.devConns, c) == v.live
    && (IsAttached(st, c) <==> v.live != {})
    && (c !in st.reg.channels ==> v.told == [])
    && Alternates(v.told) && (v.told != [] ==> v.told[|v.told| - 1] == IsAttached(st, c))
  }

  /** The mailbox is what its appends and fetches made it. */
  ghost predicate MailboxAgrees(st: State, cfg: Config, v: View, c: string) {
    && Box(st, c) == Mailbox.Contents(v.calls, cfg.policy)
    && (c !in st.reg.channels ==> v.calls == [])
  }

  function AfterNote(v: View, note: seq<Entry>, c: string): View {
    if note == [] then v else After(v, note[0], c)
  }

  // ---------------------------------------------------------------------
  // Presence
  // ---------------------------------------------------------------------

  lemma AttachPresence(st: State, conn: nat, ch: string, sub: string, v: View, c: string)
    requires PresenceAgrees(st, v, c)
    ensures PresenceAgrees(AttachDevice(st, conn, ch, sub), After(v, NoteAttach(st, conn, ch), c), c)
  {
    if ch == c {
      assert conn in At(AttachDevice(st, conn, ch, sub).devConns, c);
    }
  }

  lemma DetachPresence(st: State, conn: nat, ch: string, v: View, c: string)
    requires PresenceAgrees(st, v, c) && ch in st.devConns
    ensures PresenceAgrees(DetachDevice(st, conn, ch), After(v, NoteDetach(st, conn, ch)[0], c), c)
  {
    var st' := DetachDevice(st, conn, ch);
    if ch != c {
      assert At(st'.devConns, c) == At(st.devConns, c) && IsAttached(st', c) == IsAttached(st, c);
    } else if v.live - {conn} == {} {
      assert !IsAttached(st', c);
    } else {
      assert v.live != {} && IsAttached(st', c);
    }
  }

  lemma UnhookPresence(st: State, r: Registry, p: Pairing, v: View, c: string)
    requires PresenceAgrees(st, v, c) && (c != p.channel && c in st.reg.channels ==> c in r.channels)
    ensures PresenceAgrees(Unhook(st.(reg := r), p), After(v, Dropped(p.channel), c), c)
  {
  }

  lemma DropPresence(st: State, e: Event, v: View, c: string)
    requires PresenceAgrees(st, v, c) && e.Unregister?
    ensures PresenceAgrees(DropPairing(st, e.id, e.sub), AfterNote(v, Note(st, e), c), c)
  {
    var ch := DeletePairing(st.reg, e.id, e.sub);
    if ch.out.Deleted? {
      UnhookPresence(st, ch.reg, ch.out.pairing, v, c);
    }
  }

  lemma OthersPresence(st: State, cfg: Config, e: Event, v: View, c: string)
    requires PresenceAgrees(st, v, c) && !e.DeviceCommit? && !e.DeviceDetach? && !e.Unregister?
    ensures PresenceAgrees(Step(st, cfg, e), AfterNote(v, Note(st, e), c), c)
  {
    SamePresence(st, cfg, e);
    NotePresence(st, e, v, c);
    if c in st.reg.channels { RegistrationStays(st, cfg, e, c); }
  }

  lemma SamePresence(st: State, cfg: Config, e: Event)
    requires !e.DeviceCommit? && !e.DeviceDetach? && !e.Unregister?
    ensures Step(st, cfg, e).devConns == st.devConns
    ensures Step(st, cfg, e).attached == st.attached
  {
  }

  lemma NotePresence(st: State, e: Event, v: View, c: string)
    requires !e.DeviceCommit? && !e.DeviceDetach? && !e.Unregister?
    ensures AfterNote(v, Note(st, e), c).live == v.live && AfterNote(v, Note(st, e), c).told == v.told
  {
  }

  lemma StepPresence(st: State, cfg: Config, e: Event, v: View, c: string)
    requires PresenceAgrees(st, v, c)
    ensures PresenceAgrees(Step(st, cfg, e), AfterNote(v, Note(st, e), c), c)
  {
    if e.DeviceCommit? {
      if e.conn !in st.infos { AttachPresence(st, e.conn, e.channel, e.sub, v, c); }
    } else if e.DeviceDetach? {
      if IsDevConn(st, e.conn) && st.infos[e.conn].channel in st.devConns { DetachPresence(st, e.conn, st.infos[e.conn].channel, v, c); }
    } else if e.Unregister? {
      DropPresence(st, e, v, c);
    } else {
      OthersPresence(st, cfg, e, v, c);
    }
  }

  // ---------------------------------------------------------------------
  // Mailboxes
  // ---------------------------------------------------------------------

  lemma ContentsSnoc(calls: seq<Mailbox.Call>, call: Mailbox.Call, pol: Mailbox.Policy)
    ensures Mailbox.Contents(calls + [call], pol) == Mailbox.Do(Mailbox.Contents(calls, pol), call, pol)
  {
    assert (calls + [call])[..|calls|] == calls;
  }

  lemma BoxedAgrees(st: State, cfg: Config, host: string, f: Frame, v: View)
    requires MailboxAgrees(st, cfg, v, f.channel) && Routable(st, host, f.channel) && At(st.devConns, f.channel) == {}
    ensures MailboxAgrees(RouteHost(st, cfg, host, f), cfg, After(v, Boxed(f, st.clock), f.channel), f.channel)
  {
    ContentsSnoc(v.calls, Mailbox.Put(ItemOf(f, st.clock)), cfg.policy);
  }

  lemma ElsewhereAgrees(st: State, cfg: Config, host: string, f: Frame, v: View, c: string)
    requires MailboxAgrees(st, cfg, v, c) && f.channel != c
    ensures MailboxAgrees(RouteHost(st, cfg, host, f), cfg, AfterNote(v, NoteHost(st, host, f), c), c)
  {
    assert AfterNote(v, NoteHost(st, host, f), c) == v;
    assert Box(RouteHost(st, cfg, host, f), c) == Box(st, c);
  }

  lemma RouteMailbox(st: State, cfg: Config, host: string, f: Frame, v: View, c: string)
    requires MailboxAgrees(st, cfg, v, c)
    ensures MailboxAgrees(RouteHost(st, cfg, host, f), cfg, AfterNote(v, NoteHost(st, host, f), c), c)
  {
    if f.channel != c {
      ElsewhereAgrees(st, cfg, host, f, v, c);
    } else if Routable(st, host, c) && At(st.devConns, c) == {} {
      BoxedAgrees(st, cfg, host, f, v);
    }
  }

  lemma FetchMailbox(st: State, cfg: Config, ch: string, sub: string, v: View, c: string)
    requires MailboxAgrees(st, cfg, v, c) && ch in st.boxes && ch in st.reg.channels
    ensures MailboxAgrees(PruneBox(st, cfg, ch), cfg, After(v, Fetched(ch, sub, st.clock), c), c)
  {
    if ch == c {
      ContentsSnoc(v.calls, Mailbox.Read(st.clock), cfg.policy);
    }
  }

  lemma UnhookMailbox(st: State, cfg: Config, r: Registry, p: Pairing, v: View, c: string)
    requires MailboxAgrees(st, cfg, v, c) && (c != p.channel && c in st.reg.channels ==> c in r.channels)
    ensures MailboxAgrees(Unhook(st.(reg := r), p), cfg, After(v, Dropped(p.channel), c), c)
  {
  }

  lemma DropMailbox(st: State, e: Event, cfg: Config, v: View, c: string)
    requires MailboxAgrees(st, cfg, v, c) && e.Unregister?
    ensures MailboxAgrees(DropPairing(st, e.id, e.sub), cfg, AfterNote(v, Note(st, e), c), c)
  {
    var ch := DeletePairing(st.reg, e.id, e.sub);
    if ch.out.Deleted? {
      UnhookMailbox(st, cfg, ch.reg, ch.out.pairing, v, c);
    }
  }

  lemma NoteMailbox(st: State, e: Event, v: View, c: string)
    requires !e.HostFrame? && !e.FetchBox? && !e.Unregister?
    ensures AfterNote(v, Note(st, e), c).calls == v.calls
  {
  }

  lemma OthersMailbox(st: State, cfg: Config, e: Event, v: View, c: string)
    requires MailboxAgrees(st, cfg, v, c) && !e.HostFrame? && !e.FetchBox? && !e.Unregister?
    ensures MailboxAgrees(Step(st, cfg, e), cfg, AfterNote(v, Note(st, e), c), c)
  {
    SameMailboxes(st, cfg, e);
    NoteMailbox(st, e, v, c);
    if c in st.reg.channels { RegistrationStays(st, cfg, e, c); }
  }

  lemma StepMailbox(st: State, cfg: Config, e: Event, v: View, c: string)
    requires MailboxAgrees(st, cfg, v, c) && st.boxes.Keys <= st.reg.channels.Keys
    ensures MailboxAgrees(Step(st, cfg, e), cfg, AfterNote(v, Note(st, e), c), c)
  {
    if e.HostFrame? {
      if IsHostConn(st, e.conn) {
        RouteMailbox(st, cfg, st.infos[e.conn].host, Frame(e.conn, e.channel, e.n, e.pushClass, e.body), v, c);
      }
    } else if e.FetchBox? {
      if e.channel in st.boxes { FetchMailbox(st, cfg, e.channel, e.sub, v, c); }
    } else if e.Unregister? {
      DropMailbox(st, e, cfg, v, c);
    } else {
      OthersMailbox(st, cfg, e, v, c);
    }
  }

  // ---------------------------------------------------------------------
  // Runs
  // ---------------------------------------------------------------------

  lemma NoteSmall(st: State, e: Event)
    ensures |Note(st, e)| <= 1
  {
  }

  lemma ViewSnoc(log: seq<Entry>, note: seq<Entry>, c: string)
    requires |note| <= 1
    ensures ViewOf(log + note, c) == AfterNote(ViewOf(log, c), note, c)
  {
    if note == [] {
      assert log + note == log;
    } else {
      assert (log + note)[..|log|] == log;
    }
  }

  /**
   * After every run, for every channel: it is recorded attached exactly while some
   * connection is attached, the presence changes told to the host since its last deletion
   * strictly alternate and end with the present one, and its mailbox is what its appends
   * and fetches alone make it.
   */
  lemma {:induction false} RunAgrees(cfg: Config, es: seq<Event>, c: string)
    requires Throughout(NewIds, FRESH, cfg, es)
    ensures PresenceAgrees(Exec(FRESH, cfg, es), ViewOf(Log(FRESH, cfg, es), c), c)
    ensures MailboxAgrees(Exec(FRESH, cfg, es), cfg, ViewOf(Log(FRESH, cfg, es), c), c)
  {
    if es != [] {
      var front := es[..|es| - 1];
      var st, log, e := Exec(FRESH, cfg, front), Log(FRESH, cfg, front), es[|es| - 1];
      RunAgrees(cfg, front, c);
      ReachableMapsAgree(cfg, front);
      StepPresence(st, cfg, e, ViewOf(log, c), c);
      StepMailbox(st, cfg, e, ViewOf(log, c), c);
      NoteSmall(st, e);
      ViewSnoc(log, Note(st, e), c);
    }
  }

  /**
   * The host is told exactly of the first attach and the last detach on a registered
   * channel, as the channel's history counts them.
   */
  lemma RunTells(cfg: Config, es: seq<Event>, e: Event, x: Entry)
    requires Throughout(NewIds, FRESH, cfg, es) && x in Note(Exec(FRESH, cfg, es), e)
    ensures var st, live := Exec(FRESH, cfg, es), (c: string) => ViewOf(Log(FRESH, cfg, es), c).live;
            && (x.Attached? ==> (x.told <==> x.channel in st.reg.channels && live(x.channel) == {}))
            && (x.Detached? ==> (x.told <==> x.channel in st.reg.channels && live(x.channel) == {x.conn}))
  {
    if x.Attached? || x.Detached? {
      RunAgrees(cfg, es, x.channel);
      TellsRight(Exec(FRESH, cfg, es), e, x, ViewOf(Log(FRESH, cfg, es), x.channel));
    }
  }

  lemma TellsRight(st: State, e: Event, x: Entry, v: View)
    requires x in Note(st, e) && (x.Attached? || x.Detached?) && PresenceAgrees(st, v, x.channel)
    ensures x.Attached? ==> (x.told <==> x.channel in st.reg.channels && v.live == {})
    ensures x.Detached? ==> (x.told <==> x.channel in st.reg.channels && v.live == {x.conn})
  {
  }

  // ---------------------------------------------------------------------
  // Every accepted host frame is queued or mailboxed, once, in order
  // ---------------------------------------------------------------------

  /** The frame comes from an attached host, on a durable channel of its own. */
  predicate Passes(st: State, e: Event) {
    e.HostFrame? && IsHostConn(st, e.conn) && Routable(st, st.infos[e.conn].host, e.channel)
  }

  /** The host frames of the run that pass the checks, as they arrived. */
  function Accepted(cfg: Config, es: seq<Event>): seq<Frame> {
    if es == [] then []
    else
      var e := es[|es| - 1];
      Accepted(cfg, es[..|es| - 1])
      + if Passes(Exec(FRESH, cfg, es[..|es| - 1]), e) then [Frame(e.conn, e.channel, e.n, e.pushClass, e.body)] else []
  }

  /** The host frames the relay queued or mailboxed, in the order it did. */
  function HostFrames(log: seq<Entry>): seq<Frame> {
    if log == [] then []
    else
      var x := log[|log| - 1];
      HostFrames(log[..|log| - 1]) + if x.HostQueued? || x.Boxed? then [x.frame] else []
  }

  lemma HostFramesSnoc(log: seq<Entry>, note: seq<Entry>)
    requires |note| <= 1
    ensures HostFrames(log + note)
         == HostFrames(log) + if note != [] && (note[0].HostQueued? || note[0].Boxed?) then [note[0].frame] else []
  {
    if note == [] {
      assert log + note == log;
    } else {
      assert (log + note)[..|log|] == log;
    }
  }

  lemma NoteOfAccepted(st: State, e: Event)
    ensures (exists x :: x in Note(st, e) && (x.HostQueued? || x.Boxed?))
       <==> && e.HostFrame? && e.conn in st.infos && st.infos[e.conn].HostInfo? && e.conn in At(st.hostConns, st.infos[e.conn].host)
            && e.channel !in st.provChans && e.channel in st.reg.channels
            && st.reg.channels[e.channel].host == st.infos[e.conn].host
    ensures (exists x :: x in Note(st, e) && (x.HostQueued? || x.Boxed?)) <==> Passes(st, e)
    ensures forall x :: x in Note(st, e) && x.Boxed? ==> x.at == st.clock
    ensures Passes(st, e) ==> Note(st, e) != [] && Note(st, e)[0].frame == Frame(e.conn, e.channel, e.n, e.pushClass, e.body)
  {
    if Passes(st, e) {
      assert Note(st, e)[0] in Note(st, e);
    }
  }

  /** Never both, never neither, never altered, never out of order. */
  lemma {:induction false} EveryFrameOnce(cfg: Config, es: seq<Event>)
    ensures HostFrames(Log(FRESH, cfg, es)) == Accepted(cfg, es)
  {
    if es != [] {
      var front := es[..|es| - 1];
      var st, e := Exec(FRESH, cfg, front), es[|es| - 1];
      EveryFrameOnce(cfg, front);
      NoteSmall(st, e);
      HostFramesSnoc(Log(FRESH, cfg, front), Note(st, e));
      NoteOfAccepted(st, e);
    }
  }

  /** Queued to exactly the connections attached at that moment; mailboxed only when there is none. */
  predicate RoutedRight(live: set<nat>, x: Entry) {
    (x.HostQueued? ==> x.to == live && live != {}) && (x.Boxed? ==> live == {})
  }

  predicate OnChannel(x: Entry, c: string) {
    (x.HostQueued? || x.Boxed?) && x.frame.channel == c
  }

  ghost predicate AllRight(log: seq<Entry>, c: string) {
    log != [] ==>
      && AllRight(log[..|log| - 1], c)
      && (OnChannel(log[|log| - 1], c) ==> RoutedRight(ViewOf(log[..|log| - 1], c).live, log[|log| - 1]))
  }

  lemma NoteRight(st: State, e: Event, x: Entry, c: string)
    requires x in Note(st, e) && OnChannel(x, c)
    ensures RoutedRight(At(st.devConns, c), x)
  {
  }

  /** Each channel's frames go by who its own history says is attached. */
  lemma {:induction false} RunRoutedRight(cfg: Config, es: seq<Event>, c: string)
    requires Throughout(NewIds, FRESH, cfg, es)
    ensures AllRight(Log(FRESH, cfg, es), c)
  {
    if es != [] {
      var front := es[..|es| - 1];
      var st, log, e := Exec(FRESH, cfg, front), Log(FRESH, cfg, front), es[|es| - 1];
      RunRoutedRight(cfg, front, c);
      RunAgrees(cfg, front, c);
      NoteSmall(st, e);
      var note := Note(st, e);
      if note == [] {
        assert log + note == log;
      } else {
        assert (log + note)[..|log|] == log;
        if OnChannel(note[0], c) { NoteRight(st, e, note[0], c); }
      }
    }
  }

  // ---------------------------------------------------------------------
  // What a returning device will find
  // ---------------------------------------------------------------------

  predicate ClockForward(st: State, e: Event) { e.Tick? ==> st.clock <= e.now }

  /** What was mailboxed on the channel since its last deletion. */
  function Missed(log: seq<Entry>, c: string): seq<Mailbox.Item> {
    if log == [] then []
    else
      var before, x := Missed(log[..|log| - 1], c), log[|log| - 1];
      if x == Dropped(c) then []
      else if x.Boxed? && x.frame.channel == c then before + [Mailbox.Item(x.frame.n, x.frame.pushClass, x.frame.body, x.at)]
      else before
  }

  predicate CallsBy(calls: seq<Mailbox.Call>, now: int) {
    Mailbox.Nondecreasing(calls) && forall i :: 0 <= i < |calls| ==> Mailbox.Time(calls[i]) <= now
  }

  lemma {:induction false} MissedArrives(log: seq<Entry>, c: string)
    ensures Mailbox.Arrivals(ViewOf(log, c).calls) == Missed(log, c)
  {
    if log != [] {
      MissedArrives(log[..|log| - 1], c);
      var v, v' := ViewOf(log[..|log| - 1], c), ViewOf(log, c);
      if |v'.calls| == |v.calls| + 1 {
        assert v'.calls[..|v.calls|] == v.calls;
      }
    }
  }

  lemma NoteTimely(st: State, e: Event, v: View, c: string)
    requires CallsBy(v.calls, st.clock)
    ensures CallsBy(AfterNote(v, Note(st, e), c).calls, st.clock)
  {
  }

  lemma ClockOnlyTicks(st: State, cfg: Config, e: Event)
    ensures e.Tick? || Step(st, cfg, e).clock == st.clock
  {
  }

  lemma {:induction false} RunTimely(cfg: Config, es: seq<Event>, c: string)
    requires Throughout(ClockForward, FRESH, cfg, es)
    ensures CallsBy(ViewOf(Log(FRESH, cfg, es), c).calls, Exec(FRESH, cfg, es).clock)
  {
    if es != [] {
      var front := es[..|es| - 1];
      var st, log, e := Exec(FRESH, cfg, front), Log(FRESH, cfg, front), es[|es| - 1];
      RunTimely(cfg, front, c);
      NoteSmall(st, e);
      ViewSnoc(log, Note(st, e), c);
      NoteTimely(st, e, ViewOf(log, c), c);
      ClockOnlyTicks(st, cfg, e);
    }
  }

  /**
   * After every run with a clock that does not go back, the next fetch of any channel
   * finds exactly the longest unexpired suffix, within both caps, of the host frames that
   * came while no device was attached.
   */
  lemma NextFetch(cfg: Config, es: seq<Event>, c: string)
    requires Throughout(NewIds, FRESH, cfg, es) && Throughout(ClockForward, FRESH, cfg, es)
    ensures var st := Exec(FRESH, cfg, es);
            Mailbox.LongestHoldable(Mailbox.Prune(Box(st, c), st.clock, cfg.policy.ttl),
                                    Missed(Log(FRESH, cfg, es), c), st.clock, cfg.policy)
  {
    var st, log := Exec(FRESH, cfg, es), Log(FRESH, cfg, es);
    RunAgrees(cfg, es, c);
    RunTimely(cfg, es, c);
    MissedArrives(log, c);
    ReadLongest(ViewOf(log, c).calls, st.clock, cfg.policy);
  }

  lemma ReadLongest(calls: seq<Mailbox.Call>, now: int, pol: Mailbox.Policy)
    requires CallsBy(calls, now)
    ensures Mailbox.LongestHoldable(Mailbox.Prune(Mailbox.Contents(calls, pol), now, pol.ttl), Mailbox.Arrivals(calls), now, pol)
  {
    var more := calls + [Mailbox.Read(now)];
    assert more[..|calls|] == calls;
    Mailbox.ContentsLongestIff(more, pol);
    ContentsSnoc(calls, Mailbox.Read(now), pol);
    assert Mailbox.Arrivals(more) == Mailbox.Arrivals(calls);
  }
}
