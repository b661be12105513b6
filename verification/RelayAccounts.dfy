/**
 * Whose account is whose: what every relay step keeps about bindings, pairings, windows
 * and tokens, and when frames stay inside one account.
 */
module RelayAccounts {
  import Mailbox
  import opened Registry
  import opened RelayMachine

  // ---------------------------------------------------------------------
  // The maps agree
  // ---------------------------------------------------------------------

  /** The two window indexes agree and no host has two windows. */
  predicate WindowsAgree(windows: map<string, Window>, provChans: map<string, Window>) {
    && (forall id :: id in windows ==>
          windows[id].id == id && windows[id].provisional in provChans && provChans[windows[id].provisional] == windows[id])
    && (forall c :: c in provChans ==>
          provChans[c].provisional == c && provChans[c].id in windows && windows[provChans[c].id] == provChans[c])
    && (forall i, j :: i in windows && j in windows && windows[i].host == windows[j].host ==> i == j)
  }

  predicate MapsAgree(st: State) {
    && Consistent(st.reg) && WindowsAgree(st.windows, st.provChans)
    && NothingOrphaned(st.reg.pairings, st.reg.channels.Keys, st.boxes.Keys, st.apns.Keys)
  }

  lemma GrowingOrphansNothing(r: Registry, r': Registry, boxes: set<string>, tokens: set<string>)
    requires NothingOrphaned(r.pairings, r.channels.Keys, boxes, tokens) && Grows(r, r')
    ensures NothingOrphaned(r'.pairings, r'.channels.Keys, boxes, tokens)
  {
    forall d | d in tokens ensures Paired(r'.pairings, d) {
      var id :| id in r.pairings && r.pairings[id].device == d;
      assert id in r'.pairings;
    }
  }

  lemma DropOrphansNothing(st: State, id: string, sub: string)
    requires MapsAgree(st)
    ensures var st' := DropPairing(st, id, sub); NothingOrphaned(st'.reg.pairings, st'.reg.channels.Keys, st'.boxes.Keys, st'.apns.Keys)
  {
    var ch := DeletePairing(st.reg, id, sub);
    if ch.out.Deleted? {
      var st' := DropPairing(st, id, sub);
      forall d | d in st'.apns ensures Paired(st'.reg.pairings, d) {
        if d != ch.out.pairing.device {
          var k :| k in st.reg.pairings && st.reg.pairings[k].device == d;
          assert k in st'.reg.pairings;
        }
      }
    }
  }

  lemma OthersAgree(windows: map<string, Window>, provChans: map<string, Window>, host: string)
    requires WindowsAgree(windows, provChans)
    ensures WindowsAgree(Others(windows, host), Others(provChans, host))
  {
  }

  lemma OpenAgrees(windows: map<string, Window>, provChans: map<string, Window>, w: Window)
    requires WindowsAgree(windows, provChans) && w.id !in windows && w.provisional !in provChans
    requires forall id :: id in windows ==> windows[id].host != w.host
    ensures WindowsAgree(windows[w.id := w], provChans[w.provisional := w])
  {
  }

  lemma CloseAgrees(st: State, id: string)
    requires WindowsAgree(st.windows, st.provChans)
    ensures var st' := CloseWindow(st, id); WindowsAgree(st'.windows, st'.provChans)
  {
    if id in st.windows {
      var w, st' := st.windows[id], CloseWindow(st, id);
      forall c | c in st'.provChans ensures st'.provChans[c].id in st'.windows {
        assert st.windows[st.provChans[c].id] == st.provChans[c];
      }
      forall i | i in st'.windows ensures st'.windows[i].provisional in st'.provChans {
        assert st.provChans[st.windows[i].provisional] == st.windows[i];
      }
    }
  }

  lemma StepConsistent(st: State, cfg: Config, e: Event)
    requires Consistent(st.reg) && NewIds(st, e)
    ensures Consistent(Step(st, cfg, e).reg)
  {
    match e
    case Look(host) => ReapConsistent(st.reg, host, st.clock, cfg.idle);
    case HostBind(host, sub) => BindConsistent(st.reg, host, sub, st.clock, cfg.idle);
    case HostDetach(conn) => if IsHostConn(st, conn) { TouchConsistent(st.reg, st.infos[conn].host, st.clock); }
    case OpenWindow(w, sub) => ReapConsistent(st.reg, w.host, st.clock, cfg.idle);
    case Register(p) => CreateConsistent(st.reg, p, st.clock, cfg.idle);
    case Unregister(id, sub) => DeleteConsistent(st.reg, id, sub);
    case _ =>
  }

  lemma StepWindows(st: State, cfg: Config, e: Event)
    requires WindowsAgree(st.windows, st.provChans) && NewIds(st, e)
    ensures var st' := Step(st, cfg, e); WindowsAgree(st'.windows, st'.provChans)
  {
    match e
    case OpenWindow(w, sub) =>
      OthersAgree(st.windows, st.provChans, w.host);
      OpenAgrees(Others(st.windows, w.host), Others(st.provChans, w.host), w);
    case ExpireWindow(id) => CloseAgrees(st, id);
    case _ =>
  }

  lemma RegistrationStays(st: State, cfg: Config, e: Event, ch: string)
    requires ch in st.reg.channels && !e.Unregister?
    ensures var r := Step(st, cfg, e).reg; ch in r.channels && r.channels[ch] == st.reg.channels[ch]
  {
  }

  lemma PairingStays(st: State, cfg: Config, e: Event, id: string)
    requires id in st.reg.pairings && !e.Unregister? && NewIds(st, e)
    ensures var r := Step(st, cfg, e).reg; id in r.pairings && r.pairings[id] == st.reg.pairings[id]
  {
  }

  lemma StepGrows(st: State, cfg: Config, e: Event)
    requires NewIds(st, e) && !e.Unregister?
    ensures Grows(st.reg, Step(st, cfg, e).reg)
  {
    var r' := Step(st, cfg, e).reg;
    forall ch | ch in st.reg.channels ensures ch in r'.channels {
      RegistrationStays(st, cfg, e, ch);
    }
    forall id | id in st.reg.pairings ensures id in r'.pairings && r'.pairings[id] == st.reg.pairings[id] {
      PairingStays(st, cfg, e, id);
    }
  }

  lemma StepBoxes(st: State, cfg: Config, e: Event)
    ensures Step(st, cfg, e).boxes.Keys <= st.boxes.Keys + st.reg.channels.Keys
  {
    if !e.HostFrame? && !e.FetchBox? && !e.Unregister? {
      SameMailboxes(st, cfg, e);
    }
  }

  lemma StepTokens(st: State, cfg: Config, e: Event, d: string)
    requires d in Step(st, cfg, e).apns
    ensures d in st.apns || Paired(st.reg.pairings, d)
  {
    if e.RegisterToken? && OwnsDevice(st.reg, e.device, e.sub) {
      assert Paired(st.reg.pairings, e.device);
    }
  }

  lemma StepOrphans(st: State, cfg: Config, e: Event)
    requires MapsAgree(st) && NewIds(st, e)
    ensures var st' := Step(st, cfg, e); NothingOrphaned(st'.reg.pairings, st'.reg.channels.Keys, st'.boxes.Keys, st'.apns.Keys)
  {
    if e.Unregister? {
      DropOrphansNothing(st, e.id, e.sub);
    } else {
      StepBoxes(st, cfg, e);
      StepGrows(st, cfg, e);
      var boxes, tokens := Step(st, cfg, e).boxes.Keys, Step(st, cfg, e).apns.Keys;
      forall d | d in tokens ensures Paired(st.reg.pairings, d) {
        StepTokens(st, cfg, e, d);
      }
      GrowingOrphansNothing(st.reg, Step(st, cfg, e).reg, boxes, tokens);
    }
  }

  /** Every step keeps all the maps in agreement. */
  lemma StepMapsAgree(st: State, cfg: Config, e: Event)
    requires MapsAgree(st) && NewIds(st, e)
    ensures MapsAgree(Step(st, cfg, e))
  {
    StepConsistent(st, cfg, e);
    StepWindows(st, cfg, e);
    StepOrphans(st, cfg, e);
  }

  /** In every reachable state each pairing's account is its host's binding, and no map has leftovers. */
  lemma {:induction false} ReachableMapsAgree(cfg: Config, es: seq<Event>)
    requires Throughout(NewIds, FRESH, cfg, es)
    ensures MapsAgree(Exec(FRESH, cfg, es))
  {
    if es != [] {
      ReachableMapsAgree(cfg, es[..|es| - 1]);
      StepMapsAgree(Exec(FRESH, cfg, es[..|es| - 1]), cfg, es[|es| - 1]);
    }
  }

  // ---------------------------------------------------------------------
  // A binding changes hands only through a reap
  // ---------------------------------------------------------------------

  /** The event reads the binding of `host` through bindingFor. */
  predicate Looks(e: Event, host: string) {
    match e
    case Look(h) => h == host
    case HostBind(h, _) => h == host
    case OpenWindow(w, _) => w.host == host
    case Register(p) => p.host == host
    case _ => false
  }

  /** A bound host leaves its account exactly when it is looked at without pairings after the full idle time. */
  lemma BindingLeavesIff(st: State, cfg: Config, e: Event, host: string, sub: string)
    requires BoundTo(st.reg, host, sub)
    ensures !BoundTo(Step(st, cfg, e).reg, host, sub)
       <==> Looks(e, host) && Reapable(st.reg, host, st.clock, cfg.idle) && e != HostBind(host, sub)
  {
  }

  /** While a host keeps some pairing its account never changes. */
  lemma {:induction false} PairedHostKeepsAccount(cfg: Config, st: State, es: seq<Event>, host: string, sub: string)
    requires BoundTo(st.reg, host, sub)
    requires Throughout((s: State, e: Event) => HasPairings(s.reg, host), st, cfg, es)
    ensures BoundTo(Exec(st, cfg, es).reg, host, sub)
  {
    if es != [] {
      PairedHostKeepsAccount(cfg, st, es[..|es| - 1], host, sub);
      BindingLeavesIff(Exec(st, cfg, es[..|es| - 1]), cfg, es[|es| - 1], host, sub);
    }
  }

  /** The event is a sign of life of the host: a granted bind, or the end of one of its connections. */
  predicate Active(st: State, cfg: Config, e: Event, host: string) {
    match e
    case HostBind(h, sub) => h == host && BoundTo(BindHost(st.reg, h, sub, st.clock, cfg.idle), h, sub)
    case HostDetach(conn) => IsHostConn(st, conn) && st.infos[conn].host == host
    case _ => false
  }

  /** When the host was last active in the run. */
  function LastActive(cfg: Config, es: seq<Event>, host: string): int {
    if es == [] then 0
    else
      var front := es[..|es| - 1];
      var st := Exec(FRESH, cfg, front);
      if Active(st, cfg, es[|es| - 1], host) then st.clock else LastActive(cfg, front, host)
  }

  lemma BindRecorded(r: Registry, h: string, sub: string, now: int, idle: int, host: string)
    requires host in BindHost(r, h, sub, now, idle).bindings
    ensures var r' := BindHost(r, h, sub, now, idle);
            if h == host && BoundTo(r', h, sub) then r'.bindings[host].lastAttach == now
            else host in r.bindings && r'.bindings[host] == r.bindings[host]
  {
  }

  lemma OthersRecordNothing(st: State, cfg: Config, e: Event, host: string)
    requires host in Step(st, cfg, e).reg.bindings && !e.HostBind? && !e.HostDetach?
    ensures host in st.reg.bindings && Step(st, cfg, e).reg.bindings[host] == st.reg.bindings[host]
  {
  }

  lemma ActivityRecorded(st: State, cfg: Config, e: Event, host: string)
    requires host in Step(st, cfg, e).reg.bindings
    ensures Active(st, cfg, e, host) ==> Step(st, cfg, e).reg.bindings[host].lastAttach == st.clock
    ensures !Active(st, cfg, e, host) ==>
      host in st.reg.bindings && Step(st, cfg, e).reg.bindings[host].lastAttach == st.reg.bindings[host].lastAttach
  {
    if e.HostBind? {
      BindRecorded(st.reg, e.host, e.sub, st.clock, cfg.idle, host);
    } else if !e.HostDetach? {
      OthersRecordNothing(st, cfg, e, host);
    }
  }

  /** A live binding's idle time runs from the host's last activity. */
  lemma {:induction false} IdleSinceActivity(cfg: Config, es: seq<Event>, host: string)
    requires host in Exec(FRESH, cfg, es).reg.bindings
    ensures Exec(FRESH, cfg, es).reg.bindings[host].lastAttach == LastActive(cfg, es, host)
  {
    var front := es[..|es| - 1];
    ActivityRecorded(Exec(FRESH, cfg, front), cfg, es[|es| - 1], host);
    if !Active(Exec(FRESH, cfg, front), cfg, es[|es| - 1], host) {
      IdleSinceActivity(cfg, front, host);
    }
  }

  /** Over any run, an account loses a host only without pairings and after the full idle time since its last activity. */
  lemma AccountLeavesOnlyIdle(cfg: Config, es: seq<Event>, e: Event, host: string, sub: string)
    requires BoundTo(Exec(FRESH, cfg, es).reg, host, sub) && !BoundTo(Step(Exec(FRESH, cfg, es), cfg, e).reg, host, sub)
    ensures !HasPairings(Exec(FRESH, cfg, es).reg, host)
    ensures Exec(FRESH, cfg, es).clock - LastActive(cfg, es, host) >= cfg.idle
  {
    BindingLeavesIff(Exec(FRESH, cfg, es), cfg, e, host, sub);
    IdleSinceActivity(cfg, es, host);
  }

  // ---------------------------------------------------------------------
  // Frames stay inside one account
  // ---------------------------------------------------------------------

  /** A host connection of the account its host is bound to. */
  predicate HostOwned(st: State, h: string, c: nat) {
    c in st.infos && st.infos[c].HostInfo? && st.infos[c].host == h && BoundTo(st.reg, h, st.infos[c].sub)
  }

  /** A device connection of the account of its registered channel. */
  predicate DeviceOwned(st: State, ch: string, c: nat) {
    && c in st.infos && st.infos[c].DevInfo? && st.infos[c].channel == ch
    && ch in st.reg.channels && st.reg.channels[ch].account == st.infos[c].sub
  }

  ghost predicate HostsOwned(st: State) {
    forall h: string, c: nat :: c in At(st.hostConns, h) ==> HostOwned(st, h, c)
  }

  ghost predicate DevicesOwned(st: State) {
    forall ch: string, c: nat :: c in At(st.devConns, ch) ==> DeviceOwned(st, ch, c)
  }

  predicate SentBy(st: State, c: nat, sub: string) { c in st.infos && st.infos[c].sub == sub }

  /** Whatever a mailbox was given came from the account of its registered channel. */
  predicate BoxOwned(st: State, ch: string) {
    && (ch in st.boxes <==> ch in st.boxedBy)
    && (ch in st.boxes ==>
          && ch in st.reg.channels && |st.boxes[ch]| <= |st.boxedBy[ch]|
          && forall i :: 0 <= i < |st.boxedBy[ch]| ==> SentBy(st, st.boxedBy[ch][i], st.reg.channels[ch].account))
  }

  ghost predicate BoxesOwned(st: State) { forall ch: string :: BoxOwned(st, ch) }

  ghost predicate Owned(st: State) { HostsOwned(st) && DevicesOwned(st) && BoxesOwned(st) }

  /** The host's binding would go away under a live connection. */
  predicate ReapsLive(st: State, cfg: Config, host: string) {
    Reapable(st.reg, host, st.clock, cfg.idle) && At(st.hostConns, host) != {}
  }

  /** Attach checks still hold at the commit, and no binding is reaped under a live connection. */
  predicate Prompt(st: State, cfg: Config, e: Event) {
    match e
    case Look(h) => !ReapsLive(st, cfg, h)
    case OpenWindow(w, _) => !ReapsLive(st, cfg, w.host)
    case Register(p) => !ReapsLive(st, cfg, p.host)
    case HostBind(h, sub) => ReapsLive(st, cfg, h) ==> BoundTo(st.reg, h, sub)
    case HostCommit(conn, h, sub) => conn in st.infos || BoundTo(st.reg, h, sub)
    case DeviceCommit(conn, c, sub) => conn in st.infos || (c in st.reg.channels && st.reg.channels[c].account == sub)
    case _ => true
  }

  lemma LookOwnedIff(st: State, cfg: Config, e: Event, h: string)
    requires HostsOwned(st) && Looks(e, h)
    ensures HostsOwned(Step(st, cfg, e)) <==> Prompt(st, cfg, e)
  {
    SameConns(st, cfg, e);
    var st' := Step(st, cfg, e);
    if Prompt(st, cfg, e) {
      forall k: string, c: nat | c in At(st.hostConns, k) ensures HostOwned(st', k, c) {
        assert HostOwned(st, k, c);
        BindingLeavesIff(st, cfg, e, k, st.infos[c].sub);
      }
    } else {
      var c :| c in At(st.hostConns, h);
      assert HostOwned(st, h, c);
      BindingLeavesIff(st, cfg, e, h, st.infos[c].sub);
      assert !HostOwned(st', h, c);
    }
  }

  lemma SameConns(st: State, cfg: Config, e: Event)
    requires !e.HostCommit? && !e.HostDetach? && !e.DeviceCommit?
    ensures Step(st, cfg, e).hostConns == st.hostConns && Step(st, cfg, e).infos == st.infos
  {
    SameHosts(st, cfg, e);
    SameInfos(st, cfg, e);
  }

  lemma SameHosts(st: State, cfg: Config, e: Event)
    requires !e.HostCommit? && !e.HostDetach?
    ensures Step(st, cfg, e).hostConns == st.hostConns
  {
  }

  lemma SameInfos(st: State, cfg: Config, e: Event)
    requires !e.HostCommit? && !e.DeviceCommit?
    ensures Step(st, cfg, e).infos == st.infos
  {
  }

  lemma CommitOwnedIff(st: State, cfg: Config, conn: nat, h: string, sub: string)
    requires HostsOwned(st)
    ensures HostsOwned(Step(st, cfg, HostCommit(conn, h, sub))) <==> Prompt(st, cfg, HostCommit(conn, h, sub))
  {
    var st' := Step(st, cfg, HostCommit(conn, h, sub));
    if conn !in st.infos {
      assert conn in At(st'.hostConns, h);
      assert HostOwned(st', h, conn) <==> BoundTo(st.reg, h, sub);
      forall k: string, c: nat | c in At(st'.hostConns, k) && !(k == h && c == conn) ensures HostOwned(st', k, c) {
        assert c in At(st.hostConns, k) && HostOwned(st, k, c);
      }
    }
  }

  lemma FewerHosts(st: State, cfg: Config, e: Event, h: string, c: nat)
    requires !e.HostCommit? && c in At(Step(st, cfg, e).hostConns, h)
    ensures c in At(st.hostConns, h)
  {
  }

  /** Steps that nobody looks at a binding in, and that accept no host. */
  lemma HostsStayOwned(st: State, cfg: Config, e: Event)
    requires HostsOwned(st) && !e.HostCommit? && forall h :: !Looks(e, h)
    ensures HostsOwned(Step(st, cfg, e))
  {
    forall k: string, c: nat | c in At(Step(st, cfg, e).hostConns, k) ensures HostOwned(Step(st, cfg, e), k, c) {
      FewerHosts(st, cfg, e, k, c);
      assert HostOwned(st, k, c);
      InfosStay(st, cfg, e, c);
      BindingLeavesIff(st, cfg, e, k, st.infos[c].sub);
    }
  }

  lemma HostsOwnedIff(st: State, cfg: Config, e: Event)
    requires HostsOwned(st) && !e.DeviceCommit?
    ensures HostsOwned(Step(st, cfg, e)) <==> Prompt(st, cfg, e)
  {
    match e
    case Look(h) => LookOwnedIff(st, cfg, e, h);
    case HostBind(h, _) => LookOwnedIff(st, cfg, e, h);
    case OpenWindow(w, _) => LookOwnedIff(st, cfg, e, w.host);
    case Register(p) => LookOwnedIff(st, cfg, e, p.host);
    case HostCommit(conn, h, sub) => CommitOwnedIff(st, cfg, conn, h, sub);
    case _ => HostsStayOwned(st, cfg, e);
  }

  lemma DeviceCommitOwnedIff(st: State, cfg: Config, conn: nat, ch: string, sub: string)
    requires DevicesOwned(st)
    ensures DevicesOwned(Step(st, cfg, DeviceCommit(conn, ch, sub))) <==> Prompt(st, cfg, DeviceCommit(conn, ch, sub))
  {
    var st' := Step(st, cfg, DeviceCommit(conn, ch, sub));
    if conn !in st.infos {
      assert conn in At(st'.devConns, ch);
      assert DeviceOwned(st', ch, conn) <==> Prompt(st, cfg, DeviceCommit(conn, ch, sub));
      forall k: string, c: nat | c in At(st'.devConns, k) && !(k == ch && c == conn) ensures DeviceOwned(st', k, c) {
        assert c in At(st.devConns, k) && DeviceOwned(st, k, c);
      }
    }
  }

  lemma DropKeepsDevices(st: State, id: string, sub: string)
    requires DevicesOwned(st) && Consistent(st.reg)
    ensures DevicesOwned(DropPairing(st, id, sub))
  {
    var st' := DropPairing(st, id, sub);
    forall k: string, c: nat | c in At(st'.devConns, k) ensures DeviceOwned(st', k, c) {
      assert c in At(st.devConns, k) && DeviceOwned(st, k, c);
    }
  }

  lemma FewerDevices(st: State, cfg: Config, e: Event, ch: string, c: nat)
    requires !e.DeviceCommit? && c in At(Step(st, cfg, e).devConns, ch)
    ensures c in At(st.devConns, ch)
  {
  }

  lemma InfosStay(st: State, cfg: Config, e: Event, c: nat)
    requires c in st.infos
    ensures c in Step(st, cfg, e).infos && Step(st, cfg, e).infos[c] == st.infos[c]
  {
  }

  lemma DevicesStayOwned(st: State, cfg: Config, e: Event)
    requires DevicesOwned(st) && Consistent(st.reg) && !e.DeviceCommit?
    ensures DevicesOwned(Step(st, cfg, e))
  {
    if e.Unregister? {
      DropKeepsDevices(st, e.id, e.sub);
    } else {
      forall k: string, c: nat | c in At(Step(st, cfg, e).devConns, k) ensures DeviceOwned(Step(st, cfg, e), k, c) {
        FewerDevices(st, cfg, e, k, c);
        assert DeviceOwned(st, k, c);
        InfosStay(st, cfg, e, c);
        RegistrationStays(st, cfg, e, k);
      }
    }
  }

  lemma AppendShort(items: seq<Mailbox.Item>, it: Mailbox.Item, now: int, pol: Mailbox.Policy)
    ensures |Mailbox.Append(items, it, now, pol)| <= |items| + 1
  {
    Mailbox.PruneLongest(items, now, pol.ttl);
    Mailbox.EvictLongest(Mailbox.Prune(items, now, pol.ttl) + [it], pol);
  }

  /** The sender of a frame that passes the checks is of the channel's account. */
  lemma SenderOwns(st: State, conn: nat, c: string)
    requires HostsOwned(st) && Consistent(st.reg) && IsHostConn(st, conn) && Routable(st, st.infos[conn].host, c)
    ensures SentBy(st, conn, st.reg.channels[c].account)
  {
    assert HostOwned(st, st.infos[conn].host, conn);
    var p := st.reg.channels[c];
    assert BoundTo(st.reg, p.host, p.account);
  }

  /** A mailbox given one more frame by its own account. */
  lemma GivenBoxOwned(st: State, ch: string, items: seq<Mailbox.Item>, from: nat)
    requires BoxOwned(st, ch) && ch in st.reg.channels && SentBy(st, from, st.reg.channels[ch].account)
    requires |items| <= |Box(st, ch)| + 1
    ensures BoxOwned(st.(boxes := st.boxes[ch := items], boxedBy := st.boxedBy[ch := By(st, ch) + [from]]), ch)
  {
  }

  lemma RoutedBoxOwned(st: State, cfg: Config, conn: nat, f: Frame, ch: string)
    requires HostsOwned(st) && Consistent(st.reg) && IsHostConn(st, conn) && f.from == conn && BoxOwned(st, ch)
    ensures BoxOwned(RouteHost(st, cfg, st.infos[conn].host, f), ch)
  {
    if !Routable(st, st.infos[conn].host, f.channel) || At(st.devConns, f.channel) != {} {
    } else if f.channel == ch {
      SenderOwns(st, conn, ch);
      AppendShort(Box(st, ch), ItemOf(f, st.clock), st.clock, cfg.policy);
      GivenBoxOwned(st, ch, Mailbox.Append(Box(st, ch), ItemOf(f, st.clock), st.clock, cfg.policy), conn);
    } else {
      var st' := RouteHost(st, cfg, st.infos[conn].host, f);
      assert ch in st'.boxes <==> ch in st.boxes;
    }
  }

  lemma SameMailboxes(st: State, cfg: Config, e: Event)
    requires !e.HostFrame? && !e.FetchBox? && !e.Unregister?
    ensures Step(st, cfg, e).boxes == st.boxes && Step(st, cfg, e).boxedBy == st.boxedBy
  {
  }

  lemma SameBoxOwned(st: State, cfg: Config, e: Event, ch: string)
    requires BoxOwned(st, ch) && !e.HostFrame? && !e.FetchBox? && !e.Unregister?
    ensures BoxOwned(Step(st, cfg, e), ch)
  {
    SameMailboxes(st, cfg, e);
    if ch in st.boxes {
      RegistrationStays(st, cfg, e, ch);
      forall i | 0 <= i < |st.boxedBy[ch]| ensures SentBy(Step(st, cfg, e), st.boxedBy[ch][i], st.reg.channels[ch].account) {
        InfosStay(st, cfg, e, st.boxedBy[ch][i]);
      }
    }
  }

  lemma UnhookedBoxOwned(st: State, r: Registry, p: Pairing, ch: string)
    requires BoxOwned(st, ch)
    requires ch != p.channel && ch in st.reg.channels ==> ch in r.channels && r.channels[ch] == st.reg.channels[ch]
    ensures BoxOwned(Unhook(st.(reg := r), p), ch)
  {
  }

  lemma DroppedBoxOwned(st: State, id: string, sub: string, ch: string)
    requires BoxOwned(st, ch)
    ensures BoxOwned(DropPairing(st, id, sub), ch)
  {
    var drop := DeletePairing(st.reg, id, sub);
    if drop.out.Deleted? {
      UnhookedBoxOwned(st, drop.reg, drop.out.pairing, ch);
    }
  }

  lemma BoxesStayOwned(st: State, cfg: Config, e: Event)
    requires Owned(st) && Consistent(st.reg)
    ensures BoxesOwned(Step(st, cfg, e))
  {
    forall ch: string ensures BoxOwned(Step(st, cfg, e), ch) {
      assert BoxOwned(st, ch);
      if e.HostFrame? {
        if IsHostConn(st, e.conn) { RoutedBoxOwned(st, cfg, e.conn, Frame(e.conn, e.channel, e.n, e.pushClass, e.body), ch); }
      } else if e.FetchBox? {
        if e.channel in st.boxes { Mailbox.PruneLongest(st.boxes[e.channel], st.clock, cfg.policy.ttl); }
      } else if e.Unregister? {
        DroppedBoxOwned(st, e.id, e.sub, ch);
      } else {
        SameBoxOwned(st, cfg, e, ch);
      }
    }
  }

  /** One step keeps every connection with its account exactly when it is prompt. */
  lemma OwnedIff(st: State, cfg: Config, e: Event)
    requires Owned(st) && Consistent(st.reg)
    ensures Owned(Step(st, cfg, e)) <==> Prompt(st, cfg, e)
  {
    BoxesStayOwned(st, cfg, e);
    if e.DeviceCommit? {
      DeviceCommitOwnedIff(st, cfg, e.conn, e.channel, e.sub);
      HostsStayOwned(st, cfg, e);
    } else {
      HostsOwnedIff(st, cfg, e);
      DevicesStayOwned(st, cfg, e);
    }
  }

  predicate SameAccount(st: State, from: nat, to: set<nat>) {
    from in st.infos && forall c :: c in to ==> c in st.infos && st.infos[c].sub == st.infos[from].sub
  }

  /** The senders of what a read of the mailbox can return now are all of this account. */
  predicate ReadableBy(st: State, cfg: Config, ch: string, sub: string) {
    var from, held := By(st, ch), |Mailbox.Prune(Box(st, ch), st.clock, cfg.policy.ttl)|;
    forall i :: 0 <= i < |from| && |from| - held <= i ==> SentBy(st, from[i], sub)
  }

  /** Frames queued, mailboxed or read stay inside the account of their sender. */
  predicate Within(st: State, cfg: Config, x: Entry) {
    match x
    case HostQueued(f, to) => SameAccount(st, f.from, to)
    case DeviceQueued(f, to) => SameAccount(st, f.from, to)
    case Boxed(f, _) => f.channel in st.reg.channels && SentBy(st, f.from, st.reg.channels[f.channel].account)
    case Fetched(ch, sub, _) => ReadableBy(st, cfg, ch, sub)
    case _ => true
  }

  predicate Isolated(st: State, cfg: Config, e: Event) {
    forall x :: x in Note(st, e) ==> Within(st, cfg, x)
  }

  /**
   * A device frame comes while its channel still belongs to the sender's account, or nobody
   * listens; a read comes while the channel still belongs to the reader, or nothing is held.
   */
  predicate Attended(st: State, cfg: Config, e: Event) {
    match e
    case DeviceFrame(conn, _, _) =>
      IsDevConn(st, conn) && st.infos[conn].channel in st.reg.channels ==>
        var p := st.reg.channels[st.infos[conn].channel];
        At(st.hostConns, p.host) == {} || p.account == st.infos[conn].sub
    case FetchBox(c, sub) =>
      c in st.boxes && Mailbox.Prune(st.boxes[c], st.clock, cfg.policy.ttl) != [] ==>
        c in st.reg.channels && st.reg.channels[c].account == sub
    case _ => true
  }

  lemma HostFrameIsolated(st: State, cfg: Config, e: Event)
    requires Owned(st) && Consistent(st.reg) && e.HostFrame?
    ensures Isolated(st, cfg, e)
  {
    if IsHostConn(st, e.conn) && Routable(st, st.infos[e.conn].host, e.channel) {
      SenderOwns(st, e.conn, e.channel);
      forall c: nat | c in At(st.devConns, e.channel) ensures SentBy(st, c, st.reg.channels[e.channel].account) {
        assert DeviceOwned(st, e.channel, c);
      }
    }
  }

  lemma DeviceFrameIsolatedIff(st: State, cfg: Config, e: Event)
    requires Owned(st) && Consistent(st.reg) && e.DeviceFrame?
    ensures Isolated(st, cfg, e) <==> Attended(st, cfg, e)
  {
    if IsDevConn(st, e.conn) && st.infos[e.conn].channel in st.reg.channels {
      var p := st.reg.channels[st.infos[e.conn].channel];
      assert BoundTo(st.reg, p.host, p.account);
      var f, to := DeviceSent(st, e.conn, e.n, e.body), At(st.hostConns, p.host);
      if to != {} {
        assert Note(st, e) == [DeviceQueued(f, to)];
        assert DeviceQueued(f, to) in Note(st, e);
        forall c: nat | c in to ensures c in st.infos && st.infos[c].sub == p.account {
          assert HostOwned(st, p.host, c);
        }
        var c :| c in to;
      }
    }
  }

  lemma FetchIsolatedIff(st: State, cfg: Config, e: Event)
    requires Owned(st) && e.FetchBox?
    ensures Isolated(st, cfg, e) <==> Attended(st, cfg, e)
  {
    assert BoxOwned(st, e.channel);
    if e.channel in st.boxes {
      Mailbox.PruneLongest(st.boxes[e.channel], st.clock, cfg.policy.ttl);
      var x := Fetched(e.channel, e.sub, st.clock);
      assert Note(st, e) == [x] && x in Note(st, e);
      var from := By(st, e.channel);
      if Mailbox.Prune(st.boxes[e.channel], st.clock, cfg.policy.ttl) != [] {
        assert SentBy(st, from[|from| - 1], st.reg.channels[e.channel].account);
      }
    }
  }

  lemma IsolatedIff(st: State, cfg: Config, e: Event)
    requires Owned(st) && Consistent(st.reg)
    ensures Isolated(st, cfg, e) <==> Attended(st, cfg, e)
  {
    if e.HostFrame? { HostFrameIsolated(st, cfg, e); }
    if e.DeviceFrame? { DeviceFrameIsolatedIff(st, cfg, e); }
    if e.FetchBox? { FetchIsolatedIff(st, cfg, e); }
  }

  /** A frame from a connection still listed for its channel is attended. */
  lemma ListedIsAttended(st: State, cfg: Config, e: Event)
    requires Owned(st) && e.DeviceFrame?
    requires IsDevConn(st, e.conn) ==> e.conn in At(st.devConns, st.infos[e.conn].channel)
    ensures Attended(st, cfg, e)
  {
    if IsDevConn(st, e.conn) {
      assert DeviceOwned(st, st.infos[e.conn].channel, e.conn);
    }
  }

  ghost predicate OwnedAllAlong(cfg: Config, es: seq<Event>) {
    Owned(Exec(FRESH, cfg, es)) && (es != [] ==> OwnedAllAlong(cfg, es[..|es| - 1]))
  }

  /**
   * Over every run, all connections and mailboxes stay with their accounts and every frame
   * queued, mailboxed or read stays inside one account, exactly when every commit is prompt,
   * no binding is reaped under a live host connection, and no frame or read comes from a
   * device whose channel changed hands.
   */
  lemma {:induction false} RunIsolatedIff(cfg: Config, es: seq<Event>)
    requires Throughout(NewIds, FRESH, cfg, es)
    ensures OwnedAllAlong(cfg, es) && Throughout((s, e) => Isolated(s, cfg, e), FRESH, cfg, es)
       <==> Throughout((s, e) => Prompt(s, cfg, e) && Attended(s, cfg, e), FRESH, cfg, es)
  {
    if es != [] {
      var front := es[..|es| - 1];
      RunIsolatedIff(cfg, front);
      ReachableMapsAgree(cfg, front);
      var st, e := Exec(FRESH, cfg, front), es[|es| - 1];
      if Owned(st) {
        OwnedIff(st, cfg, e);
        IsolatedIff(st, cfg, e);
      }
    }
  }
}
