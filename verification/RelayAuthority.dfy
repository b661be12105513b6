/**
 * Who may change what on the relay: for every record, exactly which requests of which
 * account make it appear, change or go, in one step and over whole runs.
 */
module RelayAuthority {
  import opened Common
  import opened Registry
  import opened RelayMachine
  import opened RelayAccounts

  // ---------------------------------------------------------------------
  // Bindings
  // ---------------------------------------------------------------------

  predicate Idle(st: State, cfg: Config, host: string) {
    && host in st.reg.bindings && st.clock - st.reg.bindings[host].lastAttach >= cfg.idle
    && forall id :: id in st.reg.pairings ==> st.reg.pairings[id].host != host
  }

  lemma ReapableIsIdle(st: State, cfg: Config, host: string)
    ensures Reapable(st.reg, host, st.clock, cfg.idle) <==> Idle(st, cfg, host)
  {
  }

  /** An attach binds the host unless another account holds it and is not idle. */
  lemma BindGrantedIff(st: State, cfg: Config, host: string, sub: string)
    ensures BoundTo(Step(st, cfg, HostBind(host, sub)).reg, host, sub)
       <==> host !in st.reg.bindings || st.reg.bindings[host].account == sub || Idle(st, cfg, host)
  {
    ReapableIsIdle(st, cfg, host);
  }

  /** The events that check a binding. */
  predicate Checks(e: Event, host: string) {
    || e == Look(host) || (e.HostBind? && e.host == host) || (e.OpenWindow? && e.w.host == host) || (e.Register? && e.p.host == host)
  }

  /** A bound host is let go exactly when someone checks it idle, other than its own account by attaching. */
  lemma BindingGoesIff(st: State, cfg: Config, e: Event, host: string, sub: string)
    requires BoundTo(st.reg, host, sub)
    ensures !BoundTo(Step(st, cfg, e).reg, host, sub) <==> Checks(e, host) && Idle(st, cfg, host) && e != HostBind(host, sub)
  {
    ReapableIsIdle(st, cfg, host);
    BindingLeavesIff(st, cfg, e, host, sub);
  }

  /** A host comes to be bound to an account only by its own attach. */
  lemma BindingEntersOnly(st: State, cfg: Config, e: Event, host: string, sub: string)
    requires !BoundTo(st.reg, host, sub) && BoundTo(Step(st, cfg, e).reg, host, sub)
    ensures e == HostBind(host, sub)
  {
  }

  // ---------------------------------------------------------------------
  // Pairings
  // ---------------------------------------------------------------------

  lemma OthersKeepPairings(st: State, cfg: Config, e: Event, id: string)
    requires id in st.reg.pairings && !e.Unregister?
    ensures id in Step(st, cfg, e).reg.pairings
  {
  }

  /** A pairing goes exactly when its own account deletes it. */
  lemma PairingLeavesIff(st: State, cfg: Config, e: Event, id: string)
    requires id in st.reg.pairings
    ensures id !in Step(st, cfg, e).reg.pairings <==> e == Unregister(id, st.reg.pairings[id].account)
  {
    if e.Unregister? {
      DeleteOutcomes(st.reg, e.id, e.sub);
    } else {
      OthersKeepPairings(st, cfg, e, id);
    }
  }

  /** What a delete request answers and does. */
  lemma DeleteOutcomes(r: Registry, id: string, sub: string)
    ensures var ch := DeletePairing(r, id, sub);
            && (ch.out == NotFound <==> id !in r.pairings)
            && (ch.out == Forbidden <==> id in r.pairings && r.pairings[id].account != sub)
            && (forall p :: ch.out == Deleted(p) <==> id in r.pairings && r.pairings[id] == p && p.account == sub)
            && (!ch.out.Deleted? ==> ch.reg == r)
            && (ch.out.Deleted? ==> ch.reg.pairings == r.pairings - {id} && ch.reg.channels == r.channels - {ch.out.pairing.channel})
            && ch.reg.bindings == r.bindings
  {
  }

  /** Over any run a pairing that is gone was deleted by its own account. */
  lemma RunPairingLeaves(st: State, cfg: Config, es: seq<Event>, id: string)
    requires id in st.reg.pairings && id !in Exec(st, cfg, es).reg.pairings && Throughout(NewIds, st, cfg, es)
    ensures exists k :: 0 <= k < |es| && es[k] == Unregister(id, st.reg.pairings[id].account)
  {
    if forall k :: 0 <= k < |es| ==> es[k] != Unregister(id, st.reg.pairings[id].account) {
      RunPairingStays(st, cfg, es, id);
    }
  }

  /** Until then it stays as it was registered. */
  lemma {:induction false} RunPairingStays(st: State, cfg: Config, es: seq<Event>, id: string)
    requires id in st.reg.pairings && Throughout(NewIds, st, cfg, es)
    requires forall k :: 0 <= k < |es| ==> es[k] != Unregister(id, st.reg.pairings[id].account)
    ensures id in Exec(st, cfg, es).reg.pairings && Exec(st, cfg, es).reg.pairings[id] == st.reg.pairings[id]
  {
    if es != [] {
      var n := |es| - 1;
      RunPairingStays(st, cfg, es[..n], id);
      var mid := Exec(st, cfg, es[..n]);
      PairingLeavesIff(mid, cfg, es[n], id);
      PairingUnchanged(mid, cfg, es[n], id);
    }
  }

  lemma PairingUnchanged(st: State, cfg: Config, e: Event, id: string)
    requires id in st.reg.pairings && id in Step(st, cfg, e).reg.pairings && NewIds(st, e)
    ensures Step(st, cfg, e).reg.pairings[id] == st.reg.pairings[id]
  {
  }

  /** A pairing comes exactly from the account its host is bound to, on a free channel. */
  lemma PairingEntersIff(st: State, cfg: Config, e: Event, id: string)
    requires id !in st.reg.pairings
    ensures id in Step(st, cfg, e).reg.pairings
       <==> && e.Register? && e.p.id == id && e.p.channel !in st.reg.channels
            && BoundTo(st.reg, e.p.host, e.p.account) && !Idle(st, cfg, e.p.host)
  {
    if e.Register? { ReapableIsIdle(st, cfg, e.p.host); }
  }

  lemma CreateOutcomes(st: State, cfg: Config, p: Pairing)
    ensures var ch := CreatePairing(st.reg, p, st.clock, cfg.idle);
            && (ch.out == Forbidden <==> !BoundTo(st.reg, p.host, p.account) || Idle(st, cfg, p.host))
            && (ch.out == Conflict <==> BoundTo(st.reg, p.host, p.account) && !Idle(st, cfg, p.host) && p.channel in st.reg.channels)
            && (ch.out == Created <==> BoundTo(st.reg, p.host, p.account) && !Idle(st, cfg, p.host) && p.channel !in st.reg.channels)
            && (ch.out == Created ==> ch.reg.pairings == st.reg.pairings[p.id := p] && ch.reg.channels == st.reg.channels[p.channel := p])
            && (ch.out != Created ==> ch.reg.pairings == st.reg.pairings && ch.reg.channels == st.reg.channels)
  {
    ReapableIsIdle(st, cfg, p.host);
  }

  // ---------------------------------------------------------------------
  // Windows
  // ---------------------------------------------------------------------

  lemma SameWindows(st: State, cfg: Config, e: Event)
    requires !e.OpenWindow? && !e.ExpireWindow?
    ensures Step(st, cfg, e).windows == st.windows
  {
  }

  /** What a request for a window does to the windows. */
  lemma OpeningWindows(st: State, cfg: Config, w: Window, sub: string)
    ensures OpenFor(st, cfg, w, sub).windows
         == if BoundTo(st.reg, w.host, sub) && !Idle(st, cfg, w.host) then Others(st.windows, w.host)[w.id := w] else st.windows
  {
    ReapableIsIdle(st, cfg, w.host);
  }

  /** A window opens exactly on request of the account its host is bound to. */
  lemma WindowEntersIff(st: State, cfg: Config, e: Event, id: string)
    requires id !in st.windows
    ensures id in Step(st, cfg, e).windows
       <==> e.OpenWindow? && e.w.id == id && BoundTo(st.reg, e.w.host, e.sub) && !Idle(st, cfg, e.w.host)
  {
    if e.OpenWindow? {
      OpeningWindows(st, cfg, e.w, e.sub);
    } else if !e.ExpireWindow? {
      SameWindows(st, cfg, e);
    }
  }

  /** It closes exactly by expiry or for the next window of the same host, opened by its account. */
  lemma WindowLeavesIff(st: State, cfg: Config, e: Event, id: string)
    requires id in st.windows && NewIds(st, e)
    ensures id !in Step(st, cfg, e).windows
       <==> || e == ExpireWindow(id)
            || (&& e.OpenWindow? && e.w.host == st.windows[id].host
                && BoundTo(st.reg, e.w.host, e.sub) && !Idle(st, cfg, e.w.host))
  {
    if e.OpenWindow? {
      OpeningWindows(st, cfg, e.w, e.sub);
    } else if !e.ExpireWindow? {
      SameWindows(st, cfg, e);
    }
  }

  lemma WindowUnchanged(st: State, cfg: Config, e: Event, id: string)
    requires id in st.windows && id in Step(st, cfg, e).windows && NewIds(st, e)
    ensures Step(st, cfg, e).windows[id] == st.windows[id]
  {
    if e.OpenWindow? {
      OpeningWindows(st, cfg, e.w, e.sub);
    } else if !e.ExpireWindow? {
      SameWindows(st, cfg, e);
    }
  }

  // ---------------------------------------------------------------------
  // Tokens
  // ---------------------------------------------------------------------

  /** A device's token is set exactly by an account that has the device in a pairing. */
  lemma TokenSetIff(st: State, cfg: Config, e: Event, device: string, token: string)
    requires !(device in st.apns && st.apns[device] == token)
    ensures device in Step(st, cfg, e).apns && Step(st, cfg, e).apns[device] == token
       <==> && e.RegisterToken? && e.device == device && e.token == token
            && exists id :: id in st.reg.pairings && st.reg.pairings[id].device == device && st.reg.pairings[id].account == e.sub
  {
  }

  lemma SameTokens(st: State, cfg: Config, e: Event)
    requires !e.RegisterToken? && !e.Unregister?
    ensures Step(st, cfg, e).apns == st.apns
  {
  }

  lemma StillPairedIff(pairings: map<string, Pairing>, gone: string, device: string)
    ensures Paired(pairings - {gone}, device) <==> exists id :: id in pairings && id != gone && pairings[id].device == device
  {
    if id :| id in pairings && id != gone && pairings[id].device == device {
      assert id in pairings - {gone};
    }
  }

  /** It goes exactly with the last pairing of the device, deleted by that pairing's account. */
  lemma TokenLeavesIff(st: State, cfg: Config, e: Event, device: string)
    requires device in st.apns
    ensures device !in Step(st, cfg, e).apns
       <==> && e.Unregister? && e.id in st.reg.pairings
            && st.reg.pairings[e.id].account == e.sub && st.reg.pairings[e.id].device == device
            && forall id :: id in st.reg.pairings && id != e.id ==> st.reg.pairings[id].device != device
  {
    if e.Unregister? {
      StillPairedIff(st.reg.pairings, e.id, device);
      DeleteOutcomes(st.reg, e.id, e.sub);
    } else if !e.RegisterToken? {
      SameTokens(st, cfg, e);
    }
  }

  // ---------------------------------------------------------------------
  // Connections
  // ---------------------------------------------------------------------

  /** The connection was accepted, as host or device, somewhere in the run. */
  predicate WasAccepted(es: seq<Event>, c: nat) {
    exists i :: 0 <= i < |es| && ((es[i].HostCommit? && es[i].conn == c) || (es[i].DeviceCommit? && es[i].conn == c))
  }

  /** The host a connection stands for, from the events alone: first accepted for it, and not detached since. */
  function HostOf(es: seq<Event>, c: nat): Option<string> {
    if es == [] then None
    else
      var front, e := es[..|es| - 1], es[|es| - 1];
      if e.HostCommit? && e.conn == c && !WasAccepted(front, c) then Some(e.host)
      else if e == HostDetach(c) then None
      else HostOf(front, c)
  }

  /** The state knows the connection if it was accepted, and lists it for that host and no other. */
  ghost predicate Listed(st: State, c: nat, accepted: bool, host: Option<string>) {
    && (c in st.infos <==> accepted)
    && (host.Some? ==> c in st.infos && st.infos[c].HostInfo? && st.infos[c].host == host.value)
    && (forall h: string :: c in At(st.hostConns, h) <==> host == Some(h))
  }

  lemma AcceptedSnoc(es: seq<Event>, c: nat)
    requires es != []
    ensures var e := es[|es| - 1];
            WasAccepted(es, c) <==> || WasAccepted(es[..|es| - 1], c)
                                    || (e.HostCommit? && e.conn == c) || (e.DeviceCommit? && e.conn == c)
  {
    var front := es[..|es| - 1];
    if i :| 0 <= i < |front| && ((front[i].HostCommit? && front[i].conn == c) || (front[i].DeviceCommit? && front[i].conn == c)) {
      assert es[i] == front[i];
    }
    if i :| 0 <= i < |es| && ((es[i].HostCommit? && es[i].conn == c) || (es[i].DeviceCommit? && es[i].conn == c)) {
      if i < |front| { assert front[i] == es[i]; }
    }
  }

  lemma NoNewConn(st: State, cfg: Config, e: Event, c: nat)
    requires !(e.HostCommit? && e.conn == c) && !(e.DeviceCommit? && e.conn == c)
    ensures c in Step(st, cfg, e).infos <==> c in st.infos
    ensures c in st.infos ==> Step(st, cfg, e).infos[c] == st.infos[c]
  {
  }

  lemma SameListing(st: State, cfg: Config, e: Event, c: nat, h: string)
    requires !(e.HostCommit? && e.conn == c) && e != HostDetach(c)
    ensures c in At(Step(st, cfg, e).hostConns, h) <==> c in At(st.hostConns, h)
  {
  }

  lemma CommitListed(st: State, cfg: Config, c: nat, h: string, sub: string, accepted: bool, host: Option<string>)
    requires Listed(st, c, accepted, host)
    ensures Listed(Step(st, cfg, HostCommit(c, h, sub)), c, true, if accepted then host else Some(h))
  {
  }

  lemma DetachListed(st: State, cfg: Config, c: nat, accepted: bool, host: Option<string>)
    requires Listed(st, c, accepted, host)
    ensures Listed(Step(st, cfg, HostDetach(c)), c, accepted, None)
  {
  }

  lemma OtherListed(st: State, cfg: Config, e: Event, c: nat, accepted: bool, host: Option<string>)
    requires Listed(st, c, accepted, host) && !(e.HostCommit? && e.conn == c) && e != HostDetach(c)
    ensures Listed(Step(st, cfg, e), c, accepted || (e.DeviceCommit? && e.conn == c), host)
  {
    if e.DeviceCommit? && e.conn == c {
      if accepted { assert Step(st, cfg, e) == st; }
    } else {
      NoNewConn(st, cfg, e, c);
    }
    forall h: string ensures c in At(Step(st, cfg, e).hostConns, h) <==> c in At(st.hostConns, h) {
      SameListing(st, cfg, e, c, h);
    }
  }

  /** After every run a connection is listed for exactly the host it stands for. */
  lemma {:induction false} RunListed(cfg: Config, es: seq<Event>, c: nat)
    ensures Listed(Exec(FRESH, cfg, es), c, WasAccepted(es, c), HostOf(es, c))
  {
    if es != [] {
      var front, e := es[..|es| - 1], es[|es| - 1];
      var st, accepted, host := Exec(FRESH, cfg, front), WasAccepted(front, c), HostOf(front, c);
      RunListed(cfg, front, c);
      AcceptedSnoc(es, c);
      if e.HostCommit? && e.conn == c {
        CommitListed(st, cfg, c, e.host, e.sub, accepted, host);
      } else if e == HostDetach(c) {
        DetachListed(st, cfg, c, accepted, host);
      } else {
        OtherListed(st, cfg, e, c, accepted, host);
      }
    }
  }

  /**
   * A frame of a device that was accepted for a registered channel is queued verbatim to
   * exactly the connections that stand for the channel's host, if there are any; no other
   * event queues to a host.
   */
  lemma DeviceFramesReachHost(cfg: Config, es: seq<Event>, e: Event, c: nat)
    ensures var st := Exec(FRESH, cfg, es);
            (exists x :: x in Note(st, e) && x.DeviceQueued? && c in x.to)
            <==> && e.DeviceFrame? && e.conn in st.infos && st.infos[e.conn].DevInfo? && st.infos[e.conn].channel in st.reg.channels
                 && HostOf(es, c) == Some(st.reg.channels[st.infos[e.conn].channel].host)
    ensures var st := Exec(FRESH, cfg, es);
            forall x :: x in Note(st, e) && x.DeviceQueued? ==>
              x.frame == Frame(e.conn, st.infos[e.conn].channel, e.n, "none", e.body)
  {
    var st := Exec(FRESH, cfg, es);
    RunListed(cfg, es, c);
    if e.DeviceFrame? && IsDevConn(st, e.conn) && st.infos[e.conn].channel in st.reg.channels {
      var to := At(st.hostConns, st.reg.channels[st.infos[e.conn].channel].host);
      if c in to {
        assert DeviceQueued(DeviceSent(st, e.conn, e.n, e.body), to) in Note(st, e);
      }
    }
  }
}
