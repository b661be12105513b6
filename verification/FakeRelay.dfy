/**
 * The relay object of internal/fakerelay: its maps, updated in place by one method per
 * critical section. Every method is proved to be its step of RelayMachine.
 */
module FakeRelay {
  import opened Sequence
  import opened Registry
  import opened RelayMachine
  import opened RelayAccounts
  import MB = Mailbox

  /** What an action put on the send queue of connection `k`. */
  function SentTo(did: seq<Entry>, k: nat): seq<Frame> {
    if did != [] && (did[0].HostQueued? || did[0].DeviceQueued?) && k in did[0].to then [did[0].frame] else []
  }

  class Relay {
    const cfg: Config
    var clock: int
    var bindings: map<string, Binding>
    var pairings: map<string, Pairing>
    var channels: map<string, Pairing>
    var windows: map<string, Window>
    var provChans: map<string, Window>
    var mailboxes: map<string, MB.Mailbox>
    var apnsTok: map<string, string>
    var chanPres: map<string, bool>
    var hostConns: map<string, set<nat>>
    var devConns: map<string, set<nat>>
    var conns: map<nat, Info>
    var queues: map<nat, seq<Frame>>
    ghost var boxedBy: map<string, seq<nat>>

    ghost function Reg(): Registry
      reads this`bindings, this`pairings, this`channels
    {
      Registry(bindings, pairings, channels)
    }

    ghost function Boxes(): map<string, seq<MB.Item>>
      reads this`mailboxes, mailboxes.Values
    {
      map c | c in mailboxes :: mailboxes[c].items
    }

    ghost function Abs(): State
      reads this, mailboxes.Values
    {
      State(Reg(), windows, provChans, Boxes(), apnsTok, hostConns, devConns, chanPres, conns, boxedBy, clock)
    }

    /** Every channel has its own mailbox, and each mailbox counts its bytes. */
    ghost predicate Valid()
      reads this`mailboxes, mailboxes.Values
    {
      && (forall c :: c in mailboxes ==> mailboxes[c].Valid())
      && (forall c, d :: c in mailboxes && d in mailboxes && c != d ==> mailboxes[c] != mailboxes[d])
    }

    function Queue(k: nat): seq<Frame>
      reads this`queues
    {
      if k in queues then queues[k] else []
    }

    constructor (cfg: Config)
      ensures Valid() && Abs() == FRESH && this.cfg == cfg
    {
      this.cfg := cfg;
      clock := 0;
      bindings, pairings, channels := map[], map[], map[];
      windows, provChans := map[], map[];
      mailboxes, apnsTok, chanPres := map[], map[], map[];
      hostConns, devConns, conns, queues := map[], map[], map[], map[];
      boxedBy := map[];
    }

    // -------------------------------------------------------------------
    // Scans
    // -------------------------------------------------------------------

    method HostHasPairings(host: string) returns (has: bool)
      ensures has == HasPairings(Reg(), host)
    {
      var rest := pairings.Keys;
      while rest != {}
        invariant rest <= pairings.Keys
        invariant forall id :: id in pairings && pairings[id].host == host ==> id in rest
        decreases rest
      {
        var id :| id in rest;
        if pairings[id].host == host {
          return true;
        }
        rest := rest - {id};
      }
      return false;
    }

    method StillPaired(device: string) returns (still: bool)
      ensures still == Paired(Reg().pairings, device)
    {
      var rest := pairings.Keys;
      still := false;
      while rest != {}
        invariant rest <= pairings.Keys && !still
        invariant forall id :: id in pairings && pairings[id].device == device ==> id in rest
        decreases rest
      {
        var id :| id in rest;
        if pairings[id].device == device {
          still := true;
          break;
        }
        rest := rest - {id};
      }
    }

    method WindowForHost(host: string) returns (ok: bool, w: Window)
      ensures ok <==> exists id :: id in windows && windows[id].host == host
      ensures ok ==> w.host == host && exists id :: id in windows && windows[id] == w
    {
      w := Window("", "", "");
      var rest := windows.Keys;
      while rest != {}
        invariant rest <= windows.Keys
        invariant forall id :: id in windows && windows[id].host == host ==> id in rest
        decreases rest
      {
        var id :| id in rest;
        if windows[id].host == host {
          return true, windows[id];
        }
        rest := rest - {id};
      }
      return false, w;
    }

    /** Is the device in any pairing, and in one of this account? */
    method DeviceScan(device: string, sub: string) returns (known: bool, owned: bool)
      ensures known == Paired(Reg().pairings, device)
      ensures owned == OwnsDevice(Reg(), device, sub)
    {
      known, owned := false, false;
      var rest := pairings.Keys;
      while rest != {}
        invariant rest <= pairings.Keys && !owned
        invariant known <==> exists id :: id in pairings.Keys - rest && pairings[id].device == device
        invariant forall id :: id in pairings && pairings[id].device == device && pairings[id].account == sub ==> id in rest
        decreases rest
      {
        var id :| id in rest;
        rest := rest - {id};
        if pairings[id].device == device {
          assert id in pairings.Keys - rest;
          known := true;
          if pairings[id].account == sub {
            owned := true;
            break;
          }
        }
      }
    }

    // -------------------------------------------------------------------
    // Bindings
    // -------------------------------------------------------------------

    method BindingFor(host: string) returns (ok: bool)
      modifies this`bindings
      ensures Reg() == Reap(old(Reg()), host, clock, cfg.idle)
      ensures ok <==> host in bindings
    {
      if host !in bindings {
        return false;
      }
      var paired := HostHasPairings(host);
      if !paired && clock - bindings[host].lastAttach >= cfg.idle {
        bindings := bindings - {host};
        return false;
      }
      return true;
    }

    method LookUp(host: string) returns (ok: bool)
      modifies this`bindings
      ensures Abs() == Step(old(Abs()), cfg, Look(host))
      ensures ok <==> host in bindings
    {
      ok := BindingFor(host);
    }

    method BindHost(host: string, sub: string) returns (ok: bool)
      modifies this`bindings
      ensures Abs() == Step(old(Abs()), cfg, HostBind(host, sub))
      ensures ok <==> BoundTo(Reg(), host, sub)
    {
      ok := BindingFor(host);
      if ok && bindings[host].account != sub {
        return false;
      }
      bindings := bindings[host := Binding(sub, clock)];
      return true;
    }
  
    // -------------------------------------------------------------------
    // Connections
    // -------------------------------------------------------------------

    method CommitHost(conn: nat, host: string, sub: string)
      requires conn !in conns
      modifies this`hostConns, this`conns
      ensures Abs() == Step(old(Abs()), cfg, HostCommit(conn, host, sub))
    {
      hostConns := hostConns[host := At(hostConns, host) + {conn}];
      conns := conns[conn := HostInfo(host, sub)];
    }

    method DetachHost(conn: nat)
      requires IsHostConn(Abs(), conn)
      modifies this`hostConns, this`bindings
      ensures Abs() == Step(old(Abs()), cfg, HostDetach(conn))
    {
      var host := conns[conn].host;
      hostConns := hostConns[host := hostConns[host] - {conn}];
      if host in bindings {
        bindings := bindings[host := bindings[host].(lastAttach := clock)];
      }
    }

    /** Record the state; `told` says whether the host connections were sent the change. */
    method SetDevAttached(c: string, v: bool) returns (told: bool)
      modifies this`chanPres
      ensures chanPres == old(chanPres)[c := v]
      ensures told <==> (c in old(chanPres) && old(chanPres)[c]) != v && c in channels
    {
      if c !in chanPres {
        chanPres := chanPres[c := false];
      }
      var changed := chanPres[c] != v;
      chanPres := chanPres[c := v];
      told := changed && c in channels;
    }

    /** List the connection; `only` says it is the only one now. */
    method ListDevice(conn: nat, c: string) returns (only: bool)
      requires conn !in At(devConns, c)
      modifies this`devConns
      ensures Abs() == old(Abs()).(devConns := old(devConns)[c := At(old(devConns), c) + {conn}])
      ensures only <==> At(old(devConns), c) == {}
    {
      OneMore(At(devConns, c), conn);
      if c !in devConns {
        devConns := devConns[c := {}];
      }
      devConns := devConns[c := devConns[c] + {conn}];
      only := |devConns[c]| == 1;
    }

    /** Only a 0-to-1 or 1-to-0 transition is recorded and published. */
    method SetIf(change: bool, c: string, v: bool) returns (told: bool)
      modifies this`chanPres
      ensures Abs() == old(Abs()).(attached := if change then old(chanPres)[c := v] else old(chanPres))
      ensures told <==> change && IsAttached(old(Abs()), c) != v && c in channels
    {
      told := false;
      if change {
        told := SetDevAttached(c, v);
      }
    }

    method Admit(conn: nat, info: Info)
      modifies this`conns
      ensures Abs() == old(Abs()).(infos := old(conns)[conn := info])
    {
      conns := conns[conn := info];
    }

    method CommitDevice(conn: nat, c: string, sub: string) returns (did: seq<Entry>)
      requires conn !in conns && conn !in At(devConns, c)
      modifies this`devConns, this`conns, this`chanPres
      ensures Abs() == AttachDevice(old(Abs()), conn, c, sub)
      ensures did == [NoteAttach(old(Abs()), conn, c)]
    {
      var only := ListDevice(conn, c);
      Admit(conn, DevInfo(c, sub));
      var told := SetIf(only, c, true);
      did := [Attached(c, conn, told)];
    }

    method DetachDevice(conn: nat) returns (did: seq<Entry>)
      requires IsDevConn(Abs(), conn)
      modifies this`devConns, this`chanPres
      ensures Abs() == RelayMachine.DetachDevice(old(Abs()), conn, conns[conn].channel)
      ensures did == NoteDetach(old(Abs()), conn, conns[conn].channel)
    {
      var c := conns[conn].channel;
      if c !in devConns {
        return [];
      }
      devConns := devConns[c := devConns[c] - {conn}];
      var told := SetIf(|devConns[c]| == 0, c, false);
      did := [Detached(c, conn, told)];
    }

    // -------------------------------------------------------------------
    // Frames
    // -------------------------------------------------------------------

    method Forward(f: Frame, to: set<nat>)
      modifies this`queues
      ensures forall k: nat :: Queue(k) == old(Queue(k)) + if k in to then [f] else []
    {
      var rest := to;
      while rest != {}
        invariant rest <= to
        invariant forall k: nat :: Queue(k) == old(Queue(k)) + if k in to && k !in rest then [f] else []
        decreases rest
      {
        var k: nat :| k in rest;
        queues := queues[k := Queue(k) + [f]];
        rest := rest - {k};
      }
    }

    method AddMailbox(c: string)
      requires Valid() && c !in mailboxes
      modifies this`mailboxes
      ensures Valid() && c in mailboxes && fresh(mailboxes[c])
      ensures Boxes() == old(Boxes())[c := []]
    {
      var mb := new MB.Mailbox();
      mailboxes := mailboxes[c := mb];
    }

    method AppendTo(c: string, it: MB.Item)
      requires Valid() && c in mailboxes
      modifies mailboxes[c]
      ensures Valid() && Boxes() == old(Boxes())[c := Boxes()[c]]
      ensures Boxes()[c] == MB.Append(old(Boxes())[c], it, clock, cfg.policy)
    {
      mailboxes[c].AppendItem(it, clock, cfg.policy);
      forall d | d in mailboxes && d != c ensures mailboxes[d].items == old(mailboxes[d].items) {
      }
    }

    /** The mailbox of the channel, made if it is not there. */
    method OpenMailbox(c: string)
      requires Valid()
      modifies this`mailboxes
      ensures Valid() && c in mailboxes && (mailboxes[c] in old(mailboxes.Values) || fresh(mailboxes[c]))
      ensures Boxes() == old(Boxes())[c := HeldIn(old(Boxes()), c)]
    {
      if c !in mailboxes {
        AddMailbox(c);
      }
    }

    method PutMailbox(c: string, it: MB.Item)
      requires Valid()
      modifies this`mailboxes, mailboxes.Values
      ensures Valid() && Boxes() == old(Boxes())[c := MB.Append(HeldIn(old(Boxes()), c), it, clock, cfg.policy)]
    {
      OpenMailbox(c);
      AppendTo(c, it);
    }

    /** Arm 1 of hostFrame: verbatim to every attached device. */
    method QueueFrame(host: string, f: Frame) returns (did: seq<Entry>)
      requires Routable(Abs(), host, f.channel) && f.channel in devConns && devConns[f.channel] != {}
      modifies this`queues
      ensures did == NoteHost(Abs(), host, f)
      ensures forall k: nat :: Queue(k) == old(Queue(k)) + SentTo(did, k)
    {
      Forward(f, devConns[f.channel]);
      return [HostQueued(f, devConns[f.channel])];
    }

    /** History only: whose frame the mailbox was given. */
    ghost method NoteSender(f: Frame)
      modifies this`boxedBy
      ensures Abs() == old(Abs()).(boxedBy := old(boxedBy)[f.channel := By(old(Abs()), f.channel) + [f.from]])
    {
      boxedBy := boxedBy[f.channel := By(Abs(), f.channel) + [f.from]];
    }

    /** Arm 2: no device is attached, so whole into the mailbox. */
    method BoxFrame(host: string, f: Frame)
      requires Valid() && Routable(Abs(), host, f.channel) && At(devConns, f.channel) == {}
      modifies this`mailboxes, mailboxes.Values, this`boxedBy
      ensures Valid() && Abs() == RouteHost(old(Abs()), cfg, host, f)
    {
      RoutedToBox(Abs(), cfg, host, f);
      PutMailbox(f.channel, ItemOf(f, clock));
      NoteSender(f);
    }

    method HandleHostFrame(conn: nat, f: Frame) returns (did: seq<Entry>)
      requires Valid() && IsHostConn(Abs(), conn)
      modifies this`queues, this`mailboxes, mailboxes.Values, this`boxedBy
      ensures Valid() && Abs() == RouteHost(old(Abs()), cfg, conns[conn].host, f)
      ensures did == NoteHost(old(Abs()), conns[conn].host, f)
      ensures forall k: nat :: Queue(k) == old(Queue(k)) + SentTo(did, k)
    {
      if f.channel in provChans {
        return [];      // pairing traffic: forwarded to pairing attaches, never mailboxed
      }
      if f.channel !in channels || channels[f.channel].host != conns[conn].host {
        return [];
      }
      if f.channel in devConns && |devConns[f.channel]| > 0 {
        did := QueueFrame(conns[conn].host, f);
      } else {
        BoxFrame(conns[conn].host, f);
        did := [Boxed(f, clock)];
      }
    }

    /** A device may send on its own channel only, and never sets a push class; otherwise it is closed. */
    method HandleDeviceFrame(conn: nat, f: Frame) returns (did: seq<Entry>, open: bool)
      requires IsDevConn(Abs(), conn) && f.from == conn
      modifies this`queues
      ensures open <==> f == DeviceSent(Abs(), conn, f.n, f.body) && f.channel in channels
      ensures did == if open then Note(Abs(), DeviceFrame(conn, f.n, f.body)) else []
      ensures forall k: nat :: Queue(k) == old(Queue(k)) + SentTo(did, k)
    {
      if f.pushClass != "none" {
        return [], false;
      }
      if f.channel != conns[conn].channel {
        return [], false;
      }
      if f.channel !in channels {
        return [], false;      // pairing deleted while attached
      }
      var host := channels[f.channel].host;
      if host !in hostConns || |hostConns[host]| == 0 {
        return [], true;
      }
      Forward(f, hostConns[host]);
      return [DeviceQueued(f, hostConns[host])], true;
    }

    method MailboxGet(c: string, after: u64, limit: nat) returns (r: MB.Fetched)
      requires Valid()
      modifies mailboxes.Values
      ensures Valid()
      ensures Abs() == if c in old(Boxes()) then PruneBox(old(Abs()), cfg, c) else old(Abs())
      ensures r == MB.Fetch(Box(Abs(), c), after, limit)
    {
      if c in mailboxes {
        r := mailboxes[c].Get(after, limit, clock, cfg.policy.ttl);
      } else {
        r := MB.Fetched([], after, false);
      }
    }

    // -------------------------------------------------------------------
    // Windows and pairings
    // -------------------------------------------------------------------

    method ExpireWindowLocked(w: Window)
      modifies this`windows, this`provChans
      ensures windows == old(windows) - {w.id} && provChans == old(provChans) - {w.provisional}
    {
      provChans := provChans - {w.provisional};
      windows := windows - {w.id};
    }

    /** Open `w` in place of the window its host has now. */
    method SwapWindow(w: Window)
      requires WindowsAgree(windows, provChans)
      modifies this`windows, this`provChans
      ensures windows == Others(old(windows), w.host)[w.id := w]
      ensures provChans == Others(old(provChans), w.host)[w.provisional := w]
    {
      var found, prior := WindowForHost(w.host);
      if found {
        OnlyWindow(windows, provChans, prior);
        ExpireWindowLocked(prior);
      }
      windows := windows[w.id := w];
      provChans := provChans[w.provisional := w];
    }

    method HandleOpenWindow(w: Window, sub: string) returns (ok: bool)
      requires WindowsAgree(windows, provChans)
      modifies this`bindings, this`windows, this`provChans
      ensures Abs() == OpenFor(old(Abs()), cfg, w, sub)
      ensures ok <==> BoundTo(Reg(), w.host, sub)
    {
      ok := BindingFor(w.host);
      if !ok || bindings[w.host].account != sub {
        return false;
      }
      SwapWindow(w);
      return true;
    }

    method HandleCreatePairing(p: Pairing) returns (out: Outcome)
      modifies this`bindings, this`pairings, this`channels
      ensures Change(Reg(), out) == CreatePairing(old(Reg()), p, clock, cfg.idle)
    {
      var bound := BindingFor(p.host);
      if !bound || bindings[p.host].account != p.account {
        return Forbidden;
      }
      if p.channel in channels {
        return Conflict;
      }
      pairings := pairings[p.id := p];
      channels := channels[p.channel := p];
      return Created;
    }

    method DropChannel(c: string)
      modifies this`mailboxes, this`chanPres, this`devConns, this`boxedBy
      ensures mailboxes == old(mailboxes) - {c}
      ensures Abs() == old(Abs()).(boxes := old(Boxes()) - {c}, attached := old(chanPres) - {c},
                                   devConns := old(devConns) - {c}, boxedBy := old(boxedBy) - {c})
    {
      boxedBy := boxedBy - {c};
      mailboxes := mailboxes - {c};
      chanPres := chanPres - {c};
      devConns := devConns - {c};
      assert Boxes() == old(Boxes()) - {c};
    }

    method DropToken(device: string)
      modifies this`apnsTok
      ensures Abs() == old(Abs()).(apns := if Paired(pairings, device) then old(apnsTok) else old(apnsTok) - {device})
    {
      var still := StillPaired(device);
      if !still {
        apnsTok := apnsTok - {device};
      }
    }

    method HandleApnsRegister(device: string, sub: string, token: string) returns (out: Outcome)
      modifies this`apnsTok
      ensures Abs() == Step(old(Abs()), cfg, RegisterToken(device, sub, token))
      ensures out == if !Paired(Reg().pairings, device) then NotFound
                     else if OwnsDevice(Reg(), device, sub) then Created else Forbidden
    {
      var known, owned := DeviceScan(device, sub);
      if !known {
        return NotFound;
      }
      if !owned {
        return Forbidden;
      }
      apnsTok := apnsTok[device := token];
      return Created;
    }

    method UnhookPairing(p: Pairing)
      modifies this`mailboxes, this`chanPres, this`apnsTok, this`devConns, this`boxedBy
      ensures Abs() == Unhook(old(Abs()), p) && (old(Valid()) ==> Valid())
    {
      DropChannel(p.channel);
      DropToken(p.device);
    }

    method HandleDeletePairing(id: string, sub: string) returns (out: Outcome)
      requires Valid()
      modifies this`pairings, this`channels, this`mailboxes, this`chanPres, this`apnsTok, this`devConns, this`boxedBy
      ensures Valid() && Abs() == DropPairing(old(Abs()), id, sub)
      ensures out == DeletePairing(old(Reg()), id, sub).out
    {
      if id !in pairings {
        return NotFound;
      }
      var p := pairings[id];
      if p.account != sub {
        return Forbidden;
      }
      pairings := pairings - {id};
      channels := channels - {p.channel};
      assert Abs() == old(Abs()).(reg := DeletePairing(old(Reg()), id, sub).reg);
      UnhookPairing(p);
      return Deleted(p);
    }
  }

  lemma OnlyWindow(windows: map<string, Window>, provChans: map<string, Window>, w: Window)
    requires WindowsAgree(windows, provChans) && w.id in windows && windows[w.id] == w
    ensures windows - {w.id} == Others(windows, w.host)
    ensures provChans - {w.provisional} == Others(provChans, w.host)
  {
    forall c | c in provChans ensures provChans[c].host == w.host <==> c == w.provisional {
      assert windows[provChans[c].id] == provChans[c];
    }
  }

  lemma RoutedToBox(st: State, cfg: Config, host: string, f: Frame)
    requires Routable(st, host, f.channel) && At(st.devConns, f.channel) == {}
    ensures var boxed := st.(boxes := st.boxes[f.channel := MB.Append(HeldIn(st.boxes, f.channel), ItemOf(f, st.clock), st.clock, cfg.policy)]);
            RouteHost(st, cfg, host, f) == boxed.(boxedBy := boxed.boxedBy[f.channel := By(boxed, f.channel) + [f.from]])
  {
  }

  lemma OneMore(s: set<nat>, k: nat)
    requires k !in s
    ensures |s + {k}| == |s| + 1
  {
  }
}
