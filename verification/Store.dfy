/**
 * The relay's store, MemStore of internal/relay/store.go: maps updated in place under one
 * lock, with two derived indexes. Its registrations are proved to be those of Registry, so
 * both relays keep the same books.
 */
module Store {
  import opened Common
  import opened Books = Registry
  import MB = Mailbox

  datatype Window = Window(id: string, host: string, provisional: string, expires: int, attaches: nat)

  // ---------------------------------------------------------------------
  // The indexes and the scans they stand for
  // ---------------------------------------------------------------------

  /** Channel ids point at the pairings that carry them, and at nothing else. */
  predicate ChannelIndex(pairings: map<string, Pairing>, byChannel: map<string, string>) {
    && (forall id :: id in pairings ==>
          pairings[id].id == id && pairings[id].channel in byChannel && byChannel[pairings[id].channel] == id)
    && (forall c :: c in byChannel ==> byChannel[c] in pairings && pairings[byChannel[c]].channel == c)
  }

  /** Host ids point at their windows, and at nothing else. */
  predicate WindowIndex(windows: map<string, Window>, winByHost: map<string, string>) {
    && (forall id :: id in windows ==>
          windows[id].id == id && windows[id].host in winByHost && winByHost[windows[id].host] == id)
    && (forall h :: h in winByHost ==> winByHost[h] in windows && windows[winByHost[h]].host == h)
  }

  /** So a host has at most one window. */
  lemma OneWindowPerHost(windows: map<string, Window>, winByHost: map<string, string>, i: string, j: string)
    requires WindowIndex(windows, winByHost) && i in windows && j in windows && windows[i].host == windows[j].host
    ensures i == j
  {
    assert winByHost[windows[i].host] == i && winByHost[windows[j].host] == j;
  }

  /** The channel index with the pairings filled in. */
  function Channels(pairings: map<string, Pairing>, byChannel: map<string, string>): map<string, Pairing>
    requires ChannelIndex(pairings, byChannel)
  {
    map c | c in byChannel :: pairings[byChannel[c]]
  }

  lemma ChannelsIndexed(bindings: map<string, Binding>, pairings: map<string, Pairing>, byChannel: map<string, string>)
    requires ChannelIndex(pairings, byChannel)
    ensures Indexed(Registry(bindings, pairings, Channels(pairings, byChannel)))
  {
  }

  class MemStore {
    const idleReap: int
    var bindings: map<string, Binding>
    var pairings: map<string, Pairing>
    var byChannel: map<string, string>
    var windows: map<string, Window>
    var winByHost: map<string, string>
    var mailboxes: map<string, seq<MB.Item>>
    var apns: map<string, string>

    ghost predicate Valid()
      reads this`pairings, this`byChannel, this`windows, this`winByHost
    {
      ChannelIndex(pairings, byChannel) && WindowIndex(windows, winByHost)
    }

    ghost function Reg(): (r: Registry)
      requires Valid()
      reads this`bindings, this`pairings, this`byChannel, this`windows, this`winByHost
      ensures Indexed(r)
    {
      ChannelsIndexed(bindings, pairings, byChannel);
      Registry(bindings, pairings, Channels(pairings, byChannel))
    }

    ghost predicate Clean()
      reads this`pairings, this`byChannel, this`mailboxes, this`apns
    {
      NothingOrphaned(pairings, byChannel.Keys, mailboxes.Keys, apns.Keys)
    }

    constructor (idleReap: int)
      ensures Valid() && Clean() && Reg() == Registry(map[], map[], map[]) && windows == map[]
      ensures this.idleReap == if idleReap <= 0 then DEFAULT_IDLE_REAP else idleReap
    {
      this.idleReap := if idleReap <= 0 then DEFAULT_IDLE_REAP else idleReap;
      bindings, pairings, byChannel := map[], map[], map[];
      windows, winByHost := map[], map[];
      mailboxes, apns := map[], map[];
    }

    // -------------------------------------------------------------------
    // Bindings
    // -------------------------------------------------------------------

    method HostHasPairings(host: string) returns (has: bool)
      ensures has <==> exists id :: id in pairings && pairings[id].host == host
    {
      var rest := pairings.Keys;
      while rest != {}
        invariant rest <= pairings.Keys
        invariant forall id :: id in pairings && pairings[id].host == host ==> id in rest
        decreases rest
      {
        var id :| id in rest;
        if pairings[id].host == host {
          return true;
        }
        rest := rest - {id};
      }
      return false;
    }

    /** LookupBinding: reap first, then answer. */
    method LookupBinding(host: string, now: int) returns (b: Option<Binding>)
      requires Valid()
      modifies this`bindings
      ensures Valid() && Reg() == Reap(old(Reg()), host, now, idleReap)
      ensures b == if host in bindings then Some(bindings[host]) else None
    {
      if host !in bindings {
        return None;
      }
      var paired := HostHasPairings(host);
      if !paired && now - bindings[host].lastAttach >= idleReap {
        bindings := bindings - {host};
        return None;
      }
      return Some(bindings[host]);
    }

    method BindHost(host: string, sub: string, now: int) returns (ok: bool)
      requires Valid()
      modifies this`bindings
      ensures Valid() && Reg() == Books.BindHost(old(Reg()), host, sub, now, idleReap)
      ensures ok <==> BoundTo(Reg(), host, sub)
    {
      var b := LookupBinding(host, now);
      if b.Some? && b.value.account != sub {
        return false;
      }
      bindings := bindings[host := Binding(sub, now)];
      return true;
    }

    method TouchBinding(host: string, now: int)
      requires Valid()
      modifies this`bindings
      ensures Valid() && Reg() == Touch(old(Reg()), host, now)
    {
      if host in bindings {
        bindings := bindings[host := bindings[host].(lastAttach := now)];
      }
    }

    // -------------------------------------------------------------------
    // Pairings
    // -------------------------------------------------------------------

    /** Refuses a channel that is taken; the pairing id is new. */
    method CreatePairing(p: Pairing) returns (ok: bool)
      requires Valid() && p.id !in pairings
      modifies this`pairings, this`byChannel
      ensures Valid() && ok == (p.channel !in old(byChannel))
      ensures ok ==> Reg() == old(Reg()).(pairings := old(pairings)[p.id := p], channels := old(Reg()).channels[p.channel := p])
      ensures !ok ==> Reg() == old(Reg())
      ensures old(Clean()) ==> Clean()
    {
      if p.channel in byChannel {
        return false;
      }
      AddIndexed(pairings, byChannel, p);
      if Clean() {
        AddClean(pairings, byChannel.Keys, mailboxes.Keys, apns.Keys, p);
      }
      pairings := pairings[p.id := p];
      byChannel := byChannel[p.channel := p.id];
      return true;
    }

    /** The index lookup finds exactly the pairing a scan over all pairings finds. */
    method PairingByChannel(c: string) returns (p: Option<Pairing>)
      requires Valid()
      ensures p.Some? ==> p.value.channel == c && p.value.id in pairings && pairings[p.value.id] == p.value
      ensures p.None? <==> forall id :: id in pairings ==> pairings[id].channel != c
      ensures forall id :: id in pairings && pairings[id].channel == c ==> p == Some(pairings[id])
    {
      if c !in byChannel {
        return None;
      }
      var id := byChannel[c];
      if id !in pairings {
        return None;
      }
      return Some(pairings[id]);
    }

    method PairingsForDevice(device: string) returns (out: seq<Pairing>)
      requires Valid()
      ensures forall p :: p in out <==> p.device == device && p.id in pairings && pairings[p.id] == p
      ensures forall i, j :: 0 <= i < j < |out| ==> out[i] != out[j]
    {
      out := [];
      var rest := pairings.Keys;
      while rest != {}
        invariant rest <= pairings.Keys
        invariant forall p :: p in out <==> p.device == device && p.id in pairings.Keys - rest && pairings[p.id] == p
        invariant forall i, j :: 0 <= i < j < |out| ==> out[i] != out[j]
        decreases rest
      {
        var id :| id in rest;
        if pairings[id].device == device {
          assert pairings[id] !in out;
          out := out + [pairings[id]];
        }
        rest := rest - {id};
      }
    }

    /** Whether another pairing still has the device. */
    method StillPaired(device: string) returns (still: bool)
      ensures still == Paired(pairings, device)
    {
      var rest := pairings.Keys;
      still := false;
      while rest != {}
        invariant rest <= pairings.Keys && !still
        invariant forall id :: id in pairings && pairings[id].device == device ==> id in rest
        decreases rest
      {
        var id :| id in rest;
        if pairings[id].device == device {
          still := true;
          break;
        }
        rest := rest - {id};
      }
    }

    method Purge(p: Pairing)
      modifies this`mailboxes, this`apns
      ensures mailboxes == old(mailboxes) - {p.channel} && mailboxes.Keys == old(mailboxes.Keys) - {p.channel}
      ensures apns == if Paired(pairings, p.device) then old(apns) else old(apns) - {p.device}
      ensures apns.Keys == if Paired(pairings, p.device) then old(apns.Keys) else old(apns.Keys) - {p.device}
    {
      mailboxes := mailboxes - {p.channel};
      var still := StillPaired(p.device);
      if !still {
        apns := apns - {p.device};
      }
    }

    method Unregister(id: string)
      requires Valid() && id in pairings
      modifies this`pairings, this`byChannel
      ensures Valid() && pairings == old(pairings) - {id}
      ensures byChannel.Keys == old(byChannel.Keys) - {old(pairings)[id].channel}
      ensures Reg() == Books.DeletePairing(old(Reg()), id, old(pairings)[id].account).reg
    {
      DropIndexed(pairings, byChannel, id);
      byChannel := byChannel - {pairings[id].channel};
      pairings := pairings - {id};
    }

    /** Removes the registration with its mailbox, and the token if this was the device's last pairing. */
    method DeletePairing(id: string) returns (p: Option<Pairing>)
      requires Valid()
      modifies this`pairings, this`byChannel, this`mailboxes, this`apns
      ensures Valid() && p == if id in old(pairings) then Some(old(pairings)[id]) else None
      ensures p.None? ==> Reg() == old(Reg()) && mailboxes == old(mailboxes) && apns == old(apns)
      ensures p.Some? ==> Reg() == Books.DeletePairing(old(Reg()), id, p.value.account).reg
      ensures p.Some? ==> mailboxes == old(mailboxes) - {p.value.channel}
      ensures p.Some? ==> apns == if Paired(pairings, p.value.device) then old(apns) else old(apns) - {p.value.device}
      ensures old(Clean()) ==> Clean()
    {
      if id !in pairings {
        return None;
      }
      var gone := pairings[id];
      if Clean() {
        DropClean(pairings, byChannel.Keys, mailboxes.Keys, apns.Keys, id);
      }
      Unregister(id);
      Purge(gone);
      return Some(gone);
    }

    // -------------------------------------------------------------------
    // Windows
    // -------------------------------------------------------------------

    /** Opens the window in place of the host's previous one, which is handed back. */
    method OpenWindow(w: Window) returns (displaced: Option<Window>)
      requires Valid() && w.id !in windows
      modifies this`windows, this`winByHost
      ensures Valid()
      ensures forall id :: id in windows <==> id == w.id || (id in old(windows) && old(windows)[id].host != w.host)
      ensures windows[w.id] == w && forall id :: id in windows && id != w.id ==> windows[id] == old(windows)[id]
      ensures forall v :: displaced == Some(v) <==> v.id in old(windows) && old(windows)[v.id] == v && v.host == w.host
    {
      displaced := None;
      if w.host in winByHost {
        var prior := winByHost[w.host];
        if prior in windows {
          displaced := Some(windows[prior]);
          windows := windows - {prior};
        }
        winByHost := winByHost - {w.host};
      }
      windows := windows[w.id := w];
      winByHost := winByHost[w.host := w.id];
    }

    /** The host's unexpired window if a scan finds one; an expired one is removed. */
    method WindowForHost(host: string, now: int) returns (w: Option<Window>)
      requires Valid()
      modifies this`windows, this`winByHost
      ensures Valid()
      ensures forall v :: w == Some(v) <==> v.id in old(windows) && old(windows)[v.id] == v && v.host == host && now < v.expires
      ensures forall id :: id in windows <==> id in old(windows) && !(old(windows)[id].host == host && now >= old(windows)[id].expires)
      ensures forall id :: id in windows ==> windows[id] == old(windows)[id]
    {
      if host !in winByHost {
        return None;
      }
      var id := winByHost[host];
      if id !in windows {
        return None;
      }
      var found := windows[id];
      if now >= found.expires {
        windows := windows - {id};
        winByHost := winByHost - {host};
        return None;
      }
      return Some(found);
    }

    /** Counts an attach unless the window has had `max` already (0 disables the guard). */
    method CountWindowAttach(id: string, max: int) returns (ok: bool)
      requires Valid()
      modifies this`windows
      ensures Valid() && winByHost == old(winByHost)
      ensures ok <==> id in old(windows) && (max <= 0 || old(windows)[id].attaches < max)
      ensures windows == if ok then old(windows)[id := old(windows)[id].(attaches := old(windows)[id].attaches + 1)] else old(windows)
    {
      if id !in windows {
        return false;
      }
      var w := windows[id];
      if max > 0 && w.attaches >= max {
        return false;
      }
      windows := windows[id := w.(attaches := w.attaches + 1)];
      return true;
    }

    method DeleteWindow(id: string) returns (w: Option<Window>)
      requires Valid()
      modifies this`windows, this`winByHost
      ensures Valid() && windows == old(windows) - {id}
      ensures w == if id in old(windows) then Some(old(windows)[id]) else None
    {
      if id !in windows {
        return None;
      }
      var gone := windows[id];
      windows := windows - {id};
      if gone.host in winByHost && winByHost[gone.host] == id {
        winByHost := winByHost - {gone.host};
      }
      return Some(gone);
    }

    // -------------------------------------------------------------------
    // Mailboxes and tokens
    // -------------------------------------------------------------------

    method AppendMailbox(c: string, it: MB.Item, pol: MB.Policy)
      modifies this`mailboxes
      ensures mailboxes == old(mailboxes)[c := MB.Append(if c in old(mailboxes) then old(mailboxes)[c] else [], it, it.at, pol)]
    {
      var held := if c in mailboxes then mailboxes[c] else [];
      mailboxes := mailboxes[c := MB.Append(held, it, it.at, pol)];
    }

    method PutApnsToken(device: string, token: string)
      modifies this`apns
      ensures apns == old(apns)[device := token]
    {
      apns := apns[device := token];
    }
  }

  // ---------------------------------------------------------------------
  // The handlers of internal/relay/handler.go that write registrations, each as one step
  // ---------------------------------------------------------------------

  method HandleCreatePairing(s: MemStore, p: Pairing, now: int) returns (out: Outcome)
    requires s.Valid() && p.id !in s.pairings
    modifies s`bindings, s`pairings, s`byChannel
    ensures s.Valid() && (old(s.Clean()) ==> s.Clean())
    ensures Change(s.Reg(), out) == Books.CreatePairing(old(s.Reg()), p, now, s.idleReap)
  {
    var b := s.LookupBinding(p.host, now);
    if b.None? || b.value.account != p.account {
      return Forbidden;
    }
    var ok := s.CreatePairing(p);
    return if ok then Created else Conflict;
  }

  method HandleDeletePairing(s: MemStore, id: string, sub: string) returns (out: Outcome)
    requires s.Valid()
    modifies s`pairings, s`byChannel, s`mailboxes, s`apns
    ensures s.Valid() && (old(s.Clean()) ==> s.Clean())
    ensures Change(s.Reg(), out) == Books.DeletePairing(old(s.Reg()), id, sub)
  {
    if id !in s.pairings {
      return NotFound;
    }
    if s.pairings[id].account != sub {
      return Forbidden;
    }
    var gone := s.DeletePairing(id);
    return Deleted(gone.value);
  }

  method HandleApnsRegister(s: MemStore, device: string, sub: string, token: string) returns (out: Outcome)
    requires s.Valid()
    modifies s`apns
    ensures s.Valid() && (old(s.Clean()) ==> s.Clean())
    ensures out.NotFound? <==> !Paired(s.pairings, device)
    ensures out.Created? <==> exists id :: id in s.pairings && s.pairings[id].device == device && s.pairings[id].account == sub
    ensures s.apns == if out.Created? then old(s.apns)[device := token] else old(s.apns)
  {
    var found := s.PairingsForDevice(device);
    if |found| == 0 {
      assert forall id :: id in s.pairings && s.pairings[id].device == device ==> s.pairings[id] in found;
      return NotFound;
    }
    assert found[0] in found;
    var owned := false;
    for i := 0 to |found|
      invariant owned <==> exists k :: 0 <= k < i && found[k].account == sub
    {
      if found[i].account == sub {
        owned := true;
        break;
      }
    }
    if !owned {
      assert forall id :: id in s.pairings && s.pairings[id].device == device ==> s.pairings[id] in found;
      return Forbidden;
    }
    s.PutApnsToken(device, token);
    return Created;
  }

  /** The mailbox arm of hostFrame: only for a registered channel of the sending host. */
  method HandleBoxedFrame(s: MemStore, host: string, c: string, it: MB.Item, pol: MB.Policy) returns (kept: bool)
    requires s.Valid()
    modifies s`mailboxes
    ensures s.Valid() && (old(s.Clean()) ==> s.Clean())
    ensures kept <==> exists id :: id in s.pairings && s.pairings[id].channel == c && s.pairings[id].host == host
    ensures s.mailboxes == if kept then old(s.mailboxes)[c := MB.Append(if c in old(s.mailboxes) then old(s.mailboxes)[c] else [], it, it.at, pol)]
                           else old(s.mailboxes)
  {
    var p := s.PairingByChannel(c);
    if p.None? || p.value.host != host {
      return false;
    }
    s.AppendMailbox(c, it, pol);
    return true;
  }

  const DEFAULT_IDLE_REAP: int := 30 * 24 * 3600 * 1_000_000_000

  lemma AddIndexed(pairings: map<string, Pairing>, byChannel: map<string, string>, p: Pairing)
    requires ChannelIndex(pairings, byChannel) && p.id !in pairings && p.channel !in byChannel
    ensures ChannelIndex(pairings[p.id := p], byChannel[p.channel := p.id])
    ensures Channels(pairings[p.id := p], byChannel[p.channel := p.id]) == Channels(pairings, byChannel)[p.channel := p]
  {
  }

  lemma AddClean(pairings: map<string, Pairing>, channels: set<string>, boxes: set<string>, tokens: set<string>, p: Pairing)
    requires NothingOrphaned(pairings, channels, boxes, tokens) && p.id !in pairings
    ensures NothingOrphaned(pairings[p.id := p], channels + {p.channel}, boxes, tokens)
  {
    forall d | d in tokens ensures Paired(pairings[p.id := p], d) {
      var id :| id in pairings && pairings[id].device == d;
      assert id in pairings[p.id := p];
    }
  }

  lemma DropClean(pairings: map<string, Pairing>, channels: set<string>, boxes: set<string>, tokens: set<string>, gone: string)
    requires NothingOrphaned(pairings, channels, boxes, tokens) && gone in pairings
    ensures var p, left := pairings[gone], pairings - {gone};
            NothingOrphaned(left, channels - {p.channel}, boxes - {p.channel}, if Paired(left, p.device) then tokens else tokens - {p.device})
  {
    forall d | d in tokens && d != pairings[gone].device ensures Paired(pairings - {gone}, d) {
      var id :| id in pairings && pairings[id].device == d;
      assert id in pairings - {gone};
    }
  }

  lemma DropIndexed(pairings: map<string, Pairing>, byChannel: map<string, string>, id: string)
    requires ChannelIndex(pairings, byChannel) && id in pairings
    ensures ChannelIndex(pairings - {id}, byChannel - {pairings[id].channel})
    ensures Channels(pairings - {id}, byChannel - {pairings[id].channel})
         == Channels(pairings, byChannel) - {pairings[id].channel}
  {
    forall c | c in byChannel && c != pairings[id].channel ensures byChannel[c] != id {
      assert pairings[byChannel[c]].channel == c;
    }
    forall k | k in pairings && k != id ensures pairings[k].channel != pairings[id].channel {
      assert byChannel[pairings[k].channel] == k;
    }
  }
}
