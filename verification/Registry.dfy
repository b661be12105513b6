/**
 * The relay's account bindings and routing registrations: bindingFor, bindHost and the
 * pairing handlers of internal/fakerelay, on values.
 */
module Registry {

  datatype Binding = Binding(account: string, lastAttach: int)

  datatype Pairing = Pairing(id: string, channel: string, host: string, device: string, account: string)

  datatype Registry = Registry(
    bindings: map<string, Binding>,     // host_id -> account binding
    pairings: map<string, Pairing>,     // pairing_id -> pairing
    channels: map<string, Pairing>)     // channel_id -> pairing

  predicate HasPairings(r: Registry, host: string) {
    exists id :: id in r.pairings && r.pairings[id].host == host
  }

  predicate Paired(pairings: map<string, Pairing>, device: string) {
    exists id :: id in pairings && pairings[id].device == device
  }

  /** No mailbox without its channel's pairing, no token without a pairing of its device. */
  predicate NothingOrphaned(pairings: map<string, Pairing>, channels: set<string>, boxes: set<string>, tokens: set<string>) {
    boxes <= channels && forall d :: d in tokens ==> Paired(pairings, d)
  }

  /** Without pairings and idle for the whole horizon. */
  predicate Reapable(r: Registry, host: string, now: int, idle: int) {
    host in r.bindings && !HasPairings(r, host) && now - r.bindings[host].lastAttach >= idle
  }

  /** Every look at a binding reaps it first if it is due. */
  function Reap(r: Registry, host: string, now: int, idle: int): Registry {
    if Reapable(r, host, now, idle) then r.(bindings := r.bindings - {host}) else r
  }

  predicate BoundTo(r: Registry, host: string, sub: string) {
    host in r.bindings && r.bindings[host].account == sub
  }

  /** Trust on first use; a host bound to another account is refused. */
  function BindHost(r: Registry, host: string, sub: string, now: int, idle: int): Registry {
    var r' := Reap(r, host, now, idle);
    if host in r'.bindings && r'.bindings[host].account != sub then r'
    else r'.(bindings := r'.bindings[host := Binding(sub, now)])
  }

  function Touch(r: Registry, host: string, now: int): Registry {
    if host in r.bindings then r.(bindings := r.bindings[host := r.bindings[host].(lastAttach := now)]) else r
  }

  datatype Outcome = Created | Deleted(pairing: Pairing) | Forbidden | Conflict | NotFound

  datatype Change = Change(reg: Registry, out: Outcome)

  /** Only the account the host is bound to, and never a channel twice. */
  function CreatePairing(r: Registry, p: Pairing, now: int, idle: int): Change {
    var r' := Reap(r, p.host, now, idle);
    if !BoundTo(r', p.host, p.account) then Change(r', Forbidden)
    else if p.channel in r'.channels then Change(r', Conflict)
    else Change(r'.(pairings := r'.pairings[p.id := p], channels := r'.channels[p.channel := p]), Created)
  }

  function DeletePairing(r: Registry, id: string, sub: string): Change {
    if id !in r.pairings then Change(r, NotFound)
    else if r.pairings[id].account != sub then Change(r, Forbidden)
    else
      var p := r.pairings[id];
      Change(r.(pairings := r.pairings - {id}, channels := r.channels - {p.channel}), Deleted(p))
  }

  // ---------------------------------------------------------------------
  // What every operation keeps
  // ---------------------------------------------------------------------

  /** The channel index and a scan over all pairings agree. */
  predicate Indexed(r: Registry) {
    && (forall id :: id in r.pairings ==>
          var p := r.pairings[id];
          p.id == id && p.channel in r.channels && r.channels[p.channel] == p)
    && (forall c :: c in r.channels ==>
          var p := r.channels[c];
          p.channel == c && p.id in r.pairings && r.pairings[p.id] == p)
  }

  /** Each pairing's account is its host's live binding. */
  predicate AccountsBound(r: Registry) {
    forall id :: id in r.pairings ==> BoundTo(r, r.pairings[id].host, r.pairings[id].account)
  }

  predicate Consistent(r: Registry) { Indexed(r) && AccountsBound(r) }

  lemma ReapConsistent(r: Registry, host: string, now: int, idle: int)
    requires Consistent(r)
    ensures Consistent(Reap(r, host, now, idle))
  {
  }

  lemma BindConsistent(r: Registry, host: string, sub: string, now: int, idle: int)
    requires Consistent(r)
    ensures Consistent(BindHost(r, host, sub, now, idle))
  {
    ReapConsistent(r, host, now, idle);
  }

  lemma TouchConsistent(r: Registry, host: string, now: int)
    requires Consistent(r)
    ensures Consistent(Touch(r, host, now))
  {
  }

  /** With a pairing id that is not in use. */
  lemma CreateConsistent(r: Registry, p: Pairing, now: int, idle: int)
    requires Consistent(r) && p.id !in r.pairings
    ensures Consistent(CreatePairing(r, p, now, idle).reg)
  {
    ReapConsistent(r, p.host, now, idle);
  }

  lemma DeleteConsistent(r: Registry, id: string, sub: string)
    requires Consistent(r)
    ensures Consistent(DeletePairing(r, id, sub).reg)
  {
    var r' := DeletePairing(r, id, sub).reg;
    if DeletePairing(r, id, sub).out.Deleted? {
      var p := r.pairings[id];
      forall other | other in r'.pairings ensures r'.pairings[other].channel in r'.channels {
        assert r.channels[r.pairings[other].channel] == r.pairings[other];
        assert r.channels[p.channel] == p;
      }
    }
  }

  /** No registration is lost or altered. */
  predicate Grows(r: Registry, r': Registry) {
    && (forall id :: id in r.pairings ==> id in r'.pairings && r'.pairings[id] == r.pairings[id])
    && r.channels.Keys <= r'.channels.Keys
  }

  /** Looking a channel up in the index is the same as scanning the pairings for it. */
  lemma LookupIsScan(r: Registry, channel: string, p: Pairing)
    requires Indexed(r)
    ensures channel in r.channels && r.channels[channel] == p
       <==> p.channel == channel && p.id in r.pairings && r.pairings[p.id] == p
  {
  }
}
