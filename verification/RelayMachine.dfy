/**
 * The relay as a state machine at the granularity of internal/fakerelay: one event per
 * critical section of its handlers and frame routers. `log` is a history of what the
 * relay did on durable channels; nothing reads it.
 */
module RelayMachine {
  import opened Bytes
  import opened Sequence
  import opened Registry
  import Mailbox

  /** A frame as it travels: sender connection, header, opaque body. */
  datatype Frame = Frame(from: nat, channel: string, n: u64, pushClass: string, body: seq<byte>)

  datatype Window = Window(id: string, host: string, provisional: string)

  /** What a connection was accepted as. */
  datatype Info = HostInfo(host: string, sub: string) | DevInfo(channel: string, sub: string)

  datatype State = State(
    reg: Registry,
    windows: map<string, Window>,             // window_id -> window
    provChans: map<string, Window>,           // provisional channel -> window
    boxes: map<string, seq<Mailbox.Item>>,    // channel_id -> mailbox
    apns: map<string, string>,                // device_id -> token
    hostConns: map<string, set<nat>>,
    devConns: map<string, set<nat>>,
    attached: map<string, bool>,              // channel_id -> device presence
    infos: map<nat, Info>,                    // every connection ever accepted
    boxedBy: map<string, seq<nat>>,           // history: who sent what the mailbox was given
    clock: int)

  datatype Config = Config(idle: int, policy: Mailbox.Policy)

  datatype Event =
    | Tick(now: int)
    | Look(host: string)                                     // bindingFor, on behalf of any handler
    | HostBind(host: string, sub: string)
    | HostCommit(conn: nat, host: string, sub: string)
    | HostDetach(conn: nat)
    | HostFrame(conn: nat, channel: string, n: u64, pushClass: string, body: seq<byte>)
    | DeviceCommit(conn: nat, channel: string, sub: string)
    | DeviceDetach(conn: nat)
    | DeviceFrame(conn: nat, n: u64, body: seq<byte>)
    | OpenWindow(w: Window, sub: string)
    | ExpireWindow(id: string)
    | Register(p: Pairing)
    | Unregister(id: string, sub: string)
    | FetchBox(channel: string, sub: string)                 // the read section of a fetch checked earlier
    | RegisterToken(device: string, sub: string, token: string)

  const FRESH: State := State(Registry(map[], map[], map[]), map[], map[], map[], map[], map[], map[], map[], map[], map[], 0)

  function At(m: map<string, set<nat>>, k: string): set<nat> { if k in m then m[k] else {} }

  function HeldIn(boxes: map<string, seq<Mailbox.Item>>, c: string): seq<Mailbox.Item> { if c in boxes then boxes[c] else [] }

  function Box(st: State, c: string): seq<Mailbox.Item> { HeldIn(st.boxes, c) }

  /** The senders of everything mailboxed on the channel since its last deletion. */
  function By(st: State, c: string): seq<nat> { if c in st.boxedBy then st.boxedBy[c] else [] }

  predicate IsAttached(st: State, c: string) { c in st.attached && st.attached[c] }

  /** The connection is attached as a host: its read loop runs from commit to detach. */
  predicate IsHostConn(st: State, conn: nat) {
    conn in st.infos && st.infos[conn].HostInfo? && conn in At(st.hostConns, st.infos[conn].host)
  }

  /** The connection was accepted for a channel; a deleted pairing may have unlisted it since. */
  predicate IsDevConn(st: State, conn: nat) { conn in st.infos && st.infos[conn].DevInfo? }

  // ---------------------------------------------------------------------
  // What each critical section does to the state
  // ---------------------------------------------------------------------

  function AttachDevice(st: State, conn: nat, c: string, sub: string): State {
    st.(devConns := st.devConns[c := At(st.devConns, c) + {conn}],
        attached := if At(st.devConns, c) == {} then st.attached[c := true] else st.attached,
        infos := st.infos[conn := DevInfo(c, sub)])
  }

  function DetachDevice(st: State, conn: nat, c: string): State {
    if c !in st.devConns then st
    else
      var left := st.devConns[c] - {conn};
      st.(devConns := st.devConns[c := left],
          attached := if left == {} then st.attached[c := false] else st.attached)
  }

  function ItemOf(f: Frame, at: int): Mailbox.Item { Mailbox.Item(f.n, f.pushClass, f.body, at) }

  /** The checks of hostFrame: a durable channel of this very host. */
  predicate Routable(st: State, host: string, c: string) {
    c !in st.provChans && c in st.reg.channels && st.reg.channels[c].host == host
  }

  /** hostFrame: attached devices get the frame, otherwise the mailbox does. */
  function RouteHost(st: State, cfg: Config, host: string, f: Frame): State {
    var c := f.channel;
    if !Routable(st, host, c) || At(st.devConns, c) != {} then st
    else st.(boxes := st.boxes[c := Mailbox.Append(Box(st, c), ItemOf(f, st.clock), st.clock, cfg.policy)],
             boxedBy := st.boxedBy[c := By(st, c) + [f.from]])
  }

  /** handleMailboxGet: reading removes only what has expired. */
  function PruneBox(st: State, cfg: Config, c: string): State
    requires c in st.boxes
  {
    st.(boxes := st.boxes[c := Mailbox.Prune(st.boxes[c], st.clock, cfg.policy.ttl)])
  }

  /** Everything that hangs on a pairing that is no longer registered. */
  function Unhook(st: State, p: Pairing): State {
    st.(boxes := st.boxes - {p.channel}, attached := st.attached - {p.channel},
        apns := if Paired(st.reg.pairings, p.device) then st.apns else st.apns - {p.device},
        devConns := st.devConns - {p.channel}, boxedBy := st.boxedBy - {p.channel})
  }

  /** handleDeletePairing: by the pairing's own account only. */
  function DropPairing(st: State, id: string, sub: string): State {
    var ch := DeletePairing(st.reg, id, sub);
    if ch.out.Deleted? then Unhook(st.(reg := ch.reg), ch.out.pairing) else st
  }

  function CloseWindow(st: State, id: string): State {
    if id !in st.windows then st
    else st.(windows := st.windows - {id}, provChans := st.provChans - {st.windows[id].provisional})
  }

  function Others(m: map<string, Window>, host: string): map<string, Window> {
    map k | k in m && m[k].host != host :: m[k]
  }

  /** Any window already open for the host goes; there is at most one. */
  function ReplaceWindow(st: State, w: Window): State {
    st.(windows := Others(st.windows, w.host)[w.id := w],
        provChans := Others(st.provChans, w.host)[w.provisional := w])
  }

  /** handleOpenWindow: only the account the host is bound to. */
  function OpenFor(st: State, cfg: Config, w: Window, sub: string): State {
    var st' := st.(reg := Reap(st.reg, w.host, st.clock, cfg.idle));
    if BoundTo(st'.reg, w.host, sub) then ReplaceWindow(st', w) else st'
  }

  predicate OwnsDevice(r: Registry, device: string, sub: string) {
    exists id :: id in r.pairings && r.pairings[id].device == device && r.pairings[id].account == sub
  }

  function Step(st: State, cfg: Config, e: Event): State {
    match e
    case Tick(now) => st.(clock := now)
    case Look(host) => st.(reg := Reap(st.reg, host, st.clock, cfg.idle))
    case HostBind(host, sub) => st.(reg := BindHost(st.reg, host, sub, st.clock, cfg.idle))
    case HostCommit(conn, host, sub) =>
      if conn in st.infos then st
      else st.(hostConns := st.hostConns[host := At(st.hostConns, host) + {conn}],
               infos := st.infos[conn := HostInfo(host, sub)])
    case HostDetach(conn) =>
      if !IsHostConn(st, conn) then st
      else
        var host := st.infos[conn].host;
        st.(hostConns := st.hostConns[host := At(st.hostConns, host) - {conn}], reg := Touch(st.reg, host, st.clock))
    case HostFrame(conn, c, n, pc, body) =>
      if IsHostConn(st, conn) then RouteHost(st, cfg, st.infos[conn].host, Frame(conn, c, n, pc, body)) else st
    case DeviceCommit(conn, c, sub) =>
      if conn in st.infos then st else AttachDevice(st, conn, c, sub)
    case DeviceDetach(conn) =>
      if IsDevConn(st, conn) then DetachDevice(st, conn, st.infos[conn].channel) else st
    case DeviceFrame(_, _, _) => st
    case OpenWindow(w, sub) => OpenFor(st, cfg, w, sub)
    case ExpireWindow(id) => CloseWindow(st, id)
    case Register(p) => st.(reg := CreatePairing(st.reg, p, st.clock, cfg.idle).reg)
    case Unregister(id, sub) => DropPairing(st, id, sub)
    case FetchBox(c, _) => if c in st.boxes then PruneBox(st, cfg, c) else st
    case RegisterToken(device, sub, token) =>
      if OwnsDevice(st.reg, device, sub) then st.(apns := st.apns[device := token]) else st
  }

  // ---------------------------------------------------------------------
  // What each critical section does to the outside
  // ---------------------------------------------------------------------

  /** One action on a durable channel. `told`: the presence change was published to the host. */
  datatype Entry =
    | Attached(channel: string, conn: nat, told: bool)
    | Detached(channel: string, conn: nat, told: bool)
    | HostQueued(frame: Frame, to: set<nat>)    // host frame offered to these device queues
    | Boxed(frame: Frame, at: int)              // host frame appended to the mailbox
    | Fetched(channel: string, sub: string, at: int)
    | DeviceQueued(frame: Frame, to: set<nat>)  // device frame offered to these host queues
    | Dropped(channel: string)                  // the channel's pairing was deleted

  function NoteHost(st: State, host: string, f: Frame): seq<Entry> {
    if !Routable(st, host, f.channel) then []
    else [if At(st.devConns, f.channel) != {} then HostQueued(f, At(st.devConns, f.channel)) else Boxed(f, st.clock)]
  }

  /** deviceFrame on a durable channel: to every connection of the host, or dropped. */
  function NoteDevice(st: State, f: Frame): seq<Entry> {
    if f.channel !in st.reg.channels then []
    else
      var to := At(st.hostConns, st.reg.channels[f.channel].host);
      if to == {} then [] else [DeviceQueued(f, to)]
  }

  function NoteAttach(st: State, conn: nat, c: string): Entry {
    Attached(c, conn, At(st.devConns, c) == {} && !IsAttached(st, c) && c in st.reg.channels)
  }

  function NoteDetach(st: State, conn: nat, c: string): seq<Entry> {
    if c !in st.devConns then []
    else [Detached(c, conn, st.devConns[c] - {conn} == {} && IsAttached(st, c) && c in st.reg.channels)]
  }

  function DeviceSent(st: State, conn: nat, n: u64, body: seq<byte>): Frame
    requires IsDevConn(st, conn)
  {
    Frame(conn, st.infos[conn].channel, n, "none", body)
  }

  /** What the event did on durable channels: at most one entry. */
  function Note(st: State, e: Event): seq<Entry> {
    match e
    case HostFrame(conn, c, n, pc, body) =>
      if IsHostConn(st, conn) then NoteHost(st, st.infos[conn].host, Frame(conn, c, n, pc, body)) else []
    case DeviceFrame(conn, n, body) =>
      if IsDevConn(st, conn) then NoteDevice(st, DeviceSent(st, conn, n, body)) else []
    case DeviceCommit(conn, c, sub) =>
      if conn in st.infos then [] else [NoteAttach(st, conn, c)]
    case DeviceDetach(conn) =>
      if IsDevConn(st, conn) then NoteDetach(st, conn, st.infos[conn].channel) else []
    case Unregister(id, sub) =>
      var out := DeletePairing(st.reg, id, sub).out;
      if out.Deleted? then [Dropped(out.pairing.channel)] else []
    case FetchBox(c, sub) => if c in st.boxes then [Fetched(c, sub, st.clock)] else []
    case _ => []
  }

  // ---------------------------------------------------------------------
  // Runs
  // ---------------------------------------------------------------------

  function Exec(st: State, cfg: Config, es: seq<Event>): State {
    if es == [] then st else Step(Exec(st, cfg, es[..|es| - 1]), cfg, es[|es| - 1])
  }

  /** Everything the run did on durable channels, in order. */
  function Log(st: State, cfg: Config, es: seq<Event>): seq<Entry> {
    if es == [] then []
    else Log(st, cfg, es[..|es| - 1]) + Note(Exec(st, cfg, es[..|es| - 1]), es[|es| - 1])
  }

  /** NewID gives ids that are not in use. */
  predicate NewIds(st: State, e: Event) {
    match e
    case Register(p) => p.id !in st.reg.pairings
    case OpenWindow(w, _) => w.id !in st.windows && w.provisional !in st.provChans
    case _ => true
  }

  /** Every event of the run meets `P` in the state it occurs in. */
  ghost predicate Throughout(P: (State, Event) -> bool, st: State, cfg: Config, es: seq<Event>) {
    es != [] ==>
      && Throughout(P, st, cfg, es[..|es| - 1])
      && P(Exec(st, cfg, es[..|es| - 1]), es[|es| - 1])
  }
}
