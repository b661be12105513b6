/**
 * Approvals on the host, fakehost/session.go: raised, then decided once by a device or by
 * the fail-closed timeout, whichever comes first.
 */
module Approvals {
  import opened Common

  datatype Resolved = Resolved(id: string, task: string, decision: string, source: string)

  /** A ledger line. Commands are the audit trail of the remote calls themselves. */
  datatype Record =
    | Approval(granted: bool, id: string, task: string, source: string, device: Option<string>)
    | Command(accepted: bool, reason: string)

  datatype Reply =
    | Applied(id: string, decision: string, source: string)
    | AlreadyResolved(id: string, decision: string, source: string)
    | Refused(code: string)

  datatype State = State(
    pending: map<string, string>,        // approval id -> task
    resolved: map<string, Resolved>,
    ledger: seq<Record>,
    fanOut: seq<Resolved>,               // approval.resolved sent to the devices
    replies: seq<Reply>)                 // answers to approval.decide

  const EMPTY: State := State(map[], map[], [], [], [])

  datatype Event =
    | Raise(id: string, task: string, live: bool)
    | Timeout(id: string)
    | Decide(id: string, decision: string, strict: bool, device: string)

  /** First decision wins: an id that is not pending is left alone. */
  function Resolve(st: State, id: string, decision: string, source: string, device: string): State {
    if id in st.resolved || id !in st.pending then st
    else
      var res := Resolved(id, st.pending[id], decision, source);
      st.(pending := st.pending - {id}, resolved := st.resolved[id := res],
          fanOut := st.fanOut + [res],
          ledger := st.ledger + [Approval(decision == "allow_once" || decision == "allow_always", id, res.task, source,
                                          if source == "remote" && device != "" then Some(device) else None)])
  }

  function Answer(st: State, r: Reply, c: Record): State { st.(ledger := st.ledger + [c], replies := st.replies + [r]) }

  predicate Applies(st: State, id: string) { id !in st.resolved && id in st.pending }

  /** The remote surface is two-valued. */
  function Map(decision: string): string { if decision == "allow" then "allow_once" else "deny" }

  function DecideStep(st: State, id: string, decision: string, strict: bool, device: string): State {
    if !strict || id == "" || (decision != "allow" && decision != "deny") then
      Answer(st, Refused("invalid_params"), Command(false, "invalid_params"))
    else
      var st' := Resolve(st, id, Map(decision), "remote", device);
      if id !in st'.resolved then Answer(st', Refused("unknown_approval"), Command(false, "unknown_approval"))
      else
        var res := st'.resolved[id];
        Answer(st', if Applies(st, id) then Applied(id, res.decision, res.source) else AlreadyResolved(id, res.decision, res.source),
               Command(true, ""))
  }

  function Step(st: State, e: Event): State {
    match e
    case Raise(id, task, live) => if live then st.(pending := st.pending[id := task]) else st
    case Timeout(id) => Resolve(st, id, "deny", "timeout", "")
    case Decide(id, decision, strict, device) => DecideStep(st, id, decision, strict, device)
  }

  function Exec(st: State, es: seq<Event>): State {
    if es == [] then st else Step(Exec(st, es[..|es| - 1]), es[|es| - 1])
  }

  /** The ids raised in a live session. */
  function Raised(es: seq<Event>): set<string> {
    set i | 0 <= i < |es| && es[i].Raise? && es[i].live :: es[i].id
  }

  /** Random ids: none is raised twice. */
  predicate FreshIds(es: seq<Event>) {
    forall i, j :: 0 <= i < j < |es| && es[i].Raise? && es[i].live && es[j].Raise? ==> es[i].id != es[j].id
  }

  // ---------------------------------------------------------------------
  // Counting what was written
  // ---------------------------------------------------------------------

  function Lines(ledger: seq<Record>, id: string): nat {
    if ledger == [] then 0
    else
      var x := ledger[|ledger| - 1];
      Lines(ledger[..|ledger| - 1], id) + if x.Approval? && x.id == id then 1 else 0
  }

  function Sent(fanOut: seq<Resolved>, id: string): nat {
    if fanOut == [] then 0
    else Sent(fanOut[..|fanOut| - 1], id) + if fanOut[|fanOut| - 1].id == id then 1 else 0
  }

  function Wins(replies: seq<Reply>, id: string): nat {
    if replies == [] then 0
    else
      var x := replies[|replies| - 1];
      Wins(replies[..|replies| - 1], id) + if x.Applied? && x.id == id then 1 else 0
  }

  lemma Snoc(st: State, x: Record, f: Resolved, r: Reply, id: string)
    ensures Lines(st.ledger + [x], id) == Lines(st.ledger, id) + if x.Approval? && x.id == id then 1 else 0
    ensures Sent(st.fanOut + [f], id) == Sent(st.fanOut, id) + if f.id == id then 1 else 0
    ensures Wins(st.replies + [r], id) == Wins(st.replies, id) + if r.Applied? && r.id == id then 1 else 0
  {
    assert (st.ledger + [x])[..|st.ledger|] == st.ledger;
    assert (st.fanOut + [f])[..|st.fanOut|] == st.fanOut;
    assert (st.replies + [r])[..|st.replies|] == st.replies;
  }

  function One(b: bool): nat { if b then 1 else 0 }

  predicate Lawful(res: Resolved) {
    || (res.source == "remote" && (res.decision == "allow_once" || res.decision == "deny"))
    || (res.source == "timeout" && res.decision == "deny")
  }

  predicate Records(x: Record, res: Resolved) {
    x.Approval? && x.id == res.id && x.task == res.task && x.source == res.source && x.granted == (res.decision == "allow_once")
  }

  /** The records about one id: never pending and resolved at once, written down and sent out once. */
  ghost predicate Booked(st: State, id: string) {
    && !(id in st.pending && id in st.resolved)
    && Lines(st.ledger, id) == One(id in st.resolved)
    && Sent(st.fanOut, id) == One(id in st.resolved)
    && (id in st.resolved ==>
          && st.resolved[id].id == id && Lawful(st.resolved[id]) && st.resolved[id] in st.fanOut
          && exists i :: 0 <= i < |st.ledger| && Records(st.ledger[i], st.resolved[id]))
  }

  /** Exactly one device call is told that it decided, if any device did. */
  predicate OneWinner(st: State, id: string) {
    Wins(st.replies, id) == One(id in st.resolved && st.resolved[id].source == "remote")
  }

  /** Every answer about an id reports its one decision. */
  predicate Truthful(st: State) {
    forall i :: 0 <= i < |st.replies| && !st.replies[i].Refused? ==>
      var r := st.replies[i];
      r.id in st.resolved && st.resolved[r.id].decision == r.decision && st.resolved[r.id].source == r.source
  }

  // ---------------------------------------------------------------------
  // What every step keeps
  // ---------------------------------------------------------------------

  lemma ResolveBooked(st: State, id: string, decision: string, source: string, device: string, k: string)
    requires Booked(st, k) && Lawful(Resolved(id, "", decision, source))
    ensures Booked(Resolve(st, id, decision, source, device), k)
  {
    if Applies(st, id) {
      var st' := Resolve(st, id, decision, source, device);
      var n := |st.ledger|;
      Snoc(st, st'.ledger[n], st'.resolved[id], Refused(""), k);
      if k == id {
        assert Records(st'.ledger[n], st'.resolved[id]);
        assert st'.fanOut[|st.fanOut|] == st'.resolved[id];
      } else if k in st.resolved {
        var i :| 0 <= i < n && Records(st.ledger[i], st.resolved[k]);
        assert st'.ledger[i] == st.ledger[i];
      }
    }
  }

  lemma AnswerBooked(st: State, r: Reply, c: Record, k: string)
    requires Booked(st, k) && c.Command?
    ensures Booked(Answer(st, r, c), k)
  {
    Snoc(st, c, Resolved("", "", "", ""), r, k);
    if k in st.resolved {
      var i :| 0 <= i < |st.ledger| && Records(st.ledger[i], st.resolved[k]);
      assert Answer(st, r, c).ledger[i] == st.ledger[i];
    }
  }

  predicate WellFormed(e: Event) {
    e.Decide? && e.strict && e.id != "" && (e.decision == "allow" || e.decision == "deny")
  }

  /** What a decide call answers, and what it writes about itself. */
  lemma DecideAnswers(st: State, e: Event) returns (mid: State, r: Reply, c: Record)
    requires e.Decide?
    ensures mid == if WellFormed(e) then Resolve(st, e.id, if e.decision == "allow" then "allow_once" else "deny", "remote", e.device) else st
    ensures Step(st, e) == Answer(mid, r, c) && c.Command?
    ensures !r.Refused? ==> WellFormed(e) && r.id == e.id && e.id in mid.resolved
                            && r.decision == mid.resolved[e.id].decision && r.source == mid.resolved[e.id].source
    ensures r.Applied? <==> WellFormed(e) && Applies(st, e.id)
    ensures r == Refused("unknown_approval") <==> WellFormed(e) && e.id !in st.pending && e.id !in st.resolved
    ensures r == Refused("invalid_params") <==> !WellFormed(e)
    ensures c == if r.Refused? then Command(false, r.code) else Command(true, "")
  {
    mid := if WellFormed(e) then Resolve(st, e.id, Map(e.decision), "remote", e.device) else st;
    var st' := Step(st, e);
    r, c := st'.replies[|st.replies|], st'.ledger[|st'.ledger| - 1];
  }

  lemma StepBooked(st: State, e: Event, k: string)
    requires Booked(st, k) && (e.Raise? && e.live && e.id == k ==> k !in st.resolved)
    ensures Booked(Step(st, e), k)
  {
    match e
    case Raise(id, task, live) =>
    case Timeout(id) => ResolveBooked(st, id, "deny", "timeout", "", k);
    case Decide(id, decision, strict, device) =>
      var mid, r, c := DecideAnswers(st, e);
      if WellFormed(e) { ResolveBooked(st, id, Map(decision), "remote", device, k); }
      AnswerBooked(mid, r, c, k);
  }

  lemma StepOneWinner(st: State, e: Event, k: string)
    requires Booked(st, k) && OneWinner(st, k)
    ensures OneWinner(Step(st, e), k)
  {
    if e.Decide? {
      var mid, r, c := DecideAnswers(st, e);
      Snoc(mid, c, Resolved("", "", "", ""), r, k);
    }
  }

  /** A resolved decision never changes. */
  lemma ResolvedStays(st: State, e: Event, id: string)
    requires id in st.resolved
    ensures id in Step(st, e).resolved && Step(st, e).resolved[id] == st.resolved[id]
  {
  }

  lemma StepTruthful(st: State, e: Event)
    requires Truthful(st)
    ensures Truthful(Step(st, e))
  {
    forall i | 0 <= i < |st.replies| && !st.replies[i].Refused?
      ensures st.replies[i].id in Step(st, e).resolved && Step(st, e).resolved[st.replies[i].id] == st.resolved[st.replies[i].id]
    {
      ResolvedStays(st, e, st.replies[i].id);
    }
    if e.Decide? {
      var mid, r, c := DecideAnswers(st, e);
    }
  }

  lemma StepPartition(st: State, e: Event)
    ensures Step(st, e).pending.Keys + Step(st, e).resolved.Keys
         == st.pending.Keys + st.resolved.Keys + if e.Raise? && e.live then {e.id} else {}
  {
  }

  lemma RaisedSnoc(es: seq<Event>)
    requires es != []
    ensures var e := es[|es| - 1];
            Raised(es) == Raised(es[..|es| - 1]) + if e.Raise? && e.live then {e.id} else {}
  {
    var front, e := es[..|es| - 1], es[|es| - 1];
    forall id | id in Raised(front) ensures id in Raised(es) {
      var i :| 0 <= i < |front| && front[i].Raise? && front[i].live && front[i].id == id;
      assert es[i] == front[i];
    }
    forall id | id in Raised(es) && !(e.Raise? && e.live && e.id == id) ensures id in Raised(front) {
      var i :| 0 <= i < |es| && es[i].Raise? && es[i].live && es[i].id == id;
      assert front[i] == es[i];
    }
  }

  /** A remote allow is allow_once, a remote deny is deny, and an approval that is no longer pending stays as it is. */
  lemma DecideExact(st: State, id: string, decision: string, device: string)
    requires id != "" && (decision == "allow" || decision == "deny")
    ensures var st' := Step(st, Decide(id, decision, true, device));
            && (Applies(st, id) ==>
                  && id in st'.resolved && id !in st'.pending
                  && st'.resolved[id] == Resolved(id, st.pending[id], if decision == "allow" then "allow_once" else "deny", "remote")
                  && |st'.ledger| == |st.ledger| + 2
                  && st'.ledger[|st.ledger|]
                     == Approval(decision == "allow", id, st.pending[id], "remote", if device == "" then None else Some(device)))
            && (!Applies(st, id) ==> st'.resolved == st.resolved && st'.pending == st.pending)
  {
  }

  /** A timeout denies what is still pending. */
  lemma TimeoutExact(st: State, id: string)
    ensures var st' := Step(st, Timeout(id));
            && (Applies(st, id) ==>
                  && id in st'.resolved && st'.resolved[id] == Resolved(id, st.pending[id], "deny", "timeout")
                  && |st'.ledger| == |st.ledger| + 1
                  && st'.ledger[|st.ledger|] == Approval(false, id, st.pending[id], "timeout", None))
            && (!Applies(st, id) ==> st' == st)
  {
  }

  // ---------------------------------------------------------------------
  // The fate of an approval, from the events alone
  // ---------------------------------------------------------------------

  datatype Fate = Unraised | Open(task: string) | Decided(res: Resolved)

  /** Open from its raise to the first timeout or well-formed decide on it, whichever comes first. */
  function FateOf(es: seq<Event>, id: string): Fate {
    if es == [] then Unraised
    else
      var before, e := FateOf(es[..|es| - 1], id), es[|es| - 1];
      if e.id != id then before
      else if e.Raise? && e.live && before.Unraised? then Open(e.task)
      else if e.Timeout? && before.Open? then Decided(Resolved(id, before.task, "deny", "timeout"))
      else if e.Decide? && e.strict && id != "" && e.decision == "allow" && before.Open? then
        Decided(Resolved(id, before.task, "allow_once", "remote"))
      else if e.Decide? && e.strict && id != "" && e.decision == "deny" && before.Open? then
        Decided(Resolved(id, before.task, "deny", "remote"))
      else before
  }

  /** The host's books say of an id what the events say. */
  predicate Agrees(st: State, id: string, fate: Fate) {
    match fate
    case Unraised => id !in st.pending && id !in st.resolved
    case Open(task) => id in st.pending && st.pending[id] == task && id !in st.resolved
    case Decided(res) => id !in st.pending && id in st.resolved && st.resolved[id] == res
  }

  lemma StepOther(st: State, e: Event, id: string)
    requires e.id != id
    ensures id in Step(st, e).pending <==> id in st.pending
    ensures id in Step(st, e).resolved <==> id in st.resolved
    ensures id in st.pending ==> Step(st, e).pending[id] == st.pending[id]
    ensures id in st.resolved ==> Step(st, e).resolved[id] == st.resolved[id]
  {
  }

  lemma StepAgrees(es: seq<Event>, st: State, id: string)
    requires es != [] && Agrees(st, id, FateOf(es[..|es| - 1], id))
    requires es[|es| - 1].Raise? && es[|es| - 1].live && es[|es| - 1].id == id ==> FateOf(es[..|es| - 1], id).Unraised?
    ensures Agrees(Step(st, es[|es| - 1]), id, FateOf(es, id))
  {
    var e := es[|es| - 1];
    if e.id != id {
      StepOther(st, e, id);
    } else if e.Decide? && WellFormed(e) {
      DecideExact(st, id, e.decision, e.device);
    } else if e.Timeout? {
      TimeoutExact(st, id);
    }
  }

  lemma {:induction false} RaisedHasFate(es: seq<Event>, id: string)
    ensures FateOf(es, id).Unraised? <==> id !in Raised(es)
  {
    if es != [] {
      RaisedHasFate(es[..|es| - 1], id);
      RaisedSnoc(es);
    }
  }

  /**
   * Over every run an approval is granted exactly if the first well-formed decide on it, before
   * any timeout, said allow; it is denied exactly if that decide said deny or a timeout came
   * first; and until then it is pending.
   */
  lemma {:induction false} RunFate(es: seq<Event>, id: string)
    requires FreshIds(es)
    ensures Agrees(Exec(EMPTY, es), id, FateOf(es, id))
  {
    if es != [] {
      var front, e := es[..|es| - 1], es[|es| - 1];
      RunFate(front, id);
      RaisedHasFate(front, id);
      if e.Raise? && e.live && e.id == id {
        RaisedOnce(es, id);
      }
      StepAgrees(es, Exec(EMPTY, front), id);
    }
  }

  lemma RaisedOnce(es: seq<Event>, id: string)
    requires FreshIds(es) && es != [] && es[|es| - 1].Raise? && es[|es| - 1].live && es[|es| - 1].id == id
    ensures id !in Raised(es[..|es| - 1])
  {
    var front := es[..|es| - 1];
    forall i | 0 <= i < |front| && front[i].Raise? && front[i].live ensures front[i].id != id {
      assert es[i] == front[i];
    }
  }

  // ---------------------------------------------------------------------
  // Over every run
  // ---------------------------------------------------------------------

  /** The raised ids are exactly the pending and the resolved ones. */
  lemma {:induction false} RunPartition(es: seq<Event>)
    ensures Raised(es) == Exec(EMPTY, es).pending.Keys + Exec(EMPTY, es).resolved.Keys
  {
    if es != [] {
      RunPartition(es[..|es| - 1]);
      RaisedSnoc(es);
      StepPartition(Exec(EMPTY, es[..|es| - 1]), es[|es| - 1]);
    }
  }

  /**
   * For every interleaving of raises, timeouts and device decisions: no id is both pending
   * and resolved, each resolved id has one ledger line and one fan-out and a lawful
   * decision, and at most one device is told that it decided.
   */
  lemma {:induction false} RunBooked(es: seq<Event>, id: string)
    requires FreshIds(es)
    ensures Booked(Exec(EMPTY, es), id) && OneWinner(Exec(EMPTY, es), id)
  {
    if es != [] {
      var front, e := es[..|es| - 1], es[|es| - 1];
      var st := Exec(EMPTY, front);
      RunBooked(front, id);
      RunPartition(front);
      StepBooked(st, e, id);
      StepOneWinner(st, e, id);
    }
  }

  /** Every answer ever given about an id agrees with its decision at the end of the run. */
  lemma {:induction false} RunTruthful(es: seq<Event>)
    ensures Truthful(Exec(EMPTY, es))
  {
    if es != [] {
      RunTruthful(es[..|es| - 1]);
      StepTruthful(Exec(EMPTY, es[..|es| - 1]), es[|es| - 1]);
    }
  }

  // ---------------------------------------------------------------------
  // The host in place
  // ---------------------------------------------------------------------

  class Host {
    var pending: map<string, string>
    var resolved: map<string, Resolved>
    var ledger: seq<Record>
    var fanOut: seq<Resolved>
    var replies: seq<Reply>

    ghost function Abs(): State
      reads this
    {
      State(pending, resolved, ledger, fanOut, replies)
    }

    constructor ()
      ensures Abs() == EMPTY
    {
      pending, resolved, ledger, fanOut, replies := map[], map[], [], [], [];
    }

    method RaiseApproval(id: string, task: string, live: bool)
      modifies this
      ensures Abs() == Step(old(Abs()), Raise(id, task, live))
    {
      if !live {
        return;
      }
      pending := pending[id := task];
    }

    method ResolveApproval(id: string, decision: string, source: string, device: string)
      returns (res: Option<Resolved>, applied: bool)
      modifies this
      ensures Abs() == Resolve(old(Abs()), id, decision, source, device)
      ensures applied <==> Applies(old(Abs()), id)
      ensures res == if id in resolved then Some(resolved[id]) else None
    {
      if id in resolved {
        return Some(resolved[id]), false;
      }
      if id !in pending {
        return None, false;
      }
      var task := pending[id];
      pending := pending - {id};
      var r := Resolved(id, task, decision, source);
      resolved := resolved[id := r];
      fanOut := fanOut + [r];
      var granted := decision == "allow_once" || decision == "allow_always";
      var who := None;
      if source == "remote" && device != "" {
        who := Some(device);
      }
      ledger := ledger + [Approval(granted, id, task, source, who)];
      return Some(r), true;
    }

    method HandleDecide(id: string, decision: string, strict: bool, device: string)
      modifies this
      ensures Abs() == Step(old(Abs()), Decide(id, decision, strict, device))
      ensures WellFormed(Decide(id, decision, strict, device)) && Applies(old(Abs()), id) ==>
                id in resolved && resolved[id].decision == if decision == "allow" then "allow_once" else "deny"
    {
      if !strict || id == "" || (decision != "allow" && decision != "deny") {
        ledger := ledger + [Command(false, "invalid_params")];
        replies := replies + [Refused("invalid_params")];
        return;
      }
      var mapped := "deny";
      if decision == "allow" {
        mapped := "allow_once";
      }
      var res, applied := ResolveApproval(id, mapped, "remote", device);
      if applied {
        ledger := ledger + [Command(true, "")];
        replies := replies + [Applied(id, res.value.decision, res.value.source)];
      } else if id in resolved {
        ledger := ledger + [Command(true, "")];
        replies := replies + [AlreadyResolved(id, resolved[id].decision, resolved[id].source)];
      } else {
        ledger := ledger + [Command(false, "unknown_approval")];
        replies := replies + [Refused("unknown_approval")];
      }
    }
  }
}
