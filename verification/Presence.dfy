/**
 * Host presence, internal/fakerelay/presence.go: a liveness flag kept by a timer that is
 * re-armed on every sign of life and whose callbacks may run late, raced or more than once.
 */
module Presence {
  import opened Common

  /** One host's record, its timer, and the clock it reads. */
  datatype State = State(
    now: int,
    known: bool,              // the host has a record
    online: bool,
    lastSeen: int,
    armed: Option<int>,       // when the timer is set to fire
    waiting: nat,             // callbacks that fired and have not got the lock yet
    told: seq<bool>)          // presence messages broadcast to devices

  function Start(now: int): State { State(now, false, false, 0, None, 0, []) }

  datatype Event =
    | Pass(to: int)           // time goes on
    | Fire                    // the timer is due: its callback is started
    | Run                     // a started callback gets the lock
    | Stray                   // a stale callback runs out of the blue
    | Seen                    // touchHost

  function Flip(st: State, online: bool): State {
    if st.online == online then st else st.(online := online, told := st.told + [online])
  }

  function Touch(st: State, offlineAfter: int): State {
    Flip(st, true).(known := true, lastSeen := st.now, armed := Some(st.now + offlineAfter))
  }

  /** presenceDeadline: re-arm for the remainder if the host was heard since, else go offline. */
  function Deadline(st: State, offlineAfter: int): State {
    var silent := st.now - st.lastSeen;
    if !st.known then st
    else if silent < offlineAfter then st.(armed := Some(st.now + (offlineAfter - silent)))
    else Flip(st, false)
  }

  function Step(st: State, offlineAfter: int, e: Event): State {
    match e
    case Pass(to) => if to >= st.now then st.(now := to) else st
    case Fire =>
      if st.armed.Some? && st.armed.value <= st.now then st.(armed := None, waiting := st.waiting + 1) else st
    case Run => if st.waiting > 0 then Deadline(st.(waiting := st.waiting - 1), offlineAfter) else st
    case Stray => Deadline(st, offlineAfter)
    case Seen => Touch(st, offlineAfter)
  }

  function Exec(st: State, offlineAfter: int, es: seq<Event>): State {
    if es == [] then st else Step(Exec(st, offlineAfter, es[..|es| - 1]), offlineAfter, es[|es| - 1])
  }

  /** An online host is watched; an offline one has been silent long enough; devices know which. */
  predicate Valid(st: State, offlineAfter: int) {
    && (!st.known ==> !st.online && st.armed == None && st.waiting == 0)
    && (st.online ==> st.waiting > 0 || st.armed == Some(st.lastSeen + offlineAfter))
    && (st.armed.Some? ==> st.armed.value <= st.lastSeen + offlineAfter)
    && (st.known ==> st.lastSeen <= st.now)
    && (st.known && !st.online ==> st.now - st.lastSeen >= offlineAfter)
    && Alternates(st.told) && (st.told != [] ==> st.told[0] && st.told[|st.told| - 1] == st.online)
    && (st.online ==> st.told != [])
  }

  /** No callback is waiting and no timer is due. */
  predicate Settled(st: State) {
    st.waiting == 0 && (st.armed.Some? ==> st.armed.value > st.now)
  }

  lemma StepValid(st: State, offlineAfter: int, e: Event)
    requires Valid(st, offlineAfter)
    ensures Valid(Step(st, offlineAfter, e), offlineAfter)
  {
  }

  lemma {:induction false} RunValid(start: int, offlineAfter: int, es: seq<Event>)
    ensures Valid(Exec(Start(start), offlineAfter, es), offlineAfter)
  {
    if es != [] {
      RunValid(start, offlineAfter, es[..|es| - 1]);
      StepValid(Exec(Start(start), offlineAfter, es[..|es| - 1]), offlineAfter, es[|es| - 1]);
    }
  }

  /**
   * After every run, stray and late callbacks included, once nothing is due the host is
   * online exactly while it was heard less than the limit ago, and the last presence
   * message the devices got says so.
   */
  lemma OnlineIff(start: int, offlineAfter: int, es: seq<Event>)
    requires Settled(Exec(Start(start), offlineAfter, es))
    ensures var st := Exec(Start(start), offlineAfter, es);
            && (st.online <==> st.known && st.now - st.lastSeen < offlineAfter)
            && Alternates(st.told)
            && (st.told != [] ==> st.told[0] && st.told[|st.told| - 1] == st.online)
  {
    RunValid(start, offlineAfter, es);
  }

  // ---------------------------------------------------------------------
  // The record in place
  // ---------------------------------------------------------------------

  class HostPresence {
    const offlineAfter: int
    var now: int
    var known: bool
    var online: bool
    var lastSeen: int
    var armed: Option<int>
    var told: seq<bool>
    ghost var waiting: nat

    ghost function Abs(): State
      reads this
    {
      State(now, known, online, lastSeen, armed, waiting, told)
    }

    constructor (now: int, offlineAfter: int)
      ensures Abs() == Start(now) && this.offlineAfter == offlineAfter
    {
      this.now, this.offlineAfter := now, offlineAfter;
      known, online, lastSeen, armed := false, false, 0, None;
      waiting, told := 0, [];
    }

    method TouchHost()
      modifies this
      ensures Abs() == Step(old(Abs()), offlineAfter, Seen)
    {
      known := true;
      lastSeen := now;
      if !online {
        online := true;
        told := told + [true];
      }
      armed := Some(now + offlineAfter);
    }

    method PresenceDeadline()
      modifies this
      ensures Abs() == Step(old(Abs()), offlineAfter, Stray)
    {
      if !known {
        return;
      }
      var silent := now - lastSeen;
      if silent < offlineAfter {
        armed := Some(now + (offlineAfter - silent));
        return;
      }
      if online {
        online := false;
        told := told + [false];
      }
    }

    /** FakeClock.Advance with this one timer: every due callback runs, in time, and it ends. */
    method Advance(d: nat)
      requires Valid(Abs(), offlineAfter) && waiting == 0
      modifies this
      ensures Valid(Abs(), offlineAfter) && Settled(Abs())
      ensures now == old(now) + d && lastSeen == old(lastSeen) && known == old(known)
      ensures online <==> known && now - lastSeen < offlineAfter
    {
      var target := now + d;
      while armed.Some? && armed.value <= target
        invariant now <= target && waiting == 0 && Valid(Abs(), offlineAfter)
        invariant lastSeen == old(lastSeen) && known == old(known)
        decreases if armed.None? then 0 else if armed.value < lastSeen + offlineAfter then 2 else 1
      {
        ghost var passed := Step(Abs(), offlineAfter, Pass(armed.value));
        ghost var fired := Step(passed, offlineAfter, Fire);
        StepValid(Abs(), offlineAfter, Pass(armed.value));
        StepValid(passed, offlineAfter, Fire);
        StepValid(fired, offlineAfter, Run);
        if armed.value > now {
          now := armed.value;
        }
        armed := None;
        assert Abs() == fired.(waiting := 0);
        PresenceDeadline();
        assert Abs() == Step(fired, offlineAfter, Run);
      }
      StepValid(Abs(), offlineAfter, Pass(target));
      now := target;
    }
  }
}
