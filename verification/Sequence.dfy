/** Sequence acceptance, e2ekit/seq.go: one high-water mark and two regimes. */
module Sequence {
  import opened Bytes

  type u64 = n: nat | n < U64_SIZE

  datatype SeqError = SeqRegression | SeqGap | AeadSeqZero | PlaintextNonzeroSeq

  datatype Tracker = Tracker(lastSeen: u64, inSession: bool)

  datatype Verdict = Accepted(tracker: Tracker, jump: bool) | Rejected(error: SeqError)

  datatype ClassCheck = ClassOk | ClassError(error: SeqError)

  function CheckFrameClass(n: u64, plaintext: bool): ClassCheck {
    if plaintext && n != 0 then ClassError(PlaintextNonzeroSeq)
    else if !plaintext && n == 0 then ClassError(AeadSeqZero)
    else ClassOk
  }

  /** A live AEAD frame: forward jumps only as the first frame of a session. */
  function Accept(t: Tracker, n: u64): Verdict {
    if CheckFrameClass(n, false).ClassError? then Rejected(CheckFrameClass(n, false).error)
    else if n <= t.lastSeen then Rejected(SeqRegression)
    else if !t.inSession then Accepted(Tracker(n, true), n > t.lastSeen + 1)
    else if n != t.lastSeen + 1 then Rejected(SeqGap)
    else Accepted(Tracker(n, true), false)
  }

  /** A drained mailbox item: forward only, gaps reported. */
  function AcceptMailbox(t: Tracker, n: u64): Verdict
    requires !t.inSession
  {
    if n == 0 then Rejected(AeadSeqZero)
    else if n <= t.lastSeen then Rejected(SeqRegression)
    else Accepted(Tracker(n, false), n > t.lastSeen + 1)
  }

  /** Number zero is for plaintext frames, and only for them. */
  lemma ClassErrors(n: u64)
    ensures CheckFrameClass(n, true) == if n == 0 then ClassOk else ClassError(PlaintextNonzeroSeq)
    ensures CheckFrameClass(n, false) == if n > 0 then ClassOk else ClassError(AeadSeqZero)
  {
  }

  /** Why a live frame or a mailbox item is refused: each error on exactly its own numbers. */
  lemma RefusedIff(t: Tracker, n: u64)
    ensures Accept(t, n) == Rejected(AeadSeqZero) <==> n == 0
    ensures Accept(t, n) == Rejected(SeqRegression) <==> 0 < n <= t.lastSeen
    ensures Accept(t, n) == Rejected(SeqGap) <==> t.inSession && n > t.lastSeen + 1
    ensures !t.inSession ==>
              && (AcceptMailbox(t, n) == Rejected(AeadSeqZero) <==> n == 0)
              && (AcceptMailbox(t, n) == Rejected(SeqRegression) <==> 0 < n <= t.lastSeen)
              && (AcceptMailbox(t, n).Accepted? <==> n > t.lastSeen)
  {
  }

  /** A whole session: an unbroken run of accepts from a fresh session start. */
  function AcceptAll(t: Tracker, ns: seq<u64>): Verdict
    decreases |ns|
  {
    if ns == [] then Accepted(t, false)
    else
      match Accept(t, ns[0])
      case Rejected(e) => Rejected(e)
      case Accepted(t', jump) =>
        match AcceptAll(t', ns[1..])
        case Rejected(e) => Rejected(e)
        case Accepted(t'', _) => Accepted(t'', jump)
  }

  /**
   * A session accepts a list of frames exactly when it is consecutive from some
   * number above the mark; the jump is reported exactly when it skips one.
   */
  lemma {:induction false} SessionAcceptsRuns(mark: u64, ns: seq<u64>)
    requires ns != []
    ensures AcceptAll(Tracker(mark, false), ns).Accepted?
       <==> mark < ns[0] && forall i :: 0 <= i < |ns| ==> ns[i] == ns[0] + i
    ensures AcceptAll(Tracker(mark, false), ns).Accepted? ==>
              && AcceptAll(Tracker(mark, false), ns).tracker == Tracker(ns[|ns| - 1], true)
              && (AcceptAll(Tracker(mark, false), ns).jump <==> ns[0] != mark + 1)
  {
    if mark < ns[0] {
      MidSessionRuns(Tracker(ns[0], true), ns[1..]);
      assert forall i :: 1 <= i < |ns| ==> ns[i] == ns[1..][i - 1];
      assert forall i :: 0 <= i < |ns| - 1 ==> ns[1..][i] == ns[i + 1];
    }
  }

  lemma {:induction false} MidSessionRuns(t: Tracker, ns: seq<u64>)
    requires t.inSession
    ensures AcceptAll(t, ns).Accepted? <==> forall i :: 0 <= i < |ns| ==> ns[i] == t.lastSeen + 1 + i
    ensures AcceptAll(t, ns).Accepted? ==>
              AcceptAll(t, ns).tracker == if ns == [] then t else Tracker(ns[|ns| - 1], true)
    decreases |ns|
  {
    if ns != [] && ns[0] == t.lastSeen + 1 {
      var next := Tracker(ns[0], true);
      MidSessionRuns(next, ns[1..]);
      assert forall i :: 0 <= i < |ns| - 1 ==> ns[1..][i] == ns[i + 1];
      assert (forall i :: 0 <= i < |ns| ==> ns[i] == t.lastSeen + 1 + i)
        <==> (forall i :: 0 <= i < |ns| - 1 ==> ns[1..][i] == next.lastSeen + 1 + i) by {
        if forall i :: 0 <= i < |ns| - 1 ==> ns[1..][i] == next.lastSeen + 1 + i {
          forall i | 0 <= i < |ns| ensures ns[i] == t.lastSeen + 1 + i {
            if i > 0 { assert ns[i] == ns[1..][i - 1]; }
          }
        }
      }
    }
  }

  /** One direction's receive-side mark, updated in place. */
  class SeqTracker {
    var lastSeen: u64
    var inSession: bool

    ghost function View(): Tracker
      reads this
    {
      Tracker(lastSeen, inSession)
    }

    constructor (lastSeen: u64)
      ensures View() == Tracker(lastSeen, false)
    {
      this.lastSeen, inSession := lastSeen, false;
    }

    method StartSession()
      modifies this
      ensures View() == Tracker(old(lastSeen), false)
    {
      inSession := false;
    }

    /** Unchanged on rejection. */
    method AcceptFrame(n: u64) returns (v: Verdict)
      modifies this
      ensures v == Accept(old(View()), n)
      ensures View() == if v.Accepted? then v.tracker else old(View())
    {
      var c := CheckFrameClass(n, false);
      if c.ClassError? {
        return Rejected(c.error);
      }
      if n <= lastSeen {
        return Rejected(SeqRegression);
      }
      if !inSession {
        var reconcile := n > lastSeen + 1;
        lastSeen := n;
        inSession := true;
        return Accepted(Tracker(n, true), reconcile);
      }
      if n != lastSeen + 1 {
        return Rejected(SeqGap);
      }
      lastSeen := n;
      return Accepted(Tracker(n, true), false);
    }

    /** Unchanged on rejection; calling it mid-session panics in the source. */
    method AcceptDrained(n: u64) returns (v: Verdict)
      requires !inSession
      modifies this`lastSeen
      ensures v == AcceptMailbox(old(View()), n)
      ensures View() == if v.Accepted? then v.tracker else old(View())
    {
      if n == 0 {
        return Rejected(AeadSeqZero);
      }
      if n <= lastSeen {
        return Rejected(SeqRegression);
      }
      var gap := n > lastSeen + 1;
      lastSeen := n;
      return Accepted(Tracker(n, false), gap);
    }
  }
}
