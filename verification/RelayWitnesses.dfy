/** Concrete runs behind the premises of RelayAccounts and RelayRouting. */
module RelayWitnesses {
  import opened Registry
  import opened RelayMachine
  import opened RelayAccounts
  import opened RelayRouting
  import Mailbox

  const SMALL: Config := Config(10, Mailbox.Policy(5, 4, 100))

  ghost predicate Reaches(es: seq<Event>, st: State) {
    Throughout(NewIds, FRESH, SMALL, es) && Exec(FRESH, SMALL, es) == st
  }

  lemma Next(es: seq<Event>, st: State, e: Event)
    requires Reaches(es, st) && NewIds(st, e)
    ensures Reaches(es + [e], Step(st, SMALL, e))
  {
    assert (es + [e])[..|es|] == es;
  }

  /** A host of account "a" is bound and connected as connection 0. */
  const HOSTED: State :=
    FRESH.(reg := Registry(map["h" := Binding("a", 0)], map[], map[]),
           hostConns := map["h" := {0}], infos := map[0 := HostInfo("h", "a")])

  lemma ReachHosted() returns (es: seq<Event>)
    ensures Reaches(es, HOSTED)
  {
    es := [];
    assert Reaches(es, FRESH);
    Next(es, FRESH, HostBind("h", "a"));
    var bound := FRESH.(reg := Registry(map["h" := Binding("a", 0)], map[], map[]));
    assert Step(FRESH, SMALL, HostBind("h", "a")) == bound;
    es := es + [HostBind("h", "a")];
    Next(es, bound, HostCommit(0, "h", "a"));
    assert Step(bound, SMALL, HostCommit(0, "h", "a")) == HOSTED by {
      assert At(bound.hostConns, "h") + {0} == {0};
      assert bound.hostConns["h" := {0}] == HOSTED.hostConns;
    }
    es := es + [HostCommit(0, "h", "a")];
  }

  const TAKEN_OVER: State := HOSTED.(reg := Registry(map["h" := Binding("b", 10)], map[], map[]), clock := 10)

  /** After the idle time without a pairing, another account may bind the host although it is connected. */
  lemma ReachTakenOver() returns (es: seq<Event>)
    ensures Reaches(es, TAKEN_OVER)
  {
    es := ReachHosted();
    Next(es, HOSTED, Tick(10));
    var late := HOSTED.(clock := 10);
    assert Step(HOSTED, SMALL, Tick(10)) == late;
    es := es + [Tick(10)];
    Next(es, late, HostBind("h", "b"));
    assert Reapable(late.reg, "h", 10, 10);
    assert Step(late, SMALL, HostBind("h", "b")) == TAKEN_OVER by {
      assert (late.reg.bindings - {"h"})["h" := Binding("b", 10)] == TAKEN_OVER.reg.bindings;
    }
    es := es + [HostBind("h", "b")];
  }

  const SHARED := Pairing("p", "c", "h", "d", "b")

  /** So a reap under a live host connection lets a frame cross accounts. */
  lemma ReapingUnderALiveHost() returns (es: seq<Event>, st: State, e: Event)
    ensures Reaches(es, st) && !Isolated(st, SMALL, e)
  {
    es := ReachTakenOver();
    Next(es, TAKEN_OVER, Register(SHARED));
    var paired := TAKEN_OVER.(reg := TAKEN_OVER.reg.(pairings := map["p" := SHARED], channels := map["c" := SHARED]));
    assert Step(TAKEN_OVER, SMALL, Register(SHARED)) == paired by {
      assert !Reapable(TAKEN_OVER.reg, "h", 10, 10);
    }
    es := es + [Register(SHARED)];
    Next(es, paired, DeviceCommit(1, "c", "b"));
    st := Step(paired, SMALL, DeviceCommit(1, "c", "b"));
    es := es + [DeviceCommit(1, "c", "b")];
    e := HostFrame(0, "c", 1, "none", []);
    Crosses(paired, st, e);
  }

  lemma Crosses(paired: State, st: State, e: Event)
    requires paired == TAKEN_OVER.(reg := TAKEN_OVER.reg.(pairings := map["p" := SHARED], channels := map["c" := SHARED]))
    requires st == AttachDevice(paired, 1, "c", "b") && e == HostFrame(0, "c", 1, "none", [])
    ensures !Isolated(st, SMALL, e)
  {
    assert At(paired.devConns, "c") + {1} == {1};
    assert IsHostConn(st, 0);
    assert Note(st, e) == [HostQueued(Frame(0, "c", 1, "none", []), {1})];
    assert HostQueued(Frame(0, "c", 1, "none", []), {1}) in Note(st, e);
    assert !SameAccount(st, 0, {1});
  }

  const THEIRS := Pairing("q", "c", "g", "d", "b")
  const OURS := Pairing("p", "c", "h", "d", "a")

  const BOTH_BOUND: map<string, Binding> := map["h" := Binding("a", 0), "g" := Binding("b", 0)]

  /** The channel belongs to account "b", whose device may now pass its attach check. */
  const CHECKED: State := HOSTED.(reg := Registry(BOTH_BOUND, map["q" := THEIRS], map["c" := THEIRS]))

  lemma ReachChecked() returns (es: seq<Event>)
    ensures Reaches(es, CHECKED)
  {
    es := ReachHosted();
    var both := HOSTED.(reg := Registry(BOTH_BOUND, map[], map[]));
    Next(es, HOSTED, HostBind("g", "b"));
    assert Step(HOSTED, SMALL, HostBind("g", "b")) == both by {
      assert HOSTED.reg.bindings["g" := Binding("b", 0)] == BOTH_BOUND;
    }
    es := es + [HostBind("g", "b")];
    Next(es, both, Register(THEIRS));
    assert Step(both, SMALL, Register(THEIRS)) == CHECKED by {
      assert !Reapable(both.reg, "g", 0, 10);
    }
    es := es + [Register(THEIRS)];
  }

  /** The pairing was deleted and the channel registered anew by account "a". */
  const REUSED: State :=
    HOSTED.(reg := Registry(BOTH_BOUND, map["p" := OURS], map["c" := OURS]))

  const FREED: State := HOSTED.(reg := Registry(BOTH_BOUND, map[], map[]))

  lemma FreeChannel()
    ensures Step(CHECKED, SMALL, Unregister("q", "b")) == FREED
  {
    assert CHECKED.reg.pairings - {"q"} == map[] && CHECKED.reg.channels - {"c"} == map[];
    assert FREED.devConns - {"c"} == FREED.devConns && FREED.apns - {"d"} == FREED.apns;
    assert FREED.boxes - {"c"} == FREED.boxes && FREED.attached - {"c"} == FREED.attached && FREED.boxedBy - {"c"} == FREED.boxedBy;
  }

  /** Account "a" registers the free channel, whoever has connected so far. */
  lemma TakeChannel(infos: map<nat, Info>)
    ensures Step(FREED.(infos := infos), SMALL, Register(OURS)) == REUSED.(infos := infos)
  {
    assert !Reapable(FREED.reg, "h", 0, 10);
  }

  lemma ReuseChannel(before: seq<Event>) returns (es: seq<Event>)
    requires Reaches(before, CHECKED)
    ensures Reaches(es, REUSED) && before <= es
  {
    FreeChannel();
    Next(before, CHECKED, Unregister("q", "b"));
    es := before + [Unregister("q", "b")];
    TakeChannel(FREED.infos);
    assert FREED.(infos := FREED.infos) == FREED && REUSED.(infos := FREED.infos) == REUSED;
    Next(es, FREED, Register(OURS));
    es := es + [Register(OURS)];
  }

  const FRAME := Frame(0, "c", 1, "none", [])

  /** A device commit whose check is out of date breaks ownership, and the next host frame crosses. */
  lemma StaleDeviceCommit() returns (before: seq<Event>, es: seq<Event>, st: State, e: Event)
    ensures before <= es && Reaches(before, CHECKED) && CHECKED.reg.channels["c"].account == "b"
    ensures Reaches(es, REUSED) && st == Step(REUSED, SMALL, DeviceCommit(1, "c", "b")) && Reaches(es + [DeviceCommit(1, "c", "b")], st)
    ensures Owned(REUSED) && !Owned(st) && e.HostFrame? && !Isolated(st, SMALL, e)
  {
    before := ReachChecked();
    es := ReuseChannel(before);
    ReusedOwned();
    OwnedIff(REUSED, SMALL, DeviceCommit(1, "c", "b"));
    Next(es, REUSED, DeviceCommit(1, "c", "b"));
    st := Step(REUSED, SMALL, DeviceCommit(1, "c", "b"));
    e := HostFrame(0, "c", 1, "none", []);
    LateCommitCrosses(st, e);
  }

  lemma LateCommitCrosses(st: State, e: Event)
    requires st == AttachDevice(REUSED, 1, "c", "b") && e == HostFrame(0, "c", 1, "none", [])
    ensures !Isolated(st, SMALL, e)
  {
    assert At(REUSED.devConns, "c") + {1} == {1};
    assert Note(st, e) == [HostQueued(FRAME, {1})];
    assert HostQueued(FRAME, {1}) in Note(st, e);
    assert !SameAccount(st, 0, {1});
  }

  lemma ReusedOwned()
    ensures Owned(REUSED) && Consistent(REUSED.reg)
  {
  }

  /** The device whose pairing was deleted, attached while it was registered. */
  const SEEN: map<nat, Info> := map[0 := HostInfo("h", "a"), 1 := DevInfo("c", "b")]

  lemma ReachUnlisted(before: seq<Event>) returns (es: seq<Event>)
    requires Reaches(before, CHECKED)
    ensures Reaches(es, REUSED.(infos := SEEN))
  {
    Next(before, CHECKED, DeviceCommit(1, "c", "b"));
    var attached := AttachDevice(CHECKED, 1, "c", "b");
    es := before + [DeviceCommit(1, "c", "b")];
    assert Reaches(es, attached);
    es := ReachTaken(es, attached);
  }

  lemma ReachTaken(before: seq<Event>, attached: State) returns (es: seq<Event>)
    requires Reaches(before, attached) && attached == AttachDevice(CHECKED, 1, "c", "b")
    ensures Reaches(es, REUSED.(infos := SEEN))
  {
    Unlisted(attached);
    Next(before, attached, Unregister("q", "b"));
    es := before + [Unregister("q", "b")];
    TakeChannel(SEEN);
    Next(es, FREED.(infos := SEEN), Register(OURS));
    es := es + [Register(OURS)];
  }

  lemma Unlisted(attached: State)
    requires attached == AttachDevice(CHECKED, 1, "c", "b")
    ensures Step(attached, SMALL, Unregister("q", "b")) == FREED.(infos := SEEN)
  {
    assert attached.reg.pairings - {"q"} == map[] && attached.reg.channels - {"c"} == map[];
    assert attached.devConns - {"c"} == FREED.devConns && attached.attached - {"c"} == FREED.attached;
    assert attached.boxes - {"c"} == FREED.boxes && attached.boxedBy - {"c"} == FREED.boxedBy;
    assert attached.apns - {"d"} == FREED.apns && attached.infos == SEEN;
  }

  /** A device that still sends after its channel changed hands reaches the new account's host. */
  lemma UnattendedFrame() returns (es: seq<Event>, st: State, e: Event)
    ensures Reaches(es, st) && e.DeviceFrame? && !Attended(st, SMALL, e) && !Isolated(st, SMALL, e)
  {
    var before := ReachChecked();
    es := ReachUnlisted(before);
    st := REUSED.(infos := SEEN);
    e := DeviceFrame(1, 1, []);
    var f := DeviceSent(st, 1, 1, []);
    assert Note(st, e) == [DeviceQueued(f, {0})];
    assert DeviceQueued(f, {0}) in Note(st, e);
    assert !SameAccount(st, 1, {0});
  }

  const ITEM := Mailbox.Item(1, "none", [], 0)

  const HOLDING: State := REUSED.(boxes := map["c" := [ITEM]], boxedBy := map["c" := [0]])

  lemma HoldOne()
    ensures Mailbox.Append([], ITEM, 0, SMALL.policy) == [ITEM] && Mailbox.Prune([ITEM], 0, 5) == [ITEM]
  {
    assert Mailbox.Prune([], 0, 5) + [ITEM] == [ITEM];
    Mailbox.EvictOne(ITEM, SMALL.policy);
    assert Mailbox.Size([ITEM]) == 0 by { assert [ITEM][1..] == []; }
  }

  lemma BoxOne()
    ensures Step(REUSED, SMALL, HostFrame(0, "c", 1, "none", [])) == HOLDING
  {
    HoldOne();
    assert ItemOf(FRAME, 0) == ITEM && Box(REUSED, "c") == [] && By(REUSED, "c") + [0] == [0];
    assert Step(REUSED, SMALL, HostFrame(0, "c", 1, "none", [])) == RouteHost(REUSED, SMALL, "h", FRAME);
  }

  /** A fetch checked while the channel was the reader's reads the frames of the account that has it now. */
  lemma StaleRead() returns (before: seq<Event>, es: seq<Event>, e: Event)
    ensures before <= es && Reaches(before, CHECKED) && Reaches(es, HOLDING) && e == FetchBox("c", "b")
    ensures "c" in CHECKED.reg.channels && CHECKED.reg.channels["c"].account == "b"
    ensures !Attended(HOLDING, SMALL, e) && !Isolated(HOLDING, SMALL, e)
  {
    before := ReachChecked();
    es := ReuseChannel(before);
    BoxOne();
    Next(es, REUSED, HostFrame(0, "c", 1, "none", []));
    es := es + [HostFrame(0, "c", 1, "none", [])];
    e := FetchBox("c", "b");
    ReadsAcross();
  }

  lemma ReadsAcross()
    ensures !Attended(HOLDING, SMALL, FetchBox("c", "b")) && !Isolated(HOLDING, SMALL, FetchBox("c", "b"))
  {
    HoldOne();
    assert Fetched("c", "b", 0) in Note(HOLDING, FetchBox("c", "b"));
    assert !SentBy(HOLDING, By(HOLDING, "c")[0], "b");
  }

  /** A durable channel with the id of the host's own open provisional channel is not routed. */
  lemma ShadowedChannel() returns (es: seq<Event>, st: State, e: Event)
    ensures Reaches(es, st) && e.HostFrame? && IsHostConn(st, e.conn)
    ensures e.channel in st.reg.channels && st.reg.channels[e.channel].host == st.infos[e.conn].host
    ensures !Passes(st, e) && Note(st, e) == []
  {
    es := ReachHosted();
    var w := Window("w", "h", "c");
    Next(es, HOSTED, OpenWindow(w, "a"));
    var open := Step(HOSTED, SMALL, OpenWindow(w, "a"));
    assert "c" in open.provChans && open.reg == HOSTED.reg by {
      assert !Reapable(HOSTED.reg, "h", 0, 10);
    }
    es := es + [OpenWindow(w, "a")];
    Next(es, open, Register(OURS));
    st := Step(open, SMALL, Register(OURS));
    assert !Reapable(open.reg, "h", 0, 10);
    es := es + [Register(OURS)];
    e := HostFrame(0, "c", 1, "none", []);
  }
}
