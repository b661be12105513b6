/**
 * The host's side of the sequence protocol, fakehost: one pairing-lifetime counter behind
 * both frame constructions. Each send is proved to be one host event of DeviceProtocol.
 */
module HostSender {
  import opened Common
  import opened Bytes
  import opened Sequence
  import opened DeviceProtocol

  /** How the fallible parts of a send went. */
  datatype Luck = Luck(marshals: bool, channelOk: bool, pushClass: Option<byte>, seals: bool)

  /** A class L send: after marshalling the number is spent, and the frame goes out if all else succeeds. */
  function LiveEvent(luck: Luck, ct: nat): Option<Event> {
    if !luck.marshals then None
    else if luck.channelOk && luck.pushClass.Some? && luck.seals then Some(HostSendL(luck.pushClass.value, ct))
    else Some(HostBurn)
  }

  /** A class M send: the push class is checked before the number is spent. */
  function MailboxEvent(luck: Luck, ct: nat): Option<Event> {
    if !luck.marshals || luck.pushClass.None? then None
    else if luck.seals then Some(HostSendM(luck.pushClass.value, ct))
    else Some(HostBurn)
  }

  class Host {
    var paired: bool
    var attached: bool
    var established: bool     // the session is at its third step
    var key: nat              // of the current session
    var h2dSent: u64
    var sent: seq<Seal>

    /** A world with this host in it. */
    ghost function In(w: World): World
      reads this
    {
      w.(sent := sent, h2dSent := h2dSent, hostKey := key)
    }

    constructor ()
      ensures h2dSent == 0 && sent == [] && key == 0 && !paired
    {
      paired, attached, established, key, h2dSent, sent := false, false, false, 0, 0, [];
    }

    /** The next number; it is spent whatever becomes of the frame. */
    method Next() returns (n: u64)
      modifies this`h2dSent
      ensures n == h2dSent == (old(h2dSent) + 1) % U64_SIZE
    {
      h2dSent := (h2dSent + 1) % U64_SIZE;
      n := h2dSent;
    }

    /** sendEncryptedOn: class L, on the session's push stream. */
    method SendEncryptedOn(luck: Luck, ct: nat, ghost w: World) returns (e: Option<Event>)
      modifies this`h2dSent, this`sent
      ensures In(w) == if e.Some? then Step(old(In(w)), e.value) else old(In(w))
      ensures e == LiveEvent(luck, ct)
      ensures h2dSent == (if luck.marshals then (old(h2dSent) + 1) % U64_SIZE else old(h2dSent))
      ensures sent == old(sent) + (if luck.marshals && luck.channelOk && luck.pushClass.Some? && luck.seals
                                   then [Seal(ClassL(key, LCount(old(sent), key)), h2dSent, luck.pushClass.value, ct)] else [])
    {
      if !luck.marshals {
        return None;
      }
      var n := Next();
      if !luck.channelOk || luck.pushClass.None? || !luck.seals {
        return Some(HostBurn);
      }
      sent := sent + [Seal(ClassL(key, LCount(sent, key)), n, luck.pushClass.value, ct)];
      return Some(HostSendL(luck.pushClass.value, ct));
    }

    /** sendMailboxEnvelope: class M, from the same counter. */
    method SendMailboxEnvelope(luck: Luck, ct: nat, ghost w: World) returns (e: Option<Event>)
      modifies this`h2dSent, this`sent
      ensures In(w) == if e.Some? then Step(old(In(w)), e.value) else old(In(w))
      ensures e == MailboxEvent(luck, ct)
      ensures h2dSent == (if luck.marshals && luck.pushClass.Some? then (old(h2dSent) + 1) % U64_SIZE else old(h2dSent))
      ensures sent == old(sent) + (if luck.marshals && luck.pushClass.Some? && luck.seals
                                   then [Seal(ClassM, h2dSent, luck.pushClass.value, ct)] else [])
    {
      if !luck.marshals || luck.pushClass.None? {
        return None;
      }
      var n := Next();
      if !luck.seals {
        return Some(HostBurn);
      }
      sent := sent + [Seal(ClassM, n, luck.pushClass.value, ct)];
      return Some(HostSendM(luck.pushClass.value, ct));
    }

    /** sendEnvelope: the presence of the device chooses the construction. */
    method SendEnvelope(transcript: bool, luck: Luck, ct: nat, ghost w: World) returns (e: Option<Event>)
      modifies this`h2dSent, this`sent
      ensures In(w) == if e.Some? then Step(old(In(w)), e.value) else old(In(w))
      ensures paired && attached && established ==> e == LiveEvent(luck, ct)
      ensures paired && !attached && !transcript ==> e == MailboxEvent(luck, ct)
      ensures !paired || (attached && !established) || (!attached && transcript) ==> e == None
      ensures |sent| > |old(sent)| <==> e.Some? && !e.value.HostBurn?
    {
      e := None;
      if !paired {
        return;
      }
      if !attached {
        if transcript {
          return;
        }
        e := SendMailboxEnvelope(luck, ct, w);
        return;
      }
      if !established {
        return;
      }
      e := SendEncryptedOn(luck, ct, w);
    }
  }
}
