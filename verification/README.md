# Kenaz remote relay: a verified model

The repository connects a host and its paired devices through a relay that sees only
frame headers. This project models the parts whose correctness is not local to one
function, and proves what they keep over all inputs and all runs:

- **Secretstream** (`SecretStreamSpec`, `SecretStreamBytes`, `SecretStream`): the
  hand-written libsodium stream, byte by byte and in place. ChaCha20, HChaCha20 and
  Poly1305 are arbitrary functions; nothing else about them is used.
- **The sequence protocol** (`Sequence`, `DeviceSession`, `HostSender`, `DeviceProtocol`,
  `DeviceExact`): one host counter behind two frame constructions, a relay that shows the
  device anything it likes, and a device that drains, connects, receives, sends, fails to
  save and crashes.
- **The relay** (`Registry`, `RelayMachine`, `RelayAccounts`, `RelayAuthority`,
  `RelayRouting`, `RelayWitnesses`, `FakeRelay`, `Store`, `Mailbox`, `Presence`):
  bindings, pairings, windows, mailboxes, tokens, routing and presence, one event per
  critical section.
- **Rate limits** (`TokenBucket`, `SweepingLimiter`): the bucket arithmetic over reals and
  the sweep as an optimisation of it.
- **Codecs** (`Base64`, `AssociatedData`, `Text`, `Qr`, `QrCanonical`, `Schedule`,
  `WireFormats`): canonicity, round trips, injectivity, and the formats written out.
- **Approvals** (`Approvals`): first decision wins.

State that the source updates in place is a class here, with loops where the source has
loops; each method is proved equal to a function on values, and the theorems are about
those functions. What a function does is also stated on its own, by lemmas that name only
events, frames and bytes. `Bytes` and `Common` hold what the components share.

Premises that the source cannot enforce are explicit predicates on runs: ideal AEAD
(`DeviceProtocol.IdealAead`), unused ids from `NewID` (`RelayMachine.NewIds`,
`Approvals.FreshIds`), a clock that does not go back (`RelayRouting.ClockForward`,
`Mailbox.Nondecreasing`), attach commits whose check still holds and no reap under a live
connection (`RelayAccounts.Prompt`).

## Findings

Places where the code does not do what its comments promise on every input, with the
members that show it and state when it does.

- `Recv` on a session whose earlier frame failed authentication, `Recv` or a host
  confirmation on a session that a newer one has overtaken, and a crash after a failed save
  can skip a number without a reconcile, record numbers out of order or record one twice
  (`ReceivingOnAfterAuthFailure`, `ReceivingOnAReplacedSession`,
  `ConfirmingAnOvertakenSession`, `CrashingOnAnUnsavedMark`). `RunFromSavedOrderedIff` is the
  exact condition on a run; `RecvKeepsOrderIff`, `ConfirmKeepsOrderIff` and
  `DrainKeepsOrderIff` are what a caller can check beforehand.
- The saved mark can go back: through such a receive or confirmation, and through a send,
  which saves the whole record while the mark in memory lags behind
  (`ReceivingOnAReplacedSession`, `ConfirmingAnOvertakenSession`, `SendingOnALaggingMark`).
  `RunSavedIff` is the exact condition on a run; `RecvSavesRisingIff`,
  `ConfirmSavesRisingIff` and `DrainSavesRisingIff` are what a caller can check beforehand.
- The sweep computes its horizon from the caller's limit, so a sweep by a fast limit drops
  slow buckets that still carry information (`MixedRatesChangeAnswers`). With a clock that
  does not go back, the sweep is unobservable exactly when every two limits in force cover
  each other (`TransparentIff`); with a clock that may go back, exactly when at most one key
  is limited and covers itself (`ReturningClockChangesAnswers`, `AlwaysTransparentIff`).
- A mailbox whose numbers do not increase loses items to its cursor
  (`PagingNeedsIncreasing`); `PagingIff` is the exact condition.
- The rate bound for a window of clock readings fails when the clock rises beyond the window
  and returns (`RisingBeyondBreaks`), and only then (`WindowCount`); for consecutive calls
  it needs no lower bound on the readings after the first (`RateBound`).
- With a TTL that is not positive, an append stores an item that has already expired
  (`ContentsLongestIff`).
- The relay checks an attach in one critical section and commits it in another, and reaps
  by the last attach or detach, not by live connections; it also checks a mailbox fetch in
  one section and reads in another. `OwnedIff` and `RunIsolatedIff` give the exact condition
  under which accounts stay apart; `StaleDeviceCommit`, `StaleRead`, `UnattendedFrame` and
  `ReapingUnderALiveHost` show that the code alone does not ensure it.
- A durable channel registered under the id of the host's own open provisional channel is
  not routed until the window closes (`ShadowedChannel`, `NoteOfAccepted`).
- A QR payload of another version or with a negative expiry does not parse back from its
  own encoding (`ParseInvertsEncode`).
- The parser is documented to reject every non-canonical encoding; it accepts unneeded and
  lower-case escapes, leading zeros in the expiry and any parameter order
  (`LeadingZeroAccepted`, `OrderIrrelevant`). `CanonicalIff` says which accepted texts are
  canonical.

## Model

| member | source | states |
|---|---|---|
| `SecretStreamSpec.OpenInvertsSeal` | e2ekit/secretstream.go:161-227 | opening a sealed frame from the same state gives its message and tag, and both sides end in the same state |
| `SecretStreamSpec.SealInvertsOpen` | e2ekit/secretstream.go:161-227 | a frame that opens is, byte for byte, what sealing its content produces, with the same next state |
| `SecretStreamSpec.AcceptedIffSealable` | e2ekit/secretstream.go:196-227 | a frame is accepted if and only if some message and tag seal to it |
| `SecretStreamSpec.StreamDelivers` | e2ekit/secretstream.go:82-257 | for every list of messages, the frames pushed up to the first final tag pull to exactly those messages and tags in order, and both streams end identical, through rekeys and counter wrap |
| `SecretStreamSpec.AcceptedIsATranscript` | e2ekit/secretstream.go:186-227 | whatever a pull stream accepts from an arbitrary wire, with failures skipped, is the transcript of a push stream from the same state |
| `SecretStreamSpec.MacInputInjective` | e2ekit/secretstream.go:148-176 | the bytes fed to the MAC determine associated data, tag block and ciphertext |
| `SecretStreamSpec.TrailingPadMatchesRfc8439` | e2ekit/secretstream.go:148-155 | the trailing pad equals that of section 2.8 of RFC 8439 if and only if the message length is a multiple of 8 |
| `SecretStreamSpec.OtherAdMeansCollision` | e2ekit/secretstream.go:196-222 | a frame that opens under other associated data exhibits a Poly1305 collision on two different inputs |
| `SecretStreamSpec.AdvanceCounter` | e2ekit/secretstream.go:230-242 | the counter grows by one under the same key, or restarts at 1 exactly on a rekey tag or on wrap |
| `SecretStreamSpec.CounterCountsFrames` | e2ekit/secretstream.go:82-92 | at every frame boundary the counter is nonzero and is 1 plus the frames since the last rekey |
| `SecretStreamSpec.EpochGrows` | e2ekit/secretstream.go:230-257 | within a key epoch the key stays and the counter counts frames |
| `SecretStreamSpec.NoNonceReuse` | e2ekit/secretstream.go:230-257 | no two frames of a key epoch share a nonce, and an epoch has fewer than 2^32 frames |
| `SecretStreamBytes.FrameBytes` | e2ekit/secretstream.go:161-181 | a frame is the tag under keystream byte 64, the message under the keystream from byte 128 on, and sixteen bytes of MAC |
| `SecretStreamBytes.MacInputLayout` | e2ekit/secretstream.go:148-176 | the authenticated text byte by byte: zero-padded associated data, tag block, ciphertext, as many zeros as its length modulo 16, and both lengths in little-endian order, the second counting the tag block |
| `SecretStreamBytes.TrailMatchesRfc8439` | e2ekit/secretstream.go:148-155 | those zeros complete the text to a multiple of 16, as section 2.8 of RFC 8439 has it, if and only if the message length is a multiple of 8 |
| `SecretStreamBytes.FrameAuthenticated` | e2ekit/secretstream.go:131-178 | the last sixteen bytes of every frame are Poly1305 of that text, keyed by keystream bytes 0 to 31, over a tag block that starts with the frame's own first byte |
| `SecretStreamBytes.InitBytes` | e2ekit/secretstream.go:82-92 | a stream starts from HChaCha20 of key and header prefix, counter bytes 1 0 0 0, and the last eight header bytes |
| `SecretStreamBytes.TagBits` | e2ekit/secretstream.go:236-241 | tag 3 and no other ends the stream; the rekey bit is the second lowest |
| `SecretStreamBytes.SteppedNonce` | e2ekit/secretstream.go:230-242 | after every frame the counter is one more modulo 2^32 and the inonce is XORed with the first half of the MAC the frame ends with; then comes the rekey exactly on the rekey bit or the wrap |
| `SecretStreamBytes.InonceStep` | e2ekit/secretstream.go:231-236 | without a rekey the key stays and each inonce byte is the old one XOR the matching MAC byte of the emitted frame |
| `SecretStreamBytes.RekeyBytes` | e2ekit/secretstream.go:236-257 | a rekey replaces key and inonce by themselves XOR the keystream of the old key under the stepped nonce, and restarts the counter bytes at 1 0 0 0 |
| `SecretStreamBytes.EpochInonce` | e2ekit/secretstream.go:230-257 | over any stretch of a stream without a rekey the inonce is the one it began with XORed with the MACs of all frames since |
| `SecretStream.Cipher.XorKeyStream` | e2ekit/secretstream.go:131-141 | consumes the keystream contiguously from where the last call stopped, changing only the target range |
| `SecretStream.Stream.constructor` | e2ekit/secretstream.go:82-92 | the in-place stream starts in the initial state of its key and header |
| `SecretStream.Stream.NewCipher` | e2ekit/secretstream.go:131-141 | the MAC is keyed by the first half of block 0 and the cipher then stands at byte 64 |
| `SecretStream.Stream.SealFrame` | e2ekit/secretstream.go:161-178 | the assembled buffer holds the encrypted tag and ciphertext, and the MAC is over their full input |
| `SecretStream.Stream.PushRaw` | e2ekit/secretstream.go:161-181 | frame and new state are those of the specification's seal |
| `SecretStream.Stream.Push` | e2ekit/secretstream.go:119-124 | refuses after the final tag without a change, otherwise seals |
| `SecretStream.Stream.VerifyFrame` | e2ekit/secretstream.go:201-219 | recovers the tag and recomputes the MAC the sender must have used |
| `SecretStream.Stream.PullRaw` | e2ekit/secretstream.go:196-227 | accepts exactly what the specification opens; a failure changes nothing |
| `SecretStream.Stream.Pull` | e2ekit/secretstream.go:186-191 | refuses after the final tag; every refusal leaves the state unchanged |
| `SecretStream.Stream.Advance` | e2ekit/secretstream.go:230-242 | the in-place transition is the specification's |
| `SecretStream.Stream.Rekey` | e2ekit/secretstream.go:245-257 | the in-place rekey is the specification's, from the old key and nonce |
| `Sequence.SessionAcceptsRuns` | e2ekit/seq.go:83-101 | a session accepts a list of numbers if and only if it starts above the mark and is consecutive; it jumps exactly when it does not start right after the mark |
| `Sequence.MidSessionRuns` | e2ekit/seq.go:96-100 | mid-session exactly the consecutive continuations are accepted |
| `Sequence.ClassErrors` | e2ekit/seq.go:49-57 | number zero is for plaintext frames and only for them, each violation with its own error |
| `Sequence.RefusedIff` | e2ekit/seq.go:83-120 | each error of a live frame or a mailbox item arises on exactly its own numbers |
| `Sequence.SeqTracker.StartSession` | e2ekit/seq.go:77-77 | re-enters the start regime and keeps the mark |
| `Sequence.SeqTracker.AcceptFrame` | e2ekit/seq.go:83-101 | the in-place tracker is the function; an error leaves it unchanged |
| `Sequence.SeqTracker.AcceptDrained` | e2ekit/seq.go:107-120 | the same for mailbox items |
| `DeviceSession.State.Store` | devclient/state.go:58-81 | a successful save puts the record in memory on disk, a failed one leaves the disk as it was |
| `DeviceSession.Session.SaveMark` | devclient/session.go:328-333 | the mark moves, in memory and on disk, only forward |
| `DeviceSession.Session.DrainPage` | devclient/session.go:278-317 | the item loop with its abandon and abort exits |
| `DeviceSession.Session.DrainMailbox` | devclient/session.go:245-324 | the paging loop: pages, marks saved after each, and how it ends |
| `DeviceSession.Session.Confirm` | devclient/session.go:178-219 | the host confirmation in place: order, kind and transcript MAC are checked before the mark is set and saved |
| `DeviceSession.Session.RecvOne` | devclient/session.go:405-446 | one frame: tracker first, then authentication, then the mark |
| `DeviceSession.Session.Recv` | devclient/session.go:400-448 | the receive loop, and refusal forever after revocation |
| `DeviceSession.Session.SendEncrypted` | devclient/session.go:338-371 | a number reaches the wire only after it was saved |
| `HostSender.Host.SendEncryptedOn` | fakehost/fakehost.go:698-733 | a class L send is one host event of the protocol; after marshalling, every failure spends a number |
| `HostSender.Host.SendMailboxEnvelope` | fakehost/session.go:219-244 | a class M send takes its number from the same counter |
| `HostSender.Host.SendEnvelope` | fakehost/session.go:192-212 | the device's presence and the session decide the construction, and with it which event results from which failures; in every other case nothing happens |
| `DeviceProtocol.RecordedInOrder` | devclient/session.go:178-448 | for every run with ideal AEAD whose steps meet their guards: each recorded number was sent by the host under that number, recorded numbers strictly increase, and every number passed over is followed by a record whose session expects a reconcile |
| `DeviceProtocol.NoFlagNoLoss` | devclient/session.go:192-194 | on such a run, if no session ever expected a reconcile, every number up to the mark was recorded |
| `DeviceProtocol.RunAuthentic` | devclient/session.go:430-435 | under ideal AEAD, over any run at all, every number that authenticated was sent by the host and every recorded number authenticated |
| `DeviceProtocol.DisciplineKeepsOrder` | devclient/session.go:396-435 | a caller that uses only its newest session, and not after an authentication failure, and crashes only on a saved mark meets every guard |
| `DeviceProtocol.RunInOrder` | devclient/session.go:245-333 | for such a caller the records are a chain up to the mark after every step |
| `DeviceProtocol.StepOrderedIff` | devclient/session.go:188-217 | one step keeps the records a flagged, increasing chain that ends at the mark if and only if it meets its guard: a receive on a tracker at the mark, or ahead of it with a reconcile expected; a confirmation numbered above the mark; a page that records nothing, starts at the mark or takes its first number above it; a crash on a saved mark |
| `DeviceProtocol.RunFromSavedOrderedIff` | devclient/session.go:178-448 | over every run from a saved record, the records are a flagged, increasing chain that ends at the mark in memory after every step if and only if every step meets its guard |
| `DeviceProtocol.RecvKeepsOrderIff` | devclient/session.go:423-435 | a receive keeps that order on whatever frame the relay shows if and only if the session's tracker stands at the mark, or ahead of it with a reconcile expected, or at the last number of all |
| `DeviceProtocol.ConfirmKeepsOrderIff` | devclient/session.go:188-217 | a confirmation does so if and only if the tracker stands at the mark |
| `DeviceProtocol.DrainKeepsOrderIff` | devclient/session.go:291-318 | a mailbox page does so if and only if the tracker stands at the mark, short of the last number of all |
| `DeviceProtocol.DrainIsRun` | devclient/session.go:245-324 | the whole paging loop of a session is the run of its page events, with the same state, session and outcome |
| `DeviceProtocol.MarksAreSent` | devclient/session.go:328-333 | whatever sessions are used, saves fail and crashes happen, the mark in memory and the mark on disk are each the starting one or a number that authenticated, hence one the host sent |
| `DeviceProtocol.RunMarksRecorded` | devclient/state.go:44-81 | for a disciplined caller, across failed saves and crashes anywhere, both marks are the starting one or a recorded number |
| `DeviceProtocol.WireNeverRepeats` | devclient/session.go:355-370 | no device number appears on the wire twice, across any crashes and failed saves |
| `DeviceProtocol.RunSavedIff` | devclient/session.go:328-371 | over every run the mark on disk never goes back if and only if no step saves a mark below it: no receive, confirmation or page that records a lower number, and no send while memory lags behind |
| `DeviceProtocol.RecvSavesRisingIff` | devclient/session.go:434-435 | a receive never lowers the saved mark, whatever frame the relay shows, if and only if the tracker is at most one below it |
| `DeviceProtocol.ConfirmSavesRisingIff` | devclient/session.go:216-217 | the same for a confirmation |
| `DeviceProtocol.DrainSavesRisingIff` | devclient/session.go:328-333 | a page never lowers it if and only if the lowest mark a page can move to is not below it |
| `DeviceProtocol.SavedMarkMonotone` | devclient/session.go:328-333 | for a disciplined caller it never decreases, wherever the process crashes |
| `DeviceProtocol.ReceivingOnAfterAuthFailure` | devclient/session.go:423-433 | a reachable run that records 1 then 3 with 2 sent and no reconcile expected |
| `DeviceProtocol.ReceivingOnAReplacedSession` | devclient/session.go:434-435 | a reachable state in which one receive moves the saved mark from 3 to 2 |
| `DeviceProtocol.ConfirmingAnOvertakenSession` | devclient/session.go:216-217 | a reachable run without receive or crash that records 2 then 1 and lowers the saved mark |
| `DeviceProtocol.SendingOnALaggingMark` | devclient/session.go:355-357 | a reachable state in which a send lowers the saved mark from 3 to 2 |
| `DeviceProtocol.CrashingOnAnUnsavedMark` | devclient/session.go:216-217 | a reachable run that records the same number twice |
| `DeviceExact.ConfirmLiveIff` | devclient/session.go:178-219 | a keyed session goes live if and only if the frame is an authentic sess.confirm numbered above the tracker with the right transcript MAC; it then sets mark, tracker and reconcile, and otherwise device and records stay untouched |
| `DeviceExact.RunLiveConfirmed` | devclient/session.go:178-219 | in every run each live session had, since the last restart, a confirmation with the right transcript MAC |
| `DeviceExact.PhaseOrder` | devclient/session.go:72-219 | a session only ever moves from drained to handshaken to confirmed |
| `DeviceExact.RecvExact` | devclient/session.go:400-448 | outcome, mark, disk and tracker of a live receive, from the frame alone |
| `DeviceExact.RecvFirst` | devclient/session.go:404-448 | a call of Recv acts on the first frame that is not plaintext control other than a denial, and on that one alone |
| `DeviceExact.RevokedIff` | devclient/session.go:430-446 | a session becomes revoked if and only if its next frame authenticates and carries tag 3 or says session.revoked |
| `DeviceExact.RunRevoked` | devclient/session.go:400-403 | over every run without a restart a revoked session never changes again |
| `DeviceExact.DrainTakes` | devclient/session.go:278-317 | a page takes a prefix of its items, each of which opens and is numbered above the one before |
| `DeviceExact.DrainEnds` | devclient/session.go:278-317 | a page is done, abandoned or fatal exactly by the item it stops at |
| `DeviceExact.DrainDelivers` | devclient/session.go:278-317 | it hands on exactly the envelopes of the items taken, in order |
| `DeviceExact.DrainReconciles` | devclient/session.go:278-317 | it expects a reconcile if and only if it did before, skipped a number or was abandoned |
| `DeviceExact.DrainStepExact` | devclient/session.go:245-333 | the mark moves to where the page ended, only forward and not after a number out of order, and is saved then; only a full page that says truncated is followed by another |
| `DeviceExact.StartExact` | devclient/state.go:44-81 | a session starts from the mark in memory, and a restart keeps nothing but the saved record |
| `DeviceExact.SendExact` | devclient/session.go:338-371 | a send spends the next number modulo 2^64 and puts it on the wire if and only if the record holding it was saved |
| `DeviceExact.SealExact` | fakehost/fakehost.go:698-733 | either construction and a failed send each spend the next number of one counter; class L seals take the next position of their session stream |
| `DeviceExact.RunHostRises` | fakehost/session.go:219-244 | short of the wrap, the numbers of everything the host ever sealed strictly increase across both constructions |
| `DeviceExact.RunPositions` | fakehost/fakehost.go:698-733 | over every run each class L seal stands at the position that counts the earlier seals of its session |
| `Mailbox.Mailbox.AppendItem` | internal/relay/store.go:660-669 | in place, appending is prune, add, evict; the byte counter stays the sum of body lengths |
| `Mailbox.Mailbox.PruneOld` | internal/relay/store.go:671-680 | drops exactly the expired leading items and keeps the byte count |
| `Mailbox.Mailbox.FetchItems` | internal/relay/store.go:684-699 | prunes by age only and returns the first items above the cursor, in order |
| `Mailbox.Mailbox.Get` | internal/fakerelay/mailbox.go:49-64 | the second implementation computes the same function, call for call |
| `Mailbox.ScanReturning` | internal/relay/store.go:686-698 | the scan that returns early yields the page, the cursor and whether more remain |
| `Mailbox.ScanBreaking` | internal/fakerelay/mailbox.go:51-63 | the scan that breaks yields the same |
| `Mailbox.PageExact` | internal/relay/store.go:684-699 | a page is as many of the items above its start as the limit allows, from the first on; it says truncated if and only if some are left over, and its cursor is its last number |
| `Mailbox.ContentsLongest` | internal/relay/store.go:655-699 | after any calls with a clock that does not go back, the mailbox is exactly the longest suffix of all arrivals that is unexpired and within both caps |
| `Mailbox.ContentsLongestIff` | internal/fakerelay/mailbox.go:24-45 | the exact condition for that, for every TTL |
| `Mailbox.AboveResumes` | internal/relay/store.go:684-699 | with increasing numbers, the items above a returned cursor are the rest |
| `Mailbox.DrainAll` | devclient/session.go:247-323 | on a mailbox object and a still clock, with either implementation, following the cursor while truncated ends, removes only what has expired, and with increasing numbers yields each unexpired item above the start once, in order |
| `Mailbox.DrainTwice` | internal/relay/store.go:682-699 | a second reader with the other implementation finds the same mailbox, and the same items for the same limit or with increasing numbers |
| `Mailbox.PagingIff` | internal/relay/store.go:684-699 | paging yields exactly the items above the start, for every start and every limit of at least one, if and only if the numbers stored above zero increase |
| `Mailbox.PagingNeedsIncreasing` | internal/relay/store.go:684-699 | two items of which paging loses one |
| `Registry.CreateConsistent` | internal/fakerelay/handler.go:191-215 | registering keeps the channel index and every pairing's account equal to its host's binding |
| `Registry.DeleteConsistent` | internal/fakerelay/handler.go:273-286 | so does deleting |
| `Registry.BindConsistent` | internal/fakerelay/fakerelay.go:280-291 | so does binding with its lazy reap |
| `Registry.LookupIsScan` | internal/fakerelay/handler.go:322-324 | the channel index answers as a scan over all pairings would |
| `RelayAccounts.StepMapsAgree` | internal/fakerelay/fakerelay.go:192-210 | every critical section keeps all maps in agreement |
| `RelayAccounts.ReachableMapsAgree` | internal/fakerelay/handler.go:62-307 | in every reachable state each pairing's account is its host's live binding, each host has at most one window, no mailbox outlives its channel and no token its device's last pairing |
| `RelayAccounts.BindingLeavesIff` | internal/fakerelay/fakerelay.go:253-263 | one step takes a host from its account if and only if it looks at a binding that has no pairings and is idle in full, and does not bind it back |
| `RelayAccounts.PairedHostKeepsAccount` | internal/fakerelay/fakerelay.go:253-291 | while a host keeps some pairing its account never changes |
| `RelayAccounts.IdleSinceActivity` | internal/fakerelay/ws.go:152-158 | over any run the idle time of a live binding runs from its last granted attach or last detach |
| `RelayAccounts.AccountLeavesOnlyIdle` | internal/fakerelay/fakerelay.go:258-261 | over any run an account loses a host only without pairings and a full idle time after that activity |
| `RelayAccounts.OwnedIff` | internal/fakerelay/ws.go:106-147 | one step keeps every connection and everything mailboxed with the account of its host or channel if and only if it is prompt |
| `RelayAccounts.IsolatedIff` | internal/fakerelay/ws.go:214-248 | with that, frames queued, mailboxed or read stay inside one account if and only if the sending or reading device's channel has not changed hands |
| `RelayAccounts.ListedIsAttended` | internal/fakerelay/ws.go:500-523 | a frame from a device still listed for its channel always qualifies |
| `RelayAccounts.RunIsolatedIff` | internal/fakerelay/ws.go:183-524 | over every run, connections and mailboxes stay owned and every durable frame queued, mailboxed or read stays inside one account if and only if every step is prompt and attended |
| `RelayAuthority.BindGrantedIff` | internal/fakerelay/fakerelay.go:253-291 | an attach binds the host to the caller unless another account holds it and is not idle |
| `RelayAuthority.BindingGoesIff` | internal/fakerelay/fakerelay.go:253-291 | a bound host is let go if and only if someone checks it without pairings and idle in full, other than its own account by attaching |
| `RelayAuthority.BindingEntersOnly` | internal/fakerelay/fakerelay.go:280-291 | a host comes to be bound to an account only by that account's own attach |
| `RelayAuthority.PairingEntersIff` | internal/fakerelay/handler.go:191-215 | a pairing is registered if and only if the account its host is bound to asks for it on a free channel |
| `RelayAuthority.CreateOutcomes` | internal/fakerelay/handler.go:191-215 | created, conflict and forbidden, each in exactly its own case and with its own change |
| `RelayAuthority.PairingLeavesIff` | internal/fakerelay/handler.go:273-304 | a pairing goes if and only if its own account deletes it |
| `RelayAuthority.DeleteOutcomes` | internal/fakerelay/handler.go:273-286 | not found, forbidden and deleted, each in exactly its own case; every refusal changes nothing |
| `RelayAuthority.RunPairingLeaves` | internal/fakerelay/handler.go:273-304 | over every run a pairing that is gone was deleted by its own account |
| `RelayAuthority.RunPairingStays` | internal/fakerelay/handler.go:273-304 | until that request it stays as it was registered |
| `RelayAuthority.WindowEntersIff` | internal/fakerelay/handler.go:62-84 | a window opens if and only if the account its host is bound to asks for it |
| `RelayAuthority.WindowLeavesIff` | internal/fakerelay/handler.go:62-84 | it closes if and only if it expires or that account opens the host's next one |
| `RelayAuthority.WindowUnchanged` | internal/fakerelay/handler.go:62-84 | an open window stays as it was opened |
| `RelayAuthority.TokenSetIff` | internal/fakerelay/handler.go:432-456 | a push token is set if and only if the caller's account has the device in a pairing |
| `RelayAuthority.TokenLeavesIff` | internal/fakerelay/handler.go:286-301 | it goes if and only if the device's last pairing is deleted by that pairing's account |
| `RelayAuthority.RunListed` | internal/fakerelay/ws.go:129-158 | after every run a connection is listed for exactly the host it was first accepted for and has not detached from |
| `RelayAuthority.DeviceFramesReachHost` | internal/fakerelay/ws.go:472-523 | after every run a device's frame is queued verbatim to exactly the connections that stand for its channel's host |
| `RelayRouting.RunAgrees` | internal/fakerelay/presence.go:108-128 | after every run each channel is recorded attached exactly while its connection set is nonempty, published changes alternate since its last deletion and end with the present one, and its mailbox is what its appends and fetches make it |
| `RelayRouting.EveryFrameOnce` | internal/fakerelay/ws.go:214-248 | the host frames queued or mailboxed are exactly those that pass the checks, unaltered, once each, in arrival order |
| `RelayRouting.NoteOfAccepted` | internal/fakerelay/ws.go:198-222 | a step queues or mailboxes a host frame if and only if it comes from an attached host, on a registered channel of its own that is not an open provisional channel |
| `RelayRouting.RunRoutedRight` | internal/fakerelay/ws.go:224-246 | each such frame goes to exactly the connections its channel's history says are attached, and to the mailbox exactly when there are none |
| `RelayRouting.RunTells` | internal/fakerelay/presence.go:108-128 | after every run the host is told exactly of the first attach and the last detach on a registered channel, as the channel's history counts them |
| `RelayRouting.NextFetch` | internal/fakerelay/handler.go:375-394 | after every run with a clock that does not go back, the next fetch finds the longest unexpired suffix, within both caps, of the frames that came while no device was attached |
| `RelayWitnesses.ReapingUnderALiveHost` | internal/fakerelay/fakerelay.go:258-261 | a reachable state in which a queued frame crosses accounts after a reap under a live host connection |
| `RelayWitnesses.StaleDeviceCommit` | internal/fakerelay/ws.go:377-410 | a reachable run in which a device passes its check, the channel is registered anew, the late commit breaks ownership and the next host frame crosses accounts |
| `RelayWitnesses.UnattendedFrame` | internal/fakerelay/ws.go:500-523 | a reachable state in which a device whose channel changed hands still reaches the new account's host |
| `RelayWitnesses.StaleRead` | internal/fakerelay/handler.go:322-394 | a reachable run in which a fetch passes its check, the channel is registered anew, and the late read returns the other account's frame |
| `RelayWitnesses.ShadowedChannel` | internal/fakerelay/ws.go:203-212 | a reachable state in which a frame on the host's own registered channel is not routed |
| `FakeRelay.Relay.HostHasPairings` | internal/fakerelay/fakerelay.go:267-274 | the scan finds a pairing of the host if there is one |
| `FakeRelay.Relay.BindingFor` | internal/fakerelay/fakerelay.go:253-263 | the lazy reap, in place |
| `FakeRelay.Relay.LookUp` | internal/fakerelay/handler.go:115-119 | a handler's check of a binding is the look step of the state machine |
| `FakeRelay.Relay.BindHost` | internal/fakerelay/fakerelay.go:280-291 | is the bind step, and succeeds exactly when the host ends up bound to the caller |
| `FakeRelay.Relay.WindowForHost` | internal/fakerelay/fakerelay.go:295-302 | finds a window of the host exactly when there is one |
| `FakeRelay.Relay.CommitHost` | internal/fakerelay/ws.go:129-134 | is the host commit step |
| `FakeRelay.Relay.DetachHost` | internal/fakerelay/ws.go:152-158 | is the host detach step, restarting the idle time |
| `FakeRelay.Relay.SetDevAttached` | internal/fakerelay/presence.go:108-128 | records the state and publishes exactly the changes on registered channels |
| `FakeRelay.Relay.CommitDevice` | internal/fakerelay/ws.go:406-421 | is the device attach step, publishing only the first attach |
| `FakeRelay.Relay.DetachDevice` | internal/fakerelay/ws.go:424-432 | is the device detach step, publishing only the last detach |
| `FakeRelay.Relay.Forward` | internal/fakerelay/ws.go:228-230 | appends the frame verbatim to exactly the given queues |
| `FakeRelay.Relay.HandleHostFrame` | internal/fakerelay/ws.go:198-249 | is the host frame step; queues and mailboxes change exactly as its note says |
| `FakeRelay.Relay.HandleDeviceFrame` | internal/fakerelay/ws.go:472-523 | closes on a push class, a foreign channel or a deleted pairing; otherwise queues to every connection of the host or drops, and never touches a mailbox |
| `FakeRelay.Relay.MailboxGet` | internal/fakerelay/handler.go:375-394 | prunes by age and returns the page; an absent mailbox gives an empty one |
| `FakeRelay.Relay.HandleOpenWindow` | internal/fakerelay/handler.go:62-84 | opens the window in place of the host's only other one, for the bound account alone |
| `FakeRelay.Relay.HandleCreatePairing` | internal/fakerelay/handler.go:191-215 | registers for the bound account, refusing a channel in use |
| `FakeRelay.Relay.HandleDeletePairing` | internal/fakerelay/handler.go:273-304 | for the pairing's own account alone, removes the registration, its mailbox, presence and connections, and the token with the device's last pairing |
| `FakeRelay.Relay.HandleApnsRegister` | internal/fakerelay/handler.go:432-456 | stores a token only for a device paired to the caller's account, with the right refusal otherwise |
| `Store.OneWindowPerHost` | internal/relay/store.go:254-254 | the window index leaves a host at most one window |
| `Store.MemStore.LookupBinding` | internal/relay/store.go:294-327 | the same reap as the other relay's |
| `Store.MemStore.BindHost` | internal/relay/store.go:306-320 | the same binding function |
| `Store.MemStore.TouchBinding` | internal/relay/store.go:329-337 | restarts the idle time of a live binding only |
| `Store.MemStore.CreatePairing` | internal/relay/store.go:339-348 | refuses exactly the taken channels and keeps both indexes right |
| `Store.MemStore.PairingByChannel` | internal/relay/store.go:357-366 | the index lookup finds exactly what a scan finds |
| `Store.MemStore.PairingsForDevice` | internal/relay/store.go:380-390 | returns every pairing of the device, once |
| `Store.MemStore.DeletePairing` | internal/relay/store.go:404-429 | removes the pairing with its mailbox, and the token exactly with the device's last pairing; leaves no orphan |
| `Store.MemStore.OpenWindow` | internal/relay/store.go:431-446 | replaces the host's window and hands back exactly the displaced one |
| `Store.MemStore.WindowForHost` | internal/relay/store.go:455-473 | answers as a scan for an unexpired window and removes only an expired one |
| `Store.MemStore.CountWindowAttach` | internal/relay/store.go:475-488 | counts an attach exactly while the window is under its limit |
| `Store.MemStore.DeleteWindow` | internal/relay/store.go:490-502 | removes the window and its index entry |
| `Store.HandleCreatePairing` | internal/relay/handler.go:244-265 | as one step, the same registration function as the other relay's |
| `Store.HandleDeletePairing` | internal/relay/handler.go:337-353 | as one step, the same deletion by the pairing's own account, leaving no orphan |
| `Store.HandleApnsRegister` | internal/relay/handler.go:480-504 | stores a token exactly for a device paired to the caller's account |
| `Store.HandleBoxedFrame` | internal/relay/ws.go:253-283 | appends exactly on registered channels of the sending host, so no mailbox is an orphan |
| `Presence.OnlineIff` | internal/fakerelay/presence.go:20-58 | after any run with late, stray and repeated callbacks, once nothing is due the host is online if and only if it was heard less than the limit ago, and the broadcasts alternate and end with that |
| `Presence.RunValid` | internal/fakerelay/presence.go:32-51 | an online host always has a callback waiting or a timer armed for its deadline |
| `Presence.HostPresence.TouchHost` | internal/fakerelay/presence.go:20-37 | is the liveness step |
| `Presence.HostPresence.PresenceDeadline` | internal/fakerelay/presence.go:40-58 | is the deadline step |
| `Presence.HostPresence.Advance` | internal/fakerelay/clock.go:62-87 | advancing the clock with this timer ends and leaves the host online exactly if it was heard less than the limit ago |
| `TokenBucket.RateBound` | internal/fakerelay/ratelimit.go:28-56 | consecutive calls of which the first is read at or after a and none beyond a + T are allowed at most burst + rate·T times, however the clock stalls or goes back |
| `TokenBucket.WindowCount` | internal/fakerelay/ratelimit.go:43-50 | all calls read inside the window are so bounded unless the clock rises beyond it between two of them |
| `TokenBucket.SteadyWindowCount` | internal/fakerelay/ratelimit.go:28-56 | hence all of them with a clock that does not go back |
| `TokenBucket.RisingBeyondBreaks` | internal/fakerelay/ratelimit.go:43-50 | for every window and every reading beyond it, a limit and calls at the window's start around one call at that reading that exceed the bound |
| `TokenBucket.BoundedIff` | internal/fakerelay/ratelimit.go:28-56 | over all limits and all clocks that may do anything up to a reading hi, the window is bounded if and only if it reaches up to hi |
| `TokenBucket.ForgettableIff` | internal/relay/ratelimit.go:68-70 | no later calls can tell a dropped bucket from a kept one if and only if it was full |
| `TokenBucket.Distinguish` | internal/relay/ratelimit.go:54-65 | two buckets with different fills are told apart by some later calls |
| `TokenBucket.BurstExact` | internal/fakerelay/ratelimit.go:28-56 | a key never seen may be called its burst's worth at once, at least once, and no more |
| `TokenBucket.SpacedAllowed` | internal/fakerelay/ratelimit.go:43-56 | calls that come no faster than the rate are all allowed, however many |
| `SweepingLimiter.Consume` | internal/relay/ratelimit.go:49-65 | refill, cap and take on one bucket |
| `SweepingLimiter.SimpleLimiter.TryTake` | internal/fakerelay/ratelimit.go:28-56 | the sweep-free limiter in place |
| `SweepingLimiter.SweptLimiter.DropIdle` | internal/relay/ratelimit.go:84-88 | the loop removes exactly the buckets idle beyond the horizon |
| `SweepingLimiter.SweptLimiter.SweepLocked` | internal/relay/ratelimit.go:71-89 | sweeps when the interval has passed and remembers when |
| `SweepingLimiter.SweptLimiter.TryTake` | internal/relay/ratelimit.go:37-66 | the sweeping limiter in place |
| `SweepingLimiter.SweepTransparent` | internal/relay/ratelimit.go:37-89 | the sweeping limiter answers every call sequence in time order as the sweep-free one, if sweeps only drop full buckets |
| `SweepingLimiter.CoveredDropsAreFull` | internal/relay/ratelimit.go:80-88 | they do when the sweeping call's horizon covers each bucket's own refill time |
| `SweepingLimiter.SameLimitCovers` | internal/relay/ratelimit.go:80-83 | a limit with a whole-second or short refill time covers itself |
| `SweepingLimiter.CoveredRun` | internal/relay/ratelimit.go:37-89 | calls in time order whose limits cover each other only drop full buckets |
| `SweepingLimiter.CoveredTransparent` | internal/relay/ratelimit.go:37-89 | so in time order the answers are those of the sweep-free limiter |
| `SweepingLimiter.TransparentIff` | internal/relay/ratelimit.go:71-89 | every call sequence in time order is answered as without the sweep if and only if every two limits in force cover each other |
| `SweepingLimiter.AlwaysTransparentIff` | internal/relay/ratelimit.go:71-89 | every call sequence, whatever its clock reads, is answered so if and only if at most one key is limited and its limit covers itself |
| `SweepingLimiter.ReturningClockChangesAnswers` | internal/relay/ratelimit.go:71-89 | three calls under equal limits that cover each other, with a clock that goes back, on which the two limiters differ |
| `SweepingLimiter.MixedRatesChangeAnswers` | internal/relay/ratelimit.go:71-89 | three calls on which the two limiters differ |
| `SweepingLimiter.SweepExact` | internal/relay/ratelimit.go:71-89 | a sweep happens once 600 seconds have passed and drops exactly the buckets idle for more than 600 seconds and more than the whole seconds of the calling limit's refill time |
| `SweepingLimiter.PerHourBound` | internal/relay/ratelimit.go:92-97 | an hourly limit of n allows consecutive calls within an hour at most 2n times |
| `SweepingLimiter.PerHourBurst` | internal/relay/ratelimit.go:92-97 | and n of them at once |
| `Base64.DecodeInvertsEncode` | e2ekit/ad.go:66-83 | encoding then strict decoding is the identity |
| `Base64.EncodeInvertsDecode` | e2ekit/ad.go:25-25 | a decodable string is the encoding of its bytes up to skipped line breaks |
| `Base64.DecodeBinIff` | e2ekit/ad.go:71-83 | a field decodes to n given bytes if and only if it is their canonical encoding |
| `Base64.BreaksAreSkipped` | e2ekit/ad.go:75-75 | the decoder alone ignores CR and LF anywhere |
| `WireFormats.EncodeAlphabet` | e2ekit/ad.go:25-25 | only the characters A-Z a-z 0-9 - _ are written |
| `WireFormats.EncodeGroups` | e2ekit/ad.go:66-66 | every three bytes and their four characters write the same number, in base 256 and in base 64 with the digits of section 5 of RFC 4648 |
| `WireFormats.EncodeRest` | e2ekit/ad.go:66-66 | one or two bytes left over are written with zero bits behind them and without padding |
| `AssociatedData.FillAd` | e2ekit/ad.go:56-62 | the filled buffer is channel, big-endian number and push class |
| `AssociatedData.BuildAdInjective` | e2ekit/ad.go:56-62 | the 25 bytes determine all three |
| `AssociatedData.AdInjective` | wire/frame.go:41-52 | two accepted headers with equal associated data are equal, strings included |
| `AssociatedData.AdOnto` | wire/frame.go:36-52 | every channel, number and push class has an accepted header |
| `WireFormats.AdBytes` | e2ekit/ad.go:56-62 | the 25 bytes one by one: channel, number with its most significant byte first, push class |
| `WireFormats.PushClasses` | e2ekit/ad.go:28-38 | none, wake and attention are 0, 1 and 2, and nothing else parses |
| `Qr.EscapeRelay` | e2ekit/qr.go:69-80 | the loop computes the percent-encoding |
| `Qr.UnescapeRelay` | e2ekit/qr.go:82-105 | the loop computes its partial inverse with the same errors |
| `Qr.UnescapeInvertsEscape` | e2ekit/qr.go:55-117 | for any relay bytes at all |
| `Qr.CollectParams` | e2ekit/qr.go:150-167 | the parameter loop, first error wins |
| `Qr.CollectIff` | e2ekit/qr.go:152-167 | accepts exactly the lists of well-formed parameters without repetition, as a bag |
| `Qr.ParseInvertsEncode` | e2ekit/qr.go:120-224 | a payload parses back from its encoding if and only if it is version 1 with nonnegative expiry |
| `Qr.ParseStable` | e2ekit/qr.go:145-224 | re-encoding an accepted URI and parsing again changes nothing |
| `QrCanonical.CanonicalIff` | e2ekit/qr.go:119-224 | an accepted URI is the encoding of its payload if and only if its parameters come in order, its relay escapes only what it must in upper case, and its expiry has no leading zero |
| `QrCanonical.EscapedIff` | e2ekit/qr.go:69-117 | a decodable relay value is the encoding of its bytes if and only if its escapes are minimal and upper case |
| `QrCanonical.LeadingZeroAccepted` | e2ekit/qr.go:213-222 | every payload that parses back is also accepted in a text that is not its encoding |
| `Qr.OrderIrrelevant` | e2ekit/qr.go:145-172 | any permutation of an accepted URI's parameters parses to the same payload |
| `WireFormats.AllowedIff` | e2ekit/qr.go:55-67 | a byte stays unescaped if and only if it is a query character of section 3.4 of RFC 3986 other than ampersand and equals sign |
| `WireFormats.PlainRelay` | e2ekit/qr.go:69-117 | a relay of such characters is written and read as it is |
| `WireFormats.OrdinaryOrigin` | e2ekit/qr.go:55-105 | the origin https://relay.example is one of them |
| `WireFormats.EscapedByte` | e2ekit/qr.go:69-80 | any other byte is written as a percent sign and two upper-case hex digits |
| `WireFormats.ReadEscape` | e2ekit/qr.go:82-117 | an escape is read as the byte its two hex digits write, in either case, and refused if and only if one is no hex digit |
| `WireFormats.EncodedText` | e2ekit/qr.go:120-138 | the text of a payload: the scheme, then the seven keys with their values in this order between ampersands |
| `WireFormats.ParamFaults` | e2ekit/qr.go:152-166 | a parameter is malformed, unknown, repeated or added, each in exactly its own case |
| `WireFormats.Refusals` | e2ekit/qr.go:145-181 | another scheme, a faulty parameter, a missing one and another version each have their own refusal, in that order |
| `Schedule.FillTranscript` | e2ekit/schedule.go:53-61 | the filled buffer is the five fields in order |
| `Schedule.TranscriptInjective` | e2ekit/schedule.go:53-61 | the transcript determines every field |
| `Schedule.TailsPrefixFree` | e2ekit/schedule.go:26-31 | no purpose label can be mistaken for another followed by data |
| `Schedule.HashedInjective` | e2ekit/schedule.go:22-117 | two key-schedule hash inputs coincide only if version, purpose and every field coincide |
| `WireFormats.TranscriptBytes` | e2ekit/schedule.go:53-61 | each field of the transcript at its own offset |
| `WireFormats.HashedSessions` | e2ekit/schedule.go:22-82 | what is hashed for the two session keys and the confirmations, label and fields written out |
| `WireFormats.HashedOthers` | e2ekit/schedule.go:22-117 | the same for the mailbox key, the pairing MAC and the account binding |
| `Approvals.RunPartition` | fakehost/session.go:399-433 | over any run the raised ids are exactly the pending and the resolved ones |
| `Approvals.RunBooked` | fakehost/session.go:438-482 | over any run no id is both, each resolved id has one ledger line and one fan-out that match it, its decision is allow_once or deny, and at most one device is told it decided |
| `Approvals.ResolvedStays` | fakehost/session.go:439-441 | no step changes a resolved decision |
| `Approvals.RunTruthful` | fakehost/session.go:558-571 | every answer ever given about an id agrees with its final decision |
| `Approvals.DecideAnswers` | fakehost/session.go:541-575 | a decide call gets one answer and one command line: applied exactly if it decided, unknown exactly if the id was neither pending nor resolved, invalid exactly if the request is not well formed; allow decides allow_once and deny decides deny |
| `Approvals.DecideExact` | fakehost/session.go:541-575 | a well-formed decide on an open approval resolves allow to allow_once and deny to deny, and books it with the device that said so; on any other it changes no decision |
| `Approvals.TimeoutExact` | fakehost/session.go:425-482 | a timeout resolves an open approval to deny and is without effect on any other |
| `Approvals.RunFate` | fakehost/session.go:399-575 | over every run an approval is granted if and only if the first well-formed decide on it, before any timeout, said allow; it is denied if and only if that decide said deny or the timeout came first |
| `Approvals.Host.RaiseApproval` | fakehost/session.go:399-433 | is the raise step; nothing without a live session |
| `Approvals.Host.ResolveApproval` | fakehost/session.go:438-482 | is the resolution, reporting whether this call decided |
| `Approvals.Host.HandleDecide` | fakehost/session.go:541-575 | is the decide step; on an open approval allow leaves allow_once and deny leaves deny |

## Left out

- Cryptography: ChaCha20, HChaCha20, Poly1305, X25519 and BLAKE2b are arbitrary functions; `e2ekit/kx.go` and `e2ekit/mailbox.go` appear only through the ideal AEAD premise; constant-time comparison is not expressible.
- The ChaCha20 block counter limit on one very long message.
- HTTP, WebSocket, JSON, logging and `cmd/`: header decoding, envelope parsing and marshalling are abstract outcomes.
- `wire/frame.go` framing (`EncodeFrame`, `DecodeFrame`): a length prefix around the JSON header.
- Lock-by-lock interleavings of `internal/relay/ws.go`, `handler.go` and `presence.go`: store and socket table are read in separate sections there, so `Store` takes each handler as one step.
- Send-queue overflow: queued means offered to the queue.
- Pairing attaches: frames on provisional channels are outside the routing claims, and the pairing handshake itself is not modelled.
- Push notifications, host labels and per-request rate limits of the handlers.
- The host's own device-to-host mark (`fakehost/session.go`), which advances before authentication.
- Delivery of drained envelopes to the application when the connection attempt fails later; the protocol theorems are about recorded numbers.
- Devices without a state directory, which save nothing.
- Store.MemStore.AppendMailbox: mailboxes are sequences in this class, so sharing of mailbox objects is not captured here; it is in `FakeRelay.Relay`.
- DeviceSession.State.Store: the temporary-file write and the rename are one outcome, so that a save is all or nothing is assumed, not proved.
- DeviceProtocol.WireNeverRepeats: assumes fewer than 2^64 sends, because the counter wraps.
- Limiters: reals instead of floating point, and no overflow of Go durations.
- `internal/jwtverify`, `internal/relay/env.go`, `config.go`, `errors.go` and `apns.go`: validation, tables and an HTTP fetch.
