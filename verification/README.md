# Agent Tab Bridge: verified model

This project models the parts of Agent Tab Bridge on which its correctness rests and proves what they keep over
whole runs. Run `dafny verify dfyconfig.toml` with Dafny 4.11.

How it is built:

- Code that changes state in the source is a class here (`SecureSessionChannel`, `TaskSessionManager`, `AccessDesk`,
  `HubFrameDecoder`, `NativeMessageDecoder`, `ExtensionRelayBridge`, `HubService`, `AtbSupervisor`) whose methods are
  proved equal to a transition on values. The theorems are about runs of those transitions.
- Code between two `await`s is one step. Every continuation, timer and settled promise is a step of its own, and runs
  interleave them in every possible way.
- Cryptography is ideal: key derivation and hashing are free constructors, a frame opens only under the key, nonce and
  header it was sealed with, a signature verifies only if it was made. The network drops, duplicates, reorders,
  reflects and invents frames.
- Beside what runs keep, modules named Effects, Delivery, Checks, NormalForm or Admission say what each operation does:
  which values change, to what, under which exact condition, told without the transition functions themselves.
- Texts are sequences of UTF-16 code units, bytes are integers below 256, and JavaScript's 32-bit operators are
  written out where they truncate.

| file | models |
|---|---|
| Channel, ChannelNetwork, ChannelEffects | the session channel, two ends with an adversarial network, and what each operation does there |
| Handshake, HandshakeAgreement, HandshakeChecks, SignedFields, SigningDomains, Base64Url | the signed-ephemeral handshake, what each side accepts and may conclude, what its signatures say, and what else its keys sign |
| AgreedChannels | handshake and channel together |
| CanonicalJson, JsonReading, CanonicalForm, Routes, RouteObjects, Utf8 | canonical JSON, its reader and its form, and route provenance |
| TaskSessions, TaskSessionRuns, TaskSessionEffects, FailedStarts, TaskSessionManager | the task session manager |
| SessionAccess, SessionNormalForm, SessionAdmission, AccessHost, AccessHandover, AccessEffects, AccessDesk | the access algebra of host and extension, what access admits, and pending upgrades under handover |
| Framing, FrameLayout, FrameDecoders | length-prefixed framing and its two decoders |
| Der, CertificateFields | the hub certificate's DER writer, a strict reader, and the certificate's fields |
| RelayBridge, RelayBridgeRuns, RelayBridgeEffects, RelayBridgeTurns, ExtensionRelayBridge | the extension relay bridge |
| HubRouter, HubDelivery, HubService | the hub's opaque routing |
| Supervisor, SupervisorEffects, SupervisorService | endpoint handover |
| PairingCode | the pairing-code generator |
| Bytes, Results, Sorting | shared vocabulary |

Where the code does something other than one would expect, the code is kept and the exact condition is proved:

- Comparing two valid routes throws when a tab ID exceeds the safe integers, since the canonical printer does, and when
  an access ceiling lists its keys in another order, since the validator compares JSON texts
  (`RouteObjects.RouteObjectBytes`, `RouteObjects.SameRouteProvenanceExact`).
- `derLength` writes only the low 32 bits, `integer` loses the sign of a negative number, and `oid` truncates large arcs
  (`Der.LengthRoundTrip`, `Der.IntegerRoundTrip`, `Der.OidRoundTrip`).
- The host refuses some upgrades the extension would grant: it bounds list lengths before removing duplicates
  (`SessionAccess.ImplementationsAgree`).
- The catch block of an approval revokes by ID, so after compaction it may reach a newer session with that ID
  (`FailedStarts.TouchesOthersIff`); it never does while no ID is opened twice (`FailedStarts.FailedStartsStayHome`).
- An auxiliary page session can outlive its tab's attachment when two messages share one turn of the event loop
  (`RelayBridgeTurns.AuxiliaryCanStray`, `RelayBridgeRuns.AuxiliaryHeldIff`); with one message per turn it cannot.
- A hub route can be bound for a requester whose machine ID was cleared during the wait, and its responses then go to a
  connection without a machine ID (`HubRouter.ForgottenRequester`, `HubRouter.SourcesKnownIff`).
- A replaced run is not out for good: announcing itself again takes the record back from the run that replaced it, and
  where no record is left its `ready` installs it (`Supervisor.StaysOutIff`, `Supervisor.ReplacedRunTakesBack`,
  `Supervisor.ReplacedRunComesBack`).
- After a handover an earlier host may hold a request whose session is gone or whose approval is refused although the
  session is active (`AccessHandover.RequestsStaySoundIff`, `AccessHandover.RequestOvertakenAndStranded`).

## Model

| member | source | states |
|---|---|---|
| Channel.Direction.constructor | src/companion/channel/index.ts:150-156 | a direction starts at epoch 0, counter 0, with the AEAD key derived from its chain |
| Channel.Direction.Ratchet | src/companion/channel/index.ts:161-171 | refused when destroyed or at the last epoch (which also destroys it); otherwise next chain, next key, epoch plus one, counter zero |
| Channel.SecureSessionChannel.constructor | src/companion/channel/index.ts:179-186 | a new channel's send chain is the root of its own role's direction and its receive chain the other's |
| Channel.SecureSessionChannel.State | src/companion/channel/index.ts:239-245 | the five-valued status, failure before closure |
| Channel.SecureSessionChannel.Seal | src/companion/channel/index.ts:328-336 | one frame under the present key, nonce and header; the counter advances |
| Channel.SecureSessionChannel.SealRekey | src/companion/channel/index.ts:337-342 | in the last epoch the channel fails for good; otherwise an authenticated rekey frame under the old epoch, then the ratchet |
| Channel.SecureSessionChannel.Send | src/companion/channel/index.ts:248-256 | refusals in the source's order, then the data frame, preceded by a rekey in the last slot of an epoch |
| Channel.SecureSessionChannel.Rekey | src/companion/channel/index.ts:259-262 | an explicit rekey of an open send side |
| Channel.SecureSessionChannel.Close | src/companion/channel/index.ts:265-276 | refusals in the source's order, then the close frame; the send side is closed and its keys are gone |
| Channel.SecureSessionChannel.Abort | src/companion/channel/index.ts:279-282 | nothing on a closed or failed channel, terminal failure otherwise |
| Channel.SecureSessionChannel.Receive | src/companion/channel/index.ts:284-316 | every check in order, and what an authentic data, rekey or close frame does |
| ChannelNetwork.InOrderDelivery | src/companion/channel/index.ts:248-316 | for every interleaving and every offered frame, accepted receipts are a prefix of what the peer sealed, and payloads handed up a prefix of payloads sent |
| ChannelNetwork.RejectionChangesNothing | src/companion/channel/index.ts:284-308 | a rejected frame changes nothing, except that a rekey past the epoch limit that opens under the receive key fails the channel for good |
| ChannelNetwork.OnlyTheNextRekeyFails | src/companion/channel/index.ts:284-308 | over every run, the one offered frame that can fail an end is the next frame its peer sealed: a rekey the end has no epoch left for |
| ChannelNetwork.ProgressExactly | src/companion/channel/index.ts:288-308 | in every run the next sealed frame is accepted if and only if it fits the receiver's frame bound and, for a rekey, its epoch limit |
| ChannelNetwork.EqualLimitsNeverStall | src/companion/channel/index.ts:248-316 | with equal limits, offering the next sealed frame to an end that has not failed always yields its receipt |
| ChannelNetwork.EqualLimitsFailOnlyByQuitting | src/companion/channel/index.ts:248-342 | with equal limits an end has failed if and only if it aborted before it was closed or ran out of epochs in a send, rekey or close of its own: no offered frame fails it |
| ChannelNetwork.NonceDiscipline | src/companion/channel/index.ts:196-202 | section 8 of NIST SP 800-38D over every run: no (key, nonce) pair twice across both directions; positions on the wire ascend within their limits |
| ChannelNetwork.NoncesUnique | src/companion/channel/index.ts:179-202 | the same for any world that keeps the invariant of runs, at any two sealed positions |
| ChannelNetwork.WirePositionsAscend | src/companion/channel/index.ts:188-195 | what a header says is the position the frame was sealed at, and positions strictly ascend |
| ChannelNetwork.AuthenticatedCloseIsComplete | src/companion/channel/index.ts:264-276 | a closed receipt means every frame the peer sealed was received, and the peer seals none in any continuation |
| ChannelNetwork.TerminalStatusAbsorbs | src/companion/channel/index.ts:278-282 | closed and failed are absorbing under every operation, abort included, and nothing is sealed or received any more |
| ChannelNetwork.HalfCloseKeepsReceiving | src/companion/channel/index.ts:264-276 | closing one's own side changes the answer to no later frame, whatever frames are offered in whatever order |
| ChannelNetwork.PeerCloseKeepsSending | src/companion/channel/index.ts:310-313 | accepting a frame, the peer's close included, changes the frames and refusals of no later send, rekey and close |
| ChannelNetwork.CloseReasonDelivered | src/companion/channel/index.ts:264-276 | over every run a closed receipt comes from the one close its peer made and carries the UTF-8 of the reason given there, or none exactly when that was absent or empty |
| ChannelEffects.SendExactly | src/companion/channel/index.ts:248-256 | over every run a send is refused by a failed or closed side and above the frame bound, changing nothing; else it seals one frame at the next position, or a rekey and then the frame when that position is the epoch's last, or fails the channel in the last epoch |
| ChannelEffects.CloseExactly | src/companion/channel/index.ts:264-276 | the same for a close with its reason's UTF-8, refused beyond 1024 characters; it is on the end's record exactly when it sealed |
| ChannelEffects.RekeyExactly | src/companion/channel/index.ts:259-262 | over every run a rekey seals one rekey frame at the next position, or in the last epoch fails the channel |
| ChannelEffects.StatusExactly | src/companion/channel/index.ts:239-245 | over every run the status is read off three facts of the history: a failure, an own close, a receipt of the peer's close |
| ChannelEffects.AbortExactly | src/companion/channel/index.ts:279-282 | over every run an abort writes nothing and fails the end unless both closes are on its record |
| ChannelEffects.OutOfPlace | src/companion/channel/index.ts:293-298 | over every run any earlier frame of the peer is answered as a replay and any later one as a reordering |
| ChannelEffects.OtherBodyTampered | src/companion/channel/index.ts:299-305 | over every run the next frame's header over any other body the network can build is answered as tampered and changes nothing |
| ChannelEffects.HeaderLayout | src/companion/channel/index.ts:188-202 | version and type bytes, then epoch and counter big-endian; the nonce is epoch and counter |
| Handshake.InitiatedChannel.Complete | src/companion/channel/index.ts:353-378 | every refusal in order; otherwise the initiator's channel and confirm, and the handshake is used up |
| Handshake.AcceptedChannel.Complete | src/companion/channel/index.ts:405-417 | every refusal in order; otherwise the responder's channel, and the handshake is used up |
| HandshakeAgreement.TranscriptInjective | src/companion/channel/index.ts:124-139 | equal transcripts mean equal session ID, context, static keys, ephemerals and nonces |
| HandshakeAgreement.SignatureBodyInjective | src/companion/channel/index.ts:140-143 | a signature body determines the signer's role and the transcript |
| HandshakeAgreement.InitiatorAgreement | src/companion/channel/index.ts:346-380 | an initiator with an honest pinned peer gets a channel only if that peer signed the same fields as responder, and the two channels are two ends of one session; honest keys may sign anything else that does not read as a channel signature |
| AgreedChannels.AgreedChannelsDeliver | src/companion/channel/index.ts:346-380 | handshake and channel together: that initiator's channel and its responder's are the two ends of one session, and over every run between them accepted receipts and payloads are a prefix of what was sealed and sent |
| AgreedChannels.ConfirmedChannelsDeliver | src/companion/channel/index.ts:382-420 | the same for a responder whose peer is honest, with the initiator's channel already released |
| AgreedChannels.DifferentHandshakesShareNoKey | src/companion/channel/index.ts:179-186 | in every run of handshakes two different initiators' sessions, and two different responders', have no frame key in common, in any direction and epoch |
| AgreedChannels.FramesApart | src/companion/channel/index.ts:179-202 | frames sealed in channels of exchanges that differ in any signed field are under different keys, so no (key, nonce) pair repeats across channels |
| HandshakeAgreement.SignatureBodyReads | src/companion/channel/index.ts:140-143 | every signature body reads as a JSON record of the channel's signature type, so nothing signed elsewhere can be one |
| SigningDomains.CanonicalReadsAs | src/companion/auth-v2.ts:64-85 | canonical bytes read as a record of a given type if and only if the record that was printed has it |
| SigningDomains.ListedReadsAs | src/companion/native-protocol.ts:209-214 | so does the text of an object with its properties listed in any order |
| SigningDomains.OtherMessagesApart | src/companion/auth-v2.ts:49-71 | nothing else signed with a static key reads as a channel signature: authentication transcripts, native handshakes, enrollment statements, the three pairing messages, the signed part of a certificate, a profile's probe |
| HandshakeAgreement.ResponderAgreement | src/companion/channel/index.ts:383-419 | a responder with an honest pinned peer gets a channel only if that peer signed the same fields as initiator, and the two channels are two ends of one session |
| HandshakeAgreement.MatchedChannels | src/companion/channel/index.ts:179-186 | agreeing sides derive each other's chains: the send chain of one is the receive chain of the other, and the two directions differ |
| HandshakeAgreement.MatchIsUnique | src/companion/channel/index.ts:346-419 | no responder run is matched by two initiators, nor one initiator by two responders |
| HandshakeAgreement.AtMostOneChannel | src/companion/channel/index.ts:355-417 | after a completion every later call is refused and changes nothing |
| HandshakeAgreement.HonestExchangeCompletes | src/companion/channel/index.ts:346-419 | an honest exchange delivered unchanged completes on both sides with matching channels |
| HandshakeChecks.AcceptReleasesIff | src/companion/channel/index.ts:353-378 | an initiator releases its channel on exactly the accepts with version atb-channel-v1 and the one suite, its own session ID, well-formed keys and texts, and the pinned peer's signature over the exchange; otherwise nothing changes, and which error it is |
| HandshakeChecks.AlteredAcceptRefused | src/companion/channel/index.ts:355-357 | the accept of an honest exchange with version, suite or session ID changed completes nothing |
| HandshakeChecks.HelloAcceptedIff | src/companion/channel/index.ts:384-389 | a responder answers exactly the hellos with that version and suite, its session ID and well-formed keys and texts; otherwise which error |
| HandshakeChecks.ConfirmReleasesIff | src/companion/channel/index.ts:405-417 | a responder releases its channel on exactly the confirm of its session that the pinned peer signed for the exchange |
| HandshakeChecks.ReleasedAccepts | src/companion/channel/index.ts:353-378 | over every run of handshakes whatever accept released a channel is of that kind |
| HandshakeChecks.AnsweredHellos | src/companion/channel/index.ts:384-404 | and every hello a responder ever answered |
| HandshakeChecks.NormalizedIff | src/companion/channel/index.ts:95-111 | options are taken exactly within the source's ranges and with two keys that have a fingerprint |
| SignedFields.TranscriptSays | src/companion/channel/index.ts:124-138 | the transcript reads as one JSON object of exactly eleven properties: type, version, suite, session, context, both parties, both ephemerals and both nonces, each under its name |
| SignedFields.SignatureSays | src/companion/channel/index.ts:140-143 | what is signed reads as one of exactly three: type, signer's role, transcript in base64url |
| Base64Url.Base64UrlReads | src/companion/channel/index.ts:130-142 | the text reads back, by the table and groups of RFC 4648, as the bytes |
| Base64Url.ToBase64UrlInjective | src/companion/channel/index.ts:130-142 | the base64url text inside what is signed determines the bytes |
| JsonReading.ReadBack | src/companion/auth-v2.ts:73-85 | a reader recovers the value, up to key order, from its canonical text followed by anything (for a bare number: by anything but a digit) |
| JsonReading.CanonicalTextIff | src/companion/auth-v2.ts:73-85 | two values have the same canonical text exactly when they are equal, whatever the insertion order of their properties |
| JsonReading.CanonicalBytesIff | src/companion/auth-v2.ts:70-85 | the same for the UTF-8 bytes that are signed and compared |
| JsonReading.PrefixFree | src/companion/channel/index.ts:81-93 | no canonical text extends another: trailing text that cannot extend the value must be empty, and the values equal |
| JsonReading.PrintWellFormed | src/companion/auth-v2.ts:75-76 | canonical text has no lone surrogates, so UTF-8 encoding loses nothing |
| JsonReading.ReadQuoted | src/companion/auth-v2.ts:75-75 | strings follow section 7 of RFC 8259 and are read back exactly, lone surrogates included |
| Utf8.DecodeEncode | src/companion/auth-v2.ts:70-70 | UTF-8 decoding undoes encoding on well-formed text |
| Utf8.DecodesRepaired | src/companion/auth-v2.ts:70-70 | on every string: decoding the encoding gives the string with U+FFFD for exactly the lone surrogates |
| Utf8.EncodesToOctets | src/companion/auth-v2.ts:70-70 | every encoding is well-formed by the syntax of section 4 of RFC 3629 |
| CanonicalForm.KeysInOrder | src/companion/auth-v2.ts:84-84 | canonical text lists the keys of every record in it in the order of their UTF-16 code units |
| CanonicalForm.QuotesAs | src/companion/auth-v2.ts:75-75 | a string is printed unit by unit as itself, but for quotation marks, backslashes, control characters and lone surrogates, in their short or lower-case hexadecimal form |
| CanonicalForm.NumbersAs | src/companion/auth-v2.ts:77-80 | a number is printed with a minus sign exactly when it is negative, without a leading zero, and reads back; zero is 0 |
| CanonicalForm.PrintsIff | src/companion/auth-v2.ts:73-83 | canonical text exists exactly for values whose numbers are integers up to 2^53 - 1 either way and that JSON has, all the way down |
| RouteObjects.RouteObjectValid | src/companion/endpoint-contracts.ts:73-80 | a route object with its properties in any order passes isRouteProvenance if and only if its route is valid and its access ceiling lists level, tabIds, domains in this order |
| RouteObjects.AccessObject | src/companion/session-access.ts:47-55 | an access object passes isSessionAccess if and only if its access is normalized and its keys stand in the normalizer's order |
| RouteObjects.RouteObjectBytes | src/companion/endpoint-contracts.ts:92-110 | a route object has canonical bytes if and only if the route is valid, its tab IDs are safe integers and the ceiling's keys are in order; otherwise which error is thrown |
| RouteObjects.AcceptedPresentsRoute | src/companion/endpoint-contracts.ts:72-96 | whatever bare object has canonical bytes is a valid route's object |
| RouteObjects.RecordBytesIff | src/companion/endpoint-contracts.ts:92-110 | two records with canonical bytes, session and grant records included, have the same bytes if and only if they are equal as values, whatever order their properties have |
| RouteObjects.SameRouteProvenanceExact | src/companion/endpoint-contracts.ts:82-86 | on any two route objects the comparison throws on the first without canonical bytes and otherwise is structural equality of the routes |
| RouteObjects.ReorderedCeilingRefused | src/companion/session-access.ts:47-55 | a valid route whose ceiling is written tabIds, level, domains: the printer gives the same bytes, the validator throws |
| RouteObjects.UnsafeTabIdThrows | src/companion/endpoint-contracts.ts:98-104 | a valid local route for tab 2^53 has no canonical bytes |
| TaskSessionManagers.TaskSessionManager.constructor | src/companion/task-sessions.ts:24-32 | an empty manager |
| TaskSessionManagers.TaskSessionManager.Open | src/companion/task-sessions.ts:33-83 | the whole outcome of an open: validation, reuse or conflict of a named session, ID collision, or a new pending record |
| TaskSessionManagers.TaskSessionManager.Approve | src/companion/task-sessions.ts:84-89 | the synchronous part of an approval: state, relay start, or why not |
| TaskSessionManagers.TaskSessionManager.OnRelayStarted | src/companion/task-sessions.ts:87-87 | the continuation after the relay is there: keep it, or close it when the session has been revoked |
| TaskSessionManagers.TaskSessionManager.OnStartFailed | src/companion/task-sessions.ts:87-87 | the catch block revokes whatever session the ID names by then |
| FailedStarts.TouchesOthersIff | src/companion/task-sessions.ts:87-87 | a failed start leaves every other record alone if and only if its ID does not name another session that is not revoked; otherwise it revokes exactly that one |
| FailedStarts.FailedStartsStayHome | src/companion/task-sessions.ts:87-87 | over every run that opens no ID twice, no failed start touches another session |
| FailedStarts.FailedStartTouchesIff | src/companion/task-sessions.ts:87-87 | and over every run at all it touches another exactly when its ID has passed to one that is not revoked |
| FailedStarts.ReopenedIdRevoked | src/companion/task-sessions.ts:83-152 | a run in which it happens: approved, revoked while starting, compacted away by 64 newer tombstones, reopened under the same ID, then the start fails and the new session is revoked |
| TaskSessionManagers.TaskSessionManager.RelayReady | src/companion/task-sessions.ts:90-104 | ready or resumed, with exactly the notices the source emits |
| TaskSessionManagers.TaskSessionManager.RelayFailed | src/companion/task-sessions.ts:105-109 | recovery for a ready session, revocation otherwise |
| TaskSessionManagers.TaskSessionManager.Suspend | src/companion/task-sessions.ts:110-117 | every stored record enters recovery in order; the sessions returned are those reconnecting |
| TaskSessionManagers.TaskSessionManager.BeginRecovery | src/companion/task-sessions.ts:118-129 | active becomes reconnecting with one deadline; reconnecting stays as it is |
| TaskSessionManagers.TaskSessionManager.Revoke | src/companion/task-sessions.ts:130-149 | state, index, timers, relay and notice of a revocation, and immediate compaction without a relay; every revocation of one record gets the same answer, which waits while the relay is closing |
| TaskSessionManagers.TaskSessionManager.OnRelayClosed | src/companion/task-sessions.ts:145-145 | the finally block compacts once closing the relay has settled, well or not |
| TaskSessionManagers.TaskSessionManager.CompactRevoked | src/companion/task-sessions.ts:151-151 | the shift loop deletes exactly the oldest tombstones beyond 64 |
| TaskSessionManagers.TaskSessionManager.RevokeNamed | src/companion/task-sessions.ts:160-171 | closing by name, and clearing a key whose session is gone |
| TaskSessionManagers.TaskSessionManager.RevokeMany | src/companion/task-sessions.ts:153-154 | revokeAll and sweepExpired: each ID in turn |
| TaskSessionManagers.TaskSessionManager.ApplyAccessUpgrade | src/companion/task-sessions.ts:184-193 | access becomes the upgraded value only for an active session and only if it is the expected one |
| TaskSessionRuns.RelayConservation | src/companion/task-sessions.ts:84-149 | over all interleavings a session starts at most one relay; once obtained it is held and unclosed, or the session is revoked and it was closed exactly once |
| TaskSessionRuns.SessionLifecycle | src/companion/task-sessions.ts:84-158 | every session's notices: one pending, active and reconnecting alternating, then at most one revoked; flags and timers agree with the state |
| TaskSessionRuns.NamedIndexExact | src/companion/task-sessions.ts:46-80 | each (principal, key) in the index names the one live session of that name, and every session that is not revoked is stored |
| TaskSessionRuns.CompactionKeepsNewest | src/companion/task-sessions.ts:151-151 | compaction removes only revoked records, leaves at most 64, and what is left is the newest in order |
| TaskSessionRuns.CompactionByAge | src/companion/task-sessions.ts:151-151 | no dropped tombstone is newer than a kept one |
| TaskSessionRuns.TombstonesBounded | src/companion/task-sessions.ts:145-151 | after every run at most 64 tombstones besides those whose relay is still closing |
| TaskSessionRuns.StepKeepsRecords | src/companion/task-sessions.ts:84-193 | one step of any kind keeps every record's identity, past, relay and running deadline; revoked is final; access changes only by an upgrade, to its expected value |
| TaskSessionRuns.SuspendTwice | src/companion/task-sessions.ts:110-129 | suspending again changes nothing |
| TaskSessionRuns.OneRevocationAnswer | src/companion/task-sessions.ts:130-149 | over every run all revocations of a session share one answer: it waits while the relay is closing, the settlement decides it, and it never changes afterwards |
| TaskSessionRuns.DeadlineNeverMoves | src/companion/task-sessions.ts:105-129 | in every run, as long as a session stays reconnecting its recovery deadline is the one it began with |
| TaskSessionRuns.OpenOutcome | src/companion/task-sessions.ts:46-82 | an open fails and changes nothing, returns the working session of the same authority unchanged, or a fresh pending one; afterwards the key names it |
| TaskSessionEffects.RelayFailureEffect | src/companion/task-sessions.ts:105-129 | over every run a relay failure leaves a ready session reconnecting with its relay kept, nothing closed, one notice more and its deadline 120000 ms ahead; any other known session that is not revoked it revokes |
| TaskSessionEffects.SuspensionEffect | src/companion/task-sessions.ts:110-129 | over every run a suspension does the same to exactly the active sessions and nothing else |
| TaskSessionEffects.RevokeEffect | src/companion/task-sessions.ts:130-151 | over every run a revocation ends exactly the session of its ID: state, notice with the reason, timers, name and relay; exactly the tombstones with 64 newer ones go, unless a relay is to be closed first; and what it answers |
| TaskSessionEffects.RevokeNamedEffect | src/companion/task-sessions.ts:160-171 | over every run closing by name ends exactly the session that bears the name; without one nothing changes and the answer says why |
| TaskSessionEffects.RevokeManyEffect | src/companion/task-sessions.ts:153-154 | over every run revoking many ends exactly those listed that are not revoked yet |
| TaskSessionEffects.TimerEffect | src/companion/task-sessions.ts:73-76 | over every run a lifetime or recovery timer ends the very session that armed it, with its own reason |
| TaskSessionEffects.ApprovalEffect | src/companion/task-sessions.ts:84-89 | over every run approving a pending session makes it active and starts one relay; any other approval changes nothing, and its answer |
| TaskSessionEffects.StartEffect | src/companion/task-sessions.ts:87-87 | over every run the relay a start gives is kept by a session that is not revoked and closed once for one that is |
| TaskSessionEffects.FailedStartEffect | src/companion/task-sessions.ts:87-87 | over every run a failed start ends its own session if that is not revoked yet; otherwise whatever bears the ID by then |
| TaskSessionEffects.ReadyEffect | src/companion/task-sessions.ts:90-104 | over every run a ready report wakes exactly a session that holds a relay: active, deadline off, one notice if it was not ready or was reconnecting |
| TaskSessionEffects.ClosedEffect | src/companion/task-sessions.ts:145-151 | over every run when closing a relay has settled, the record says how, and exactly the tombstones with 64 newer ones go |
| TaskSessionEffects.UpgradeEffect | src/companion/task-sessions.ts:184-193 | over every run an upgrade sets the access of exactly an active session that it leads to what was expected; otherwise nothing, and why |
| TaskSessionEffects.PreviewEffect | src/companion/task-sessions.ts:176-183 | over every run a preview answers with the working session that bears the name and where the delta leads it, or why not |
| TaskSessionEffects.OpenEffect | src/companion/task-sessions.ts:46-83 | over every run an open gives the session that bears the name when it works and agrees, an error when it is pending or differs, else one fresh pending record under an ID that is not stored |
| TaskSessionEffects.OpensIff | src/companion/task-sessions.ts:34-45 | which open requests are taken, limit by limit, and what is taken from them |
| TaskSessionEffects.OpenRefused | src/companion/task-sessions.ts:34-45 | all others change nothing and fail by their access, then their capabilities, then their lifetime, then the rest |
| SessionAccess.NormalizeDomainIdempotent | src/companion/session-access.ts:17-27 | a normalized domain normalizes to itself |
| SessionAccess.NormalizationIdempotent | src/companion/session-access.ts:10-45 | normalization is idempotent and yields strictly sorted lists without duplicates |
| SessionAccess.HostMerge | src/companion/session-access.ts:80-90 | on normalized inputs the host succeeds exactly when the lists fit before duplicates go and something is added, and returns the merge |
| SessionAccess.ExtensionMerge | extensions/browser/chrome-extension/background.js:301-308 | the extension succeeds exactly when the lists fit after duplicates go and something is added, and returns the same merge |
| SessionAccess.ImplementationsAgree | extensions/browser/chrome-extension/background.js:236-308 | whenever the host succeeds the extension returns the identical record, and the host succeeds exactly when the extension does and the lists fit before duplicates go |
| SessionAccess.HostRefusesWhatExtensionGrants | extensions/browser/chrome-extension/background.js:236-308 | 63 tabs and a delta that repeats one and adds one: the host refuses, the extension grants the 64 |
| SessionAccess.ExtensionAcceptsNormalized | extensions/browser/chrome-extension/background.js:236-297 | whatever the host has normalized the extension accepts unchanged |
| SessionAccess.UpgradeWeighs | src/companion/session-access.ts:80-90 | every successful upgrade yields normalized access of strictly greater weight, at most 129 |
| SessionAccess.UpgradeAdmits | extensions/browser/chrome-extension/background.js:426-449 | a successful upgrade admits every tab and URL the old access admitted, and names exactly the old and the requested ones |
| SessionAccess.AtMost129Upgrades | src/companion/session-access.ts:7-8 | no chain of successful upgrades is longer than 129 |
| SessionAdmission.AdmittedUrls | extensions/browser/chrome-extension/background.js:426-439 | domain access admits exactly the http and https URLs whose host name has, label by label, a listed domain's labels last; full access every http and https URL and about:blank; selected tabs none |
| SessionAdmission.AdoptedTabs | extensions/browser/chrome-extension/background.js:441-449 | a tab can be adopted exactly when it is no session page and is listed, or its URL is admitted by domain access, or access is full |
| SessionAdmission.OneDomainOnly | extensions/browser/chrome-extension/background.js:438-438 | a host that one domain alone admits is the domain or a subdomain of it |
| SessionAdmission.LookalikeRefused | extensions/browser/chrome-extension/background.js:438-438 | access to example.com admits www.example.com and refuses evilexample.com |
| SessionNormalForm.DomainIff | src/companion/session-access.ts:17-27 | a domain is taken, as d, exactly when cleaning leaves d but for a leading *. and a final dot, d has at most 253 characters, is labels of letters, digits and inner hyphens joined by dots, and is its own host name |
| SessionNormalForm.AccessIff | src/companion/session-access.ts:10-45 | access is taken exactly with at most 64 non-negative tab IDs and 64 texts that name domains and a level that suits them; what is kept is those tabs rising and those domains in alphabetical order |
| SessionNormalForm.DeltaIff | src/companion/session-access.ts:59-68 | the same for a delta, which names tabs only, domains only, or nothing for full access |
| SessionNormalForm.UpgradeIff | src/companion/session-access.ts:80-90 | both implementations grant exactly what adds something: the host while both lists together have at most 64 members, the extension while their union has; and what they grant |
| AccessHandover.PendingMapsInverse | src/companion/native-host.ts:116-128 | over any run, with any number of hosts taking over from one another, each host's two maps stay inverse, with at most one request per session |
| AccessHandover.RequestsStaySoundIff | src/companion/native-host.ts:116-177 | all requests of a host name live sessions and still lead to what they ask for, in every state of a run, if and only if no session with a request there ends while another host listens and no other host grants it an upgrade from which the request leads elsewhere |
| AccessHandover.AloneExact | src/companion/native-host.ts:116-353 | for a host that nobody takes over every request's session is stored and not revoked, and a fitting approval is granted exactly when the session is active |
| AccessHandover.RequestOvertakenAndStranded | src/companion/native-host.ts:289-299 | a run in which a fitting approval for an active session is refused after a handover, and the request then outlives its session |
| AccessHandover.ApprovalExact | src/companion/native-host.ts:343-353 | after any run an approval at any host is granted exactly when it fits a pending request of an active session whose present access the request leads to what was asked: access becomes that value, the request is used up, no other host's maps change; any other approval changes nothing |
| AccessHandover.StepAccess | src/companion/native-host.ts:343-353 | in one step a record's access stays, or a pending request for its session is approved at some host and takes effect exactly |
| AccessHandover.AccessOnlyGrows | src/companion/native-host.ts:116-361 | from any point of a run on, whichever hosts there are, the tabs and URLs a session admits never shrink and its access changes at most 129 times |
| AccessEffects.RequestEffect | src/companion/native-host.ts:116-132 | over every run with handovers a trusted caller gets a request exactly when the session bearing the name works, the delta leads somewhere and none of its requests is pending; then both maps have it, otherwise nothing changes |
| AccessEffects.AnswerEffect | src/companion/native-host.ts:343-361 | over every run with handovers an approval sets access and uses its request up exactly when it grants one, a refusal takes out exactly the request it names, all others change nothing |
| AccessEffects.SessionsEffect | src/companion/native-host.ts:168-175 | over every run with handovers the listening host keeps exactly the requests whose session did not end in a step |
| AccessDesks.AccessDesk.RequestAccess | src/companion/native-host.ts:116-132 | trust, preview, one request per session, then both maps |
| AccessDesks.AccessDesk.ApproveAccess | src/companion/native-host.ts:343-353 | a refused upgrade leaves both maps as they were; a granted one clears both entries |
| AccessDesks.AccessDesk.DeclineAccess | src/companion/native-host.ts:354-361 | a fitting refusal clears both entries, any other nothing |
| AccessDesks.AccessDesk.OnRevoked | src/companion/native-host.ts:168-175 | the end of a session drops its request |
| FrameDecoders.HubFrameDecoder.constructor | src/hub/framing.ts:20-26 | a fresh decoder for a limit in range holds nothing |
| FrameDecoders.NewHubFrameDecoder | src/hub/framing.ts:24-26 | a decoder for every limit from 1 to 2^32 - 1, an error for every other |
| FrameDecoders.HubFrameDecoder.Feed | src/hub/framing.ts:27-51 | a feed returns and leaves what reading the pending bytes and the chunk in one go gives |
| FrameDecoders.HubFrameDecoder.TakeFrames | src/hub/framing.ts:33-46 | the loop takes whole frames off the buffer until none is left, or one is bad and the decoder has failed |
| FrameDecoders.HubFrameDecoder.Finish | src/hub/framing.ts:52-54 | finishing succeeds exactly with nothing pending |
| FrameDecoders.HubFrameDecoder.PendingBytes | src/hub/framing.ts:55-55 | the bytes of the incomplete frame, fewer than a header and a maximal body |
| FrameDecoders.NativeMessageDecoder.Feed | src/companion/native-framing.ts:26-52 | the same for little-endian lengths, with each body parsed and validated |
| FrameDecoders.NativeMessageDecoder.TakeMessages | src/companion/native-framing.ts:32-47 | the loop takes and validates whole messages off the buffer until none is left, or one is bad and the decoder has failed |
| FrameDecoders.NativeMessageDecoder.Finish | src/companion/native-framing.ts:57-59 | finishing succeeds exactly with nothing pending |
| FrameDecoders.EncodeHubFrame | src/hub/framing.ts:11-17 | a new buffer holding the frame, or an error exactly for an empty or oversized payload |
| FrameDecoders.EncodeNativeFrame | src/companion/native-framing.ts:10-18 | a new buffer holding the frame of the printed message, or an error exactly when invalid or oversized |
| FrameDecoders.NativeRoundTrip | src/companion/native-framing.ts:9-52 | printed messages, cut up in any way, are parsed back in order and end at a boundary |
| Framing.ChunkingIndependence | src/hub/framing.ts:27-51 | however a stream is cut up, the feeds return the bodies it carries and leave its incomplete end; a bad stream has failed the decoder |
| Framing.RoundTrip | src/hub/framing.ts:11-54 | for every list of valid payloads and every partition of their encoding the feeds return the payloads and finish succeeds |
| Framing.Conservation | src/hub/framing.ts:33-44 | bytes fed are exactly the emitted frames and the bytes still pending |
| Framing.FinishAtBoundaries | src/hub/framing.ts:52-54 | finish succeeds exactly on streams that are sequences of whole acceptable frames |
| Framing.PendingBounded | src/hub/framing.ts:34-40 | between feeds less than a header and a maximal body is held |
| Framing.FailedForGood | src/companion/native-framing.ts:27-51 | after a failure every feed and finish fails |
| FrameLayout.HubLayout | src/hub/framing.ts:11-17 | a hub frame is its length in four bytes, highest first, and a payload of 1 to the limit's bytes |
| FrameLayout.NativeLayout | src/companion/native-framing.ts:10-18 | a native message is its length in four bytes, lowest first, and a body of 1 to 1048576 bytes that parses |
| FrameLayout.FailsIff | src/hub/framing.ts:27-51 | a decoder fed a stream in any pieces has failed exactly when the stream is some whole frames followed by a bad header or by a whole frame of a body that is not accepted |
| Der.DerLength | src/hub/certificate.ts:8-13 | the loop writes the low 32 bits of a length in long form, one byte in short form |
| Der.LengthRoundTrip | src/hub/certificate.ts:8-13 | a written length reads back by the strict reader exactly when it is below 2^32 |
| Der.LengthCanonical | src/hub/certificate.ts:8-13 | the strict reader accepts only lengths as the writer writes them |
| Der.WriteDer | src/hub/certificate.ts:14-14 | tag, length and value |
| Der.Sequence | src/hub/certificate.ts:15-15 | a constructed value over the concatenation |
| Der.Set | src/hub/certificate.ts:16-16 | a constructed value over the concatenation |
| Der.DerRoundTrip | src/hub/certificate.ts:14-16 | a reader recovers every tree of tagged values from its bytes, whatever follows |
| Der.DerCanonical | src/hub/certificate.ts:14-16 | every byte string that reads as a tree is the one encoding of that tree |
| Der.Integer | src/hub/certificate.ts:17-22 | the do-while loop writes big-endian digits with a zero in front of a set top bit |
| Der.IntegerRoundTrip | src/hub/certificate.ts:17-22 | the integer reads back, in minimal two's complement, exactly when it is not negative |
| Der.EncodeComponent | src/hub/certificate.ts:24-28 | the loop writes seven-bit digits, most significant first, of the low 32 bits |
| Der.Oid | src/hub/certificate.ts:23-32 | the first two arcs combined, then each further arc; with an arc missing the first number reads as zero |
| Der.OidRoundTrip | src/hub/certificate.ts:23-32 | an object identifier reads back exactly when its arcs, two at least, are expressible and below 2^32 |
| Der.Name | src/hub/certificate.ts:33-36 | the one-attribute common name |
| Der.ToBeSigned | src/hub/certificate.ts:41-46 | the signed part as one tree |
| Der.SelfSigned | src/hub/certificate.ts:47-48 | the certificate as one tree |
| Der.CertificateReadable | src/hub/certificate.ts:39-48 | a reader of a certificate below 4 GiB finds exactly the fields that went in, and nothing after them |
| Der.ConstantsReadable | src/hub/certificate.ts:42-46 | version, serial and both object identifiers read back as themselves |
| CertificateFields.CertificateReadsAs | src/hub/certificate.ts:39-48 | a reader of section 4.1 of RFC 5280 finds version 3, serial 1, the one name as issuer and subject, the first date as notBefore and the second as notAfter, the key, ECDSA with SHA-256 twice, and the signature |
| ExtensionRelayBridges.ExtensionRelayBridge.CallExtension | extensions/browser/src/browser/extension-relay/relay-bridge.ts:403-423 | a fresh number, pending at once; without an extension it is rejected at once |
| ExtensionRelayBridges.ExtensionRelayBridge.OnAnswer | extensions/browser/src/browser/extension-relay/relay-bridge.ts:304-321 | an answer settles the pending command of its number, any other is ignored |
| ExtensionRelayBridges.ExtensionRelayBridge.HandleExtensionGone | extensions/browser/src/browser/extension-relay/relay-bridge.ts:345-368 | everything pending is rejected, every attachment emitted as detached, tabs and children forgotten |
| ExtensionRelayBridges.ExtensionRelayBridge.SyncTabsWith | extensions/browser/src/browser/extension-relay/relay-bridge.ts:424-461 | tabs that left are dropped with their aliases and children; new ones are added and claimed for auto-attaching clients |
| ExtensionRelayBridges.ExtensionRelayBridge.ClaimAndAttachTab | extensions/browser/src/browser/extension-relay/relay-bridge.ts:486-500 | an attached tab answers at once, an attach in flight is joined, otherwise an attach command is issued |
| ExtensionRelayBridges.ExtensionRelayBridge.OnAttachReturned | extensions/browser/src/browser/extension-relay/relay-bridge.ts:500-515 | the attach binds a new session ID to the same tab object, or is undone when the tab was replaced |
| ExtensionRelayBridges.ExtensionRelayBridge.OnAttachFinally | extensions/browser/src/browser/extension-relay/relay-bridge.ts:516-522 | the settled promise is cleared on the same tab object |
| ExtensionRelayBridges.ExtensionRelayBridge.EmitDetachedFromTarget | extensions/browser/src/browser/extension-relay/relay-bridge.ts:568-607 | a detached tab's auxiliary and child sessions are deleted |
| ExtensionRelayBridges.ExtensionRelayBridge.ForwardExtensionEvent | extensions/browser/src/browser/extension-relay/relay-bridge.ts:608-634 | children of an attached tab become known; events of others are ignored |
| ExtensionRelayBridges.ExtensionRelayBridge.OnClientClose | extensions/browser/src/browser/extension-relay/relay-bridge.ts:696-710 | a client's browser-level and auxiliary sessions go with it, and the last client's departure detaches every tab |
| ExtensionRelayBridges.ExtensionRelayBridge.DetachAllWhenIdle | extensions/browser/src/browser/extension-relay/relay-bridge.ts:718-730 | with no client left every attached tab is detached |
| ExtensionRelayBridges.ExtensionRelayBridge.FindRootTab | extensions/browser/src/browser/extension-relay/relay-bridge.ts:751-766 | the first attached tab with that root session |
| ExtensionRelayBridges.ExtensionRelayBridge.OnAttachToBrowserTarget | extensions/browser/src/browser/extension-relay/relay-bridge.ts:894-899 | a new browser-level session of the client |
| ExtensionRelayBridges.ExtensionRelayBridge.OnSetAutoAttach | extensions/browser/src/browser/extension-relay/relay-bridge.ts:900-911 | every known tab is claimed |
| ExtensionRelayBridges.ExtensionRelayBridge.OnAttachedToTarget | extensions/browser/src/browser/extension-relay/relay-bridge.ts:938-957 | an auxiliary session, exactly when the browser-level session is still this client's |
| ExtensionRelayBridges.ExtensionRelayBridge.OnDetachFromTarget | extensions/browser/src/browser/extension-relay/relay-bridge.ts:959-993 | a browser-level session with its aliases, one alias, or a tab's root session |
| ExtensionRelayBridges.ExtensionRelayBridge.OnPageCommand | extensions/browser/src/browser/extension-relay/relay-bridge.ts:793-826 | forwarded for a root, an own alias or a child session only |
| ExtensionRelayBridges.ExtensionRelayBridge.BeginDispose | extensions/browser/src/browser/extension-relay/relay-bridge.ts:1050-1095 | everything rejected and withdrawn before the detach commands |
| ExtensionRelayBridges.ExtensionRelayBridge.FinishDispose | extensions/browser/src/browser/extension-relay/relay-bridge.ts:1096-1111 | whatever is still pending is rejected and the extension is let go |
| RelayBridgeRuns.CrossReferences | extensions/browser/src/browser/extension-relay/relay-bridge.ts:302-730 | after every run: child owners attached, auxiliary parents owned by the same connected client, no generated session ID twice |
| RelayBridgeRuns.CommandsSettledOnce | extensions/browser/src/browser/extension-relay/relay-bridge.ts:403-423 | every command ever issued is pending under its own number or was settled exactly once |
| RelayBridgeRuns.AuxiliaryHeldIff | extensions/browser/src/browser/extension-relay/relay-bridge.ts:938-953 | auxiliary sessions always have an attached tab exactly when no waiting attachToTarget goes on after its tab was detached |
| RelayBridgeRuns.StepCore | extensions/browser/src/browser/extension-relay/relay-bridge.ts:302-1111 | one event of any kind keeps all cross-references; only such a continuation can leave an auxiliary session without its tab |
| RelayBridgeTurns.AuxiliaryHeldOnePerTurn | extensions/browser/src/browser/extension-relay/relay-bridge.ts:894-957 | with one message or timer per turn of the event loop every auxiliary session's tab is attached in every state |
| RelayBridgeTurns.SharedTurnStrays | extensions/browser/src/browser/extension-relay/relay-bridge.ts:938-993 | from every state in which a client asks for an alias and detaches the tab's root in one turn, an auxiliary session outlives the attachment |
| RelayBridgeTurns.AuxiliaryCanStray | extensions/browser/src/browser/extension-relay/relay-bridge.ts:938-993 | an ordinary run reaches such a state, so the one-per-turn condition is needed |
| RelayBridgeEffects.PageCommandEffect | extensions/browser/src/browser/extension-relay/relay-bridge.ts:793-826 | over every run a page command is forwarded exactly when its session is an attached tab's root, an alias of its own client or a child, and then for exactly that tab; nothing else changes |
| RelayBridgeEffects.ExtensionGoneEffect | extensions/browser/src/browser/extension-relay/relay-bridge.ts:345-368 | over every run, when the extension goes or is replaced, every pending command is rejected, oldest first, and tabs with their sessions are forgotten; clients and their browser-level sessions stay |
| RelayBridgeEffects.AnswerEffect | extensions/browser/src/browser/extension-relay/relay-bridge.ts:304-321 | over every run an answer or timeout settles exactly the command of its number and wakes only what waits for an attach |
| RelayBridgeEffects.TabsEffect | extensions/browser/src/browser/extension-relay/relay-bridge.ts:424-461 | over every run a snapshot drops the tabs it does not list with their sessions, keeps the others as they are and in order, and adds the new ones behind them, each with an attach command if some client auto-attaches |
| RelayBridgeEffects.AutoAttachEffect | extensions/browser/src/browser/extension-relay/relay-bridge.ts:900-911 | over every run switching auto-attach on starts attaching exactly the tabs that are neither attached nor being attached |
| RelayBridgeEffects.AttachToTargetEffect | extensions/browser/src/browser/extension-relay/relay-bridge.ts:918-937 | over every run a request to attach goes on at once, starts an attach or joins the one in flight, by the state of the tab |
| RelayBridgeEffects.AttachReturnedEffect | extensions/browser/src/browser/extension-relay/relay-bridge.ts:500-522 | over every run an answered attach binds an ID never issued before to the record that asked and wakes all who wait, in order, or detaches a tab whose record has gone |
| RelayBridgeEffects.OtherJobsEffect | extensions/browser/src/browser/extension-relay/relay-bridge.ts:516-957 | over every run a settled promise is cleared on its own record only, and an alias is made exactly while its parent is the client's browser-level session |
| RelayBridgeEffects.BrowserSessionEffect | extensions/browser/src/browser/extension-relay/relay-bridge.ts:894-899 | over every run a new browser-level session has an ID never issued before |
| RelayBridgeEffects.DetachTargetEffect | extensions/browser/src/browser/extension-relay/relay-bridge.ts:959-993 | over every run a client detaches its own browser-level session with the aliases under it, its own alias, or the tab with this root session; another client's alias it cannot |
| RelayBridgeEffects.ClientEffect | extensions/browser/src/browser/extension-relay/relay-bridge.ts:696-730 | over every run a client takes its sessions and aliases along, and after the last one no tab is attached: one detach command for each, in order |
| RelayBridgeEffects.DebuggerEffect | extensions/browser/src/browser/extension-relay/relay-bridge.ts:322-345 | over every run a detached tab loses attachment, aliases and children; an event of an attached tab makes its child sessions known; other messages change nothing |
| RelayBridgeEffects.DisposeEffect | extensions/browser/src/browser/extension-relay/relay-bridge.ts:1050-1095 | over every run the first disposal rejects everything pending and withdraws every client, session and tab before it sends one detach command for each attached tab |
| RelayBridgeEffects.DisposeEndEffect | extensions/browser/src/browser/extension-relay/relay-bridge.ts:1096-1111 | its end rejects what was not answered and lets the extension go |
| HubServices.HubService.RouteOpaqueFrame | src/hub/service.ts:184-212 | what runs of a frame before its first wait: a request waits, a close unbinds and goes to the other end, a response goes to the source |
| HubServices.HubService.RouteRequest | src/hub/service.ts:186-197 | a request after its wait: endpoint, target, existing binding, capacity, then binding and forwarding |
| HubServices.HubService.ForgetRoutes | src/hub/service.ts:213-215 | the loop deletes exactly the routes that mention the machine |
| HubServices.HubService.ForgetMachine | src/hub/service.ts:161-163 | connected clients lose the machine ID and its routes go |
| HubServices.HubService.OnClose | src/hub/service.ts:276-276 | a closed connection leaves, and its machine's routes go |
| HubServices.HubService.Find | src/hub/service.ts:187-207 | the first connected client with that machine ID |
| HubRouter.RouteConfinement | src/hub/service.ts:184-215 | over every run: per binding one stream and address, requests only to the target, responses only to the source, a close to the other end and nothing after it until a request rebinds; at most 1024 routes |
| HubRouter.ForgetsExactly | src/hub/service.ts:213-215 | after forgetting a machine no route mentions it and every other route is as it was |
| HubRouter.SourcesKnownIff | src/hub/service.ts:185-195 | every binding names its source if and only if no request for a free route ID goes on, with its endpoint reachable and a route to spare, after its client's machine ID was cleared |
| HubRouter.EndsKnown | src/hub/service.ts:194-210 | then every forwarded frame goes from one paired machine to another |
| HubRouter.ForgottenRequester | src/hub/service.ts:161-210 | a machine forgotten while its request waits leaves a route without a source, and the response reaches a connection without a machine ID |
| HubDelivery.RequestWrittenIff | src/hub/service.ts:186-197 | over every run a request that goes on is written if and only if its directory has an enabled endpoint with that machine and endpoint ID, the machine is connected, and the route ID is bound to the same route or free with fewer than 1024 routes; then to the machine's oldest connection, otherwise nothing changes |
| HubDelivery.FrameRoutedIff | src/hub/service.ts:184-212 | over every run a response is written if and only if it comes from its route's target, fits it and the requester is connected; a close frees its route if and only if it fits it and comes from an end; a request waits; all else changes nothing |
| HubDelivery.ForgottenExactly | src/hub/service.ts:161-163 | over every run forgetting a machine takes its ID from its connections and frees exactly the routes with it at either end |
| HubDelivery.DisconnectedExactly | src/hub/service.ts:276-276 | over every run a closed connection leaves the list in order and frees exactly its machine's routes |
| HubDelivery.StoppedExactly | src/hub/service.ts:116-119 | over every run stopping drops every connection and every route |
| SupervisorServices.AtbSupervisor.RecoverEndpoint | src/companion/supervisor.ts:291-301 | the record, live or suspended, passes to the announcing generation |
| SupervisorServices.AtbSupervisor.EndpointReady | src/companion/supervisor.ts:303-315 | refused for a replaced run; otherwise live, no longer suspended, its expiry cleared |
| SupervisorServices.AtbSupervisor.EndpointSuspended | src/companion/supervisor.ts:320-333 | the answers in order; otherwise from live to suspended with one new expiry |
| SupervisorServices.AtbSupervisor.ExpireRecovery | src/companion/supervisor.ts:339-343 | the expiry takes away the endpoint it was set for |
| SupervisorServices.AtbSupervisor.EndpointClosed | src/companion/supervisor.ts:349-356 | both maps and the expiry are cleared for the owning generation only |
| Supervisor.HandoverSafety | src/companion/supervisor.ts:291-361 | before closing starts no endpoint is both live and suspended, and suspended endpoints and armed expiries correspond one to one |
| Supervisor.ReplacedRunChangesIff | src/companion/supervisor.ts:291-361 | while the record belongs to another generation, each of a run's four callbacks leaves the state as it is if and only if it is not recoverEndpoint, which takes the record; its ready is refused |
| Supervisor.FreeEndpointIff | src/companion/supervisor.ts:291-361 | while the endpoint has no record, each of the four callbacks leaves the state as it is if and only if it is not endpointReady, which installs the run |
| Supervisor.StaysOutIff | src/companion/supervisor.ts:291-361 | from any reachable state a run without the record stays without it if and only if it never announces itself while there is a record nor is ready while there is none |
| Supervisor.LastClaimOwns | src/companion/supervisor.ts:291-314 | over every run a record belongs to the last run to have announced itself for the endpoint or been ready where it had no record |
| Supervisor.ReplacedRunTakesBack | src/companion/supervisor.ts:291-314 | a replaced run announces itself once more, gets broker and record back, its ready with them succeeds and the ready of the run that replaced it is refused, without any close |
| Supervisor.ReplacedRunComesBack | src/companion/supervisor.ts:303-357 | or the run that replaced it closes with the broker it took over, and the replaced run announces itself, finds nothing and its ready installs a new broker |
| Supervisor.CallbacksErasable | src/companion/supervisor.ts:291-361 | while a run stays replaced, all its callbacks can be struck out without changing where the run of the supervisor ends |
| SupervisorEffects.SuspendEffect | src/companion/supervisor.ts:320-337 | over every run exactly a suspension by the owning run with its own recovery record and a working session, before closing, moves the endpoint to the suspended ones with one new timer; and when the answer is to hold on |
| SupervisorEffects.ReadyEffect | src/companion/supervisor.ts:303-315 | over every run a ready endpoint is live under exactly what was announced, not suspended and without a timer, unless its run was replaced |
| SupervisorEffects.RecoverEffect | src/companion/supervisor.ts:291-301 | over every run announcing hands over the record, live or suspended, and changes its owner only |
| SupervisorEffects.ExpiryEffect | src/companion/supervisor.ts:339-347 | over every run a timer that fires takes away exactly the suspended endpoint it was armed for |
| SupervisorEffects.ClosedEffect | src/companion/supervisor.ts:349-361 | over every run a close by the owning run, with its broker if named, leaves nothing of the endpoint; any other changes nothing |
| SupervisorEffects.NoSuspensionWhileClosing | src/companion/supervisor.ts:320-321 | once closing has started no endpoint is suspended any more, whatever happens next |
| PairingCode.Generate | src/companion/pairing/index.ts:69-78 | the two loops return the digits of the first six bytes below 250 in draw order, and fail exactly when 32 batches hold fewer |
| PairingCode.SpellingSize | src/companion/pairing/index.ts:69-78 | how many byte strings of a length begin with accepted bytes spelling a code depends on its length alone |
| PairingCode.Unbiased | src/companion/pairing/index.ts:69-78 | every six-digit code is returned for equally many draws of any length, 512 bytes included |
| PairingCode.AcceptedStrings | src/companion/pairing/index.ts:73-74 | every n-digit code has exactly 25^n byte strings of length n that are accepted throughout |

## Left out

- Sockets, TLS, files, locks, processes, election and polling: I/O plumbing around the modelled decisions.
- Internals of AES-GCM, HKDF, ECDH and ECDSA: ideal functions, so computational bounds are not stated. An honest static
  key may sign any bytes that do not read as a channel signature; that the repository's other messages are such bytes
  is proved for their shapes (`SigningDomains.OtherMessagesApart`), and what the TLS library signs with the hub's key is
  not part of this model.
- SPKI parsing and fingerprints, `URL` parsing, trimming and lower-casing: opaque functions; the one law used is that
  text of `[a-z0-9.-]` is not changed by trimming and lower-casing.
- Zero-filling of keys: best effort in the source; only the `destroyed` flag is modelled.
- Decoding of the close reason: a receipt carries the reason's bytes.
- Values of the wrong JavaScript type where the source checks for them (a payload that is not bytes, a tab ID that is not
  an integer, negative zero): the types exclude them.
- Listeners that call back into the manager from an event, and the order of notices between different sessions.
- Task session records are values at a fixed place of a sequence instead of heap objects; aliasing between a record and
  the copies handed out (the source clones them) is not modelled.
- The text of a reusable key (`JSON.stringify` of principal and key) is the pair itself, and comparing routes by their
  JSON text when a named session is reopened is structural equality, key order aside.
- Inherited properties of JavaScript objects and `toJSON` methods: objects are records of their own properties, and two of
  them have the same `JSON.stringify` text when they are equal, key order included.
- JSON parsing and validation of native messages: one partial function of the body's bytes.
- A host run that announces itself again after its endpoint is gone starts over with a new session manager while its
  maps of access requests stay as they were: only host runs that share one manager are modelled.
- What a command to the extension carries besides the tab and the child session it is for: method, parameters, and the
  tab of a create, close or activate.
- Announcements to CDP clients (`announcedSessions`, `Target.setAutoAttach` events), responses, waiters for reported
  tabs, CDP method policy, and an extension socket whose `send` throws while connected.
- What `stop` of the supervisor clears once closing has started, the registry file and hub presence.
- Pairing ceremonies other than the code generator, enrollment and the hub's directory: their maps do not interact with
  the modelled ones.
- The certificate's dates and signature are given byte strings; PEM line wrapping is not modelled.
- User interface, command line, vocabulary and tab-group code, and the field-by-field message validators: easy members.
