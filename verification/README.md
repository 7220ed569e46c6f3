# Verified model of the vendored WebRTC stack

The repository vendors a WebRTC stack: the pion ICE agent and UDP mux, the pion TURN client's
stream framing, the pion WebRTC media engine and RTX receiver, and the LiveKit SDK's track and
participant state. This project models the parts of that stack that carry the most state and
proves what they are relied on for.

| file | subject |
|---|---|
| `Candidates.dfy`, `CandidateText.dfy`, `Decimals.dfy` | ICE candidates, priorities, pair priorities, and the text form |
| `AgentSpec.dfy` | the ICE agent as a step machine on values, one step per task |
| `AgentInvariants.dfy`, `AgentRuns.dfy`, `AgentTimeliness.dfy` | invariants of every step and theorems about every run of one agent |
| `PairRoles.dfy` | the role, and so the priority, of pairs made before and after the start |
| `Agreement.dfy`, `AgreementExample.dfy` | a controlling and a controlled agent over an unreliable network, and a run in which they agree |
| `PairTable.dfy`, `AgentTasks.dfy` | the agent as an object with shared pair objects and in-place updates, proved to follow the step machine |
| `PacketQueue.dfy`, `HolderTransit.dfy`, `WakeUp.dfy` | the UDP mux: packet queue, buffer holders outside the lock, and reader wake-up |
| `MuxAddresses.dfy`, `MuxRegistration.dfy` | the UDP mux: address index, and its registrations and removals under all interleavings |
| `TurnFraming.dfy` | TURN over a byte stream |
| `Rtx.dfy` | in-place reconstruction of retransmitted RTP packets |
| `Codecs.dfy`, `HeaderExtensions.dfy`, `MediaEngine.dfy` | codec and header-extension negotiation |
| `SerialExecutor.dfy`, `HandlerNotifier.dfy` | the two serial executors under all interleavings |
| `SampleClock.dfy` | RTP time arithmetic of written samples |
| `RemoteTracks.dfy` | reconciliation of a remote participant's tracks |

Conventions:

- Clocks, random numbers, floating-point conversions, CRCs, IP-literal parsing and format-parameter
  matching are inputs. Loops over Go maps visit their keys in any order.
- Fixed-width arithmetic is written out where it can wrap.
- Code that updates state in place is a class whose methods are proved against functions on values;
  the theorems are proved about those functions and about all runs of them.
- Concurrent code is a step machine at the granularity of its lock, and the class methods are its
  lock sections.

Some promises do not hold of the code as it is. Each has a lemma or method with a concrete input and
an if-and-only-if for the exact condition where there is one:

- A related address without a port, or the reverse, does not survive printing and parsing, and a port
  outside 0..65535 is printed and not parsed (`CandidateText.RoundTrip`, with
  `CandidateText.HalfRelatedAddressIsLost` and `CandidateText.BadRelatedPortIsRefused`).
- A pair that a controlling agent makes before it is started has the controlled role, so that the two
  ends may give it different priorities (`PairRoles.EndsAgreeOnPriorityIff`, with
  `PairRoles.EarlyPairHasWrongRole`).
- Outside the legal range, pair priorities can break ties of the RFC formula
  (`Candidates.OrdersAsRfcIff`, with `Candidates.PairPriorityCanBreakRfcTies`).
- The receiver of RTX packets gives back the padding of the RTX packet, not that of the original
  (`Rtx.RepaddedIsOriginalIff`), and drops the packet when that padding does not fit
  (`Rtx.RoundTrip`, with `Rtx.BadPaddingIsDropped`).
- ChannelData whose body starts with the STUN magic cookie is framed wrongly
  (`TurnFraming.ChannelDataFramedIff`, with `TurnFraming.CookieInBodyIsMisread`), and sizes beyond
  16 bits wrap (`TurnFraming.MessageFramedIff`, with
  `TurnFraming.OversizedMessageNeverConsumed`).
- Two readers of one muxed connection can lose a wake-up (`WakeUp.TwoReadersCanLoseWakeUp`).
- In the mux, a removal can delete another connection's index entry
  (`MuxRegistration.RemovalCanEvictAnother`), two first writes at once can leave an entry that its
  connection does not list (`MuxRegistration.WritesCanOverlap`), and a registration that ends after the
  removal of its connection leaves an entry for it that no further removal of that connection deletes
  (`MuxRegistration.RegistrationCanComeLate`). `MuxRegistration.RunInOrderIff` says that lists and index
  are in order exactly when none of the three happens.
- A header-extension id reused for another URI can turn on a kind that its URI was not registered for
  (`HeaderExtensions.UpdateKeepsKindsIff`, with `HeaderExtensions.ReusedIdChangesKind`).
- A handler notifier shared between kinds can strand a notification
  (`HandlerNotifier.EnqueueStrandsIff`, with `HandlerNotifier.MixedKindsCanStrand`); the agent
  uses one notifier per kind.
- An RTP time that lands on 0 restarts the sample clock (`SampleClock.PlainAccountingIff`, with
  `SampleClock.LandingOnZeroLosesSamples`), and 65535 dropped packets divide by zero (the
  `Crashed` outcome of `SampleClock.LocalTrack.WriteSample`).
- A track that changes its type stays filed under the old kind (`RemoteTracks.KindsAgreeIff`,
  with `RemoteTracks.ChangedTypeLeavesTrace`).
- Attributes that become empty cannot be told from deleted ones (`RemoteTracks.PatchRebuildsIff`,
  with `RemoteTracks.EmptyAttributeIsLost`).

## Model

| member | source | states |
|---|---|---|
| Agreement.AgentsAgree | lib/pion-ice/selection.go:50-291 | in every run of a controlling and a controlled agent over a network that loses, reorders and duplicates, with failures and restarts on both sides under any credentials, replaced remote credentials and foreign messages that fail the checks, whenever both have selected a pair and share a credential generation the two pairs mirror each other's transport addresses |
| Agreement.MarksWereAsked | lib/pion-ice/selection.go:250-291 | every pair that the controlled agent selects or marks was asked for under a remote credential that it has held since its last restart |
| Agreement.ControllingUsesOneCandidate | lib/pion-ice/selection.go:72-92 | all USE-CANDIDATE requests of the controlling agent since its last restart travelled between the ends of the pair it has nominated |
| Agreement.FreshRestartsSeparateGenerations | lib/pion-ice/agent.go:1215-1268 | restarts of the controlling agent under unused credentials give its half of a shared generation |
| Agreement.ControlledSelectsOnlyTheNominatedPair | lib/pion-ice/selection.go:205-291 | the controlled agent only selects the mirror image of the pair that the controlling agent nominated, even before the latter selects it |
| Agreement.SystemRunKeepsInv | lib/pion-ice/agent.go:1053-1139 | the invariant of the two agents and the packets between them holds after every step of every run |
| AgreementExample.AgentsCanAgree | lib/pion-ice/selection.go:50-291 | for any full agents and any two candidates of one network without a TCP type there is a run in which both agents select a pair in a shared generation, and the two pairs mirror each other |
| AgentRuns.SelectedExactlyWhenConnected | lib/pion-ice/agent.go:501-537 | in every reachable state a pair is selected if and only if the agent is Connected or Disconnected, and that pair is in the checklist, Succeeded and nominated |
| AgentRuns.ChecklistIsTheCrossProduct | lib/pion-ice/agent.go:595-608 | in every reachable state the checklist has no two Equal pairs and has a pair for every local and every pairable remote candidate of one network type |
| AgentRuns.RunKeepsInvariants | lib/pion-ice/agent.go:213-252 | both reachable-state invariants hold in every state of every run of tasks |
| AgentTimeliness.PairsBecomeValidInTime | lib/pion-ice/selection.go:122-147 | over any run a pair becomes Succeeded only on a response from the address to which an earlier step sent that transaction less than 4000 ms before, and the pair joins that address with the receiving candidate |
| AgentTimeliness.PendingWasSent | lib/pion-ice/agent.go:980-992 | every pending transaction goes back to the step of the run that sent its request, with its true time and destination |
| AgentRuns.ValidOnlyByTimelyResponse | lib/pion-ice/selection.go:214-238 | in any state that satisfies the invariants a pair becomes Succeeded only on a response from the address its transaction was sent to, less than 4000 ms after it was sent, on that pair |
| AgentRuns.NoTransactionAcceptedTwice | lib/pion-ice/agent.go:1040-1050 | over any run, across restarts and duplicated responses, no transaction is accepted twice |
| AgentRuns.NominationIsFinal | lib/pion-ice/selection.go:50-92 | the controlling agent nominates at most one pair in a generation |
| AgentRuns.UseCandidateGoesToNominated | lib/pion-ice/selection.go:72-92 | every outstanding USE-CANDIDATE request is addressed to the remote end of the nominated pair |
| AgentRuns.GenerationUsesOneCandidate | lib/pion-ice/selection.go:72-92 | every USE-CANDIDATE request sent since the last restart travelled between the ends of the pair that is nominated now |
| AgentTimeliness.FailedStaysFailed | lib/pion-ice/agent.go:426-499 | over any run a failed controlling agent stays failed and selects nothing until it is restarted |
| AgentRuns.SelectedPairIsNeverReplaced | lib/pion-ice/selection.go:122-152 | the selected pair of a controlling agent is never replaced within a generation |
| AgentRuns.SelectedPriorityNeverDecreases | lib/pion-ice/selection.go:240-270 | while a controlled agent stays connected within a generation, the priority of its selected pair never decreases |
| PairRoles.RoleOfPair | lib/pion-ice/agent.go:595-599 | in every reachable state a pair has the controlling role if and only if the agent has it and the pair was not made before the start |
| PairRoles.RoleIsRightIff | lib/pion-ice/agent.go:387-424 | in every reachable state a pair has the agent's role if and only if the agent is controlled or the pair was made after the start |
| PairRoles.EndsAgreeOnPriorityIff | lib/pion-ice/candidatepair.go:58-92 | for any two runs, a controlling agent and its controlled peer give one pair the same priority if and only if the controlling agent made it after the start or its two candidates have the same priority |
| PairRoles.EarlyPairHasWrongRole | lib/pion-ice/agent.go:387-424 | a run in which candidates known before the start make a pair in the controlled role on a controlling agent |
| AgentInvariants.StepKeepsCoreInv | lib/pion-ice/agent.go:501-636 | every task keeps the agreement of connection state, selected pair, pending transactions, sent requests and nomination |
| AgentInvariants.StepKeepsChecklistInv | lib/pion-ice/agent.go:776-840 | every task keeps the checklist the duplicate-free pairing of the two candidate sets |
| AgentInvariants.FilterByAgeKeepsExactlyFresh | lib/pion-ice/agent.go:1022-1036 | the filter keeps exactly the requests younger than 4000 ms, in their order |
| AgentInvariants.FindPairNeverMisses | lib/pion-ice/agent.go:601-608 | for an inbound message on a pairable remote candidate, a pair is always found |
| AgentSpec.BestPairFromIsBest | lib/pion-ice/agent.go:563-593 | the search finds the first pair of highest priority among the accepted ones, or that there is none |
| AgentSpec.FindRequest | lib/pion-ice/agent.go:1040-1050 | the first pending request with a transaction ID, or that there is none |
| AgentSpec.FindPair | lib/pion-ice/agent.go:601-608 | the first pair whose ends are Equal to the given ones, or that there is none |
| AgentSpec.FindRemoteCandidate | lib/pion-ice/agent.go:964-978 | a known candidate at the address, or that there is none |
| AgentTasks.Agent.InvalidatePendingBindingRequests | lib/pion-ice/agent.go:1022-1036 | the in-place compaction of the pending buffer leaves exactly the filter by age |
| AgentTasks.Agent.HandleInboundBindingSuccess | lib/pion-ice/agent.go:1040-1050 | the lookup with its in-place removal takes exactly the transaction out of the live ones |
| AgentTasks.Agent.SendBindingRequest | lib/pion-ice/agent.go:980-992 | expired transactions go, the new one is recorded with its destination, and the request is sent |
| AgentTasks.Agent.UpdateConnectionState | lib/pion-ice/agent.go:501-516 | a changed state is stored, and failure drops checklist, transactions, selection and candidates |
| AgentTasks.Agent.SetSelectedPair | lib/pion-ice/agent.go:518-537 | the pair is nominated and selected and the agent becomes Connected |
| AgentTasks.Agent.ValidateSelectedPair | lib/pion-ice/agent.go:612-636 | time without packets moves a selected agent between Connected, Disconnected and Failed |
| AgentTasks.Agent.CheckKeepalive | lib/pion-ice/agent.go:641-654 | the selected pair is pinged when either direction has been silent for the interval |
| AgentTasks.Agent.PingAllCandidates | lib/pion-ice/agent.go:539-561 | waiting and in-progress pairs are pinged in order and fail after too many requests |
| AgentTasks.Agent.GetBestAvailableCandidatePair | lib/pion-ice/agent.go:563-577 | the first non-failed pair of highest priority |
| AgentTasks.Agent.GetBestValidCandidatePair | lib/pion-ice/agent.go:579-593 | the first Succeeded pair of highest priority |
| AgentTasks.Agent.AddCandidate | lib/pion-ice/agent.go:810-840 | a new local candidate is paired with every remote candidate of its network |
| AgentTasks.Agent.AddRemoteCandidate | lib/pion-ice/agent.go:776-808 | a new remote candidate is paired with every local candidate of its network, unless it is TCP-passive |
| AgentTasks.Agent.ContactCandidatesControlling | lib/pion-ice/selection.go:50-70 | validation and keep-alive, repeated nomination, first nomination, or pings |
| AgentTasks.Agent.ContactCandidatesControlled | lib/pion-ice/selection.go:178-187 | validation and keep-alive, or pings; a lite agent only validates |
| AgentTasks.Agent.Contact | lib/pion-ice/agent.go:426-499 | one round of checks, with failure after checking for too long |
| AgentTasks.Agent.RequestToControlling | lib/pion-ice/selection.go:94-120 | answer, then pair an unknown end or nominate the best pair |
| AgentTasks.Agent.RequestToControlled | lib/pion-ice/selection.go:250-291 | select or mark a pair on USE-CANDIDATE, answer, and ping back |
| AgentTasks.Agent.HandleSuccess | lib/pion-ice/selection.go:122-248 | the response is matched to a transaction and a pair, whose success may select it |
| AgentTasks.Agent.HandleInbound | lib/pion-ice/agent.go:1053-1139 | role conflicts, foreign credentials and unknown sources are dropped; an unknown requester becomes peer-reflexive |
| AgentTasks.Agent.StartConnectivityChecks | lib/pion-ice/agent.go:387-424 | a first start fixes role and credentials and enters Checking; a second one changes nothing |
| AgentTasks.Agent.SetRemoteCredentials | lib/pion-ice/agent.go:1194-1206 | empty credentials are refused, others are stored |
| AgentTasks.Agent.Restart | lib/pion-ice/agent.go:1215-1268 | candidates, pairs, transactions, selection and nomination go; new credentials and Checking follow |
| AgentTasks.Agent.Nominate | lib/pion-ice/selection.go:72-92 | the pair is remembered, flagged if asked, and the USE-CANDIDATE request is sent |
| AgentTasks.Agent.AcceptResponse | lib/pion-ice/selection.go:137-147 | the pair succeeds and is selected by the rule of the role |
| AgentTasks.Agent.Run | lib/pion-ice/agent.go:198-210 | one task is one step of the machine |
| AgentTasks.Agent.RunAll | lib/pion-ice/agent.go:213-252 | the object that runs tasks one at a time goes through the states of the step machine for every sequence of events |
| PairTable.Table.Add | lib/pion-ice/agent.go:595-599 | a new pair object goes to the end of the checklist, and the position of the selected pair stays |
| PairTable.Table.Find | lib/pion-ice/agent.go:601-608 | the object at the position of the first pair with Equal ends |
| PairTable.Table.Select | lib/pion-ice/agent.go:518-537 | the pair object is flagged and becomes the selected one, at its position |
| PairTable.Table.SelectedIs | lib/pion-ice/selection.go:240-270 | comparing pair objects compares checklist positions |
| PairTable.Table.Changed | lib/pion-ice/agent.go:539-561 | an update through one shared object changes exactly its position in the checklist |
| PairTable.Table.Release | lib/pion-ice/agent.go:501-516 | checklist and selected pair go, while the nominated pair is still remembered |
| PairTable.Table.Nominate | lib/pion-ice/selection.go:72-92 | the nominated pair is replaced or forgotten; checklist and selection stay |
| Candidates.PriorityIsNeverZero | lib/pion-ice/candidate_base.go:368-383 | no candidate has priority 0 for any component, TCP offset and wrap-around, so 0 can mean "no override" |
| Candidates.PriorityIsLegal | lib/pion-ice/candidate_base.go:348-383 | components 1..256 and TCP offsets up to 100 give priorities in 1..2^31-1 |
| Candidates.PairPriorityFitsAndMirrors | lib/pion-ice/candidatepair.go:58-92 | the formula fits 64 bits for any two 32-bit priorities, and gives the same value from the two ends of a pair when they take opposite roles |
| Candidates.MirrorAgreesIff | lib/pion-ice/candidatepair.go:58-92 | the formula gives the same value from the two ends if and only if they take opposite roles or the two candidates have the same priority |
| Candidates.PairPriorityOrdersAsRfc | lib/pion-ice/candidatepair.go:58-92 | on legal priorities the 2^32-1 formula orders pairs exactly as the 2^32 formula of section 5.7.2 of RFC 5245 |
| Candidates.PairPriorityNeverReversesRfc | lib/pion-ice/candidatepair.go:58-92 | on all 32-bit priorities the two formulas never order two pairs in opposite directions |
| Candidates.OrdersAsRfcIff | lib/pion-ice/candidatepair.go:58-92 | over all 32-bit priorities the two formulas order two pairs alike if and only if it is not so that the smaller priorities differ by one and the rest of the pair with the lower one exceeds the other's by 2^32-1 or 2^32 |
| Candidates.PairPriorityCanBreakRfcTies | lib/pion-ice/candidatepair.go:58-92 | two pairs that tie in the RFC formula and not in the source |
| CandidateText.RoundTrip | lib/pion-ice/candidate_base.go:458-572 | a printed candidate parses if and only if its printed ports are port numbers; it comes back Equal if and only if its related address and port are both present or both absent; foundation, component and priority are kept and printing again gives the same text |
| CandidateText.HalfRelatedAddressIsLost | lib/pion-ice/candidate_base.go:458-485 | a server-reflexive candidate related to 10.0.0.1 without a port comes back different |
| CandidateText.BadRelatedPortIsRefused | lib/pion-ice/candidate_base.go:530-556 | one related to port 65536 is printed and refused |
| CandidateText.UnmarshalOfMarshal | lib/pion-ice/candidate_base.go:488-572 | parsing a printed candidate, with an IP literal or a multicast name, gives it back with foundation and priority made explicit and a half-present related address dropped, or the port error |
| CandidateText.SplitOfMarshal | lib/pion-ice/candidate_base.go:458-485 | splitting the printed form at white space gives the foundation (or a single space) and exactly the printed words |
| CandidateText.BuildOfWords | lib/pion-ice/candidate_base.go:558-572 | the type word selects the constructor that made the candidate, and it rebuilds all its fields |
| CandidateText.ExtensionOfWords | lib/pion-ice/candidate_base.go:530-556 | the words after the eighth give back the TCP type and a wholly present related address |
| Decimals.ParseOfDecimal | lib/pion-ice/candidate_base.go:500-528 | a printed number parses back exactly when it is within the width of the field |
| PacketQueue.MuxedConn.WritePacket | lib/pion-ice/udp_muxed_conn.go:207-248 | the list refines the write section: the packet is appended; too long packets and closed connections are refused unchanged |
| PacketQueue.MuxedConn.Link | lib/pion-ice/udp_muxed_conn.go:232-247 | a holder that nothing refers to becomes the last of the list |
| PacketQueue.MuxedConn.Unlink | lib/pion-ice/udp_muxed_conn.go:68-84 | the oldest holder leaves the list |
| PacketQueue.MuxedConn.ReadFrom | lib/pion-ice/udp_muxed_conn.go:64-103 | the list refines the read section: the oldest packet leaves and its holder goes back to the pool; short buffers, an empty queue and closure are told apart |
| PacketQueue.MuxedConn.Close | lib/pion-ice/udp_muxed_conn.go:138-157 | all queued holders return to the pool, once |
| PacketQueue.OtherQueueIsUntouched | lib/pion-ice/udp_mux.go:353-368 | an operation of one connection on the shared pool leaves the queue of another as it was |
| HolderTransit.NoHolderIsShared | lib/pion-ice/udp_muxed_conn.go:64-103 | under every interleaving of writers and readers that handle holders outside the lock, every holder is in the pool, at one place of the queue or in one pair of hands, and every buffer holds what its owner put there or took out of the queue |
| WakeUp.DeliveredInOrder | lib/pion-ice/udp_muxed_conn.go:64-103 | under every interleaving of readers and writers, delivered packets followed by queued ones are the written ones in order, until the connection is closed |
| WakeUp.NoLostWakeUp | lib/pion-ice/udp_muxed_conn.go:207-248 | with one reader: blocked with a non-empty queue implies a token, a writer about to notify, or a closed connection |
| WakeUp.EveryScheduleServesReader | lib/pion-ice/udp_muxed_conn.go:64-103 | every schedule of the pending steps, without further writes, is bounded, and one that cannot go on has given the reader the oldest packet |
| WakeUp.BlockedReaderGetsOldest | lib/pion-ice/udp_muxed_conn.go:64-103 | so from every reachable state in which the one reader is blocked on a non-empty open queue |
| WakeUp.TwoReadersCanLoseWakeUp | lib/pion-ice/udp_muxed_conn.go:207-248 | with any number of readers above one there is a run that leaves a reader blocked on a non-empty queue with nobody to wake it |
| MuxAddresses.Mux.GetConn | lib/pion-ice/udp_mux.go:141-175 | the table entry of the ufrag, created if absent, or an error for a foreign address or a closed mux |
| MuxAddresses.Mux.RegisterConnForAddress | lib/pion-ice/udp_mux.go:247-262 | the second half of a registration: the owner forgets the address and the index sends it to the connection; a closed mux does nothing |
| MuxAddresses.Mux.AddAddress | lib/pion-ice/udp_muxed_conn.go:173-180 | both halves together keep lists and index in agreement |
| MuxAddresses.Mux.WriteTo | lib/pion-ice/udp_muxed_conn.go:105-116 | a new address is listed on the connection and indexed to it, and leaves the connection that had it |
| MuxAddresses.Mux.Close | lib/pion-ice/udp_mux.go:219-241 | every connection in the tables is closed, the tables are emptied and the mux is closed |
| MuxAddresses.Mux.TakeConns | lib/pion-ice/udp_mux.go:178-190 | the connections of a ufrag leave the tables, and only they |
| MuxAddresses.Mux.ClearAddresses | lib/pion-ice/udp_mux.go:192-207 | the index loses exactly the entries that point to the removed connections |
| MuxAddresses.Mux.RemoveConnByUfrag | lib/pion-ice/udp_mux.go:178-207 | the index loses exactly the entries of the removed connections and nobody else's |
| MuxAddresses.Conn.RemoveAddress | lib/pion-ice/udp_muxed_conn.go:182-194 | every occurrence of the address goes, all others stay in order |
| MuxAddresses.Conn.ContainsAddress | lib/pion-ice/udp_muxed_conn.go:196-205 | whether the address is listed |
| MuxRegistration.StepAgreesIff | lib/pion-ice/udp_muxed_conn.go:173-180 | under all interleavings of the two halves of registrations with removals, a step keeps the lists of addresses and the index in agreement if and only if it neither enters an address whose owner is registering it once more nor removes a connection that is registering an address of another one |
| MuxRegistration.RunAgreesIff | lib/pion-ice/udp_mux.go:178-262 | over any run of an open mux, lists and index have agreed all along if and only if no step was of those two kinds |
| MuxRegistration.StepNamesIff | lib/pion-ice/udp_mux.go:247-262 | while the index says only what is listed, a step leaves it naming no removed connection if and only if it does not enter an address for a connection whose removal has run to the end |
| MuxRegistration.RunInOrderIff | lib/pion-ice/udp_mux.go:178-262 | over any run of an open mux, lists and index have agreed all along and no entry of a removed connection was left, if and only if no step was of those three kinds |
| MuxRegistration.RemovedEntryStaysOverRun | lib/pion-ice/udp_mux.go:192-207 | an entry of a removed connection stays over any run until a step enters its address again or removes a connection that lists it |
| MuxRegistration.RegistrationCanComeLate | lib/pion-ice/udp_muxed_conn.go:173-180 | a reachable registration whose second half runs after the removal of its connection, and leaves an entry for the removed connection |
| MuxRegistration.ClearDeletesIff | lib/pion-ice/udp_mux.go:200-206 | a removal deletes an entry if and only if it belongs to the removed connection or that connection is registering its address |
| MuxRegistration.SeparateStepBreaksIff | lib/pion-ice/udp_muxed_conn.go:105-116 | when no connection registers an address twice at once, the index only says what is listed, and only such removals can go wrong |
| MuxRegistration.RunStaysSeparate | lib/pion-ice/udp_muxed_conn.go:105-116 | then at most one registration of an address is under way on a connection, and none while the connection has the address |
| MuxRegistration.RemovalCanEvictAnother | lib/pion-ice/udp_mux.go:178-207 | a reachable removal that deletes the entry of a connection that stays |
| MuxRegistration.WritesCanOverlap | lib/pion-ice/udp_mux.go:247-262 | two first writes of one connection leave an entry that no removal will find |
| TurnFraming.FrontOfStream | lib/pion-turn/stun_conn.go:41-69 | on any part of a stream of well-formed frames exactly the first frame is cut off; only an incomplete frame or fewer than nine bytes are withheld |
| TurnFraming.ChannelDataFramedIff | lib/pion-turn/stun_conn.go:41-69 | ChannelData is cut off correctly if and only if the four bytes after its header are not the magic cookie or fewer than twenty bytes are buffered |
| TurnFraming.CookieInBodyIsMisread | lib/pion-turn/stun_conn.go:41-69 | a ChannelData message of sixteen bytes that begin with the cookie is taken for an incomplete STUN message |
| TurnFraming.MessageFramedIff | lib/pion-turn/stun_conn.go:48-50 | a complete STUN message is cut off correctly if and only if its size fits 16 bits |
| TurnFraming.LongChannelDataFramedIff | lib/pion-turn/stun_conn.go:51-58 | a complete padded ChannelData message without a cookie is cut off correctly if and only if its size fits 16 bits |
| TurnFraming.OversizedMessageNeverConsumed | lib/pion-turn/stun_conn.go:41-69 | an announced size of 65516 wraps to a frame of size 0 |
| TurnFraming.StunConn.ReadFrom | lib/pion-turn/stun_conn.go:72-92 | under any chunking the result is the first frame still to come, and returned plus buffered bytes are all bytes read |
| TurnFraming.StunConn.ReadAll | lib/pion-turn/stun_conn.go:72-92 | every chunking of a stream of well-formed frames gives a prefix of the frames in order and loses no byte, except those that come together with the error that ends the stream |
| Rtx.RfcRoundTrip | lib/pion-webrtc/rtpreceiver.go:441-476 | rewriting the encapsulation that section 4 of RFC 4588 prescribes, which removes the padding of the original and may add its own, gives the original with its padding replaced by the sender's, with any CSRC count and extension |
| Rtx.RepaddedIsOriginalIff | lib/pion-webrtc/rtpreceiver.go:441-476 | that is the original itself if and only if the two paddings are equal |
| Rtx.RoundTrip | lib/pion-webrtc/rtpreceiver.go:441-476 | from a sender that keeps the padding as it is, the original bytes come back if and only if the padding count fits the payload, and otherwise the packet is dropped as a probe |
| Rtx.BadPaddingIsDropped | lib/pion-webrtc/rtpreceiver.go:441-476 | a padded packet of twelve bytes without payload, from such a sender, is dropped |
| Rtx.RewriteIsReversible | lib/pion-webrtc/rtpreceiver.go:441-476 | the rewritten packet and the reported payload type, sequence number and SSRC determine the received packet |
| Rtx.Rewrite | lib/pion-webrtc/rtpreceiver.go:441-476 | the in-place header patch and overlapping copy compute exactly the reconstructed packet of a well-formed one, and bytes past it stay; any packet whose announced lengths leave no room for a sequence number is dropped unchanged |
| Rtx.ShiftDown | lib/pion-webrtc/rtpreceiver.go:476-476 | the overlapping copy moves the payload down by two bytes |
| Rtx.MeasureHeader | lib/pion-webrtc/rtpreceiver.go:444-455 | the announced header length, in 16-bit arithmetic and for malformed packets too, and the padding length |
| Codecs.FuzzySearch | lib/pion-webrtc/rtpcodec.go:104-123 | exact if and only if some local codec matches, partial if and only if none does and one has the media type; the result is the first such codec |
| Codecs.NegotiatedListIsUniform | lib/pion-webrtc/mediaengine.go:545-577 | the negotiated list is all exact or all partial: each codec is accepted with that quality on the strength of the codecs before it in the same list |
| Codecs.ClassifiedListsAreUniform | lib/pion-webrtc/mediaengine.go:404-457 | exact matches lean only on exact ones; while there are none, partial ones lean only on partial ones |
| Codecs.PushKeepsOwners | lib/pion-webrtc/mediaengine.go:212-219 | leaving out repeated entries never changes which codec a payload type refers to |
| Codecs.AptIsPreceded | lib/pion-webrtc/mediaengine.go:410-444 | a negotiated codec with apt=p comes after a codec with payload type p |
| Codecs.ExactMeansLocalMatch | lib/pion-webrtc/mediaengine.go:436-457 | a negotiated exact codec matches a local one after its apt is translated, to the payload type of the local codec that its associated codec matches |
| Codecs.PushedEntries | lib/pion-webrtc/mediaengine.go:509-517 | no entry twice, nothing invented, every chosen codec represented |
| Codecs.ExactCodecsAreNegotiated | lib/pion-webrtc/mediaengine.go:562-577 | a codec that matches exactly on its own is always represented, and the list is then an exact one |
| MediaEngine.NegotiatedCodecsOfRun | lib/pion-webrtc/mediaengine.go:520-587 | in every reachable state, for each kind: uniform list, no malformed apt, every apt=p preceded by payload type p |
| MediaEngine.NegotiatedStaysNegotiated | lib/pion-webrtc/mediaengine.go:534-552 | over any run a negotiated codec list never changes and a negotiated header-extension id never changes its URI |
| MediaEngine.RunKeepsEngineInv | lib/pion-webrtc/mediaengine.go:520-587 | the engine invariant holds in every state of every run of registrations and remote descriptions |
| MediaEngine.Media.AddCodecTo | lib/pion-webrtc/mediaengine.go:212-219 | appends unless media type and payload type are there |
| MediaEngine.Media.RegisterCodec | lib/pion-webrtc/mediaengine.go:224-238 | the codec joins the list of its kind; other kinds are refused |
| MediaEngine.Media.RegisterHeaderExtension | lib/pion-webrtc/mediaengine.go:242-282 | the extension of the URI is created or extended; invalid directions are refused unchanged |
| MediaEngine.Media.MatchRemoteCodec | lib/pion-webrtc/mediaengine.go:404-457 | the two searching loops and the apt translation compute the quality of the match |
| MediaEngine.Media.ClassifyCodecs | lib/pion-webrtc/mediaengine.go:553-569 | the loop classifies the codecs of a section up to the first malformed one |
| MediaEngine.Media.UpdateHeaderExtension | lib/pion-webrtc/mediaengine.go:484-507 | an announced id is bound to the URI once, and a supported kind is added |
| MediaEngine.Media.UpdateFromRemoteDescription | lib/pion-webrtc/mediaengine.go:520-587 | sections are processed in order up to the first error, with each kind negotiated once |
| MediaEngine.Media.ParametersByKind | lib/pion-webrtc/mediaengine.go:589-661 | before negotiation: distinct ids, distinct URIs, under an assignment that respects negotiated ids; afterwards exactly the negotiated ones that apply |
| MediaEngine.Media.AssignIds | lib/pion-webrtc/mediaengine.go:626-648 | every extension gets its negotiated id, or a free id in 1..14, or none because all fourteen are taken |
| HeaderExtensions.RegisterKeepsUrisDistinct | lib/pion-webrtc/mediaengine.go:242-282 | registered URIs stay distinct, other extensions unchanged, earlier kinds kept |
| HeaderExtensions.UpdatesKeepIds | lib/pion-webrtc/mediaengine.go:460-507 | all updates of a section keep the URI of every negotiated id and only add kinds |
| HeaderExtensions.UpdatesOfDifferentIdsCommute | lib/pion-webrtc/mediaengine.go:475-479 | the random visiting order only matters between equal ids |
| HeaderExtensions.UpdateKeepsKindsIff | lib/pion-webrtc/mediaengine.go:484-507 | a kind is turned on for a URI not registered for it if and only if an id is reused for a second URI that, unlike the first, was registered for the kind |
| HeaderExtensions.ReusedIdChangesKind | lib/pion-webrtc/mediaengine.go:484-507 | a concrete remote side that does so |
| HeaderExtensions.OfferedParametersAreDistinct | lib/pion-webrtc/mediaengine.go:626-655 | offered ids and URIs are pairwise distinct; a negotiated id is reused only for its own URI; a fresh id is in 1..14 (section 4.2 of RFC 8285) |
| HeaderExtensions.NothingIsLeftOut | lib/pion-webrtc/mediaengine.go:626-655 | if registered extensions and negotiated ids together number at most fourteen, every applicable extension is offered |
| SerialExecutor.SerialAndInOrder | lib/pion-webrtc/operations.go:37-109 | in every interleaving at most one runner exists, a non-empty queue is busy, and executed, running and queued operations are the enqueued ones in order |
| SerialExecutor.EverythingIsExecuted | lib/pion-webrtc/operations.go:86-109 | with nothing more enqueued the threads stop within a bound, and then every operation has been executed in order |
| SerialExecutor.IdleIffNotBusy | lib/pion-webrtc/operations.go:86-109 | the threads are at rest if and only if the queue is not busy, and then nothing is left |
| SerialExecutor.Operations.Enqueue | lib/pion-webrtc/operations.go:37-51 | the lock section of an enqueuer; a nil operation changes nothing |
| SerialExecutor.Operations.Pop | lib/pion-webrtc/operations.go:71-84 | the lock section that takes the oldest operation |
| SerialExecutor.Operations.Exit | lib/pion-webrtc/operations.go:87-97 | the lock section of a finishing runner |
| HandlerNotifier.SerialAndInOrder | lib/pion-ice/agent_handlers.go:60-136 | in every interleaving at most one handler runs, and for each kind delivered, current and queued notifications are the enqueued ones in order |
| HandlerNotifier.SingleKindNeverStrands | lib/pion-ice/agent_handlers.go:60-136 | a notifier used for one kind always has a loop running when its queue is non-empty |
| HandlerNotifier.EnqueueStrandsIff | lib/pion-ice/agent_handlers.go:60-136 | an enqueued notification is stranded if and only if a loop of another kind is running |
| HandlerNotifier.MixedKindsCanStrand | lib/pion-ice/agent_handlers.go:60-136 | a run with two kinds that comes to rest with a notification undelivered |
| HandlerNotifier.EverythingIsDelivered | lib/pion-ice/agent_handlers.go:64-77 | with nothing stranded and nothing more enqueued the loops stop within a bound, and then everything has been delivered in order |
| HandlerNotifier.Notifier.Enqueue | lib/pion-ice/agent_handlers.go:60-136 | the lock section of the three enqueuers |
| HandlerNotifier.Notifier.Turn | lib/pion-ice/agent_handlers.go:64-77 | the lock section of one turn of a notification loop |
| SampleClock.RunAccounting | lib/livekit-server-sdk/localtrack.go:367-461 | over any run: samples handed to the packetizer = movement of the last RTP time - division remainders - placements of the clock, modulo 2^32 |
| SampleClock.RunAccountingWithoutPlacement | lib/livekit-server-sdk/localtrack.go:367-461 | while the last RTP time stays off 0 there are no placements, and without dropped packets the two are exactly equal |
| SampleClock.StepAccounting | lib/livekit-server-sdk/localtrack.go:435-461 | the same for one call, whatever its outcome |
| SampleClock.PlainAccountingIff | lib/livekit-server-sdk/localtrack.go:371-396 | one written sample is accounted for without a placement if and only if the clock was not at 0 or is placed at 0 |
| SampleClock.LandingOnZeroLosesSamples | lib/livekit-server-sdk/localtrack.go:371-396 | a concrete run that lands on 0 and loses samples |
| SampleClock.AcceptedSamplesAdvance | lib/livekit-server-sdk/localtrack.go:435-446 | the RTP time advances by at least the duration and is the packet time whenever that leaves room for it |
| SampleClock.LocalTrack.WriteSample | lib/livekit-server-sdk/localtrack.go:343-465 | the call computes the new clock; a rejected sample changes no state; 65535 dropped packets crash an otherwise acceptable sample |
| SampleClock.LocalTrack.PlaceSample | lib/livekit-server-sdk/localtrack.go:367-433 | the branches on packet time, wall time and duration give the sample's position or the error |
| RemoteTracks.VersionNeverGoesDown | lib/livekit-server-sdk/participant.go:215-222 | over any run the stored version never goes down |
| RemoteTracks.UpdateVersion | lib/livekit-server-sdk/participant.go:215-222 | an older description changes nothing, any other stores its version |
| RemoteTracks.TracksAreListed | lib/livekit-server-sdk/remoteparticipant.go:42-95 | after an accepted description the track keys are exactly the listed sids |
| RemoteTracks.EventsAreBalanced | lib/livekit-server-sdk/remoteparticipant.go:76-95 | at every moment of every run, published minus unpublished events of a sid is 1 if it is present and 0 if not |
| RemoteTracks.MuteEventsFollowFlag | lib/livekit-server-sdk/remoteparticipant.go:61-72 | for a track that stays, muted minus unmuted events follow its muted flag |
| RemoteTracks.KindsAgreeIff | lib/livekit-server-sdk/remoteparticipant.go:133-146 | audio and video maps agree with the tracks after an accepted description if and only if no listed track's last type differs from the kind it is filed under |
| RemoteTracks.FixedTypesKeepKinds | lib/livekit-server-sdk/participant.go:244-253 | in a run where no sid changes its type the maps always agree |
| RemoteTracks.ChangedTypeLeavesTrace | lib/livekit-server-sdk/remoteparticipant.go:133-146 | an audio track that turns into video stays among the audio tracks after it is gone |
| RemoteTracks.ChangesDetermineValues | lib/livekit-server-sdk/participant.go:200-213 | reported changes and old values determine every current value |
| RemoteTracks.PatchRebuildsIff | lib/livekit-server-sdk/participant.go:200-213 | applying the changes rebuilds the current attributes if and only if every attribute empty now was present and empty before |
| RemoteTracks.EmptyAttributeIsLost | lib/livekit-server-sdk/participant.go:200-213 | an attribute that becomes empty is reported like a deleted one, and one that appears with an empty value not at all, so that a listener that patches its copy has neither |
| RemoteTracks.AttributeChanges | lib/livekit-server-sdk/participant.go:200-213 | the two loops over the maps, in any order, compute the changes |
| RemoteTracks.RemoteParticipant.UpdateInfo | lib/livekit-server-sdk/remoteparticipant.go:42-95 | the loops over listed, new and vanished tracks compute the reconciled participant; its events come in the order metadata and attributes, mutes in list order, new tracks, vanished tracks |
| RemoteTracks.RemoteParticipant.UpdateBase | lib/livekit-server-sdk/participant.go:215-242 | version check, stored fields and change events |
| RemoteTracks.RemoteParticipant.UnpublishTrack | lib/livekit-server-sdk/remoteparticipant.go:133-157 | the track leaves the map of its current kind and the tracks, with an event if asked for; an unknown one is left alone |
| RemoteTracks.RemoteParticipant.AddPublication | lib/livekit-server-sdk/participant.go:244-253 | the publication is stored among the tracks and under its kind |

## Left out

- ICE: active and passive TCP candidate creation, multicast DNS, the user's binding-request handler (taken to be absent), gathering, Close, and the STUN wire format and integrity; a message that passes the checks names the credentials it was made with.
- ICE pairs are named by position in the step machine, and the nominated pair by its two ends; the object behind it shares them by reference.
- ICE transaction IDs are positions in the log of sent requests, hence distinct; the times since the last packets on the selected pair are inputs of a timer step.
- Agreement.AgentsAgree: says nothing about agents that do not share a credential generation, that is when the controlling agent sent requests under its present credential before its last restart, or when the controlled agent has held another remote credential since its own.
- CandidateText.RoundTrip: addresses, related addresses and foundations are taken to be words without white space (or the single-space foundation).
- MuxAddresses.Mux.WriteTo: both halves of the registration run without interruption; MuxRegistration has them interleaved, with the deletions for one connection as one step.
- PacketQueue.MuxedConn.WritePacket: taking holders from the pool and giving them back, which the source does outside the lock, is part of the section; HolderTransit has the holders outside the lock, with whole buffers and without the links of the list.
- PacketQueue.MuxedConn.ReadFrom: likewise.
- The goroutine that removes a closed connection from the mux by ufrag, dual-stack sockets and the dispatch of received packets by STUN username.
- TurnFraming.StunConn.ReadFrom: needs a non-empty caller buffer unless a complete or invalid frame is buffered, since with an empty one the source reads nothing and recurses forever; the chunks that the stream delivers, and the bytes that come with its error, are part of the state.
- Codecs: clock rate, channels and RTCP feedback, which the matching does not look at; SDP parsing, whose results or errors are inputs.
- HeaderExtensions: the map that is nil before the first registration is an empty map; both behave alike, since nothing is registered then.
- SerialExecutor: the negotiation-needed flag and its hook; operations enqueued by the hook are ordinary enqueue steps.
- SampleClock: the packetizer and the sequencer are counters, the wall clock and all floating-point results are inputs.
- RemoteTracks: publications are values and the audio and video maps are sets of sids, so that a stale publication object under an old kind is only visible as its sid; subscriptions and their events, and the pair of callbacks that each event fires.
- Rtx.Rewrite: for a malformed packet whose announced header wraps to fewer bytes than it has, only the length of the result and the bytes past it are stated.
- DTLS, SRTP, SCTP, offer/answer and transceivers, the LiveKit service clients, and the demo programs.
