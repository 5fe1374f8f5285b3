# A verified model of shiguredo_mqtt

`shiguredo_mqtt` is a Sans-I/O MQTT client library for MQTT v5.0 and v3.1.1: it holds the state of a
session, decodes the bytes a server sends and encodes the packets a client sends, and leaves sockets,
timers and randomness to its caller. This project models its session state machine, its streaming
decoder and its wire codec in Dafny 4.11 and proves properties of them over every input and every run.

`dafny verify dfyconfig.toml` checks the whole project.

## How the project is laid out

An object the library updates in place is a class here (`PacketIdManager`, `FlowControl`,
`QosFlowManager`, `SubscriptionManager`, `TopicAliasManager`, `AuthStateMachine`, `Session`, `Decoder`).
Each of its methods is proved against a function on an immutable state value, and the properties are
proved of those functions. Encoders write into an array at a moving offset and decoders advance an
offset over a buffer; each is proved against `Wire` (the bytes of a packet) or `Decode` (the packet at
the front of some bytes).

| files | contents |
|---|---|
| `Prelude`, `PacketIds`, `FlowControl`, `QosFlow`, `Subscriptions`, `TopicAliases`, `Auth` | the parts of a session, each a state value and a class |
| `SessionSpec`, `Session` | what each of the 31 state-changing calls does to the whole session, and the class that does it |
| `SessionInvariants`, `FlowRuns` | invariants over all runs; the order of retransmissions |
| `Ownership`, `SendQuota`, `ReceiveWindow` | who owns each packet identifier; accounting of both windows |
| `Replay`, `Connack` | replay after a reconnect; CONNACK and enhanced authentication |
| `Answers`, `SubscriptionAnswers` | what every call answers, over the fields of the session and the call alone |
| `Literals` | integers, text, filters and frames byte by byte |
| `ExactlyOnce`, `OrderedDelivery`, `OrderedReplay`, `Prudence`, `AtLeastOnce` | two flow managers joined by channels that lose everything at a reconnect: QoS 2, its order, QoS 1 |
| `Duplex` | two flow managers that both send; exchanges that deadlock |
| `TwoSessions`, `PeerQuota`, `CarriedOver` | two whole sessions: identifiers, quota and window on top of `ExactlyOnce`; exactly when a PUBLISH can be refused |
| `Decoder` | the streaming decoder against the plain function that splits bytes into frames |
| `Vbi`, `Fields`, `TopicFilters`, `HeaderFlags`, `Cursor`, `CommonParts` | Variable Byte Integer, fields, flags, buffers, parts common to both versions |
| `V311*`, `EndToEnd` | every packet of MQTT v3.1.1; from encoded stream to decoded packets |
| `V5*` | the properties of MQTT v5.0 and its PUBLISH, CONNECT and SUBSCRIBE |

## Main results

- **Exactly once.** Whatever is lost at reconnects, however often a flow is retransmitted and however
  identifiers are reused, no message is delivered twice, a completed message was delivered, and a
  message that is not completed is still held by the sender. The same holds both ways at once, and for
  two whole sessions with allocated identifiers and sends gated by the quota.
- **Progress.** From every reachable situation of a duplex connection some run completes an exchange if
  and only if it is not deadlocked with one the other way under the same identifier.
- **At least once.** The same guarantee for QoS 1; packets and flows stay matched if and only if nothing
  is sent twice on one connection, and otherwise a run exists that completes an undelivered message.
- **In order.** For every event, exactly when it keeps messages in the order of sending; every other event
  has a continuation that delivers out of order. Replaying the pending list before sending anything new
  is in order, across any number of lost connections, and no rule on the sender's flows alone allows more.
- **Packet identifiers.** A call keeps "in use is the disjoint union of the owners" if and only if it is
  a permitted use of an identifier; so after any permitted run a fresh identifier takes part in nothing,
  and allocation, always of the least unused one, fails exactly when 65535 are owned.
- **Both windows.** For every call, exactly when the send counter stays within (or equal to) the charged
  flows, and exactly when the receive counter stays equal to the incoming exchanges plus the PUBCOMP
  packets owed. Between two sessions, for any two Receive Maximums, exactly when the traffic of a resumed
  connection can end in a refused PUBLISH.
- **Retransmission order and replay.** The pending list is in the order section 4.6 of MQTT v5.0 asks
  for, after any run; replaying it charges exactly what the window admits, once.
- **CONNACK and authentication.** A CONNACK takes effect entirely or not at all; a new connection does
  not depend on the last one; an authenticated session had a CONNECT with a method, a later CONNACK with
  the same one, and no AUTH naming another since.
- **Subscriptions.** The index by Subscription Identifier is what a scan of the active subscriptions
  finds, after every SUBACK and UNSUBACK.
- **Topic aliases.** A receiver resolves every message of every sequence to the topic it was sent with.
- **Decoder.** Results do not depend on how the bytes are cut into pieces; every byte is moved at most
  once by compaction; the buffer is bounded; the decoder never wedges.
- **Answers.** Exactly which CONNACK is accepted and why another is not, what every handshake packet and
  AUTH is answered with, which subscriptions a SUBACK makes active and an UNSUBACK removes, and what a
  session and a connection start from.
- **Bytes.** What is written for a packet, byte by byte with every constant, the 27 properties of MQTT
  v5.0 included; exactly which packets may be written, and that exactly their bytes are read.
- **Codec.** Decoding and encoding MQTT v3.1.1 are inverse bijections. MQTT v5.0 property lists are
  canonical; PUBLISH, CONNECT and SUBSCRIBE round trip, and the converse holds exactly under a condition
  a caller can check.

## Where the code does less than one might expect

These are results about the code as it is, each with a lemma.

- `publish_sent` while connecting: a CONNACK without a session then strands the unit of send quota for
  the rest of the connection, because `connected(false)` resets the flows and not the counter; the next
  CONNECT frees it (`SendQuota.EarlyPublishStrandsQuota`). The accounting therefore asks for publishing
  on a connection only.
- An acknowledgement of a flow carried over from an earlier connection gives back a unit this connection
  never took. `SendQuota.GapGrowsIff` says exactly when the counter falls behind, and
  `SendQuota.CarriedOverAnswerUndercounts` gives a run on which two PUBLISH packets are unacknowledged
  under a Receive Maximum of 1; section 4.9 of MQTT v5.0 allows that. A peer that counts like this library
  can then refuse a PUBLISH that the quota admitted (`CarriedOver.CarriedOverExchangeGetsRefused`). With one
  Receive Maximum on both sides the traffic of a resumed connection can end so if and only if an exchange
  was carried over that waits for a PUBCOMP and will get it, and enough identifiers are left
  (`CarriedOver.AgreedMaximumRefusedIff`).
- `handle_suback` and `handle_unsuback` release the identifier even when nothing is pending under it, so
  a SUBACK that names a live PUBLISH makes its identifier available again
  (`Ownership.UnmatchedSubackReusesLiveId`).
- A refusing PUBREC gives the receive slot back while the exchange stays (`ReceiveWindow.WindowBalancedIff`,
  `ReceiveWindow.RefusalUnbalances`), and a new message that the peer sends under the identifier is taken
  for a duplicate and never delivered (`ReceiveWindow.RefusedIdSwallowsNext`): that happens if and only if
  the identifier has an exchange (`ReceiveWindow.SwallowedIff`).
- A PUBREL is a mismatch when only a send flow has its identifier, and is then not answered. Two parties
  that both lose the PUBCOMP of an exchange under the same identifier wait for each other for good
  (`Duplex.DeadlockIsReachable`, `Duplex.CompletesIffNotDeadlocked`).
- A message sent after a reconnect and before the replay overtakes the lost ones
  (`OrderedReplay.LateReplayReorders`, `OrderedDelivery.OrderedIffSafe`); the library leaves that order to
  its caller.
- With MQTT v3.1.1 `resend_publish` sends a flow again on the same connection. Its second PUBACK can
  complete the next message under the identifier before that one is delivered
  (`AtLeastOnce.StalePubackLosesMessage`, `AtLeastOnce.MatchedIffSendsOnce`).
- `configure_for_connect` is not all or nothing: with a Receive Maximum of 0 it fails after storing three
  of its values (`Connack.RefusedConfigurationChanges`, `Connack.ConfigureAllOrNothingIff`).
- A received MQTT v5.0 PUBLISH or CONNECT need not be encodable again: encoding refuses a Subscription
  Identifier and a payload declared to be UTF-8 that is not, decoding accepts both
  (`V5RoundTrip.EncodableIffForwardable`, `V5RoundTrip.ReceivedSubscriptionIdentifier`,
  `V5RoundTrip.ReceivedMalformedWill`).

## Model

| member | source | states |
|---|---|---|
| PacketIds.PacketIdManager.Allocate | src/state/packet_id.rs:40-59 | hands out the least identifier in 1..65535 not in use, none when there is none, and keeps the free list and the identifiers in use a partition of what was ever handed out |
| PacketIds.PacketIdManager.Release | src/state/packet_id.rs:65-72 | exactly this identifier leaves the set in use; the partition is kept for any identifier, known or not |
| PacketIds.PacketIdManager.IsAvailable | src/state/packet_id.rs:80-82 | true if and only if some identifier is unused, so it agrees with allocation |
| PacketIds.ExhaustedIffAllInUse | src/state/packet_id.rs:40-59 | allocation fails if and only if all 65535 identifiers are in use |
| FlowControls.FlowControl.PublishSent | src/state/flow_control.rs:158-164 | takes a unit if and only if one is left, and otherwise refuses without a change |
| FlowControls.FlowControl.Reset | src/state/flow_control.rs:243-254 | both windows return to their defaults, the own Receive Maximum kept on demand |
| QosFlow.QosFlowManager.PubrecReceived | src/state/qos_flow.rs:320-384 | every branch of PUBREC by state and reason code, including flows taken out and put back, is the specified step |
| QosFlow.QosFlowManager.PubrelReceived | src/state/qos_flow.rs:398-416 | PUBREL ends the receive flow, is answered again without one, and is a mismatch when only a send flow has the identifier |
| QosFlow.QosFlowManager.PubcompReceived | src/state/qos_flow.rs:424-442 | PUBCOMP ends exactly a flow that waits for it; a mismatched one changes nothing |
| QosFlow.QosFlowManager.ClearQuotaCharges | src/state/qos_flow.rs:234-238 | the loop clears every charge and changes nothing else |
| FlowRuns.StepKeepsValid | src/state/qos_flow.rs:179-183 | every step keeps sequence numbers unique and below the counter and the two directions' states apart |
| FlowRuns.PendingPacketIds | src/state/qos_flow.rs:518-526 | lists the outgoing identifiers by sequence number |
| FlowRuns.RetransmissionsDropNone | src/state/session/mod.rs:1016-1026 | the filter over the pending list drops no outgoing flow |
| FlowRuns.StepAgrees | src/state/qos_flow.rs:346-377 | every event keeps the sequence numbers in agreement with a ledger kept from observed events only: original sends, and first successful PUBRECs |
| FlowRuns.RetransmissionOrder | src/state/qos_flow.rs:498-526 | after any run the pending list names each outgoing flow once, PUBLISH entries in send order and PUBREL entries in order of first successful PUBREC |
| SessionInvariants.SessionRetransmissionOrder | src/state/session/mod.rs:1016-1026 | the same for whole sessions, across reconnects, resends, aborts and mismatched packets |
| SessionInvariants.FlowsFollow | src/state/session/mod.rs:830-1233 | every call of a session is at most one step of its flow manager |
| SessionInvariants.RunWellformed | src/state/session/mod.rs:358-1658 | flows, subscription index and authentication stay consistent over every run |
| Sessions.Session.ApplyConnack | src/state/session/mod.rs:358-531 | validation first, then application; no step of the second phase can fail, and the result is the specified one |
| Answers.ConnackAcceptedIff | src/state/session/mod.rs:358-472 | a CONNACK is accepted if and only if the connection is being made, the version and reason code fit, no parameter is out of place or of range, and the method is the one offered |
| Answers.ConnackErrors | src/state/session/mod.rs:358-472 | which error each violation gives, in the order of the checks |
| Sessions.Session.ConfigureForConnect | src/state/session/mod.rs:282-299 | which values are stored before a Receive Maximum of 0 is refused |
| Sessions.Session.ConnectSent | src/state/session/mod.rs:541-544 | a connection begins: connection-scoped state reset, session state kept |
| Sessions.Session.BecomeConnected | src/state/session/mod.rs:607-617 | the session is discarded if and only if it is a clean start or the server has none |
| Sessions.Session.HandlePuback | src/state/session/mod.rs:830-839 | quota and identifier come back exactly when the flow ends |
| Sessions.Session.HandlePubrec | src/state/session/mod.rs:852-870 | quota and identifier come back exactly when the PUBREC ends the flow |
| Sessions.Session.HandlePublishQos2 | src/state/session/mod.rs:949-960 | a slot is taken for a new identifier only, a duplicate passes even a full window |
| Answers.PublishAnswer | src/state/session/mod.rs:922-960 | a QoS 1 PUBLISH is answered by the PUBACK of its identifier, a QoS 2 one by its PUBREC; either is refused exactly when it is new and the window is full |
| Answers.PubackAnswer | src/state/session/mod.rs:830-839 | a PUBACK completes exactly a flow that waits for it, and is ignored or a mismatch otherwise |
| Answers.PubrecAnswer | src/state/session/mod.rs:852-870 | what a PUBREC leads to by the state of the flow and its reason code |
| Answers.PubcompAnswer | src/state/session/mod.rs:900-909 | a PUBCOMP completes exactly a flow that waits for it |
| Answers.PubrelAnswer | src/state/qos_flow.rs:398-416 | a PUBREL is answered by a PUBCOMP, unless only a send flow has its identifier or a QoS 1 message does |
| Answers.AcknowledgementsSent | src/state/session/mod.rs:968-996 | which acknowledgements give a slot back, and which end an exchange |
| Sessions.Session.PublishSent | src/state/session/mod.rs:1170-1188 | the order of the refusals, and one unit with one flow on success |
| Sessions.Session.AbortPublish | src/state/session/mod.rs:1226-1233 | both directions of the identifier go, with a unit if either existed |
| Sessions.Session.ResendPublish | src/state/session/mod.rs:1055-1075 | charges an uncharged waiting flow once, and differs by version when it is charged already |
| Answers.ResendAnswer | src/state/session/mod.rs:1055-1096 | what is sent again, by state of the flow, charge, version and window |
| Answers.PublishSentAnswer | src/state/session/mod.rs:1170-1188 | the error or the new flow of a PUBLISH to be sent, with the error each violation gives |
| Answers.RetransmissionAnswer | src/state/qos_flow.rs:498-505 | what is to be sent again for each state |
| Answers.AbortAnswer | src/state/session/mod.rs:1226-1233 | what giving up an identifier clears and gives back |
| Sessions.Session.HandleSuback | src/state/session/mod.rs:1427-1437 | confirms the request and releases the identifier whether or not one was pending |
| Answers.RequestAnswers | src/state/session/mod.rs:1427-1486 | every subscription call: what waits, and that its identifier comes back |
| Sessions.Session.Reset | src/state/session/mod.rs:1647-1658 | all but version, client identifier, clean start and packet size limit is that of a new session again |
| Answers.NewSession | src/state/session/mod.rs:176-203 | every value a new session starts with |
| Answers.NewConnection | src/state/session/mod.rs:1630-1644 | every value a new connection starts with, and what it keeps |
| Answers.NewAuthenticatedConnection | src/state/session/mod.rs:586-600 | the method offered is remembered; MQTT v3.1.1 has none |
| Answers.MarkedConnected | src/state/session/mod.rs:607-617 | the session survives exactly when it is present and no clean start was asked for |
| Answers.ResetIsNew | src/state/session/mod.rs:1647-1658 | after a full reset a session differs from a new one in its packet size limit only |
| Answers.Configured | src/state/session/mod.rs:282-299 | what an accepted configuration stores, and what one with a Receive Maximum of 0 does |
| Ownership.OwnershipExact | src/state/session/mod.rs:830-1486 | identifiers in use are the disjoint union of their owners after a call if and only if the call was permitted |
| Ownership.OwnershipOverRuns | src/state/session/mod.rs:1116-1250 | ownership holds at the end of every permitted run |
| Ownership.FreshIdIsUnowned | src/state/session/mod.rs:1116-1118 | a fresh identifier takes part in no live exchange, and allocation fails only when 65535 are owned |
| Ownership.FreshIdOverRuns | src/state/session/mod.rs:1116-1118 | the same at the end of every permitted run of a new session: no identifier leaks |
| Ownership.UnmatchedSubackReusesLiveId | src/state/session/mod.rs:1427-1437 | a SUBACK naming a live PUBLISH makes its identifier be handed out again |
| SendQuota.AccountSimulates | src/state/session/mod.rs:830-1233 | every call is one change of an account of live flows, charged flows and counter |
| SendQuota.QuotaCoveredIff | src/state/session/mod.rs:1170-1188 | for every call, exactly when the counter stays within the charged flows |
| SendQuota.QuotaExactIff | src/state/session/mod.rs:1630-1644 | for every call, exactly when the counter stays equal to the number in flight |
| SendQuota.SendQuotaBound | src/state/flow_control.rs:158-176 | over all runs that publish on a connection only: counter at most charged flows and at most Receive Maximum |
| SendQuota.InFlightWithinReceiveMaximum | src/state/flow_control.rs:158-176 | on any connection that begins with nothing in flight, whatever came before it, the number in flight is the counter and never exceeds Receive Maximum |
| SendQuota.EarlyPublishStrandsQuota | src/state/session/mod.rs:1602-1644 | publishing before a CONNACK without a session strands a unit: on the whole rest of the connection the counter is one more than the flows in flight, and the next CONNECT clears it |
| SendQuota.GapGrowsIff | src/state/flow_control.rs:174-176 | for every call, exactly when the counter falls further behind the charged flows |
| SendQuota.CarriedOverAnswerUndercounts | src/state/session/mod.rs:900-917 | a run of a session on which the PUBCOMP of a carried-over flow takes the counter to 0 with one flow charged, so that two are unacknowledged under a Receive Maximum of 1 |
| ReceiveWindow.SlotsSimulate | src/state/session/mod.rs:887-996 | every call is one change of incoming exchanges, counter and owed PUBCOMP packets |
| ReceiveWindow.WindowBalancedIff | src/state/session/mod.rs:968-996 | for every call, exactly when the counter stays equal to exchanges plus owed PUBCOMP packets |
| ReceiveWindow.ReceiveWindowConserved | src/state/session/mod.rs:922-996 | on any connection that begins without incoming exchanges, whatever came before it, the balance holds over every run that follows the returned actions, and an idle session has its whole window back |
| ReceiveWindow.IncomingSurvivesIff | src/state/session/mod.rs:887-996 | for every call, exactly when an incoming exchange ends |
| ReceiveWindow.RefusedIdSwallowsNext | src/state/session/mod.rs:949-988 | after a refusing PUBREC the next message under the identifier is answered as a duplicate, until a call ends the exchange |
| ReceiveWindow.SwallowedIff | src/state/session/mod.rs:949-960 | a message that is accepted is taken for a duplicate if and only if its identifier has an incoming exchange |
| Replay.WalkCharges | src/state/session/mod.rs:1055-1075 | resending a list charges exactly the first ones the window admits, in order, and changes nothing else |
| Replay.ReplayAfterReconnect | src/state/session/mod.rs:1016-1075 | after a resumed session under Receive Maximum r exactly the first min(k, r) of k PUBLISH packets go out, and a second walk charges nothing |
| Replay.ReplayFollowsSendOrder | src/state/qos_flow.rs:518-526 | what is replayed is the ledger of unacknowledged PUBLISH packets of the whole run |
| Connack.ConnackAllOrNothing | src/state/session/mod.rs:358-531 | an error leaves every field unchanged; success connects and keeps the session if and only if it is present |
| Connack.ConnackParameters | src/state/session/mod.rs:474-530 | every parameter given takes effect, an absent one leaves the value that was there |
| Connack.ConfigureAllOrNothingIff | src/state/session/mod.rs:282-299 | a refused configuration leaves the session as it was if and only if its first three values are the ones the session has |
| Connack.RefusedConfigurationChanges | src/state/session/mod.rs:282-299 | a new session that refuses a Receive Maximum of 0 has three new values |
| Connack.ConnectionsAreIndependent | src/state/session/mod.rs:1630-1644 | two sessions that differ only in what belongs to a connection are equal once CONNECT is sent |
| Connack.AuthStep | src/state/auth.rs:145-254 | how one event can lead to an authenticated session, for every event |
| Connack.AuthenticationSound | src/state/auth.rs:109-279 | authenticated implies a CONNECT with a method, a later accepted CONNACK with the same method, and no AUTH naming another since |
| Authentication.AuthStateMachine.AuthReceived | src/state/auth.rs:145-203 | legality before method; every other packet resets the exchange; the method is known when it is looked at |
| Answers.AuthAnswers | src/state/auth.rs:145-203 | each answer to an AUTH packet goes with one state afterwards, and when it is given |
| Answers.LegalAuthIsAccepted | src/state/auth.rs:145-203 | a challenge or a closing AUTH in place is never refused |
| Answers.AuthSteps | src/state/auth.rs:205-254 | what an accepted CONNACK and a re-authentication lead to |
| ExactlyOnce.StepKeepsInvariant | src/state/qos_flow.rs:265-442 | for every identifier the two flows and both channels stay in one of three consistent situations |
| ExactlyOnce.ExactlyOnceDelivery | src/state/qos_flow.rs:483-491 | no message is delivered twice, completed ones were delivered, and every other one is still pending |
| ExactlyOnce.RecoveryCompletesIff | src/state/qos_flow.rs:398-416 | from every reachable situation a reconnect and at most two round trips complete an exchange if and only if it waits for a PUBREC, or the peer has a receive flow under the identifier, or no send flow |
| Duplex.ExactlyOnceBothWays | src/state/qos_flow.rs:265-442 | exactly-once delivery in both directions at a time, whatever identifiers the parties choose |
| Duplex.StepKeepsDeadlock | src/state/qos_flow.rs:410-412 | two exchanges that wait for each other's PUBCOMP stay deadlocked through every event |
| Duplex.CompletesIffNotDeadlocked | src/state/qos_flow.rs:398-442 | from every reachable situation some run completes an exchange if and only if it is not deadlocked |
| Duplex.DeadlockIsReachable | src/state/qos_flow.rs:410-412 | two lost PUBCOMP packets under one identifier deadlock both parties |
| TwoSessions.PairRefinesLink | src/state/session/mod.rs:852-1188 | every step of two whole sessions, with identifiers, quota, window, QoS 1 messages beside it and any other call, is a step of ExactlyOnce as far as that can see |
| TwoSessions.SessionsDeliverExactlyOnce | src/state/session/mod.rs:852-1188 | exactly-once delivery of the QoS 2 messages over every run of two new sessions, with QoS 1 messages under the same identifiers and quota, and every identifier accounted for |
| PeerQuota.RefusalNeedsOverload | src/state/session/mod.rs:949-960 | over every run of two sessions a PUBLISH is refused only while more exchanges are unacknowledged than the receiver's Receive Maximum, so never while the quota is exact |
| CarriedOver.CanBeRefusedIff | src/state/session/mod.rs:900-960 | for any two Receive Maximums: the sends, resends and arrivals of a resumed connection can end in a refused PUBLISH if and only if answered exchanges were carried over, one for each unit by which the sender's maximum is not above the receiver's, and identifiers are left for one message more than the receiver takes |
| CarriedOver.ReconnectCanBeRefusedIff | src/state/session/mod.rs:900-960 | the same after every reconnect of every run of two new sessions |
| CarriedOver.AgreedMaximumRefusedIff | src/state/flow_control.rs:158-176 | with one Receive Maximum on both sides: if and only if some exchange carried over waits for a PUBCOMP and will get it, and enough identifiers are left |
| CarriedOver.CarriedOverExchangeGetsRefused | src/state/flow_control.rs:158-176 | a run of two new sessions that ends in the refusal of a PUBLISH the sender's quota admitted, though both agree on the Receive Maximum |
| AtLeastOnce.MatchedIffSendsOnce | src/state/session/mod.rs:1055-1075 | for every event, each flow sent on the connection keeps exactly one packet in flight, and no other flow has any, if and only if the event sends nothing twice |
| AtLeastOnce.AtLeastOnceDelivery | src/state/qos_flow.rs:290-310 | over every run that sends nothing twice, and every run of MQTT v5.0, completed messages were delivered and every other one is still pending |
| AtLeastOnce.SentTwiceCanLose | src/state/session/mod.rs:1055-1075 | wherever a flow is sent twice on a connection, some continuation completes a message that was not delivered |
| AtLeastOnce.RoundTripCompletes | src/state/qos_flow.rs:498-505 | a reconnect and one round trip complete any QoS 1 exchange |
| AtLeastOnce.StalePubackLosesMessage | src/state/session/mod.rs:1055-1075 | a run in which a message is completed and undelivered, and neither held nor in flight any more |
| OrderedDelivery.OrderedIffSafe | src/state/session/mod.rs:1016-1096 | for every event, order is kept if and only if it is no new message while one is lost and no lost message but the earliest |
| OrderedDelivery.OrderedIffLogsIncrease | src/state/qos_flow.rs:498-505 | order is what is observed: it holds if and only if, whichever flow is retransmitted, everything in flight arrives in increasing order |
| OrderedDelivery.UnsafeEventReorders | src/state/session/mod.rs:1016-1096 | an event that is not safe has a continuation that delivers out of order |
| OrderedDelivery.OrderedThroughoutIffSafe | src/state/session/mod.rs:1016-1096 | a run is in order throughout if and only if each of its events is safe |
| OrderedDelivery.DeliveredInOrder | src/state/qos_flow.rs:518-526 | on every run of safe events messages are delivered in the order they were sent, across any number of lost connections |
| OrderedReplay.PrudentSenderKeepsOrder | src/state/session/mod.rs:1055-1075 | a sender that looks only at its own flows, at which are charged and in which order they were sent, has its messages delivered in order |
| OrderedReplay.ReplayIsPrudent | src/state/session/mod.rs:1016-1026 | resending the pending list in its order is always safe, and once it is done anything may be sent |
| Prudence.PrudentIffSafeEverywhere | src/state/session/mod.rs:1055-1075 | that rule is exact: an event keeps it if and only if it is safe on every reachable link that looks the same to the sender |
| Prudence.ReachedReplayIsPrudent | src/state/session/mod.rs:1016-1026 | after any run, resending the pending list in its order keeps the rule, and then anything may be sent |
| OrderedReplay.LateReplayReorders | src/state/session/mod.rs:1016-1026 | a new message sent before the replay overtakes a lost one |
| Subscriptions.SubackKeepsIndex | src/state/subscribe.rs:188-229 | the index lists exactly the active filters with each identifier, once, after any SUBACK |
| Subscriptions.UnsubackKeepsIndex | src/state/subscribe.rs:283-316 | the same after any UNSUBACK, with failures and count mismatches |
| Subscriptions.FindAgreesWithScan | src/state/subscribe.rs:140-150 | the lookup by identifier returns exactly the entries a scan would, each once |
| Subscriptions.SubscriptionManager.SubackReceived | src/state/subscribe.rs:188-229 | the loop over the four maps is the specified step |
| SubscriptionAnswers.SubackGrants | src/state/subscribe.rs:188-229 | a filter is active after a SUBACK if and only if it was or was granted; it has the entry granted last with the QoS of its code; the others keep theirs; the granted entries are returned in order |
| SubscriptionAnswers.OtherSubackGrantsNothing | src/state/subscribe.rs:188-229 | a SUBACK without a request, or with another number of codes, makes nothing active |
| SubscriptionAnswers.RequestsWait | src/state/subscribe.rs:160-180 | a request waits as it was sent, and none without an identifier or entries |
| Subscriptions.SubscriptionManager.UnsubackReceived | src/state/subscribe.rs:283-316 | the loop over filters and reason codes is the specified step |
| SubscriptionAnswers.UnsubackRemoves | src/state/subscribe.rs:283-316 | a filter is gone after an UNSUBACK if and only if it was asked for and the server has none; the removed ones are returned once each, in the order of the request |
| SubscriptionAnswers.OtherUnsubackRemovesNothing | src/state/subscribe.rs:283-316 | an UNSUBACK without a request, or with a wrong number of codes, removes nothing |
| TopicAliases.TopicAliasManager.RegisterForSend | src/state/topic_alias.rs:141-164 | the alias of a known topic, else the least free one, else none |
| TopicAliases.TopicAliasManager.ResolveOnReceive | src/state/topic_alias.rs:85-112 | a topic is stored under its alias within the own maximum, an empty one looked up |
| Answers.RegisterAnswer | src/state/topic_alias.rs:141-164 | the alias of a known topic, else the least open one, else none; nothing that was mapped is lost |
| Answers.ResolveAnswer | src/state/topic_alias.rs:85-112 | what an alias and a topic resolve to, and what is stored |
| TopicAliases.RegisterKeepsMappings | src/state/topic_alias.rs:141-164 | the sender's table stays injective within 1..maximum and never overwrites |
| TopicAliases.AliasesLossless | src/state/topic_alias.rs:85-175 | a receiver with a maximum at least the sender's resolves every message to its topic, for every sequence |
| Vbi.EncodeVbi | src/codec/variable_byte_integer.rs:32-57 | writes the groups of the value at the given place and nothing else, or says why not |
| Vbi.DecodeVbi | src/codec/variable_byte_integer.rs:62-98 | the loop computes the specified value; its checked arithmetic cannot fail |
| Vbi.VbiRoundTrip | src/codec/variable_byte_integer.rs:32-98 | every value up to 268435455 is read back, whatever follows |
| Vbi.VbiCanonical | src/codec/variable_byte_integer.rs:89-96 | only the bytes the encoder writes are accepted |
| Literals.WrittenLength | src/codec/variable_byte_integer.rs:32-57 | the one to four bytes that are written for a value |
| Literals.ReadLength | src/codec/variable_byte_integer.rs:62-98 | the value or the error for any bytes, by position |
| Fields.TakeStrRoundTrip | src/codec/utf8_string.rs:23-70 | a string field without NUL is read back, whatever follows |
| Fields.TakeStrExact | src/codec/utf8_string.rs:52-70 | an accepted string field is what would be written for it |
| Fields.TakeBinExact | src/codec/binary_data.rs:41-55 | an accepted binary field is what would be written for it |
| Literals.ReadText | src/codec/utf8_string.rs:52-70 | the text, the bytes, or which error, for any bytes of a field |
| Literals.ValidUtf8Iff | src/codec/utf8_string.rs:52-70 | accepted text is exactly the UTF-8 encoding of some sequence of scalar values |
| TopicFilters.FilterByLevels | src/topic_filter.rs:13-31 | the wildcard rule by position is the rule level by level |
| Literals.FiltersAre | src/topic_filter.rs:13-31 | the wildcard rule with its characters written out |
| Literals.WildcardsAre | src/v311/publish.rs:168-180 | the two characters a topic name may not have |
| Decoding.Decoder.Feed | src/decoder.rs:158-179 | accepts exactly what fits the limit, and a cached phase stays right when bytes are appended |
| Decoding.Decoder.Decode | src/decoder.rs:195-201 | answers for the frame at the front; an answer shrinks the pending bytes, a request for more leaves them and always leaves room for a byte |
| Decoding.Decoder.TryDecode | src/decoder.rs:208-274 | the phase loop terminates with the answer of the simple splitter |
| Decoding.Decoder.MaybeCompact | src/decoder.rs:287-291 | compaction keeps the pending bytes, leaves at most half the buffer stale, and moves no more than was consumed |
| Decoding.Decoder.Bounds | src/decoder.rs:63-67 | bytes moved plus offset never exceed bytes consumed; the buffer is at most twice the limit |
| Decoding.Decoder.Drain | fuzz/fuzz_targets/decode_frag_v5.rs:64-70 | draining ends and yields the frames of the pending bytes |
| Decoding.SplitLater | src/decoder.rs:208-274 | splitting may be interrupted anywhere and continued when more bytes come |
| Literals.FrontOfStream | src/decoder.rs:208-274 | when the front of a stream is a packet, is refused, or waits, by its length and the limit |
| Literals.FedBytes | src/decoder.rs:158-179 | the buffer takes the largest packet and five bytes more |
| Literals.DecodedFrame | src/decoder.rs:298-320 | a complete frame that needs more bytes is malformed |
| Decoding.ChunkingIndependence | src/decoder.rs:158-274 | for every interleaving of feed and decode, results plus frames of the pending bytes are the frames of all bytes, up to the first framing error |
| Decoding.SameBytesSameResults | src/decoder.rs:158-274 | two ways of cutting the same bytes, both drained, give the same results |
| V311Codec.Encode | src/v311/packet.rs:289-306 | the exact answer for every packet and capacity; on success exactly the packet's bytes at the front and nothing else changed |
| V311Codec.EncodeToVec | src/v311/packet.rs:309-331 | exactly the packet's bytes, or its refusal, the length first |
| V311.EncodableIffFits | src/v311/packet.rs:289-306 | encoding succeeds if and only if the packet is encodable and its bytes fit the buffer |
| V311Codec.EncodeConnect | src/v311/connect.rs:91-139 | the bytes of CONNECT in their order, with the first faulty field reported |
| V311Codec.EncodeSubscribe | src/v311/subscribe.rs:49-98 | the list loop writes the specified bytes |
| V311Decode.DecodePacket | src/v311/packet.rs:345-413 | the offset decoder of all fourteen packets computes the specified answer, errors included |
| V311Decode.ReadConnectFields | src/v311/connect.rs:194-285 | the checks of CONNECT in their order |
| V311Decode.ReadSubscriptions | src/v311/subscribe.rs:131-157 | the list loop of SUBSCRIBE |
| V311Decode.ReadSubAck | src/v311/suback.rs:127-149 | the list loop of SUBACK |
| V311RoundTrip.DecodesWire | src/v311/packet.rs:345-413 | every encodable packet is decoded from its bytes, and bytes after it do not matter |
| V311RoundTrip.DecodedIsWire | src/v311/packet.rs:345-413 | every decoded packet is encodable and its bytes are the ones consumed |
| V311RoundTrip.WireBijection | src/v311/packet.rs:289-413 | decoding answers p and n if and only if encoding p succeeds with n bytes and they are the first n |
| V311RoundTrip.WireIsPrefixFree | src/v311/packet.rs:289-306 | no packet's bytes start another's |
| V311Layout.WireIsLayout | src/v311/packet.rs:289-306 | every byte that is written for every packet, type, flags, length, constants and fields in order |
| V311Layout.LayoutIsRead | src/v311/packet.rs:345-413 | these bytes are read as that packet, whatever follows |
| V311Layout.ReadIsLayout | src/v311/packet.rs:345-413 | and nothing else is read |
| V311Layout.EncodableIs | src/v311/connect.rs:287-319 | exactly which packets may be written, rule by rule |
| V311Layout.ConnectByPosition | src/v311/connect.rs:91-139 | protocol name and level, each bit of the flags, and Keep Alive of a CONNECT by position |
| V311Layout.FirstByteBits | src/v311/publish.rs:45-88 | type and flags of the first byte, DUP, QoS and RETAIN of a PUBLISH bit by bit |
| V311Layout.RefusedPackets | src/v311/publish.rs:168-210 | the reason for which each packet is refused |
| V311Layout.RefusedHeaders | src/v311/packet.rs:345-413 | the error for a bad type, bad flags or a bad length, before anything of the body is looked at |
| V311Layout.RefusedSizes | src/v311/packet.rs:289-306 | length, room and texts are the further reasons, in this order |
| V311Layout.RefusedBodies | src/v311/packet.rs:345-413 | behind a good header a packet is read, malformed, or has a text that is no UTF-8 |
| V311RoundTrip.ConnectExact | src/v311/connect.rs:144-285 | an accepted CONNECT body is what would be written for it |
| V311RoundTrip.SubscriptionsExact | src/v311/subscribe.rs:131-157 | an accepted subscription list is what would be written for it |
| HeaderFlags.FlagsByteExact | src/v311/connect.rs:321-340 | a byte is the sum of the flags read from it |
| EndToEnd.AcceptsServerOnly | src/v311/packet.rs:162-219 | a client accepts a packet if and only if it travels in its direction |
| EndToEnd.StreamArrives | src/decoder.rs:298-320 | packets encoded one after another and fed in any pieces come back in order and unchanged; those of the wrong direction are reported in place |
| V5Property.MakeInverse | src/v5/property/mod.rs:146-176 | each of the 27 properties is its identifier and its value |
| V5Property.PropertyReadsBack | src/v5/property/mod.rs:217-274 | a property that may be written is read back |
| V5Property.NoDuplicatesIff | src/v5/property/mod.rs:616-633 | the duplicate check says that no two properties share an identifier that may not repeat |
| V5Property.PropertiesReadBack | src/v5/property/mod.rs:527-609 | a writable list without duplicates is read back, whatever follows |
| V5Property.PropertiesExact | src/v5/property/mod.rs:568-609 | an accepted list is writable, without duplicates, and its bytes are what would be written |
| V5Layout.PropertyIs | src/v5/property/mod.rs:146-258 | the identifier and the bytes of each of the 27 properties |
| V5Layout.PropertyIsRead | src/v5/property/mod.rs:264-469 | these bytes are read as that property, whatever follows |
| V5Layout.ReadPropertyIs | src/v5/property/mod.rs:264-469 | and nothing else is read |
| V5Layout.PropertyMayBeWritten | src/v5/property/mod.rs:277-348 | exactly which values and texts a property may have |
| V5Layout.RefusedProperty | src/v5/property/mod.rs:277-348 | the error for a value out of range |
| V5Layout.NoneRepeatedIs | src/v5/property/mod.rs:616-633 | which properties may be repeated, and where |
| V5Codec.EncodeProperty | src/v5/property/mod.rs:217-258 | the exact answer for every property and capacity, and its bytes |
| V5Codec.EncodeProperties | src/v5/property/mod.rs:527-546 | the exact answer for every list and capacity; writes exactly the declared length |
| V5Decode.ReadProperty | src/v5/property/mod.rs:264-469 | the decoder of one property computes the specified answer |
| V5Decode.CheckDuplicates | src/v5/property/mod.rs:616-633 | the loop with the set of identifiers seen |
| V5Decode.ReadProperties | src/v5/property/mod.rs:568-609 | the list decoder computes the specified answer |
| V5Codec.EncodePublish | src/v5/publish.rs:49-100 | the exact answer for every packet and capacity, and its bytes |
| V5Codec.EncodeConnect | src/v5/connect.rs:100-157 | the same for CONNECT with properties and Will |
| V5Codec.EncodeSubscribe | src/v5/subscribe.rs:90-131 | the same for SUBSCRIBE |
| V5Decode.PublishDecoder | src/v5/publish.rs:105-195 | the offset decoder computes the specified answer, errors included |
| V5Decode.ConnectDecoder | src/v5/connect.rs:162-310 | the same for CONNECT |
| V5Decode.SubscribeDecoder | src/v5/subscribe.rs:136-237 | the same for SUBSCRIBE |
| V5RoundTrip.EncodedLenExact | src/v5/publish.rs:38-46 | an encodable packet fills exactly its declared length, and a buffer of that size is enough |
| V5RoundTrip.PublishRoundTrip | src/v5/publish.rs:49-195 | every encodable PUBLISH is decoded from its bytes, whatever follows |
| V5RoundTrip.ConnectRoundTrip | src/v5/connect.rs:100-310 | the same for CONNECT |
| V5RoundTrip.SubscribeRoundTrip | src/v5/subscribe.rs:90-237 | the same for SUBSCRIBE |
| V5PacketLayout.WireIsLayout | src/v5/connect.rs:100-157 | every byte that is written for PUBLISH, CONNECT and SUBSCRIBE |
| V5PacketLayout.LayoutIsRead | src/v5/connect.rs:162-310 | these bytes are read as that packet, whatever follows |
| V5PacketLayout.EncodableIs | src/v5/publish.rs:197-277 | exactly which of these packets may be written, rule by rule, with the properties each may have |
| V5PacketLayout.RefusedPublish | src/v5/publish.rs:197-277 | the reason for which a PUBLISH is refused |
| V5PacketLayout.RefusedConnect | src/v5/connect.rs:312-388 | the reason for which a CONNECT is refused |
| V5PacketLayout.RefusedSubscribe | src/v5/subscribe.rs:239-285 | the reason for which a SUBSCRIBE is refused |
| V5PacketLayout.RefusedSizes | src/v5/publish.rs:49-100 | length, room and texts are the further reasons, in this order |
| V5PacketLayout.RefusedHeaders | src/v5/publish.rs:105-130 | the error for a wrong type or bad flags |
| V5PacketLayout.RefusedPublishBody | src/v5/publish.rs:105-195 | behind a good header a PUBLISH is read, malformed, or has a text that is no UTF-8 |
| V5PacketLayout.RefusedConnectBody | src/v5/connect.rs:162-310 | the same for CONNECT |
| V5PacketLayout.RefusedSubscribeBody | src/v5/subscribe.rs:136-237 | the same for SUBSCRIBE |
| V5PacketLayout.FilterIsLawful | src/topic_filter.rs:37-55 | which filters and shared filters are valid |
| V5PacketLayout.OptionsBitByBit | src/v5/subscribe.rs:90-131 | the subscription options bit by bit |
| V5RoundTrip.EncodableIffForwardable | src/v5/publish.rs:200-277 | a packet may be written if and only if it may be read and forwarded |
| V5RoundTrip.DecodedPublish | src/v5/publish.rs:105-277 | a decoded PUBLISH is its bytes, and is encodable if and only if it has no Subscription Identifier and a payload declared to be UTF-8 is |
| V5RoundTrip.ReceivedSubscriptionIdentifier | src/v5/publish.rs:105-277 | bytes of a PUBLISH with a Subscription Identifier: decoded, and refused by the encoder |
| V5RoundTrip.DecodedConnect | src/v5/connect.rs:162-388 | a decoded CONNECT is its bytes, and is encodable if and only if a Will payload declared to be UTF-8 is |
| V5RoundTrip.ReceivedMalformedWill | src/v5/connect.rs:162-388 | bytes of a CONNECT whose Will payload is declared to be UTF-8 and is not: decoded, and refused by the encoder |
| V5RoundTrip.DecodedSubscribe | src/v5/subscribe.rs:136-285 | a decoded SUBSCRIBE is its bytes and is encodable |

## Left out

- `KeepAlive`: timers and PINGREQ bookkeeping are single comparisons against a clock; the model keeps the three fields and resets them.
- `ServerCapabilities` checks of outgoing packets (`validate_outgoing_publish`, `validate_outgoing_subscribe`): single comparisons that change nothing.
- `qos_flow_mut`, `flow_control_mut`, `keep_alive_mut`, `auth_state_mut` and the other `_mut` accessors: they bypass the session.
- `Debug`, `Display`, plain accessors and tables of reason codes: finite and without state.
- The remaining packets of MQTT v5.0 (acknowledgements, SUBACK, UNSUBSCRIBE, CONNACK, DISCONNECT, AUTH): they repeat the property lists and header proved here; DISCONNECT and AUTH accept opposite directions on purpose.
- `set_limits` between two calls of the decoder: a cached payload phase keeps the old limit, so the decoder theorems fix the limit.
- The debug assertions of `subscribe_sent` and `unsubscribe_sent` for a zero identifier or an empty list: modelled as the release build, which ignores the call.
- Overflow of `usize` and reallocation of vectors: lengths are natural numbers, except where MQTT v5.0 lengths saturate; the sequence counter of flows does not wrap.
- FlowRuns.PendingPacketIds: the library sort is written as an insertion sort.
- V311Decode.DecodePacket: the header checks that the fourteen decoders repeat are written once.
- ExactlyOnce.ExactlyOnceDelivery: success reason codes, and session state kept by both parties; QoS 1 has its own link in AtLeastOnce.
- TwoSessions.SessionsDeliverExactlyOnce: QoS 1 messages are sent, charged, acknowledged and received by the two sessions, but what is delivered of them is stated in AtLeastOnce only. A refused PUBLISH empties both channels, as the closed connection does.
- PeerQuota.RefusalNeedsOverload: necessary only, over every run with any other call; the exact condition in CarriedOver is for the sends, resends and arrivals after a reconnect.
- Prudence.PrudentIffSafeEverywhere: the history it starts from has a receiver without messages of its own; the links it ranges over are any.
- Vbi.EncodeVbi: contents of the buffer after a refusal are left open, as for every encoder.
- Examples, benchmarks, end-to-end tests, network and TLS code.
