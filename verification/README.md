# Verified model of the Edge–Cloud overlay

The repository connects edge devices to a cloud over WireGuard on 5G modems. Four of its parts keep state
that several parties change at once, and those are modelled here.

| part | files of this project |
|---|---|
| The QMI proxy, which lets many local clients share one modem control channel | `qlist`, `proxy_spec`, `qmi_proxy`, `proxy_traffic`, `proxy_faults` |
| PeerSight: agent and desired changes | `wireguard_device`, `agent_sync`, `agent_crash`, `wg_show`, `strings` |
| PeerSight: ping handler, peers, interfaces and endpoints | `table`, `store`, `ping_spec`, `ping_handler`, `ping_fields`, `ping_repeat`, `ping_rows`, `no_resurrection` |
| PeerSight: a deletion seen by agent and API together | `removal_runs` |
| PeerSight: event queue and brokers | `event_queue`, `event_history`, `broker_cycle`, `delivery` |
| PeerSight: operational alerts | `alert_spec`, `alert_pings`, `alert_check` |
| QMI messages and the matching of answers to requests | `bytes`, `qmi_tlv`, `start_network`, `matching_spec`, `answer_delivery`, `command_channel` |
| The two connection managers | `mbim_connect`, `mbim_commands`, `mbim_replies`, `mbim_rounds`, `mbim_sends`, `mbim_gates`, `mbim_manager`, `redial_spec`, `connection_manager` |

Every part has the same build. A class (or methods on arrays) does what the source does: the same fields,
the same loops, the same branches, updated in place. Its methods are proved equal to functions on values, or
against the property they compute where that says it outright. What the source promises is then proved about
runs of those functions, for every sequence of events.

## Assumptions

- Proxy runs: file descriptors of live connections differ and fit a byte; writes succeed; the modem answers
  control requests in order, does not grant an id that is held, and is not reset. Of the two events the queue
  does not always survive, the runs exclude exactly the cases in which it does not: a client hanging up with
  two requests queued or with the one out at the modem (`ProxySpec.HangupKeepsQueueIff`), and a control
  indication while requests are queued (`ProxySpec.IndicationKeepsQueueIff`).
- A database statement is one atomic step and does not fail. The tables start empty or satisfy their
  UNIQUE and foreign-key constraints; deleting a peer cascades to interfaces and endpoints
  (`migrations/003_cascade_peer_deletion.sql`). Peers are created by pings alone, which name them after their
  keys.
- `wg set` updates the addressed peer and makes it the only owner of each allowed IP it is given. A change whose
  payload parses is carried out.
- A lost ping is lost for good: the API does not process a request after the agent has given it up. An agent
  that is killed starts again without reports.
- QMI and MBIM senders: one thread sends; a command is composed, sent and awaited before the next one.
- Polls of the queue happen at times that do not go backwards. A check of alerts reads one clock value.

## Where the code does less than its comments say

Each of these has a lemma with the exact condition, or a concrete run.

- A client that hangs up with more than one control request queued, or with the outstanding one, leaves the
  proxy's queue out of step with the modem (`ProxySpec.HangupKeepsQueueIff`): the next answer goes to another
  client, whose own request is dropped unsent (`ProxyFaults.HangupOfHeadMisdelivers`), or the queue stalls for
  good behind a request nobody waits for (`ProxyFaults.HangupWithTwoStalls`).
- A control indication re-sends the head of a queue that is not empty (`ProxySpec.IndicationKeepsQueueIff`), and
  the second answer to it goes to the next client (`ProxyFaults.IndicationMisdelivers`).
- Executing part of a batch of desired changes again is not harmless (`WireGuardDevice.PartialReplayDiverges`).
  Lost pings never cause that. An agent killed while it executes a batch again does, exactly when it got past the
  first repeated change but not to the last one (`AgentCrash.CrashKeepsEffectIff`, `AgentCrash.CrashBringsPeerBack`);
  the next delivered cycle puts the device right (`AgentSync.ExactlyOnceEffect`).
- Repeating a ping always leaves the same contents, but not always under the same row ids. It keeps every row,
  whatever the tables hold, exactly when all reports of one interface name list the same peers, and each own key
  reported is held by some interface already at that point of the repetition (`PingRows.PingKeepsRowsIff`).
- A fail releases a lease whoever holds it (`EventQueue.ReadyAgainIff`, `EventQueue.LateFailFreesAnotherLease`).
- An event whose type no initialised pipe subscribes to is acknowledged without being delivered
  (`BrokerCycle.AckedMeansDeliveredIff`).
- Escalation multiplies the configured threshold while listing replaces one that is not positive by 120 seconds,
  so "down" means five thresholds of silence exactly when the configured one is positive
  (`AlertSpec.EscalationMeetsThresholdIff`).
- The note that an agent started with a new version is never written: the version is recorded before it is
  compared (`AlertSpec.AgentStartedIsNeverNoted`).
- MBIM strings are not padded to four bytes (`MbimConnect.AlignedIff`).
- After the MBIM device is opened again a late reply from before can complete a new command
  (`MbimCommands.LateReplyTakenIff`, `MbimCommands.StaleReplyAfterReopening`).
- A round of the MBIM manager goes on after a reply that the device is not open, and may activate all the same
  (`MbimGates.StillOpenAtActivateIff`, `MbimGates.ActivatesThoughNotOpen`).
- A failed dial is backed off exactly when one of the families it failed for was known to be down. From any
  other status, unknown, suspended or authenticating, it delays nothing, and if the other family is up it
  clears the count of failures (`RedialSpec.StartIsDelayedIff`, `RedialSpec.FailedDialBackedOffIff`).

## Model

| member | source | states |
|---|---|---|
| QList.Ring.AddTail | quectel-CM/quectel-qmi-proxy.c:424-430 | the list's contents gain the item at the end; both directions of all links agree again |
| QList.Ring.Remove | quectel-CM/quectel-qmi-proxy.c:432-436 | exactly the item at the node's position leaves; the removed node's own links stay, as a walk needs |
| QList.Ring.Next | quectel-CM/quectel-qmi-proxy.c:391-392 | a walk visits positions in order and is back at the head exactly after the last one |
| QmiProxy.Proxy.AcceptConnection | quectel-CM/quectel-qmi-proxy.c:501-520 | the new connection is last, without client ids; queue and other connections are as before |
| QmiProxy.Proxy.CleanupConnection | quectel-CM/quectel-qmi-proxy.c:522-555 | the first connection with the descriptor goes with all its client ids and its first queued message only |
| QmiProxy.UpdateClients | quectel-CM/quectel-qmi-proxy.c:557-586 | a granted id is appended to the asking connection's list, a released or revoked one leaves it once, a failed answer changes nothing |
| QmiProxy.Proxy.RecvQmi | quectel-CM/quectel-qmi-proxy.c:661-716 | tables, writes and reset flag after a message of the modem are those of the value-level step, whatever the lists' shape on the heap |
| QmiProxy.RouteService | quectel-CM/quectel-qmi-proxy.c:702-714 | writes of a service message, in list order, to every client id it is addressed to |
| QmiProxy.Proxy.SendQmi | quectel-CM/quectel-qmi-proxy.c:718-741 | a control request is queued, and written at once only if the queue was empty; service messages pass through |
| QmiProxy.Proxy.CloseAll | quectel-CM/quectel-qmi-proxy.c:1120-1124 | the shutdown loop terminates with no connection left |
| ProxySpec.ControlMultiplexing | quectel-CM/quectel-qmi-proxy.c:661-741 | in every run considered: one request is out at the modem exactly when the queue is not empty, and it is the head; the requests kept, which are the arrivals but for those unanswered when their client hung up, reach the modem in arrival order; the j-th answer goes to the client of the j-th of them, once and to nobody else |
| ProxySpec.ClientIdTable | quectel-CM/quectel-qmi-proxy.c:557-586 | in every run considered each connection's list holds exactly the ids granted to it and not released, without repetition, and no id is held twice |
| ProxySpec.ServiceRouting | quectel-CM/quectel-qmi-proxy.c:702-714 | in every run considered a service message with a non-zero id is written once to the holder of the id and to nobody if there is none |
| ProxyTraffic.ServiceReachesModem | quectel-CM/quectel-qmi-proxy.c:718-741 | in every run whatsoever the service messages written to the modem are exactly those the clients sent, unchanged, in order, each as soon as it came |
| ProxyTraffic.LogIsTheHistory | quectel-CM/quectel-qmi-proxy.c:661-741 | the control requests and deliveries the history of a run speaks of are exactly those among its writes |
| ProxyTraffic.ServiceReachesClients | quectel-CM/quectel-qmi-proxy.c:702-714 | in every run considered a service message of the modem goes unchanged to clients alone, one copy for each id held that it is for, and for all ids of its type if it names none |
| ProxyTraffic.ResetIff | quectel-CM/quectel-qmi-proxy.c:661-700 | in every run considered the proxy asks to be started anew if and only if a revocation answers the outstanding request |
| ProxySpec.HangupKeepsQueueIff | quectel-CM/quectel-qmi-proxy.c:538-546 | a hang-up keeps queue and modem in step if and only if the client has at most one message queued and it is not the head |
| ProxySpec.IndicationKeepsQueueIff | quectel-CM/quectel-qmi-proxy.c:690-700 | a control message that is no response keeps them in step if and only if the queue is empty |
| ProxySpec.HangupKeepsHistory | quectel-CM/quectel-qmi-proxy.c:522-555 | a hang-up that keeps the queue in step drops all the client had queued and nothing else from the history still to be answered |
| ProxyFaults.HangupOfHeadMisdelivers | quectel-CM/quectel-qmi-proxy.c:538-546 | from any reachable queue of two clients: if the first hangs up, the answer to its request is delivered to the second, whose request is never sent |
| ProxyFaults.HangupWithTwoStalls | quectel-CM/quectel-qmi-proxy.c:538-546 | a client that hangs up with two requests queued leaves a queue that sends nothing any more |
| ProxyFaults.IndicationMisdelivers | quectel-CM/quectel-qmi-proxy.c:690-700 | a control indication makes the modem answer the head twice, and the second answer goes to the next client |
| ProxyFaults.TwoClientsQueue | quectel-CM/quectel-qmi-proxy.c:718-741 | such queues are reached, for any two control requests |
| ProxyFaults.TwoClientsQueueThree | quectel-CM/quectel-qmi-proxy.c:718-741 | and so are those of three requests, two of them by one client |
| AgentSync.ChangeStore.CreateDesiredChange | peersight/peersight-api/internal/repository/queries.go:657-666 | a new pending change, last in creation order |
| AgentSync.ChangeStore.MarkChangeExecuted | peersight/peersight-api/internal/repository/queries.go:637-654 | the named change becomes executed or failed whatever its state was; an unknown id changes nothing |
| AgentSync.ChangeStore.ListPendingChanges | peersight/peersight-api/internal/repository/queries.go:616-634 | exactly the pending changes, in creation order |
| AgentSync.ChangeStore.Ping | peersight/peersight-api/internal/handlers/handlers.go:909-927 | reports are taken in order before the pending list is read |
| AgentSync.Agent.ExecuteChange | peersight/peersight-agent/internal/agent/agent.go:140-214 | what a change does to the WireGuard state, and that it fails exactly for a bad payload or an unknown type |
| AgentSync.Agent.Ping | peersight/peersight-agent/internal/agent/agent.go:40-121 | one cycle with its request lost, its response lost, the agent killed while executing, or neither; the reports to deliver next are those of this cycle and are dropped when it fails |
| WireGuardDevice.ApplyTouchesCells | peersight/peersight-agent/internal/agent/agent.go:166-214 | a change acts on each cell of the WireGuard state by itself, the owner of an allowed IP included |
| WireGuardDevice.AddPeerEffect | peersight/peersight-agent/internal/agent/agent.go:166-188 | the peer is there with exactly the given allowed IPs, which all others of the interface lose; what is not given stays; nothing else changes |
| WireGuardDevice.RemovePeerEffect | peersight/peersight-agent/internal/agent/agent.go:190-199 | the peer and its allowed IPs are gone; nothing else changes |
| WireGuardDevice.ReplayIdempotent | peersight/peersight-agent/internal/agent/agent.go:105-113 | executing any whole batch a second time right after the first changes nothing |
| WireGuardDevice.PrefixAbsorbed | peersight/peersight-agent/internal/agent/agent.go:105-113 | executing any first part of a batch before the whole of it changes nothing |
| WireGuardDevice.PartialReplayDiverges | peersight/peersight-agent/internal/agent/agent.go:105-113 | executing only the first part of a batch again can bring a removed peer back |
| AgentSync.BatchAdvances | peersight/peersight-agent/internal/agent/agent.go:105-113 | executing again all that is unmarked, followed by what is new, has the effect of executing only what is new |
| AgentSync.PartialBatchAdvances | peersight/peersight-agent/internal/agent/agent.go:105-113 | executing the unmarked changes only as far as some point leaves a device they still bring right, and a right one if the point is not short of what was executed before |
| AgentSync.ExactlyOnceEffect | peersight/peersight-agent/internal/agent/agent.go:40-121 | in every run with any losses and crashes: no change is marked twice, only executed ones are marked and truthfully; and unless the agent, since the WireGuard state was last put right, was killed after the first change it executed again and before the last one, that state is the one of running each executed change exactly once in creation order |
| AgentSync.ReadOnlyTouchesNothing | peersight/peersight-agent/internal/agent/agent.go:100-103 | in every run of an agent that may only read its device is untouched and every change stays pending |
| AgentCrash.HarmlessIff | peersight/peersight-agent/internal/agent/agent.go:105-113 | with m changes marked, k executed and the agent killed at position j of executing again: the state is right for all starting states and all operations if and only if j = m or j >= k |
| AgentCrash.CrashKeepsEffectIff | peersight/peersight-agent/internal/agent/agent.go:40-121 | a crash keeps the exactly-once state, in all runs with so many changes marked and executed, if and only if it came before the first repeated change or not before the last one |
| AgentCrash.CrashBringsPeerBack | peersight/peersight-agent/internal/agent/agent.go:105-113 | a run in which a crash brings a removed peer back, and the next delivered cycle removes it |
| AgentSync.DeliveryCatchesUp | peersight/peersight-agent/internal/agent/agent.go:79-121 | from any reachable state, after crashes too, two delivered cycles in a row execute and mark every change created before |
| WgShow.ParseWGShow | peersight/peersight-agent/internal/wg/wg.go:48-105 | the loop over lines with its early error return equals a fold over the lines |
| WgShow.ParsingInvertsDumping | peersight/peersight-agent/internal/wg/wg.go:48-105 | parsing the text of any clean rows, in any order, gives what the rows mean |
| WgShow.AcceptedIff | peersight/peersight-agent/internal/wg/wg.go:74-79 | a dump is accepted if and only if every peer line follows a line of its interface |
| WgShow.TableRoundTrip | peersight/peersight-agent/internal/wg/wg.go:48-105 | interfaces with distinct names and clean fields, written out and parsed, come back whole, peers in order, and no others |
| WgShow.FilterInterfaces | peersight/peersight-agent/internal/wg/wg.go:109-119 | exactly the unmanaged names go; the rest is unchanged but for redacted private keys |
| Strings.SplitJoin | peersight/peersight-agent/internal/wg/wg.go:51-57 | splitting undoes joining when no part holds the separator |
| Strings.DecimalRoundTrip | peersight/peersight-agent/internal/wg/wg.go:157-173 | a number up to the 64-bit limit, written in decimal, is read back |
| Strings.HexRoundTrip | peersight/peersight-agent/internal/wg/wg.go:162-165 | and so is a firewall mark written in hexadecimal |
| PingHandler.Repository.FindOrCreatePeer | peersight/peersight-api/internal/repository/queries.go:165-187 | the id stored for organisation and key, or a new row for it |
| PingHandler.Repository.FindOrCreateInterface | peersight/peersight-api/internal/repository/queries.go:434-478 | the row of host and name is updated, or inserted |
| PingHandler.Repository.UpsertEndpoint | peersight/peersight-api/internal/repository/queries.go:559-588 | the row of interface and peer is updated, or inserted |
| PingHandler.Repository.SyncInterfacePeers | peersight/peersight-api/internal/repository/queries.go:1220-1241 | both forms of the deletion keep exactly the endpoints of other interfaces and of active peers, and of the peers those something refers to |
| PingHandler.Repository.HasPendingRemovePeer | peersight/peersight-api/internal/repository/queries.go:1205-1217 | true exactly when a pending removal for host and key exists |
| PingHandler.Repository.DeletePeer | peersight/peersight-api/internal/repository/queries.go:312-361 | one pending removal for each endpoint of the peer, then the cascade |
| PingHandler.Repository.ReconcileInterface | peersight/peersight-api/internal/handlers/handlers.go:963-1031 | one round of the outer loop, with its inner loop over peers |
| PingHandler.Repository.Ping | peersight/peersight-api/internal/handlers/handlers.go:888-1040 | the whole handler on the tables; an unknown host is told so after its reports were taken |
| Store.SyncView | peersight/peersight-api/internal/repository/queries.go:1220-1241 | synchronising takes endpoints from that interface only, and only those of inactive peers |
| Store.DeletePeerView | peersight/peersight-api/internal/repository/queries.go:312-361 | the peer has no endpoint left on any host, and every host that had one is asked to remove it |
| PingSpec.UpsertPeersActive | peersight/peersight-api/internal/handlers/handlers.go:988-1028 | the ids collected by the inner loop are those of exactly the peers reported and not being removed |
| PingSpec.ReconcileIfaceView | peersight/peersight-api/internal/handlers/handlers.go:963-1031 | one keyed interface ends up with exactly its reported peers and configuration, every other endpoint and interface as before |
| PingSpec.PingReconciles | peersight/peersight-api/internal/handlers/handlers.go:888-1032 | after a ping, endpoints of reported keyed interfaces are exactly the reported peers with a key and no pending removal, with the reported fields; all others are unchanged; constraints hold; and no peer is left unreferenced if any keyed interface was reported |
| PingFields.PingStoresFields | peersight/peersight-api/internal/handlers/handlers.go:963-1031 | field by field: of the last keyed report of an interface and in it the last keyed report of a peer, address, port, byte counts, keepalive, availability, allowed IPs and handshake time are stored as reported, or nothing if the peer is being removed from the host |
| PingFields.PeersAreNamed | peersight/peersight-api/internal/handlers/handlers.go:1188-1193 | peers that pings make are called "peer-" and the first eight characters of their key |
| PingRows.PingIdempotent | peersight/peersight-api/internal/handlers/handlers.go:888-1032 | repeating a ping changes no row and no id if reports of one interface name list the same peers and no own key is given up and taken again on the way |
| PingRepeat.PingTwiceIsPingOnce | peersight/peersight-api/internal/handlers/handlers.go:888-1032 | repeating any ping whatsoever changes nothing that is stored: endpoints, interfaces, removals, and peers with their names, each under its natural key |
| PingRows.PingKeepsRowsIff | peersight/peersight-api/internal/handlers/handlers.go:963-1031 | and that condition on the request is exact: it holds if and only if the repetition keeps every row of every database, and otherwise the repetition takes new row ids in some database |
| PingRows.AgreeingIsSteadyIff | peersight/peersight-api/internal/handlers/handlers.go:963-1031 | for a request whose reports of one name agree on the interface's own key the condition is that they list the same peers |
| NoResurrection.PendingRemovalHolds | peersight/peersight-api/internal/handlers/handlers.go:993-997 | over any run of pings and deletions: while a removal is pending its key has no endpoint on any interface of the host that had none or was reported with a key |
| NoResurrection.DeletedStaysDeleted | peersight/peersight-api/internal/repository/queries.go:312-361 | from a deletion on, as long as a removal it created for a host is pending, no run of pings and deletions gives the key an endpoint on that host |
| RemovalRuns.DeletedStaysGone | peersight/peersight-agent/internal/agent/agent.go:40-121 | from a deletion on, in every run of one agent and the API with losses and crashes, an interface that had the peer does not get it back, pending or executed, unless a later change adds the peer there; the agent reports peers on its device only |
| RemovalRuns.AddedAgainComesBack | peersight/peersight-api/internal/handlers/handlers.go:988-1028 | and the exception is real: when the last change adds the peer, two delivered cycles and a third that reports it store it again |
| EventQueue.Queue.PollNext | peersight/peersight-api/internal/repository/queries.go:860-904 | selects and leases as the value-level step does, bounds and defaults of the handler included |
| EventQueue.Queue.AckEvents | peersight/peersight-api/internal/repository/queries.go:908-914 | exactly the named events are acknowledged and unlocked |
| EventQueue.Queue.FailEvents | peersight/peersight-api/internal/repository/queries.go:917-923 | exactly the named events that are not acknowledged are unlocked, with the error noted |
| EventQueue.Queue.EnqueueEvent | peersight/peersight-api/internal/repository/queries.go:926-934 | a new event, last in creation order |
| EventQueue.PollReturnsOldestReady | peersight/peersight-api/internal/repository/queries.go:860-904 | a poll returns distinct ready events of its organisation and type, oldest first and within its bound; a ready one is passed over only when the bound is filled with older ones |
| EventQueue.LeaseExclusivity | peersight/peersight-api/internal/repository/queries.go:860-923 | in every interleaving two polls return the same event only if a fail naming it lies between or the first lease has run out |
| EventQueue.ReadyAgainIff | peersight/peersight-api/internal/repository/queries.go:868-923 | in every run, until another poll returns it or it is acknowledged, a leased event is ready again if and only if a fail naming it came since or the lease has run out |
| EventQueue.FailReleasesAnyHolder | peersight/peersight-api/internal/repository/queries.go:917-923 | in any queue a fail makes an event it names ready for every later poll, whoever holds the lease |
| EventQueue.LateFailFreesAnotherLease | peersight/peersight-api/internal/repository/queries.go:917-923 | a run in which the late fail of one broker hands a second broker's event to a third |
| EventQueue.AckedForever | peersight/peersight-api/internal/repository/queries.go:908-923 | no run undoes an acknowledgement or changes an event's type |
| EventQueue.AckedNeverReturned | peersight/peersight-api/internal/repository/queries.go:868-878 | an acknowledged event is never leased again |
| EventQueue.AttemptsCountPolls | peersight/peersight-api/internal/repository/queries.go:879-886 | in every run from the empty queue `attempts` is the number of polls that returned the event |
| EventHistory.RowsFollowOps | peersight/peersight-api/internal/repository/queries.go:860-934 | in every run each row's organisation, type, payload, acknowledgement, lock, holder, attempts and error are what the operations made them, the lease being a minute by default |
| EventHistory.PollReturnsExactly | peersight/peersight-api/internal/repository/queries.go:860-904 | in every run a poll returns an event if and only if it was enqueued with that organisation and type, is not acknowledged, is under no running lease, and fewer such events than the bound are older; the bound is ten by default and 100 above 500 |
| BrokerCycle.CollectEventTypes | peersight/peersight-broker/internal/broker/broker.go:175-187 | exactly the types some configured pipe lists, each once |
| BrokerCycle.MaxForType | peersight/peersight-broker/internal/broker/broker.go:190-200 | the least bound of the pipes that list the type, and 100 if none is less |
| BrokerCycle.Distribute | peersight/peersight-broker/internal/broker/broker.go:92-125 | the nested counting loops count what the declared counts say |
| BrokerCycle.BatchCounts | peersight/peersight-broker/internal/broker/broker.go:95-100 | a polled event is in a pipe's batch once for each time the pipe lists its type |
| BrokerCycle.DeliveriesMeetRequirement | peersight/peersight-broker/internal/broker/broker.go:72-125 | deliveries never exceed the requirement, and equal it exactly when no subscribed send failed |
| BrokerCycle.Cycle | peersight/peersight-broker/internal/broker/broker.go:70-151 | every polled event is in exactly one list of its type: fail exactly when a subscribed pipe could not send, else acknowledge |
| BrokerCycle.EachInOneList | peersight/peersight-broker/internal/broker/broker.go:120-151 | the two lists of a type together hold each polled id once, and one of them is empty: the one to acknowledge exactly when a pipe that lists the type could not send |
| BrokerCycle.AckedMeansDeliveredIff | peersight/peersight-broker/internal/broker/broker.go:72-77 | an event no send failed for was sent to somebody if and only if an initialised pipe lists its type |
| Delivery.AckedWasDelivered | peersight/peersight-broker/internal/broker/broker.go:70-151 | with any number of brokers, crashes, lost answers and lost, late or repeated reports: an acknowledged event was acknowledged by a cycle in which every initialised pipe subscribed to its type sent it |
| Delivery.FailedWasNotSent | peersight/peersight-broker/internal/broker/broker.go:120-151 | in every run a fail report stems from a cycle in which a pipe subscribed to the type could not send the event, and frees it on arrival unless it is acknowledged |
| Delivery.AckedNeverUndone | peersight/peersight-api/internal/repository/queries.go:908-923 | from any state no later step undoes an acknowledgement |
| AlertCheck.Alerts.ListStaleHosts | peersight/peersight-api/internal/repository/queries.go:79-107 | distinct stale hosts by last ping, those without one first, and then by name; at most a hundred, and one is left out only when the list is full of hosts not after it |
| AlertCheck.Alerts.CreateOpenAlertOnce | peersight/peersight-api/cmd/api/main.go:149-162 | an alert is added exactly when none is open for host and kind |
| AlertCheck.Alerts.ResolveSelected | peersight/peersight-api/internal/repository/queries.go:765-827 | exactly the alerts of the given hosts and kinds become resolved |
| AlertCheck.Alerts.RunOperationalAlertCheck | peersight/peersight-api/cmd/api/main.go:92-147 | the whole check equals the value-level check on some admissible listing |
| AlertCheck.Alerts.Ping | peersight/peersight-api/internal/handlers/handlers.go:902-960 | a ping records its time and version, adds an alert for each failed change, and notes a recovery, resolved at birth, exactly when a host alert is open |
| AlertCheck.Alerts.ResolveAlerts | peersight/peersight-api/internal/repository/queries.go:751-763 | exactly the named alerts become resolved |
| AlertSpec.CheckCounts | peersight/peersight-api/cmd/api/main.go:92-147 | for every host and kind, how many alerts are open after a check, from what was open and what was read |
| AlertSpec.AtMostOneOpen | peersight/peersight-api/cmd/api/main.go:149-162 | in every run of checks, pings, enrolments and manual resolves at most one alert is open for each host and operational kind |
| AlertSpec.EscalationIsExact | peersight/peersight-api/cmd/api/main.go:98-125 | in every run, after a check with at most 100 stale hosts: down exactly when stale and silent for five thresholds, stale exactly when stale for less, neither when it pinged within the threshold |
| AlertSpec.ListingOrder | peersight/peersight-api/internal/repository/queries.go:79-107 | the listing of stale hosts: never pinged first, then by last ping, then by name |
| AlertSpec.ByHandResolves | peersight/peersight-api/internal/repository/queries.go:751-763 | resolving by hand resolves exactly the alerts named |
| AlertPings.HostsFollowEvents | peersight/peersight-api/internal/repository/queries.go:150-158 | in every run a host's row holds when it was enrolled, the time of its last ping and the version that said |
| AlertPings.PingedHostIsQuiet | peersight/peersight-api/cmd/api/main.go:98-125 | a host whose last ping event lies within the threshold has neither host alert open after a check |
| AlertPings.AlertsFollowPings | peersight/peersight-api/cmd/api/main.go:98-125 | with at most 100 overdue hosts a check raises exactly the alert that the time since each host's last ping event calls for |
| AlertPings.PingLeaves | peersight/peersight-api/internal/handlers/handlers.go:902-960 | a ping adds one open alert for each failed change, then one note of recovery, resolved at birth, exactly when a host alert is open, and nothing else |
| AlertPings.PingRaisesFailures | peersight/peersight-api/internal/handlers/handlers.go:909-922 | the open alerts about failed changes of its host grow by exactly the number of failed changes |
| AlertSpec.EscalationMeetsThresholdIff | peersight/peersight-api/cmd/api/main.go:98-125 | "down" means five times the silence that "stale" means, for every stale host, if and only if the configured threshold is positive |
| AlertSpec.AgentStartedIsNeverNoted | peersight/peersight-api/internal/handlers/handlers.go:902-960 | no ping adds the note about a new agent version |
| QmiTlv.Tiling | quectel-CM/QMIThread.c:175-265 | each element's bytes run from its start to the next one's |
| QmiTlv.TlvBytes | quectel-CM/QMIThread.c:175-265 | an element byte by byte: type, low and high byte of the length, value |
| QmiTlv.RoundTrip | quectel-CM/QMIThread.c:63-82 | decoding the bytes of any elements that fit gives the elements |
| QmiTlv.DecodedIsEncoding | quectel-CM/QMIThread.c:63-82 | and whatever decodes is the encoding of the result, so the reading is unique |
| QmiTlv.GetTlv | quectel-CM/QMIThread.c:63-82 | the walk finds the first element of a type, or the one of a number above 0x1000, or nothing, and stays inside the payload |
| QmiTlv.FindTlv | quectel-CM/quectel-qmi-proxy.c:768-783 | the proxy's walk finds the first element of a type or nothing, and stays inside the payload |
| StartNetwork.CopyText | quectel-CM/QMIThread.c:52-56 | the copy writes the text and its NUL and nothing else |
| StartNetwork.PutText | quectel-CM/QMIThread.c:209-233 | a text element follows the ones before it; its NUL lands on the byte after it |
| StartNetwork.WdsStartNwInterfaceReq | quectel-CM/QMIThread.c:175-265 | the buffer holds exactly the elements the profile asks for, in order, and the size returned covers them |
| StartNetwork.ComposeQmuxMsg | quectel-CM/QMIThread.c:91-127 | no client id gives no message; otherwise the bytes copied out are the whole message, with what the builder writes or an empty payload, and both nested lengths right |
| StartNetwork.FieldsPresent | quectel-CM/QMIThread.c:175-265 | every element is present exactly under its guard with the profile's value, narrowed to a byte where the code narrows, and no other type is |
| StartNetwork.RequestSays | quectel-CM/QMIThread.c:175-265 | what a reader finds under each type, from the profile alone, with the CDMA defaults spelled out |
| StartNetwork.ByteCarried | quectel-CM/QMIThread.c:175-265 | a value that fits a byte is carried as it is, any other modulo 256 |
| StartNetwork.RequestRoundTrip | quectel-CM/QMIThread.c:91-127 | a reader that knows nothing of the profile decodes the composed payload to exactly those elements |
| CommandChannel.Channel.Send | quectel-CM/QMIThread.c:570-613 | composing and sending a request; the shared buffer's service number is rewritten after the pointer was stored |
| CommandChannel.Channel.Transmit | quectel-CM/QmiWwanCM.c:90-119 | the IPv6 service number becomes the plain one in the caller's buffer, unless the device is closed |
| CommandChannel.Channel.NextTransactionId | quectel-CM/QMIThread.c:84-89 | the counter's next value, with its wrap to 1 |
| CommandChannel.Channel.Wake | quectel-CM/QMIThread.c:590-612 | what the caller gets at the end of a wait: the answer kept, or nothing after a timeout or a spurious wake-up |
| CommandChannel.Channel.Receive | quectel-CM/QMIThread.c:619-641 | an answer to the outstanding request frees it and is kept; anything else changes nothing |
| CommandChannel.Channel.Quit | quectel-CM/QMIThread.c:621-630 | an outstanding request is freed and its sender let go |
| MatchingSpec.AnswersMatch | quectel-CM/QMIThread.c:551-657 | in every interleaving an answer handed to a sender has the service (as sent), client and transaction of its own request, each request gets at most one, and none is freed twice |
| AnswerDelivery.AnswerHandedIff | quectel-CM/QMIThread.c:570-641 | in every run a waiting sender is handed its own answer if that came before the wait ended, and nothing exactly when the wait timed out, no answer was wanted or none came before the reader ended; the request is freed once, at that point |
| MatchingSpec.TidCycles | quectel-CM/QMIThread.c:84-89 | ids run from 1 to 65535, or 255 for control, and start again |
| MatchingSpec.LateAnswerTakenIff | quectel-CM/QMIThread.c:551-566 | the answer to an earlier request passes for a later one's if and only if service on the wire and client agree and the requests between are a multiple of the cycle |
| MatchingSpec.LateAnswerIsIgnored | quectel-CM/QMIThread.c:84-89 | none of the next 65534 requests can receive it |
| MbimConnect.PopulateConnectData | quectel-CM/mbim-cm.c:1461-1508 | the three strings are laid out behind the fixed part in order and without gaps, absent and empty alike |
| MbimConnect.SetConnect | quectel-CM/mbim-cm.c:1510-1535 | filling in the other fields leaves the strings where they are |
| MbimConnect.GetSegment | quectel-CM/mbim-cm.c:857-867 | the reader takes every other byte of the segment |
| MbimConnect.LayoutRoundTrip | quectel-CM/mbim-cm.c:1461-1508 | for all strings: segments in order, disjoint, inside the buffer, sizes adding up to the data size, and each read back |
| MbimConnect.AlignedIff | quectel-CM/mbim-cm.c:1461-1508 | a string starts at a multiple of four exactly when the lengths before it add up to an even number |
| MbimManager.Channel.Send | quectel-CM/mbim-cm.c:1164-1202 | a command takes the next id and is waited for if it was written |
| MbimManager.Channel.Receive | quectel-CM/mbim-cm.c:1117-1131 | a message with the id waited for is kept, whatever it is |
| MbimManager.Channel.Wake | quectel-CM/mbim-cm.c:1186-1201 | the end of a wait forgets request and response, after a timeout too |
| MbimCommands.IdsIncrease | quectel-CM/mbim-cm.c:769-821 | between two opens and before the 32-bit counter wraps ids strictly increase from 1 |
| MbimCommands.CompletedByItsOwnReply | quectel-CM/mbim-cm.c:1117-1202 | no command is completed by an indication, nor by the reply to another command of the same session, however late |
| MbimReplies.CommandCompletedIff | quectel-CM/mbim-cm.c:1117-1202 | in every run a command waited for is completed if and only if the wait does not time out and a message with its id came, by the last such message; its own reply is one |
| MbimCommands.LateReplyTakenIff | quectel-CM/mbim-cm.c:1127-1131 | an earlier command's reply is taken if and only if it had the same place in its session, so only across an open |
| MbimCommands.StaleReplyAfterReopening | quectel-CM/mbim-cm.c:1697 | and there is a run in which that happens |
| MbimManager.BringUp.DoRound | quectel-CM/mbim-cm.c:1692-1757 | variables after a round, what it sent, read and heard, and how it ends are those of the value-level round, with indications between any two reads |
| MbimManager.BringUp.EnsureOpen | quectel-CM/mbim-cm.c:1695-1704 | opening the device, forgetting all states, and asking for its capabilities, or none of it |
| MbimManager.BringUp.EnsureAttached | quectel-CM/mbim-cm.c:1720-1730 | asking for the packet service unless attached, attaching if detached, and reading the state again |
| MbimManager.BringUp.RunLoop | quectel-CM/mbim-cm.c:1692-1775 | rounds until one quits, then a deactivation exactly if the connection is active or becoming so, and the device closed |
| MbimGates.RoundActivatesIff | quectel-CM/mbim-cm.c:1692-1751 | a round sends the activate command if and only if its readings grant all five gates |
| MbimSends.RoundSends | quectel-CM/mbim-cm.c:1692-1757 | for each command, exactly when a round sends it, from what was read, indicated and answered before; in particular it attaches if and only if the query for the packet service was answered and left it detached |
| MbimSends.RoundReads | quectel-CM/mbim-cm.c:1692-1751 | each gate reads the newest word: what was indicated last, else answered, else known before |
| MbimSends.AttachedPasses | quectel-CM/mbim-cm.c:1720-1730 | a device that answers the attach command passes the packet gate unless something else is indicated at once |
| MbimSends.RoundEnds | quectel-CM/mbim-cm.c:1692-1757 | the program quits exactly if a command sent failed, tries again in 30 seconds exactly if an answered activate command left the connection inactive, and else waits a day or for an indication |
| MbimSends.RoundInOrder | quectel-CM/mbim-cm.c:1692-1757 | every command is sent and every value read at most once in a round, in the order of the gates |
| MbimSends.LeavingSends | quectel-CM/mbim-cm.c:1764-1775 | on the way out what is active is deactivated, and last the device closed |
| MbimGates.ActivateIsLicensed | quectel-CM/mbim-cm.c:1692-1751 | in every run, before each activate command and for each gate there is a reading in the same round that grants it and none after it that denies it |
| MbimGates.StillOpenAtActivateIff | quectel-CM/mbim-cm.c:1264-1281 | when a round activates, the manager still believes the device open if and only if no command it sent before in the round was answered that it is not |
| MbimGates.ActivatesThoughNotOpen | quectel-CM/mbim-cm.c:1733-1740 | a round that activates although the answer to its query for the connection said so |
| ConnectionManager.Manager.ChangeLink | quectel-CM/main.c:134-155 | DHCP is started or stopped exactly when the flag changes |
| ConnectionManager.Manager.OnStart | quectel-CM/main.c:501-562 | dialling both families with the one retry, then the decision when to dial again |
| ConnectionManager.Manager.OnCheck | quectel-CM/main.c:564-596 | the status of both families, the link they imply, and whether a start is signalled |
| ConnectionManager.Manager.OnNetworkChanged | quectel-CM/main.c:635-645 | losing the registration clears the delay; having it signals a start if a family is down |
| ConnectionManager.Manager.OnDataCallChanged | quectel-CM/main.c:647-651 | a change while connected delays the next dial by one second from now |
| ConnectionManager.Manager.OnDeviceGone | quectel-CM/main.c:621-633 | the link is taken down, and the registration read again when the main loop starts over |
| ConnectionManager.Manager.OnModemReset | quectel-CM/main.c:653-679 | the flag is cleared without a DHCP stop, and the main loop starts over |
| RedialSpec.StartsAndStopsAlternate | quectel-CM/main.c:129-155 | in every run DHCP starts and stops strictly alternate between modem resets, and the first after a reset is a start |
| RedialSpec.CheckSettlesLink | quectel-CM/main.c:564-596 | in every run, after a check that leaves both families up or down, the flag is 1, and DHCP is running, exactly when one is up |
| RedialSpec.CheckTakesAnswers | quectel-CM/main.c:564-596 | the status of each family after a check is the one the modem answered, down if it is not enabled or its address is not the interface's, and the flag follows |
| RedialSpec.StartTakesResults | quectel-CM/main.c:510-540 | a start that may dial brings up exactly the families whose dial got through and got an address; a second authentication that worked is kept |
| RedialSpec.DialsOnlyWhenRegistered | quectel-CM/main.c:501-508 | in every run a start does nothing unless the registration last read or heard of is one |
| RedialSpec.NetworkReleases | quectel-CM/main.c:635-651 | after a lost registration the next dial may come at once, after a changed call in a second |
| RedialSpec.FailedDialsBackOff | quectel-CM/main.c:501-560 | in every run, after the k-th dial in a row whose results failed a family known to be down, the next dial comes 5, 10, 20, 40, then 60 seconds later at the earliest, unless the network set the time anew |
| RedialSpec.FailedDialBlocksUntil | quectel-CM/main.c:501-508 | in every run a start before that time does nothing, one at or after it dials |
| RedialSpec.StartIsDelayedIff | quectel-CM/main.c:510-562 | a start counts a failure and puts off the next dial if and only if an enabled family was known to be down and its dial, with its one retry and the address, did not succeed |
| RedialSpec.FailedDialBackedOffIff | quectel-CM/main.c:541-562 | a dial that fails is backed off if and only if one of the families it failed for was known to be down; with another status it delays nothing and may clear the count |

## Left out

- QmiProxy.Proxy.RecvQmi: the start-up phase before the local server exists (matching by transaction id under a mutex) is not modelled; nor are failing writes and `malloc`.
- QList.Ring.Remove: `free` is not modelled; the ghost footprint keeps removed nodes.
- QmiProxy.Proxy.SendQmi: likewise the branch before the local server exists.
- ProxySpec.ControlMultiplexing: the poll loop's limit of 64 descriptors is not modelled.
- AgentSync.Agent.Ping: back-off times, messages and the two-second pause are left out; a request the agent cannot build counts as lost.
- AgentSync.Agent.ExecuteChange: a `wg` command that fails although its change is well formed is not modelled.
- AgentSync.ExactlyOnceEffect: one host and its changes; a change's id is its place in creation order, so equal creation times do not occur.
- PingHandler.Repository.Ping: timestamps, the agent version and the alerts of steps 2 and 3a are left out; the address and port extracted from the endpoint text are given with each peer.
- PingHandler.Repository.DeletePeer: the order of the removals is by endpoint id, where the query leaves it open.
- NoResurrection.DeletedStaysDeleted: deleting a whole host is not an event of these runs.
- RemovalRuns.DeletedStaysGone: one agent, whose host has all the interfaces stored.
- EventQueue.Queue.PollNext: events are returned in creation order, where the statement leaves the order of its rows open; creation times are distinct.
- BrokerCycle.Cycle: the map of polled types is visited in the order of the type list, where Go leaves it open; error messages are not kept.
- AlertSpec.AtMostOneOpen: deleting a host sets the host of its alerts to NULL; that event is not modelled.
- AlertCheck.Alerts.RunOperationalAlertCheck: the query for stale endpoints and the backlog count are inputs of the check; levels and messages are not kept.
- StartNetwork.ComposeQmuxMsg: of the message builders only the one for starting a data call, which has all the optional elements, and the empty one; its branch for profile index 0x32 cannot be reached, since its guard contradicts the one around it.
- QmiTlv.GetTlv: malformed payloads are not modelled.
- CommandChannel.Channel.Receive: the events it sends to the main thread for unsolicited messages are left out.
- MatchingSpec.AnswersMatch: running out of memory for the copy of an answer is left out; GobiNet's wider client ids are not modelled.
- MbimConnect.GetSegment: the reader's fixed buffer is a precondition, where the code does not look.
- MbimManager.BringUp.RunLoop: configuring addresses on the network interface, and the wait between rounds itself, are left out.
- RedialSpec.FailedDialsBackOff: the alarm timer is left out; start signals come at any time.
- WgShow.ParseWGShow: underscores inside hexadecimal numbers are not accepted, where Go's base-0 parser allows some.
- WgShow.FilterInterfaces: interfaces are values, so redaction through shared pointers is not seen.
- Sockets, poll, ioctl, HTTP, SQL parsing and DHCP are events or trusted steps.
- JWT, login, user administration, the web user interface, plotting and deployment scripts would add only easy members.
- `backoffDelay`, CDMA network-code conversion and the QMI name tables are one-line arithmetic or logging.
