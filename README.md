# Subscriber/notifee decision procedure of a Kademlia DHT

This project models the connectivity-event coordinator of go-libp2p-kad-dht
(`subscriber_notifee.go`). The coordinator keeps the DHT's routing table in step
with peer identification and disconnection. It signals the refresh loop when the
table runs low, and it tears down the per-peer message sender of a peer that has
fully disconnected.

The model has three layers:

- `Transitions` (transitions.dfy) holds the state record and the handlers as
  pure transitions. The state is the routing table's membership, the single slot
  of the refresh-trigger channel, the peer-to-message-sender registry `strmap`,
  the invalidations handed to background tasks, and the closing signal of the
  DHT's own process.
  The transitions are: one pass of the subscription loop's body (`Identify`), the
  `Disconnected` callback (`Disconnect`), the non-blocking trigger send
  (`TryTrigger`), the subscription loop over a sequence of select outcomes
  (`Run`), and a series of callbacks (`DisconnectAll`).
- `Properties` (properties.dfy) holds lemmas that relate several steps:
  coalescing of refresh signals, the end of the loop, and how a series of
  disconnects accounts for the registry.
- `SubscriberNotifee.Notifee` (subscriber_notifee.dfy) is a class over the same
  fields. Its methods change the fields step by step, in the source's order, and
  each is proved to perform exactly the corresponding transition.

Inputs that come from collaborators are parameters:

- the event read from the bus;
- the peerstore's protocol query result (matched protocols plus an error flag);
- the routing table's verdict on `Update` (`accepted`);
- the transport's live `Connectedness`;
- the `autoRefresh` flag and the constant `minRTRefreshThreshold`, whose value
  is defined outside this file.

Two points about the code shape the model:

- Both unlocks are deferred (`subscriber_notifee.go:72` and `90`), so `smlk` is
  taken while `plk` is still held. Locks are not modelled; each handler is one
  atomic step.
- When an event and the closing signal are both ready, the `select` at
  `subscriber_notifee.go:34-55` picks one at random, so an event can still be
  handled after closing has fired. The model therefore takes the sequence of
  select outcomes as input.

## Model

| member | source | states |
|---|---|---|
| Transitions.TryTrigger | subscriber_notifee.go:46-49 | The send never blocks. Afterwards the slot is pending. If it was already pending, nothing changes (the signal is dropped). Only the slot can change. |
| Transitions.UpdateTable | subscriber_notifee.go:44 | The table only gains the announcing peer. The peer is present afterwards iff it was present before or the table accepted it. |
| Transitions.Identify | subscriber_notifee.go:39-51 | An ignored event type, a failed protocol query or an empty match leaves the state unchanged. The registry, the schedule and the closing signal are never touched. A qualifying event updates the table with the peer. The trigger ends pending iff it was pending, or the event qualified, autoRefresh holds and the size before the update was at most minRTRefreshThreshold. |
| Transitions.Disconnect | subscriber_notifee.go:59-103 | While closing, nothing changes. While the peer is still Connected, nothing changes (the race guard). Otherwise: the peer leaves the table; the trigger ends pending iff it was pending or autoRefresh holds and the size after eviction is at most the threshold; exactly the peer's registry key is removed; one invalidation of the removed handle is appended if there was one, else the schedule is unchanged. |
| Transitions.Run | subscriber_notifee.go:31-57 | The subscription loop never touches the registry, the schedule or the DHT's closing signal. It only adds to the table. It never clears a pending trigger. |
| Transitions.DisconnectAll | subscriber_notifee.go:59-103 | A series of callbacks never changes the closing signal. The registry only loses keys and keeps the values of the rest. The schedule is only appended to. |
| Properties.RepeatedTriggersCoalesce | subscriber_notifee.go:83-86 | Any number n >= 1 of back-to-back trigger attempts has the effect of one: exactly the slot becomes pending. |
| Properties.RunIgnoresTail | subscriber_notifee.go:33-38 | Once the outcomes contain a closed bus or the closing signal, appending any further outcomes does not change the loop's final state. |
| Properties.RunStopsAtFirstExit | subscriber_notifee.go:33-55 | When the first exit (closed bus or the loop process's closing signal, lines 36-37 and 53-54) is at position i, the loop ends in the state reached by the events before i alone. |
| Properties.DisconnectsWhileClosingInert | subscriber_notifee.go:61-65 | Once closing, any series of Disconnected callbacks leaves the whole state unchanged. |
| Properties.StillConnectedInert | subscriber_notifee.go:73-76 | A series of callbacks whose peers are all still Connected leaves the whole state unchanged. |
| Properties.DisconnectAccounting | subscriber_notifee.go:89-102 | Over any series of callbacks, the number of invalidations scheduled equals the number of registry keys removed. |
| Properties.ScheduledHandlesWereRemoved | subscriber_notifee.go:91-102 | Over any series of callbacks, each newly scheduled handle is the handle that a removed registry key held. |
| Properties.RemovedHandlesWereScheduled | subscriber_notifee.go:95-102 | Over any series of callbacks, the handle of every registry key removed is among the newly scheduled invalidations. |
| Properties.DuplicateDisconnectsScheduleOnce | subscriber_notifee.go:91-95 | Any number of callbacks for the same peer either leave the registry and the schedule unchanged, or schedule exactly the one handle the registry held for that peer, whose key is then gone. |
| Properties.SecondDisconnectSchedulesNothing | subscriber_notifee.go:91-94 | After an effective disconnect of a peer, a second disconnect of it changes neither the registry nor the schedule. |
| Properties.IdentifyUsesPriorSize | subscriber_notifee.go:43-45 | With the table exactly at the threshold, admitting a new peer still raises the signal, although the table is then above the threshold. |
| Properties.DisconnectUsesPosteriorSize | subscriber_notifee.go:78-82 | With the table one above the threshold, evicting a member raises the signal, because the size after eviction is at the threshold. |
| SubscriberNotifee.Notifee.TriggerRtRefresh | subscriber_notifee.go:46-49 | Changes only the trigger slot, exactly as TryTrigger says. |
| SubscriberNotifee.Notifee.Update | subscriber_notifee.go:44 | Changes only the table, as UpdateTable says for the table's verdict. |
| SubscriberNotifee.Notifee.HandlePeerDisconnect | subscriber_notifee.go:78 | Changes only the table, which loses the peer. |
| SubscriberNotifee.Notifee.HandleEvent | subscriber_notifee.go:39-51 | Changes only the table and the trigger slot, exactly as Identify says. |
| SubscriberNotifee.Notifee.Disconnected | subscriber_notifee.go:59-103 | Leaves the closing signal alone and changes the other fields exactly as Disconnect says. |
| SubscriberNotifee.Notifee.Subscribe | subscriber_notifee.go:31-57 | The loop ends in the state Run computes from the select outcomes. It reports returning iff some outcome is a closed bus or the closing signal. |

## Left out

- The `go func()` that runs the invalidation and the locks `plk`, `smlk` and `ms.lk`: each handler is one atomic step, and the model records only that an invalidation was handed over. Lock nesting and interleavings are concurrency concerns.
- `Process()`: goprocess wiring, `Notify`/`StopNotify` registration and the teardown hook are lifecycle plumbing. The DHT process's closing signal (`dht.Process().Closing()`, line 62) is the field `closing`, set by teardown outside this file.
- The two closing signals are kept apart. The loop's process (`goprocess.Go(nn.subscribe)`, line 22) and the DHT's process are different objects, and this file does not show how their closing is related. So the model does not promise that once the loop has seen its closing signal, later `Disconnected` callbacks do nothing. DisconnectsWhileClosingInert states this only for the DHT's own signal.
- The event bus channel and the `select`: they are represented by a sequence of select outcomes. When the sequence runs out without an exit, the loop is still waiting.
- `peerstore.SupportsProtocols` and `protocolStrs()` are foreign calls; their result is an input.
- The routing table's internals (`Update`, `HandlePeerDisconnect`, buckets) live in another library. The table is a set, and whether `Update` inserts the peer is an input.
- Transitions.Identify: a qualifying peer ends up in the table only when the table accepts it. Membership is not stated unconditionally, because bucket capacity is decided outside this file.
- The refresh-trigger channel's capacity and its consumer are defined outside this file. The channel is a single-slot flag that only this core fills.
- `ms.invalidate()` internals: only the scheduling of one invalidation per removed handle is modelled.
- `Connected`, `OpenedStream`, `ClosedStream`, `Listen` and `ListenClose` have empty bodies and no behaviour to model.
