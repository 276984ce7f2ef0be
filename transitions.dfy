/**
 The decision procedure inside the DHT's subscriber/notifee, written as pure
 transitions over one state record. Each handler of the notifee is one atomic
 step: the body of the event-subscription loop for one identification event,
 the `Disconnected` callback, and the non-blocking refresh-trigger send that
 both of them use.
 */
module Transitions {

  /** An opaque, comparable peer identity (a libp2p peer ID). */
  datatype PeerId = PeerId(id: string)

  /** The identity of an open outbound message sender held for a peer. */
  datatype StreamHandle = StreamHandle(id: nat)

  /** What the transport reports, live, about a peer. */
  datatype Connectedness = NotConnected | Connected | CanConnect | CannotConnect

  /** An event read from the identification subscription of the event bus.
      Only `PeerIdentificationCompleted` is acted upon; every other type is ignored. */
  datatype Event = PeerIdentificationCompleted(peer: PeerId) | OtherEvent

  /** The answer of the peerstore to "which of our protocols does this peer support?":
      the matched protocols and whether the query returned an error. */
  datatype ProtocolQuery = ProtocolQuery(protos: seq<string>, failed: bool)

  /** The two settings the decisions depend on: the DHT's auto-refresh flag and the
      package constant minRTRefreshThreshold (whose value is defined elsewhere). */
  datatype Config = Config(autoRefresh: bool, minRTRefreshThreshold: int)

  /** The part of the DHT's state the notifee reads and changes.
      `table` stands for the routing table's membership, `triggerPending` for the
      single slot of the refresh-trigger channel, `strmap` for the per-peer
      message-sender registry, `scheduled` for the invalidations handed to
      background tasks (in the order they were handed over) and `closing` for
      the closing signal of the DHT's own process, which `Disconnected` checks. */
  datatype State = State(
    table: set<PeerId>,
    triggerPending: bool,
    strmap: map<PeerId, StreamHandle>,
    scheduled: seq<StreamHandle>,
    closing: bool)

  /** A peer qualifies for the routing table when the protocol query succeeded
      and matched at least one protocol. */
  predicate Qualifies(q: ProtocolQuery)
  {
    !q.failed && |q.protos| != 0
  }

  /** A refresh is attempted when auto-refresh is on and the observed table size
      is at or below the low-water mark. */
  predicate RefreshWanted(cfg: Config, size: int)
  {
    size <= cfg.minRTRefreshThreshold && cfg.autoRefresh
  }

  /** The non-blocking send on the refresh-trigger channel: a free slot takes the
      signal, an occupied slot drops it. The send never waits. */
  function TryTrigger(s: State): (r: State)
    ensures r.triggerPending
    ensures s.triggerPending ==> r == s
    ensures r.table == s.table && r.strmap == s.strmap && r.scheduled == s.scheduled
    ensures r.closing == s.closing
  {
    if s.triggerPending then s else s.(triggerPending := true)
  }

  /** The routing table's `Update`: the table is an external collaborator, so
      whether it takes the peer (it may refuse, e.g. when the bucket is full) is
      its verdict `accepted`. An already present peer stays present. */
  function UpdateTable(table: set<PeerId>, p: PeerId, accepted: bool): (r: set<PeerId>)
    ensures table <= r && r - table <= {p}
    ensures p in r <==> p in table || accepted
  {
    if accepted then table + {p} else table
  }

  /** One pass of the subscription loop's body for one event read from the bus. */
  function Identify(s: State, ev: Event, q: ProtocolQuery, accepted: bool, cfg: Config): (r: State)
    // an ignored event type, a failed query or an empty match changes nothing
    ensures !(ev.PeerIdentificationCompleted? && Qualifies(q)) ==> r == s
    // the stream registry and the closing signal are never touched here
    ensures r.strmap == s.strmap && r.scheduled == s.scheduled && r.closing == s.closing
    // the table can only gain the announcing peer, and gains it when the table accepts it
    ensures ev.PeerIdentificationCompleted? && Qualifies(q) ==>
              r.table == UpdateTable(s.table, ev.peer, accepted)
    // the refresh decision uses the size observed BEFORE the update
    ensures r.triggerPending <==>
              s.triggerPending
              || (ev.PeerIdentificationCompleted? && Qualifies(q) && RefreshWanted(cfg, |s.table|))
  {
    match ev
    case OtherEvent => s
    case PeerIdentificationCompleted(p) =>
      if Qualifies(q) then
        var refresh := |s.table| <= cfg.minRTRefreshThreshold;
        var updated := s.(table := UpdateTable(s.table, p, accepted));
        if refresh && cfg.autoRefresh then TryTrigger(updated) else updated
      else
        s
  }

  /** The `Disconnected` callback for a connection to peer `p`, given the live
      connectedness the transport reports for `p`. */
  function Disconnect(s: State, p: PeerId, conn: Connectedness, cfg: Config): (r: State)
    // shutting down: nothing at all changes
    ensures s.closing ==> r == s
    // race guard: still connected through another connection, nothing changes
    ensures conn == Connected ==> r == s
    ensures r.closing == s.closing
    ensures !s.closing && conn != Connected ==>
              // the peer is evicted
              && r.table == s.table - {p}
              // the refresh decision uses the size AFTER the eviction
              && (r.triggerPending <==> s.triggerPending || RefreshWanted(cfg, |s.table - {p}|))
              // exactly the peer's registry entry is removed
              && r.strmap == s.strmap - {p}
              // and its handle, if there was one, is scheduled for invalidation once
              && r.scheduled == s.scheduled + (if p in s.strmap then [s.strmap[p]] else [])
  {
    if s.closing then
      s
    else if conn == Connected then
      s
    else
      var evicted := s.(table := s.table - {p});
      var refresh := |evicted.table| <= cfg.minRTRefreshThreshold;
      var signalled := if refresh && cfg.autoRefresh then TryTrigger(evicted) else evicted;
      if p !in signalled.strmap then
        signalled
      else
        var ms := signalled.strmap[p];
        signalled.(strmap := signalled.strmap - {p}, scheduled := signalled.scheduled + [ms])
  }

  /** One outcome of the `select` at the head of the subscription loop: an event
      with the answers of its collaborators (protocol query, table verdict), the
      bus channel found closed, or the closing signal of the loop's own process.
      That process is a separate one from the DHT's, so observing its signal says
      nothing about the state's `closing`. */
  datatype Delivery =
    | Received(ev: Event, query: ProtocolQuery, accepted: bool)
    | BusClosed
    | ProcessClosing

  /** Whether a delivery makes the loop return. */
  predicate Exits(d: Delivery)
  {
    d.BusClosed? || d.ProcessClosing?
  }

  /** Whether some delivery of `ds` makes the loop return. */
  predicate HasExit(ds: seq<Delivery>)
  {
    exists i :: 0 <= i < |ds| && Exits(ds[i])
  }

  /** The subscription loop over the select outcomes `ds`. It returns at the
      first closed bus or closing signal; when `ds` runs out first, the loop is
      still waiting for the next outcome. */
  function Run(s: State, ds: seq<Delivery>, cfg: Config): (r: State)
    decreases |ds|
    // the loop never touches the stream registry
    ensures r.strmap == s.strmap && r.scheduled == s.scheduled
    // the loop only ever adds to the table
    ensures s.table <= r.table
    // a pending trigger stays pending
    ensures s.triggerPending ==> r.triggerPending
    // the loop never changes the DHT's closing signal
    ensures r.closing == s.closing
  {
    if ds == [] then
      s
    else
      match ds[0]
      case BusClosed => s
      case ProcessClosing => s
      case Received(ev, q, accepted) => Run(Identify(s, ev, q, accepted, cfg), ds[1..], cfg)
  }

  /** One invocation of the `Disconnected` callback. */
  datatype Disconnection = Disconnection(peer: PeerId, conn: Connectedness)

  /** A series of `Disconnected` callbacks, each an atomic step, in the order given. */
  function DisconnectAll(s: State, ds: seq<Disconnection>, cfg: Config): (r: State)
    decreases |ds|
    // callbacks never change the closing signal
    ensures r.closing == s.closing
    // the registry only shrinks, and what remains is unchanged
    ensures r.strmap.Keys <= s.strmap.Keys
    ensures forall q :: q in r.strmap ==> r.strmap[q] == s.strmap[q]
    // scheduled work is only ever appended to
    ensures |s.scheduled| <= |r.scheduled| && r.scheduled[..|s.scheduled|] == s.scheduled
  {
    if ds == [] then s
    else DisconnectAll(Disconnect(s, ds[0].peer, ds[0].conn, cfg), ds[1..], cfg)
  }

  /** `n` consecutive attempts to send on the refresh-trigger channel. */
  function TryTriggerTimes(s: State, n: nat): (r: State)
    decreases n
  {
    if n == 0 then s else TryTriggerTimes(TryTrigger(s), n - 1)
  }
}
