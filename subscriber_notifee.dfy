/**
 The subscriber/notifee as an object over the DHT's mutable state. Its handlers
 change the fields step by step, in the order the source does, and each is
 proved to perform exactly the corresponding transition of module Transitions.
 */
module SubscriberNotifee {
  import opened Transitions

  class Notifee {
    // the routing table's membership (the table itself is an external collaborator)
    var table: set<PeerId>
    // the single slot of the refresh-trigger channel
    var triggerPending: bool
    // the peer -> message sender registry
    var strmap: map<PeerId, StreamHandle>
    // invalidations handed to background tasks, oldest first
    var scheduled: seq<StreamHandle>
    // the closing signal of the DHT's own process, set by its teardown elsewhere
    var closing: bool
    const autoRefresh: bool
    const minRTRefreshThreshold: int

    /** The fields as one state record. */
    function Model(): (r: State)
      reads this
    {
      State(table, triggerPending, strmap, scheduled, closing)
    }

    function Cfg(): (r: Config)
    {
      Config(autoRefresh, minRTRefreshThreshold)
    }

    constructor (init: State, cfg: Config)
      ensures Model() == init && Cfg() == cfg
    {
      table, triggerPending, strmap, scheduled, closing :=
        init.table, init.triggerPending, init.strmap, init.scheduled, init.closing;
      autoRefresh, minRTRefreshThreshold := cfg.autoRefresh, cfg.minRTRefreshThreshold;
    }

    /** The routing table's size. */
    function Size(): (r: nat)
      reads this
    {
      |table|
    }

    /** The non-blocking send on the trigger channel: a free slot takes the signal,
        an occupied slot drops it. */
    method TriggerRtRefresh()
      modifies this`triggerPending
      ensures Model() == TryTrigger(old(Model()))
    {
      if !triggerPending {
        triggerPending := true;
      }
    }

    /** The routing table's `Update`, with the table's verdict as input. */
    method Update(p: PeerId, accepted: bool)
      modifies this`table
      ensures table == UpdateTable(old(table), p, accepted)
    {
      if accepted {
        table := table + {p};
      }
    }

    /** The routing table's `HandlePeerDisconnect`: the peer leaves the table. */
    method HandlePeerDisconnect(p: PeerId)
      modifies this`table
      ensures table == old(table) - {p}
    {
      table := table - {p};
    }

    /** The subscription loop's body for one event read from the bus. */
    method HandleEvent(ev: Event, q: ProtocolQuery, accepted: bool)
      modifies this`table, this`triggerPending
      ensures Model() == Identify(old(Model()), ev, q, accepted, Cfg())
    {
      match ev {
        case OtherEvent =>
        case PeerIdentificationCompleted(p) =>
          if !q.failed && |q.protos| != 0 {
            // the decision is taken on the size before the update
            var refresh := Size() <= minRTRefreshThreshold;
            Update(p, accepted);
            if refresh && autoRefresh {
              TriggerRtRefresh();
            }
          }
      }
    }

    /** The `Disconnected` callback for a connection to `p`; `conn` is what the
        transport reports for `p` once the connectivity lock is held. */
    method Disconnected(p: PeerId, conn: Connectedness)
      modifies this`table, this`triggerPending, this`strmap, this`scheduled
      ensures Model() == Disconnect(old(Model()), p, conn, Cfg())
    {
      if closing {
        return;
      }
      if conn == Connected {
        // still connected through another connection
        return;
      }
      HandlePeerDisconnect(p);
      // the decision is taken on the size after the eviction
      var refresh := Size() <= minRTRefreshThreshold;
      if refresh && autoRefresh {
        TriggerRtRefresh();
      }
      if p !in strmap {
        return;
      }
      var ms := strmap[p];
      strmap := strmap - {p};
      // the invalidation runs on its own task; the model records the hand-over
      scheduled := scheduled + [ms];
    }

    /** The subscription loop over the select outcomes `ds`. `returned` tells
        whether the loop returned (closed bus or closing signal) rather than
        running out of outcomes while still waiting. */
    method Subscribe(ds: seq<Delivery>) returns (returned: bool)
      modifies this`table, this`triggerPending
      ensures Model() == Run(old(Model()), ds, Cfg())
      ensures returned <==> HasExit(ds)
    {
      var i := 0;
      while i < |ds|
        invariant 0 <= i <= |ds|
        invariant Run(Model(), ds[i..], Cfg()) == Run(old(Model()), ds, Cfg())
        invariant forall j :: 0 <= j < i ==> !Exits(ds[j])
      {
        assert ds[i..][0] == ds[i];
        match ds[i] {
          case BusClosed =>
            return true;
          case ProcessClosing =>
            return true;
          case Received(ev, q, accepted) =>
            HandleEvent(ev, q, accepted);
            assert ds[i..][1..] == ds[i + 1..];
        }
        i := i + 1;
      }
      return false;
    }
  }
}
