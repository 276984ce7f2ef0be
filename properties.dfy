/**
 Properties that relate several steps of the notifee: coalescing of refresh
 signals, the end of the subscription loop, and what a series of `Disconnected`
 callbacks does to the stream registry.
 */
module Properties {
  import opened Transitions

  /** Any number (at least one) of back-to-back trigger attempts has the effect of
      one: a single pending signal, and nothing else changed. */
  lemma {:induction false} RepeatedTriggersCoalesce(s: State, n: nat)
    requires n >= 1
    ensures TryTriggerTimes(s, n) == TryTrigger(s)
    ensures TryTriggerTimes(s, n) == s.(triggerPending := true)
    decreases n
  {
    if n > 1 {
      RepeatedTriggersCoalesce(TryTrigger(s), n - 1);
    }
  }

  /** Once the subscription loop has seen a closed bus or the closing signal,
      nothing that the select could deliver afterwards affects the state. */
  lemma {:induction false} RunIgnoresTail(s: State, ds: seq<Delivery>, rest: seq<Delivery>, cfg: Config)
    requires HasExit(ds)
    ensures Run(s, ds + rest, cfg) == Run(s, ds, cfg)
    decreases |ds|
  {
    assert (ds + rest)[0] == ds[0];
    match ds[0]
    case BusClosed =>
    case ProcessClosing =>
    case Received(ev, q, accepted) =>
      var i :| 0 <= i < |ds| && Exits(ds[i]);
      assert i > 0;
      assert Exits(ds[1..][i - 1]);
      assert (ds + rest)[1..] == ds[1..] + rest;
      RunIgnoresTail(Identify(s, ev, q, accepted, cfg), ds[1..], rest, cfg);
  }

  /** The loop ends in the state reached by the events before its first exit: the
      closed bus or closing signal at position `i` stops it, and nothing from `i`
      on has any effect. */
  lemma {:induction false} RunStopsAtFirstExit(s: State, ds: seq<Delivery>, i: nat, cfg: Config)
    requires i < |ds| && Exits(ds[i])
    requires forall j :: 0 <= j < i ==> !Exits(ds[j])
    ensures Run(s, ds, cfg) == Run(s, ds[..i], cfg)
    decreases i
  {
    if i > 0 {
      assert !Exits(ds[0]);
      var ev, q, accepted := ds[0].ev, ds[0].query, ds[0].accepted;
      forall j | 0 <= j < i - 1 ensures !Exits(ds[1..][j]) {
        assert ds[1..][j] == ds[j + 1];
      }
      RunStopsAtFirstExit(Identify(s, ev, q, accepted, cfg), ds[1..], i - 1, cfg);
      assert ds[..i][0] == ds[0];
      assert ds[..i][1..] == ds[1..][..i - 1];
    }
  }

  /** After the process has started closing, no series of `Disconnected` callbacks
      changes anything: not the table, the trigger, the registry or the schedule. */
  lemma {:induction false} DisconnectsWhileClosingInert(s: State, ds: seq<Disconnection>, cfg: Config)
    requires s.closing
    ensures DisconnectAll(s, ds, cfg) == s
    decreases |ds|
  {
    if ds != [] {
      DisconnectsWhileClosingInert(Disconnect(s, ds[0].peer, ds[0].conn, cfg), ds[1..], cfg);
    }
  }

  /** Callbacks for connections whose peers are all still connected through
      another connection change nothing. */
  lemma {:induction false} StillConnectedInert(s: State, ds: seq<Disconnection>, cfg: Config)
    requires forall k :: 0 <= k < |ds| ==> ds[k].conn == Connected
    ensures DisconnectAll(s, ds, cfg) == s
    decreases |ds|
  {
    if ds != [] {
      assert ds[0].conn == Connected;
      forall k | 0 <= k < |ds| - 1 ensures ds[1..][k].conn == Connected {
        assert ds[1..][k] == ds[k + 1];
      }
      StillConnectedInert(Disconnect(s, ds[0].peer, ds[0].conn, cfg), ds[1..], cfg);
    }
  }

  /** Removing a present key from a map shrinks its key set by exactly one. */
  lemma RemoveKeyCardinality(m: map<PeerId, StreamHandle>, p: PeerId)
    requires p in m
    ensures (m - {p}).Keys == m.Keys - {p}
    ensures |(m - {p}).Keys| == |m.Keys| - 1
  {
    assert (m - {p}).Keys == m.Keys - {p};
  }

  /** Any series of `Disconnected` callbacks schedules exactly one invalidation per
      registry entry it removes. */
  lemma {:induction false} DisconnectAccounting(s: State, ds: seq<Disconnection>, cfg: Config)
    ensures var r := DisconnectAll(s, ds, cfg);
              |r.scheduled| == |s.scheduled| + |s.strmap.Keys| - |r.strmap.Keys|
    decreases |ds|
  {
    if ds != [] {
      var p := ds[0].peer;
      var s1 := Disconnect(s, p, ds[0].conn, cfg);
      DisconnectAccounting(s1, ds[1..], cfg);
      if s1.scheduled != s.scheduled {
        RemoveKeyCardinality(s.strmap, p);
      } else {
        assert s1.strmap == s.strmap;
      }
    }
  }

  /** `h` is the handle that `before`'s registry held for a key that `after`'s no
      longer has. */
  ghost predicate HandleOfRemovedEntry(before: State, after: State, h: StreamHandle)
  {
    exists q :: q in before.strmap && q !in after.strmap && before.strmap[q] == h
  }

  /** Everything `after` has scheduled beyond `before`'s schedule is the handle of a
      registry entry removed between the two. */
  ghost predicate ScheduledOnlyRemoved(before: State, after: State)
  {
    forall k :: |before.scheduled| <= k < |after.scheduled| ==> HandleOfRemovedEntry(before, after, after.scheduled[k])
  }

  /** Every invalidation a series of `Disconnected` callbacks schedules is for the
      handle of a registry entry the series removed. */
  lemma {:induction false} ScheduledHandlesWereRemoved(s: State, ds: seq<Disconnection>, cfg: Config)
    ensures ScheduledOnlyRemoved(s, DisconnectAll(s, ds, cfg))
    decreases |ds|
  {
    if ds != [] {
      var p := ds[0].peer;
      var s1 := Disconnect(s, p, ds[0].conn, cfg);
      var r := DisconnectAll(s1, ds[1..], cfg);
      assert r == DisconnectAll(s, ds, cfg);
      ScheduledHandlesWereRemoved(s1, ds[1..], cfg);
      forall k | |s.scheduled| <= k < |r.scheduled|
        ensures HandleOfRemovedEntry(s, r, r.scheduled[k])
      {
        if k < |s1.scheduled| {
          // the first callback scheduled p's handle and removed p's entry
          assert p in s.strmap && p !in s1.strmap;
          assert r.scheduled[k] == s1.scheduled[k] == s.strmap[p];
          assert p !in r.strmap;
        } else {
          assert HandleOfRemovedEntry(s1, r, r.scheduled[k]);
          var q :| q in s1.strmap && q !in r.strmap && s1.strmap[q] == r.scheduled[k];
          assert q in s.strmap && s1.strmap[q] == s.strmap[q];
        }
      }
    }
  }

  /** `after` has scheduled handle `h` somewhere beyond `before`'s schedule. */
  ghost predicate NewlyScheduled(before: State, after: State, h: StreamHandle)
  {
    exists k :: |before.scheduled| <= k < |after.scheduled| && after.scheduled[k] == h
  }

  /** Every registry entry removed between `before` and `after` has its handle
      scheduled beyond `before`'s schedule. */
  ghost predicate RemovedAllScheduled(before: State, after: State)
  {
    forall q :: q in before.strmap && q !in after.strmap ==> NewlyScheduled(before, after, before.strmap[q])
  }

  /** Every registry entry a series of `Disconnected` callbacks removes has its
      handle scheduled for invalidation: no removed stream is left without one. */
  lemma {:induction false} RemovedHandlesWereScheduled(s: State, ds: seq<Disconnection>, cfg: Config)
    ensures RemovedAllScheduled(s, DisconnectAll(s, ds, cfg))
    decreases |ds|
  {
    if ds != [] {
      var p := ds[0].peer;
      var s1 := Disconnect(s, p, ds[0].conn, cfg);
      var r := DisconnectAll(s1, ds[1..], cfg);
      assert r == DisconnectAll(s, ds, cfg);
      RemovedHandlesWereScheduled(s1, ds[1..], cfg);
      forall q | q in s.strmap && q !in r.strmap
        ensures NewlyScheduled(s, r, s.strmap[q])
      {
        if q !in s1.strmap {
          // removed by the first callback, which scheduled its handle at the end
          assert q == p && s1.scheduled == s.scheduled + [s.strmap[p]];
          assert r.scheduled[|s.scheduled|] == s1.scheduled[|s.scheduled|] == s.strmap[q];
        } else {
          // removed later: the first callback kept the entry unchanged
          assert s1.strmap[q] == s.strmap[q];
          assert NewlyScheduled(s1, r, s1.strmap[q]);
          var k :| |s1.scheduled| <= k < |r.scheduled| && r.scheduled[k] == s1.strmap[q];
          assert |s.scheduled| <= |s1.scheduled|;
        }
      }
    }
  }

  /** However many `Disconnected` callbacks fire for the same peer (duplicate
      notifications), at most one invalidation is scheduled, and only for the
      handle the registry held for that peer. */
  lemma {:induction false} DuplicateDisconnectsScheduleOnce(s: State, p: PeerId, ds: seq<Disconnection>, cfg: Config)
    requires forall k :: 0 <= k < |ds| ==> ds[k].peer == p
    ensures var r := DisconnectAll(s, ds, cfg);
              (r.scheduled == s.scheduled && r.strmap == s.strmap)
              || (p in s.strmap && r.scheduled == s.scheduled + [s.strmap[p]] && p !in r.strmap)
    decreases |ds|
  {
    if ds != [] {
      var s1 := Disconnect(s, p, ds[0].conn, cfg);
      assert ds[0].peer == p;
      forall k | 0 <= k < |ds| - 1 ensures ds[1..][k].peer == p {
        assert ds[1..][k] == ds[k + 1];
      }
      DuplicateDisconnectsScheduleOnce(s1, p, ds[1..], cfg);
      var r := DisconnectAll(s1, ds[1..], cfg);
      if s1.scheduled != s.scheduled {
        assert p in s.strmap && p !in s1.strmap;
        // with the entry gone, every later callback for p schedules nothing
        assert r.scheduled == s1.scheduled;
        assert r.strmap.Keys <= s1.strmap.Keys;
      } else {
        // the first callback did not remove anything
        assert s1.strmap == s.strmap;
      }
    }
  }

  /** Two disconnects of the same peer: the second removes nothing from the
      registry and schedules nothing. */
  lemma SecondDisconnectSchedulesNothing(s: State, p: PeerId, c1: Connectedness, c2: Connectedness, cfg: Config)
    requires !s.closing && c1 != Connected
    ensures var once := Disconnect(s, p, c1, cfg);
            var twice := Disconnect(once, p, c2, cfg);
              twice.strmap == once.strmap && twice.scheduled == once.scheduled
  {
  }

  /** The identification path decides on the size BEFORE the update: with the table
      exactly at the threshold, admitting a new peer still sends the signal even
      though the table is then above the threshold. */
  lemma IdentifyUsesPriorSize(s: State, p: PeerId, q: ProtocolQuery, cfg: Config)
    requires Qualifies(q) && cfg.autoRefresh && !s.triggerPending
    requires p !in s.table && |s.table| == cfg.minRTRefreshThreshold
    ensures var r := Identify(s, PeerIdentificationCompleted(p), q, true, cfg);
              |r.table| > cfg.minRTRefreshThreshold && r.triggerPending && p in r.table
  {
  }

  /** The disconnect path decides on the size AFTER the eviction: with the table
      one above the threshold, evicting a member sends the signal. */
  lemma DisconnectUsesPosteriorSize(s: State, p: PeerId, conn: Connectedness, cfg: Config)
    requires !s.closing && conn != Connected && cfg.autoRefresh && !s.triggerPending
    requires p in s.table && |s.table| == cfg.minRTRefreshThreshold + 1
    ensures var r := Disconnect(s, p, conn, cfg);
              |r.table| == cfg.minRTRefreshThreshold && r.triggerPending && p !in r.table
  {
  }
}
