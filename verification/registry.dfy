/**
 The relay registry, `url -> relay`, and what each manager operation does to it.

 Every operation of the relay manager is given here as a function from the
 registry before the call to the registry after it (and, for the operations
 that can raise, the outcome). The methods of `Manager.RelayManager` are proved
 to compute exactly these functions; the properties promised to callers are the
 contracts of these functions and the lemmas at the end.
 */
module Registry {
  import opened Relays

  /** The cases in which the manager raises `RelayException`. */
  datatype RelayException =
    | InvalidRelayUrl(url: string)                   // no relay registered under url
    | NotReadable(url: string)                       // subscribe on a relay that may not be read
    | Unsigned(eventId: string)                      // publish of an event without signature
    | BadSignature(eventId: string, signature: string)  // publish of an event that fails verify()

  datatype Outcome = Done | Raised(exception: RelayException)

  /** The outcome of a call that may raise, and the registry after it. */
  datatype Step = Step(outcome: Outcome, relays: map<string, Relay>)

  /**
   The registry after adding or removing a relay, and the handle that left the
   registry in doing so, in the state the manager last left it.
   */
  datatype Update = Update(relays: map<string, Relay>, dropped: Option<Relay>)

  /** Every relay is registered under its own url. */
  ghost predicate WellKeyed(m: map<string, Relay>)
  {
    forall u :: u in m ==> m[u].url == u
  }

  /** `r2` is `r` after its subscription `id` was recorded and one REQ for it sent. */
  ghost predicate SubscribedOnce(r: Relay, r2: Relay, id: string, filters: Filters)
  {
    r2 == r.(subscriptions := r.subscriptions[id := filters],
             outbox := r.outbox + [ReqMessage(id, filters)])
  }

  /** `r2` is `r` after its subscription `id` was dropped and one CLOSE for it sent. */
  ghost predicate ClosedOnce(r: Relay, r2: Relay, id: string)
  {
    r2 == r.(subscriptions := r.subscriptions - {id},
             outbox := r.outbox + [CloseMessage(id)])
  }

  // ---------------------------------------------------------------------------
  // Adding and removing relays
  // ---------------------------------------------------------------------------

  /**
   `add_relay(url, policy)`: a new handle is stored under `url` and connected
   once. The policy defaults to read and write. An earlier entry under `url` is replaced and dropped without `close`.
   */
  function AddRelay(m: map<string, Relay>, url: string, policy: RelayPolicy := DefaultPolicy): (r: Update)
    ensures r.relays.Keys == m.Keys + {url}
    ensures var added := r.relays[url];
      && added.url == url && added.policy == policy && !added.connected
      && added.subscriptions == map[] && added.outbox == []
      && added.connectCalls == 1 && added.reconnectCalls == 0 && added.closeCalls == 0
    ensures forall u :: u in m && u != url ==> r.relays[u] == m[u]
    ensures url in m ==> r.dropped == Some(m[url])
    ensures url !in m ==> r.dropped == None
    ensures WellKeyed(m) ==> WellKeyed(r.relays)
  {
    var stored := m[url := NewRelay(url, policy)];
    Update(stored[url := Connect(stored[url], false)],
           if url in m then Some(m[url]) else None)
  }

  /**
   `remove_relay(url)`: a no-op when `url` is absent; otherwise exactly that
   key leaves the registry and its relay is closed.
   */
  function RemoveRelay(m: map<string, Relay>, url: string): (r: Update)
    ensures url !in m ==> r.relays == m && r.dropped == None
    ensures url in m ==> r.relays.Keys == m.Keys - {url}
    ensures url in m ==> r.dropped.Some? && r.dropped.value == Close(m[url])
    ensures forall u :: u in m && u != url ==> u in r.relays && r.relays[u] == m[u]
    ensures WellKeyed(m) ==> WellKeyed(r.relays)
  {
    if url in m then Update(m - {url}, Some(Close(m[url])))
    else Update(m, None)
  }

  // ---------------------------------------------------------------------------
  // Subscriptions
  // ---------------------------------------------------------------------------

  /**
   `add_subscription_on_relay(url, id, filters)`: raises on an unknown url and
   on a relay that may not be read, changing nothing; otherwise records the
   subscription on that relay and sends it exactly one REQ, and no other relay
   is touched.
   */
  function AddSubscriptionOnRelay(m: map<string, Relay>, url: string, id: string, filters: Filters): (s: Step)
    ensures url !in m ==> s == Step(Raised(InvalidRelayUrl(url)), m)
    ensures url in m && !m[url].policy.shouldRead ==> s == Step(Raised(NotReadable(url)), m)
    ensures s.outcome.Done? <==> url in m && m[url].policy.shouldRead
    ensures s.outcome.Done? ==>
      && s.relays.Keys == m.Keys
      && SubscribedOnce(m[url], s.relays[url], id, filters)
      && forall u :: u in m && u != url ==> s.relays[u] == m[u]
    ensures WellKeyed(m) ==> WellKeyed(s.relays)
  {
    if url in m then
      var relay := m[url];
      if !relay.policy.shouldRead then Step(Raised(NotReadable(url)), m)
      else
        var recorded := AddSubscription(relay, id, filters);
        Step(Done, m[url := Publish(recorded, ReqMessage(id, filters))])
    else Step(Raised(InvalidRelayUrl(url)), m)
  }

  /**
   `add_subscription_on_all_relays(id, filters)`: every readable relay records
   the subscription and gets exactly one REQ; the other relays are untouched.
   */
  function AddSubscriptionOnAllRelays(m: map<string, Relay>, id: string, filters: Filters): (m2: map<string, Relay>)
    ensures m2.Keys == m.Keys
    ensures forall u :: u in m && m[u].policy.shouldRead ==> SubscribedOnce(m[u], m2[u], id, filters)
    ensures forall u :: u in m && !m[u].policy.shouldRead ==> m2[u] == m[u]
    ensures WellKeyed(m) ==> WellKeyed(m2)
  {
    map u | u in m ::
      if m[u].policy.shouldRead then Publish(AddSubscription(m[u], id, filters), ReqMessage(id, filters))
      else m[u]
  }

  /**
   `close_subscription_on_relay(url, id)`: raises on an unknown url, changing
   nothing; otherwise drops the subscription and sends exactly one CLOSE,
   whatever the relay's policy.
   */
  function CloseSubscriptionOnRelay(m: map<string, Relay>, url: string, id: string): (s: Step)
    ensures url !in m ==> s == Step(Raised(InvalidRelayUrl(url)), m)
    ensures s.outcome.Done? <==> url in m
    ensures url in m ==>
      && s.relays.Keys == m.Keys
      && ClosedOnce(m[url], s.relays[url], id)
      && forall u :: u in m && u != url ==> s.relays[u] == m[u]
    ensures WellKeyed(m) ==> WellKeyed(s.relays)
  {
    if url in m then
      var relay := CloseSubscription(m[url], id);
      Step(Done, m[url := Publish(relay, CloseMessage(id))])
    else Step(Raised(InvalidRelayUrl(url)), m)
  }

  /**
   `close_subscription_on_all_relays(id)`: every relay, whatever its policy,
   drops the subscription and gets exactly one CLOSE.
   */
  function CloseSubscriptionOnAllRelays(m: map<string, Relay>, id: string): (m2: map<string, Relay>)
    ensures m2.Keys == m.Keys
    ensures forall u :: u in m ==> ClosedOnce(m[u], m2[u], id)
    ensures WellKeyed(m) ==> WellKeyed(m2)
  {
    map u | u in m :: Publish(CloseSubscription(m[u], id), CloseMessage(id))
  }

  /**
   `close_all_relay_connections()`: every relay is closed once and stays
   registered; nothing else about it changes.
   */
  function CloseAllRelayConnections(m: map<string, Relay>): (m2: map<string, Relay>)
    ensures m2.Keys == m.Keys
    ensures forall u :: u in m ==> m2[u].closeCalls == m[u].closeCalls + 1
    ensures forall u :: u in m ==> m2[u].(closeCalls := 0) == m[u].(closeCalls := 0)
    ensures WellKeyed(m) ==> WellKeyed(m2)
  {
    map u | u in m :: Close(m[u])
  }

  // ---------------------------------------------------------------------------
  // Publishing
  // ---------------------------------------------------------------------------

  /**
   `publish_event(event)`: an unsigned event raises, then an event whose
   signature does not verify raises; in both cases no relay is touched.
   Otherwise every writable relay gets exactly one EVENT and no other relay
   gets anything.
   */
  function PublishEvent(m: map<string, Relay>, event: Event, verify: Event -> bool): (s: Step)
    ensures event.signature.None? ==> s == Step(Raised(Unsigned(event.id)), m)
    ensures event.signature.Some? && !verify(event) ==>
      s == Step(Raised(BadSignature(event.id, event.signature.value)), m)
    ensures s.outcome.Done? <==> event.signature.Some? && verify(event)
    ensures s.outcome.Done? ==>
      && s.relays.Keys == m.Keys
      && (forall u :: u in m && m[u].policy.shouldWrite ==>
            s.relays[u] == m[u].(outbox := m[u].outbox + [EventMessage(event)]))
      && (forall u :: u in m && !m[u].policy.shouldWrite ==> s.relays[u] == m[u])
    ensures WellKeyed(m) ==> WellKeyed(s.relays)
  {
    if event.signature.None? then Step(Raised(Unsigned(event.id)), m)
    else if !verify(event) then Step(Raised(BadSignature(event.id, event.signature.value)), m)
    else
      Step(Done, map u | u in m ::
        if m[u].policy.shouldWrite then Publish(m[u], EventMessage(event)) else m[u])
  }

  // ---------------------------------------------------------------------------
  // Connection monitor
  // ---------------------------------------------------------------------------

  /**
   One pass of the connection monitor: every relay that does not report itself
   connected is reconnected once; connected relays get no call.
   */
  function MonitorSweep(m: map<string, Relay>): (m2: map<string, Relay>)
    ensures m2.Keys == m.Keys
    ensures forall u :: u in m && !m[u].connected ==>
      m2[u] == m[u].(reconnectCalls := m[u].reconnectCalls + 1)
    ensures forall u :: u in m && m[u].connected ==> m2[u] == m[u]
    ensures WellKeyed(m) ==> WellKeyed(m2)
  {
    map u | u in m :: if IsConnected(m[u]) then m[u] else Connect(m[u], true)
  }

  /**
   The transport reporting liveness between two monitor passes: the relays in
   `up` are connected, the others are not. This is the environment, not the
   manager.
   */
  function TransportReports(m: map<string, Relay>, up: set<string>): (m2: map<string, Relay>)
    ensures m2.Keys == m.Keys
    ensures forall u :: u in m ==> m2[u].connected == (u in up)
    ensures forall u :: u in m ==> m2[u].(connected := false) == m[u].(connected := false)
    ensures WellKeyed(m) ==> WellKeyed(m2)
  {
    map u | u in m :: m[u].(connected := u in up)
  }

  /**
   The monitor loop run for `|reports|` cycles: before each pass the transport
   reports which relays are up.
   */
  function MonitorCycles(m: map<string, Relay>, reports: seq<set<string>>): (m2: map<string, Relay>)
    ensures m2.Keys == m.Keys
    ensures WellKeyed(m) ==> WellKeyed(m2)
    decreases |reports|
  {
    if reports == [] then m
    else MonitorCycles(MonitorSweep(TransportReports(m, reports[0])), reports[1..])
  }

  /** The number of cycles in which relay `u` was reported down. */
  function DownCycles(u: string, reports: seq<set<string>>): nat
    decreases |reports|
  {
    if reports == [] then 0
    else (if u in reports[0] then 0 else 1) + DownCycles(u, reports[1..])
  }

  // ---------------------------------------------------------------------------
  // Serialised subscribe calls
  // ---------------------------------------------------------------------------

  /** The registry after the subscribe calls `subs` on one relay, in order. */
  function SubscribeEach(m: map<string, Relay>, url: string, subs: seq<Subscription>): map<string, Relay>
    decreases |subs|
  {
    if subs == [] then m
    else SubscribeEach(AddSubscriptionOnRelay(m, url, subs[0].id, subs[0].filters).relays, url, subs[1..])
  }

  /** The distinct subscription ids among `subs`. */
  function Ids(subs: seq<Subscription>): set<string>
    decreases |subs|
  {
    if subs == [] then {} else {subs[0].id} + Ids(subs[1..])
  }

  /** What the subscribe calls `subs` record: a later call for an id replaces an earlier one. */
  function Recorded(subs: seq<Subscription>): map<string, Filters>
    decreases |subs|
  {
    if subs == [] then map[] else map[subs[0].id := subs[0].filters] + Recorded(subs[1..])
  }

  /** The REQ messages for `subs`, in order. */
  function Requests(subs: seq<Subscription>): seq<ClientMessage>
    decreases |subs|
  {
    if subs == [] then [] else [ReqMessage(subs[0].id, subs[0].filters)] + Requests(subs[1..])
  }

  // ---------------------------------------------------------------------------
  // Lemmas
  // ---------------------------------------------------------------------------

  /**
   Over any number of monitor cycles, each relay is reconnected exactly once
   per cycle in which it was reported down, and receives nothing else; it ends
   in the liveness of the last report.
   */
  lemma {:induction false} MonitorReconnectsOncePerDownCycle(m: map<string, Relay>, reports: seq<set<string>>)
    ensures MonitorCycles(m, reports).Keys == m.Keys
    ensures forall u :: u in m ==>
      MonitorCycles(m, reports)[u].reconnectCalls == m[u].reconnectCalls + DownCycles(u, reports)
    ensures forall u :: u in m ==>
      MonitorCycles(m, reports)[u].(reconnectCalls := 0, connected := false)
        == m[u].(reconnectCalls := 0, connected := false)
    ensures reports != [] ==> forall u :: u in m ==>
      MonitorCycles(m, reports)[u].connected == (u in reports[|reports| - 1])
    decreases |reports|
  {
    if reports != [] {
      var next := MonitorSweep(TransportReports(m, reports[0]));
      forall u | u in m
        ensures next[u].reconnectCalls == m[u].reconnectCalls + (if u in reports[0] then 0 else 1)
        ensures next[u].(reconnectCalls := 0, connected := false) == m[u].(reconnectCalls := 0, connected := false)
        ensures next[u].connected == (u in reports[0])
      {
      }
      MonitorReconnectsOncePerDownCycle(next, reports[1..]);
      assert MonitorCycles(m, reports) == MonitorCycles(next, reports[1..]);
      assert reports[1..] != [] ==> reports[1..][|reports[1..]| - 1] == reports[|reports| - 1];
    }
  }

  /** A relay has no down cycle exactly when it is reported up in every cycle. */
  lemma {:induction false} NoDownCycleIffAlwaysUp(u: string, reports: seq<set<string>>)
    ensures DownCycles(u, reports) == 0 <==> forall i :: 0 <= i < |reports| ==> u in reports[i]
    decreases |reports|
  {
    if reports != [] {
      NoDownCycleIffAlwaysUp(u, reports[1..]);
      if forall i :: 0 <= i < |reports[1..]| ==> u in reports[1..][i] {
        if u in reports[0] {
          forall i | 0 <= i < |reports| ensures u in reports[i] {
            if i > 0 { assert reports[i] == reports[1..][i - 1]; }
          }
        }
      } else {
        var i :| 0 <= i < |reports[1..]| && u !in reports[1..][i];
        assert u !in reports[i + 1];
      }
    }
  }

  /**
   Over a run of monitor cycles, a registered relay gets no reconnect call if
   and only if it is reported up in every cycle.
   */
  lemma NoReconnectIffAlwaysUp(m: map<string, Relay>, u: string, reports: seq<set<string>>)
    requires u in m
    ensures u in MonitorCycles(m, reports)
    ensures MonitorCycles(m, reports)[u].reconnectCalls == m[u].reconnectCalls
      <==> forall i :: 0 <= i < |reports| ==> u in reports[i]
  {
    MonitorReconnectsOncePerDownCycle(m, reports);
    NoDownCycleIffAlwaysUp(u, reports);
  }

  /**
   Closing every connection keeps the relays registered; once the transport
   reports them all down, the next monitor pass reconnects every one of them.
   */
  lemma CloseAllThenSweepReconnectsEveryRelay(m: map<string, Relay>)
    ensures forall u :: u in m ==>
      MonitorSweep(TransportReports(CloseAllRelayConnections(m), {}))[u].reconnectCalls
        == m[u].reconnectCalls + 1
  {
  }

  /** Serialised subscribe calls on one relay touch no other relay and keep the key set. */
  lemma {:induction false} SerialSubscribesFrame(m: map<string, Relay>, url: string, subs: seq<Subscription>)
    requires url in m && m[url].policy.shouldRead
    ensures SubscribeEach(m, url, subs).Keys == m.Keys
    ensures SubscribeEach(m, url, subs)[url].policy == m[url].policy
    ensures forall u :: u in m && u != url ==> SubscribeEach(m, url, subs)[u] == m[u]
    decreases |subs|
  {
    if subs != [] {
      var next := AddSubscriptionOnRelay(m, url, subs[0].id, subs[0].filters).relays;
      SerialSubscribesFrame(next, url, subs[1..]);
    }
  }

  /** The ids recorded by the calls `subs` are exactly the ids issued. */
  lemma {:induction false} RecordedIds(subs: seq<Subscription>)
    ensures Recorded(subs).Keys == Ids(subs)
    decreases |subs|
  {
    if subs != [] {
      RecordedIds(subs[1..]);
    }
  }

  /**
   Subscribe calls on one readable relay, serialised: no subscription record is
   lost; the relay's ids are the earlier ones plus every id issued.
   */
  lemma SerialSubscribesAllRecorded(m: map<string, Relay>, url: string, subs: seq<Subscription>)
    requires url in m && m[url].policy.shouldRead
    ensures url in SubscribeEach(m, url, subs)
    ensures SubscribeEach(m, url, subs)[url].subscriptions.Keys == m[url].subscriptions.Keys + Ids(subs)
  {
    SerialSubscribesLastFiltersWin(m, url, subs);
    RecordedIds(subs);
  }

  /** Serialised subscribe calls on one readable relay send one REQ per call, in call order. */
  lemma {:induction false} SerialSubscribesInCallOrder(m: map<string, Relay>, url: string, subs: seq<Subscription>)
    requires url in m && m[url].policy.shouldRead
    ensures url in SubscribeEach(m, url, subs)
    ensures SubscribeEach(m, url, subs)[url].outbox == m[url].outbox + Requests(subs)
    decreases |subs|
  {
    if subs != [] {
      var next := AddSubscriptionOnRelay(m, url, subs[0].id, subs[0].filters).relays;
      assert url in next && next[url].policy == m[url].policy;
      assert next[url].outbox == m[url].outbox + [ReqMessage(subs[0].id, subs[0].filters)];
      SerialSubscribesInCallOrder(next, url, subs[1..]);
      assert SubscribeEach(m, url, subs) == SubscribeEach(next, url, subs[1..]);
      assert Requests(subs) == [ReqMessage(subs[0].id, subs[0].filters)] + Requests(subs[1..]);
    }
  }

  /** Recording one entry and then a map is the same as recording both at once. */
  lemma UpdateThenUnion(before: map<string, Filters>, id: string, filters: Filters, later: map<string, Filters>)
    ensures before[id := filters] + later == before + (map[id := filters] + later)
  {
    var lhs := before[id := filters] + later;
    var rhs := before + (map[id := filters] + later);
    assert lhs.Keys == rhs.Keys;
    forall k | k in lhs ensures lhs[k] == rhs[k] {}
  }

  /**
   Serialised subscribe calls on one readable relay leave each id with the
   filters of its last call, and every other subscription of the relay as it was.
   */
  lemma {:induction false} SerialSubscribesLastFiltersWin(m: map<string, Relay>, url: string, subs: seq<Subscription>)
    requires url in m && m[url].policy.shouldRead
    ensures url in SubscribeEach(m, url, subs)
    ensures SubscribeEach(m, url, subs)[url].subscriptions == m[url].subscriptions + Recorded(subs)
    decreases |subs|
  {
    SerialSubscribesFrame(m, url, subs);
    if subs != [] {
      var next := AddSubscriptionOnRelay(m, url, subs[0].id, subs[0].filters).relays;
      assert next[url].subscriptions == m[url].subscriptions[subs[0].id := subs[0].filters];
      SerialSubscribesLastFiltersWin(next, url, subs[1..]);
      assert SubscribeEach(m, url, subs) == SubscribeEach(next, url, subs[1..]);
      UpdateThenUnion(m[url].subscriptions, subs[0].id, subs[0].filters, Recorded(subs[1..]));
    }
  }

  /** Starting from no subscriptions, serialised subscribes leave one record per distinct id. */
  lemma SerialSubscribesFromNone(m: map<string, Relay>, url: string, subs: seq<Subscription>)
    requires url in m && m[url].policy.shouldRead && m[url].subscriptions == map[]
    ensures url in SubscribeEach(m, url, subs)
    ensures |SubscribeEach(m, url, subs)[url].subscriptions| == |Ids(subs)|
  {
    SerialSubscribesAllRecorded(m, url, subs);
    var recorded := SubscribeEach(m, url, subs)[url].subscriptions;
    assert recorded.Keys == Ids(subs);
    assert |recorded| == |recorded.Keys|;
  }

  /**
   Subscribing everywhere and then closing everywhere with a fresh id restores
   every relay's subscriptions; each readable relay has sent REQ then CLOSE,
   each other relay only CLOSE.
   */
  lemma SubscribeThenCloseOnAllRelays(m: map<string, Relay>, id: string, filters: Filters)
    requires forall u :: u in m ==> id !in m[u].subscriptions
    ensures CloseSubscriptionOnAllRelays(AddSubscriptionOnAllRelays(m, id, filters), id).Keys == m.Keys
    ensures forall u :: u in m ==>
      var r := CloseSubscriptionOnAllRelays(AddSubscriptionOnAllRelays(m, id, filters), id)[u];
      && r.subscriptions == m[u].subscriptions
      && r.outbox == m[u].outbox +
           (if m[u].policy.shouldRead then [ReqMessage(id, filters), CloseMessage(id)]
            else [CloseMessage(id)])
  {
  }

  /**
   Adding a relay under a fresh url and removing it again gives back the
   registry, and the removed handle was connected once and then closed.
   */
  lemma AddThenRemoveRelay(m: map<string, Relay>, url: string, policy: RelayPolicy)
    requires url !in m
    ensures RemoveRelay(AddRelay(m, url, policy).relays, url).relays == m
    ensures RemoveRelay(AddRelay(m, url, policy).relays, url).dropped
      == Some(Close(Connect(NewRelay(url, policy), false)))
  {
  }

  /**
   The fan-out subscribe does on each registered relay exactly what the
   single-relay subscribe does on it: on a relay that may not be read, the
   single-relay call raises and the fan-out skips it, both leaving it unchanged.
   */
  lemma SubscriptionOnAllAgreesWithOnRelay(m: map<string, Relay>, url: string, id: string, filters: Filters)
    requires url in m
    ensures AddSubscriptionOnAllRelays(m, id, filters)[url] == AddSubscriptionOnRelay(m, url, id, filters).relays[url]
  {
  }
}
