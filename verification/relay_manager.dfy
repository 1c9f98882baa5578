/**
 The relay manager: a registry of relays, updated in place.

 Each method is the sequential body of the corresponding manager operation (the
 part run while holding the registry lock) and is proved to leave the registry
 exactly as the matching function of `Registry` says. Fan-out loops visit the
 registered urls in an unspecified order; their invariants say which urls are
 done.
 */
module Manager {
  import opened Relays
  import opened Registry

  class RelayManager {
    var relays: map<string, Relay>

    /** Every relay is registered under its own url. */
    ghost predicate Valid()
      reads this
    {
      WellKeyed(relays)
    }

    /** A manager starts with no relays. */
    constructor ()
      ensures Valid() && relays == map[]
    {
      relays := map[];
    }

    /**
     `add_relay`: stores a new relay under `url`, then connects it. The policy
     defaults to read and write. `dropped` is the earlier entry under `url`,
     if any, which is not closed.
     */
    method AddRelay(url: string, policy: RelayPolicy := DefaultPolicy) returns (ghost dropped: Option<Relay>)
      requires Valid()
      modifies this
      ensures Valid()
      ensures relays == Registry.AddRelay(old(relays), url, policy).relays
      ensures dropped == Registry.AddRelay(old(relays), url, policy).dropped
      ensures dropped.Some? ==> dropped.value.url == url
    {
      dropped := if url in relays then Some(relays[url]) else None;
      var relay := NewRelay(url, policy);
      relays := relays[url := relay];
      relays := relays[url := Connect(relays[url], false)];
    }

    /** `remove_relay`: pops `url` if present and closes the popped relay. */
    method RemoveRelay(url: string) returns (ghost dropped: Option<Relay>)
      requires Valid()
      modifies this
      ensures Valid()
      ensures relays == Registry.RemoveRelay(old(relays), url).relays
      ensures dropped == Registry.RemoveRelay(old(relays), url).dropped
      ensures dropped.Some? ==> dropped.value.url == url
    {
      dropped := None;
      if url in relays {
        var relay := relays[url];
        relays := relays - {url};
        relay := Close(relay);
        dropped := Some(relay);
      }
    }

    /** `add_subscription_on_relay`. */
    method AddSubscriptionOnRelay(url: string, id: string, filters: Filters) returns (outcome: Outcome)
      requires Valid()
      modifies this
      ensures Valid()
      ensures outcome == Registry.AddSubscriptionOnRelay(old(relays), url, id, filters).outcome
      ensures relays == Registry.AddSubscriptionOnRelay(old(relays), url, id, filters).relays
    {
      if url in relays {
        var relay := relays[url];
        if !relay.policy.shouldRead {
          return Raised(NotReadable(url));
        }
        relay := AddSubscription(relay, id, filters);
        relay := Publish(relay, ReqMessage(id, filters));
        relays := relays[url := relay];
        outcome := Done;
      } else {
        outcome := Raised(InvalidRelayUrl(url));
      }
    }

    /** `add_subscription_on_all_relays`. */
    method AddSubscriptionOnAllRelays(id: string, filters: Filters)
      requires Valid()
      modifies this
      ensures Valid()
      ensures relays == Registry.AddSubscriptionOnAllRelays(old(relays), id, filters)
    {
      ghost var before := relays;
      var pending := relays.Keys;
      while pending != {}
        invariant pending <= before.Keys && relays.Keys == before.Keys
        invariant forall u :: u in pending ==> relays[u] == before[u]
        invariant forall u :: u in before && u !in pending ==>
          relays[u] == Registry.AddSubscriptionOnAllRelays(before, id, filters)[u]
        decreases pending
      {
        var url :| url in pending;
        var relay := relays[url];
        if relay.policy.shouldRead {
          relay := AddSubscription(relay, id, filters);
          relay := Publish(relay, ReqMessage(id, filters));
          relays := relays[url := relay];
        }
        pending := pending - {url};
      }
    }

    /** `close_subscription_on_relay`. */
    method CloseSubscriptionOnRelay(url: string, id: string) returns (outcome: Outcome)
      requires Valid()
      modifies this
      ensures Valid()
      ensures outcome == Registry.CloseSubscriptionOnRelay(old(relays), url, id).outcome
      ensures relays == Registry.CloseSubscriptionOnRelay(old(relays), url, id).relays
    {
      if url in relays {
        var relay := relays[url];
        relay := CloseSubscription(relay, id);
        relay := Publish(relay, CloseMessage(id));
        relays := relays[url := relay];
        outcome := Done;
      } else {
        outcome := Raised(InvalidRelayUrl(url));
      }
    }

    /** `close_subscription_on_all_relays`. */
    method CloseSubscriptionOnAllRelays(id: string)
      requires Valid()
      modifies this
      ensures Valid()
      ensures relays == Registry.CloseSubscriptionOnAllRelays(old(relays), id)
    {
      ghost var before := relays;
      var pending := relays.Keys;
      while pending != {}
        invariant pending <= before.Keys && relays.Keys == before.Keys
        invariant forall u :: u in pending ==> relays[u] == before[u]
        invariant forall u :: u in before && u !in pending ==>
          relays[u] == Registry.CloseSubscriptionOnAllRelays(before, id)[u]
        decreases pending
      {
        var url :| url in pending;
        var relay := relays[url];
        relay := CloseSubscription(relay, id);
        relay := Publish(relay, CloseMessage(id));
        relays := relays[url := relay];
        pending := pending - {url};
      }
    }

    /** `close_all_relay_connections`. */
    method CloseAllRelayConnections()
      requires Valid()
      modifies this
      ensures Valid()
      ensures relays == Registry.CloseAllRelayConnections(old(relays))
    {
      ghost var before := relays;
      var pending := relays.Keys;
      while pending != {}
        invariant pending <= before.Keys && relays.Keys == before.Keys
        invariant forall u :: u in pending ==> relays[u] == before[u]
        invariant forall u :: u in before && u !in pending ==>
          relays[u] == Registry.CloseAllRelayConnections(before)[u]
        decreases pending
      {
        var url :| url in pending;
        relays := relays[url := Close(relays[url])];
        pending := pending - {url};
      }
    }

    /**
     `publish_event`: the signature checks come first and raise before any
     relay is touched. `verify` stands for `Event.verify()`.
     */
    method PublishEvent(event: Event, verify: Event -> bool) returns (outcome: Outcome)
      requires Valid()
      modifies this
      ensures Valid()
      ensures outcome == Registry.PublishEvent(old(relays), event, verify).outcome
      ensures relays == Registry.PublishEvent(old(relays), event, verify).relays
    {
      if event.signature.None? {
        return Raised(Unsigned(event.id));
      }
      if !verify(event) {
        return Raised(BadSignature(event.id, event.signature.value));
      }
      ghost var before := relays;
      var pending := relays.Keys;
      while pending != {}
        invariant pending <= before.Keys && relays.Keys == before.Keys
        invariant forall u :: u in pending ==> relays[u] == before[u]
        invariant forall u :: u in before && u !in pending ==>
          relays[u] == Registry.PublishEvent(before, event, verify).relays[u]
        decreases pending
      {
        var url :| url in pending;
        var relay := relays[url];
        if relay.policy.shouldWrite {
          relays := relays[url := Publish(relay, EventMessage(event))];
        }
        pending := pending - {url};
      }
      outcome := Done;
    }

    /** One pass of `_relay_connection_monitor`: reconnect every relay that is down. */
    method MonitorSweep()
      requires Valid()
      modifies this
      ensures Valid()
      ensures relays == Registry.MonitorSweep(old(relays))
    {
      if |relays| > 0 {
        ghost var before := relays;
        var pending := relays.Keys;
        while pending != {}
          invariant pending <= before.Keys && relays.Keys == before.Keys
          invariant forall u :: u in pending ==> relays[u] == before[u]
          invariant forall u :: u in before && u !in pending ==>
            relays[u] == Registry.MonitorSweep(before)[u]
          decreases pending
        {
          var url :| url in pending;
          var relay := relays[url];
          if !IsConnected(relay) {
            relays := relays[url := Connect(relay, true)];
          }
          pending := pending - {url};
        }
      }
    }

    /**
     The transport reporting liveness: afterwards exactly the relays in `up`
     report themselves connected. This is the environment acting between
     monitor passes, not an operation of the manager.
     */
    method TransportReport(up: set<string>)
      requires Valid()
      modifies this
      ensures Valid()
      ensures relays == TransportReports(old(relays), up)
    {
      relays := TransportReports(relays, up);
    }
  }
}
