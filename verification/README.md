# Relay manager of a Nostr client, in Dafny

This project models `RelayManager`, the client-side orchestration layer of a
Nostr client library. The manager keeps a registry from relay URL to relay
handle. It adds and removes relays. It subscribes and closes subscriptions on
one relay or on all of them, subject to each relay's read policy. It checks an
event's signature and then publishes the event to every writable relay. A
monitor reconnects relays that have dropped. The messages it sends are the
client messages of NIP-01: `["REQ", id, filters...]`, `["CLOSE", id]` and
`["EVENT", event]`.

Layout:

- `relays.dfy`, module `Relays`: the relay handle as the manager sees it. It is
  a record with a read/write policy, a liveness flag, a map of subscriptions, an
  outbox of client messages and counters of `connect`, `connect(True)` and
  `close` calls. It also holds the messages, events and filters, and one small
  function per relay method the manager calls.
- `registry.dfy`, module `Registry`: each manager operation as a function from
  the registry before the call to the registry after it, plus the raised
  exception where the source raises. The contracts of these functions state,
  relay by relay, who receives which message, when an exception is raised with
  nothing changed, and what happens to the key set. The lemmas cover the
  monitor over many cycles, serialised subscribe calls, subscribe-then-close
  round trips and add-then-remove round trips.
- `relay_manager.dfy`, module `Manager`: class `RelayManager` with the registry
  as a `map` field. Each method mirrors the source's statements and loops. Each
  is proved to leave exactly the registry, and return exactly the outcome, that
  the matching `Registry` function gives. Fan-out loops visit the urls in an
  unspecified order, so every fan-out property is stated per relay.

Behaviour the model makes explicit:

- `add_relay` over a url that is already registered replaces the entry. The
  earlier relay is dropped without `close` (`Registry.AddRelay` returns it in
  `dropped`, with its close counter unchanged).
- `close_all_relay_connections` closes every relay but keeps every entry
  registered.
- `close_subscription_on_relay` and `close_subscription_on_all_relays` do not
  consult the read policy.
- `publish_event` checks for a missing signature first, then checks
  `verify()`. Either failure raises before any relay is touched.
- Exceptions are the `Raised` outcome carrying a `RelayException` case. The
  cases are an unknown url, an unreadable relay, an unsigned event and an event
  that fails verification.

## Model

| member | source | states |
|---|---|---|
| `Registry.AddRelay` | nostr/relay_manager.py:42-55 | the policy defaults to read and write; the url is added to the key set and maps to a fresh relay with the given policy, no subscriptions, an empty outbox and exactly one connect call; all other entries are unchanged; an earlier entry under the url leaves the registry unclosed; keys still match urls |
| `Registry.RemoveRelay` | nostr/relay_manager.py:57-61 | an absent url changes nothing and closes nothing; a present url removes exactly that key, and the removed relay is closed once; all other entries are unchanged |
| `Registry.AddSubscriptionOnRelay` | nostr/relay_manager.py:63-73 | an unknown url raises `InvalidRelayUrl` and an unreadable relay raises `NotReadable`, in both cases with the registry unchanged; it succeeds exactly when the relay is known and readable, and then records `id -> filters` on that relay and appends exactly one REQ to its outbox, touching no other relay |
| `Registry.AddSubscriptionOnAllRelays` | nostr/relay_manager.py:75-81 | the key set is kept; every readable relay records the subscription and gets exactly one REQ; every other relay is unchanged |
| `Registry.CloseSubscriptionOnRelay` | nostr/relay_manager.py:83-90 | an unknown url raises with the registry unchanged; it succeeds exactly when the url is known, whatever the policy, and then removes `id` from that relay and appends exactly one CLOSE, touching no other relay |
| `Registry.CloseSubscriptionOnAllRelays` | nostr/relay_manager.py:92-96 | the key set is kept; every relay, whatever its policy, drops `id` and gets exactly one CLOSE |
| `Registry.CloseAllRelayConnections` | nostr/relay_manager.py:98-102 | the key set is kept; every relay's close count goes up by one and nothing else about it changes |
| `Registry.PublishEvent` | nostr/relay_manager.py:104-115 | an unsigned event raises `Unsigned`; a signed event that fails `verify` raises `BadSignature`; in both cases no relay changes; it succeeds exactly when signed and verified, and then every writable relay gets exactly one EVENT and every other relay is unchanged |
| `Registry.MonitorSweep` | nostr/relay_manager.py:119-123 | the key set is kept; every relay not reporting itself connected gets exactly one reconnect call and nothing else; connected relays are unchanged |
| `Registry.TransportReports` | nostr/relay_manager.py:122 | the liveness the transport reports, which `is_connected()` returns: exactly the relays in `up` are connected; keys and everything else about each relay are kept |
| `Registry.MonitorCycles` | nostr/relay_manager.py:117-125 | the monitor loop run for a number of cycles, each preceded by a liveness report, keeps the key set and keeps keys matching urls |
| `Registry.MonitorReconnectsOncePerDownCycle` | nostr/relay_manager.py:117-125 | over any number of monitor cycles, each relay's reconnect count grows by exactly the number of cycles in which it was reported down; nothing else about it changes except its liveness, which is that of the last report; the key set is kept |
| `Registry.NoDownCycleIffAlwaysUp` | nostr/relay_manager.py:120-123 | a relay has no down cycle in a run if and only if it is reported up in every cycle of it |
| `Registry.NoReconnectIffAlwaysUp` | nostr/relay_manager.py:117-125 | over a run of monitor cycles, a registered relay stays registered and its reconnect count is unchanged if and only if it is reported up in every cycle |
| `Registry.CloseAllThenSweepReconnectsEveryRelay` | nostr/relay_manager.py:98-123 | closing all connections leaves every relay registered, so once the transport reports them down the next monitor pass reconnects each of them once |
| `Registry.SerialSubscribesFrame` | nostr/relay_manager.py:63-73 | any series of subscribe calls on one readable relay keeps the key set and that relay's policy, and leaves every other relay unchanged |
| `Registry.SerialSubscribesAllRecorded` | nostr/relay_manager.py:63-73 | after a series of subscribe calls on one readable relay, its subscription ids are the earlier ones plus every id issued: none is lost |
| `Registry.SerialSubscribesInCallOrder` | nostr/relay_manager.py:63-73 | after a series of subscribe calls on one readable relay, its outbox has gained exactly one REQ per call, in call order |
| `Registry.SerialSubscribesLastFiltersWin` | nostr/relay_manager.py:63-73 | after a series of subscribe calls on one readable relay, each issued id holds the filters of its last call and every other subscription of the relay is as it was |
| `Registry.SerialSubscribesFromNone` | nostr/relay_manager.py:63-73 | from no subscriptions, the relay ends with exactly as many subscription records as distinct ids were issued |
| `Registry.SubscribeThenCloseOnAllRelays` | nostr/relay_manager.py:75-96 | subscribing everywhere and then closing everywhere with a fresh id restores every relay's subscriptions; readable relays have sent REQ then CLOSE, the others only CLOSE |
| `Registry.AddThenRemoveRelay` | nostr/relay_manager.py:42-61 | adding a relay under a fresh url and removing it restores the registry, and the removed relay was connected once and closed once |
| `Registry.SubscriptionOnAllAgreesWithOnRelay` | nostr/relay_manager.py:63-81 | on every registered relay, the fan-out subscribe leaves it exactly as the single-relay subscribe does (for an unreadable relay: unchanged, where the single-relay call raises) |
| `Manager.RelayManager.constructor` | nostr/relay_manager.py:29-33 | a new manager has an empty registry whose keys match urls |
| `Manager.RelayManager.AddRelay` | nostr/relay_manager.py:42-55 | stores then connects the new relay, with read and write as the default policy; the new registry and the dropped entry are those of `Registry.AddRelay`; keys still match urls |
| `Manager.RelayManager.RemoveRelay` | nostr/relay_manager.py:57-61 | pops and closes; the new registry and the closed relay are those of `Registry.RemoveRelay`, and the closed relay is the one registered under the url |
| `Manager.RelayManager.AddSubscriptionOnRelay` | nostr/relay_manager.py:63-73 | the raised exception or success and the new registry are those of `Registry.AddSubscriptionOnRelay` |
| `Manager.RelayManager.AddSubscriptionOnAllRelays` | nostr/relay_manager.py:75-81 | the loop over the relays leaves the registry of `Registry.AddSubscriptionOnAllRelays` |
| `Manager.RelayManager.CloseSubscriptionOnRelay` | nostr/relay_manager.py:83-90 | the raised exception or success and the new registry are those of `Registry.CloseSubscriptionOnRelay` |
| `Manager.RelayManager.CloseSubscriptionOnAllRelays` | nostr/relay_manager.py:92-96 | the loop over the relays leaves the registry of `Registry.CloseSubscriptionOnAllRelays` |
| `Manager.RelayManager.CloseAllRelayConnections` | nostr/relay_manager.py:98-102 | the loop over the urls leaves the registry of `Registry.CloseAllRelayConnections` |
| `Manager.RelayManager.PublishEvent` | nostr/relay_manager.py:104-115 | raises before the loop on an unsigned or unverified event; the outcome and the new registry are those of `Registry.PublishEvent` |
| `Manager.RelayManager.TransportReport` | nostr/relay_manager.py:122 | the transport's liveness report applied in place: the registry becomes that of `Registry.TransportReports` |
| `Manager.RelayManager.MonitorSweep` | nostr/relay_manager.py:119-123 | one locked pass of the monitor leaves the registry of `Registry.MonitorSweep` |

## Left out

- The registry lock, the daemon monitor thread, `time.sleep` and the `stop_threads` flag are left out because they exist for concurrency and timing. Each method is the body that runs under the lock. The monitor loop appears as single passes (`MonitorSweep`) and as a run of a given number of cycles (`Registry.MonitorCycles`), standing for the cycles before the stop flag is seen.
- `Relay` internals are left out: sockets, SSL options, the proxy configuration, and what `connect`, `close` and `is_connected` really do. `nostr/relay.py` is not part of this model. `connect` and `close` only count calls here. The liveness flag belongs to the transport. It changes only through a liveness report, `Manager.RelayManager.TransportReport` on the class and `Registry.TransportReports` on the registry, which stand for the transport's own threads.
- `Relay.close_subscription` on an id the relay does not hold is modelled as a no-op, because the relay's own code is not part of this model.
- Sending is modelled as appending to the relay's outbox, which cannot fail. A failing send inside a fan-out loop, and whether it would abort the loop, is not modelled.
- The `ssl_options` and `proxy_config` parameters of `add_relay` are not modelled. They are only passed on to the relay's transport.
- `MessagePool` and the `on_relay_open`/`on_relay_close` callbacks are not modelled. The manager only constructs the pool and hands the pool and the callbacks to each relay.
- `Event.verify()` (Schnorr signature verification) is taken as a parameter `verify: Event -> bool`. JSON serialisation, `Request.to_message()` and `Event.to_message()` are replaced by the abstract messages `ReqMessage`, `CloseMessage` and `EventMessage`.
- The text of each exception message is not modelled. Each raise is a `RelayException` case carrying the url, the event id or the signature that the message would name.
- The order in which a fan-out visits the relays is not modelled: every fan-out property is stated per relay.
- `connection_monitor_interval_secs` (the sleep between cycles) is not modelled, because timing is out of scope.
