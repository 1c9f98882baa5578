/**
 The relay handle as the relay manager sees it.

 A relay is a foreign object owned by the transport layer. The manager only
 reads its policy and liveness, records subscriptions on it, hands it client
 messages to send, and asks it to connect, reconnect or close. Here a relay is
 a plain record: the messages it was asked to send pile up in `outbox`, and the
 lifecycle calls it received are counted.
 */
module Relays {

  datatype Option<+T> = None | Some(value: T)

  /** What the manager may do with a relay; fixed when the relay is added. */
  datatype RelayPolicy = RelayPolicy(shouldRead: bool, shouldWrite: bool)

  /** The default policy of `add_relay`: read and write. */
  const DefaultPolicy := RelayPolicy(true, true)

  /** A subscription query; each item stands for one serialised filter object. */
  datatype Filters = Filters(items: seq<string>)

  /** A caller's subscription: an identifier paired with its filters. */
  datatype Subscription = Subscription(id: string, filters: Filters)

  /** An outbound event. Its signature is optional until the event is signed. */
  datatype Event = Event(id: string, content: string, signature: Option<string>)

  /**
   The client-to-relay messages of NIP-01 that the manager emits:
   `["REQ", id, filters...]`, `["CLOSE", id]` and `["EVENT", event]`.
   */
  datatype ClientMessage =
    | ReqMessage(subscriptionId: string, filters: Filters)
    | CloseMessage(subscriptionId: string)
    | EventMessage(event: Event)

  datatype Relay = Relay(
    url: string,
    policy: RelayPolicy,
    connected: bool,                      // what `is_connected()` reports
    subscriptions: map<string, Filters>,  // subscription id to its filters
    outbox: seq<ClientMessage>,           // every message handed to `publish`, in order
    connectCalls: nat,                    // calls of `connect()`
    reconnectCalls: nat,                  // calls of `connect(True)`
    closeCalls: nat)                      // calls of `close()`

  /** A relay handle just constructed: not connected, nothing recorded or sent. */
  function NewRelay(url: string, policy: RelayPolicy): Relay
  {
    Relay(url, policy, false, map[], [], 0, 0, 0)
  }

  /**
   `connect(is_reconnect)`. Whether the connection comes up is the transport's
   business: the liveness flag is not changed here.
   */
  function Connect(r: Relay, isReconnect: bool): Relay
  {
    if isReconnect then r.(reconnectCalls := r.reconnectCalls + 1)
    else r.(connectCalls := r.connectCalls + 1)
  }

  /** `close()`. */
  function Close(r: Relay): Relay
  {
    r.(closeCalls := r.closeCalls + 1)
  }

  /** `is_connected()`. */
  predicate IsConnected(r: Relay)
  {
    r.connected
  }

  /** `add_subscription(id, filters)`: records (or replaces) the subscription. */
  function AddSubscription(r: Relay, id: string, filters: Filters): Relay
  {
    r.(subscriptions := r.subscriptions[id := filters])
  }

  /** `close_subscription(id)`: forgets the subscription. */
  function CloseSubscription(r: Relay, id: string): Relay
  {
    r.(subscriptions := r.subscriptions - {id})
  }

  /** `publish(message)`: hands one message to the relay's outbound stream. */
  function Publish(r: Relay, message: ClientMessage): Relay
  {
    r.(outbox := r.outbox + [message])
  }
}
