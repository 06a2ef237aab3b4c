/**
 * Interleavings of relay events, each run on a relay of its own: what the
 * registry resolves after reconnects and disconnects, and a two-party exchange
 * of a message and its read receipt.
 */
module RelayScenarios {
  import opened Options
  import opened JsValues
  import opened Chat
  import opened SocketRelay

  function Resolve(registry: map<UserId, SocketId>, u: UserId): Option<SocketId> {
    if u in registry then Some(registry[u]) else None
  }

  /** A second connection replaces the first: the user resolves to the newest socket. */
  method Reconnect(u: UserId, s1: SocketId, s2: SocketId) returns (resolved: Option<SocketId>)
    ensures resolved == Some(s2)
  {
    var relay := new Relay(map[], map[]);
    relay.Connect(Session(u, s1));
    relay.Connect(Session(u, s2));
    resolved := Resolve(relay.sockets, u);
  }

  /** Connect on `s1`, connect on `s2`, then the delayed disconnect of `s1`:
      the user is no longer reachable although `s2` is still live. */
  method StaleDisconnect(u: UserId, s1: SocketId, s2: SocketId) returns (resolved: Option<SocketId>)
    ensures resolved == None
  {
    var relay := new Relay(map[], map[]);
    relay.Connect(Session(u, s1));
    relay.Connect(Session(u, s2));
    relay.Disconnect(Session(u, s1));
    resolved := Resolve(relay.sockets, u);
  }

  /** The same interleaving with the corrected disconnect keeps the newer socket. */
  method StaleDisconnectIfCurrent(u: UserId, s1: SocketId, s2: SocketId) returns (resolved: Option<SocketId>)
    requires s1 != s2
    ensures resolved == Some(s2)
  {
    var relay := new Relay(map[], map[]);
    relay.Connect(Session(u, s1));
    relay.Connect(Session(u, s2));
    relay.DisconnectIfCurrent(Session(u, s1));
    resolved := Resolve(relay.sockets, u);
  }

  /** Delivering the same read receipt twice: the second run stores and emits nothing. */
  method ReceiptTwice(relay: Relay, me: Session, data: Payload, faults: Faults)
    returns (storedOnce: map<MsgId, Message>, logOnce: seq<Outbound>)
    requires relay.Valid()
    modifies relay`messages, relay`log
    ensures relay.Valid()
    ensures relay.messages == storedOnce && relay.log == logOnce
    ensures forall k | k in old(relay.messages) :: k in storedOnce &&
              |old(relay.messages)[k].readBy| <= |storedOnce[k].readBy|
  {
    relay.MarkRead(me, data, faults);
    storedOnce, logOnce := relay.messages, relay.log;
    relay.MarkRead(me, data, faults);
  }

  /** The `message:send` payload the client emits for `text` in `cid`; it passes
      the relay's shape check. */
  method SendBody(cid: ConvId, text: string) returns (data: Payload)
    requires cid != "" && Text.Trim(text) != [] && |text| <= 1000
    ensures data.Fields? && ParseSend(data.fields) == Some(SendRequest(cid, text))
  {
    var send := map["conversationId" := Str(cid), "text" := Str(text)];
    assert "conversationId"[0] != "text"[0];
    assert Get(send, "conversationId") == Str(cid);
    assert Get(send, "text") == Str(text);
    assert text != [];
    data := Fields(send);
  }

  /** The `message:read` payload the client emits for message `mid` of `cid`; it
      passes the relay's shape check. */
  method ReadBody(cid: ConvId, mid: MsgId) returns (data: Payload)
    requires cid != "" && mid != ""
    ensures ParseRead(data) == Some(ReadRequest(cid, mid))
  {
    var read := map["conversationId" := Str(cid), "messageId" := Str(mid)];
    assert "conversationId"[0] != "messageId"[0];
    assert Get(read, "conversationId") == Str(cid);
    assert Get(read, "messageId") == Str(mid);
    data := Fields(read);
  }

  /** Both members of a two-party conversation are connected. */
  predicate PairConnected(registry: map<UserId, SocketId>, a: UserId, b: UserId, sa: SocketId, sb: SocketId) {
    a in registry && registry[a] == sa && b in registry && registry[b] == sb
  }

  /** In a two-party conversation whose members are both connected, an event
      from one member is routed to the other member's socket only. */
  lemma RouteInPair(registry: map<UserId, SocketId>, a: UserId, b: UserId, sa: SocketId, sb: SocketId, ev: Event)
    requires a != b && PairConnected(registry, a, b, sa, sb)
    ensures Route(registry, [a, b], a, ev) == [Outbound(sb, ev)]
    ensures Route(registry, [a, b], b, ev) == [Outbound(sa, ev)]
  {
    CounterpartOfPair(a, b);
  }

  /** The counterpart's receipt, routed after the two copies of the message. */
  lemma ReceiptAfterEcho(log: seq<Outbound>, a: UserId, b: UserId, sa: SocketId, sb: SocketId, sent: Event, ev: Event)
    requires a != b
    requires log == [Outbound(sa, sent), Outbound(sb, sent)] + Route(map[a := sa, b := sb], [a, b], b, ev)
    ensures log == [Outbound(sa, sent), Outbound(sb, sent), Outbound(sa, ev)]
  {
    RouteInPair(map[a := sa, b := sb], a, b, sa, sb, ev);
  }

  /** The sender's echo followed by the routed copy, in a connected pair. */
  lemma EchoThenCounterpart(log: seq<Outbound>, a: UserId, b: UserId, sa: SocketId, sb: SocketId, ev: Event)
    requires a != b
    requires log == [] + [Outbound(sa, ev)] + Route(map[a := sa, b := sb], [a, b], a, ev)
    ensures log == [Outbound(sa, ev), Outbound(sb, ev)]
  {
    RouteInPair(map[a := sa, b := sb], a, b, sa, sb, ev);
  }

  /** The message the relay stores when `a` sends `text` to `cid`. */
  function Posted(newId: MsgId, cid: ConvId, a: UserId, text: string, now: nat): Message {
    Message(newId, cid, a, Text.Trim(text), [a], now)
  }

  /** The relay holds only the conversation `cid` of `a` and `b`, no message and
      an empty log, and has `a` connected on `sa` and `b` on `sb`. */
  ghost predicate PairState(relay: Relay, a: UserId, b: UserId, sa: SocketId, sb: SocketId, cid: ConvId)
    reads relay
  {
    && relay.Valid()
    && relay.conversations == map[cid := Conversation(cid, [a, b])] && relay.messages == map[]
    && relay.sockets == map[a := sa, b := sb] && relay.log == []
  }

  /** The same relay after `a` has posted `m`: `m` is the only message and both
      sockets have received it, the sender's first. */
  ghost predicate SentState(relay: Relay, a: UserId, b: UserId, sa: SocketId, sb: SocketId, cid: ConvId, m: Message)
    reads relay
  {
    && relay.Valid()
    && relay.conversations == map[cid := Conversation(cid, [a, b])] && relay.messages == map[m.id := m]
    && relay.sockets == map[a := sa, b := sb]
    && relay.log == [Outbound(sa, MessageNew(m)), Outbound(sb, MessageNew(m))]
  }

  /** A fresh relay holding one conversation between `a` and `b`, both connected. */
  method PairRelay(a: UserId, b: UserId, sa: SocketId, sb: SocketId, cid: ConvId) returns (relay: Relay)
    requires a != b
    ensures fresh(relay) && PairState(relay, a, b, sa, sb, cid)
  {
    relay := new Relay(map[cid := Conversation(cid, [a, b])], map[]);
    relay.Connect(Session(a, sa));
    relay.Connect(Session(b, sb));
    assert relay.sockets == map[a := sa, b := sb];
  }

  /** An accepted `message:send` request `req` from `me`, with no store call failing:
      the message is stored under `newId`, echoed to `me` and routed. */
  method SendAcceptedRequest(relay: Relay, me: Session, data: Payload, req: SendRequest, newId: MsgId, now: nat)
    returns (ack: Ack)
    requires relay.Valid() && data.Fields? && ParseSend(data.fields) == Some(req)
    requires relay.SendAccepted(me, data, Faults(false, false, false), newId)
    modifies relay`messages, relay`log
    ensures relay.Valid()
    ensures var stored := Message(newId, req.conversationId, me.userId, Text.Trim(req.text), [me.userId], now);
      && ack == AckOk(stored)
      && relay.messages == old(relay.messages)[newId := stored]
      && relay.log == old(relay.log) + [Outbound(me.socketId, MessageNew(stored))]
           + Route(relay.sockets, relay.conversations[req.conversationId].participants, me.userId, MessageNew(stored))
  {
    ack := relay.Send(me, data, Faults(false, false, false), newId, now);
  }

  /** In the pair state a well-formed send from `a` to `cid` is accepted when no store call fails. */
  lemma PairSendAccepted(relay: Relay, a: UserId, b: UserId, sa: SocketId, sb: SocketId, cid: ConvId,
                         text: string, data: Payload, newId: MsgId)
    requires PairState(relay, a, b, sa, sb, cid)
    requires data.Fields? && ParseSend(data.fields) == Some(SendRequest(cid, text))
    ensures relay.SendAccepted(Session(a, sa), data, Faults(false, false, false), newId)
  {
    assert a in relay.conversations[cid].participants;
  }

  /** The relay after storing `m` in an empty store and logging its echo and routed copy. */
  lemma PairSent(relay: Relay, a: UserId, b: UserId, sa: SocketId, sb: SocketId, cid: ConvId, m: Message)
    requires a != b && relay.Valid()
    requires relay.conversations == map[cid := Conversation(cid, [a, b])] && relay.sockets == map[a := sa, b := sb]
    requires relay.messages == map[][m.id := m]
    requires relay.log == [] + [Outbound(sa, MessageNew(m))] + Route(relay.sockets, relay.conversations[cid].participants, a, MessageNew(m))
    ensures SentState(relay, a, b, sa, sb, cid, m)
  {
    EchoThenCounterpart(relay.log, a, b, sa, sb, MessageNew(m));
  }

  /** `a`, connected on `sa`, sends `text` to the conversation it shares with `b`:
      the ack carries the stored message, which reaches `a`'s socket, then `b`'s. */
  method SendInPair(relay: Relay, a: UserId, b: UserId, sa: SocketId, sb: SocketId, cid: ConvId,
                    text: string, data: Payload, newId: MsgId, now: nat) returns (sent: Ack)
    requires a != b && PairState(relay, a, b, sa, sb, cid)
    requires data.Fields? && ParseSend(data.fields) == Some(SendRequest(cid, text))
    modifies relay`messages, relay`log
    ensures sent == AckOk(Posted(newId, cid, a, text, now))
    ensures SentState(relay, a, b, sa, sb, cid, Posted(newId, cid, a, text, now))
  {
    PairSendAccepted(relay, a, b, sa, sb, cid, text, data, newId);
    sent := SendAcceptedRequest(relay, Session(a, sa), data, SendRequest(cid, text), newId, now);
    PairSent(relay, a, b, sa, sb, cid, Posted(newId, cid, a, text, now));
  }

  /** `b`, connected on `sb`, reads the message `a` posted: `b` joins its readers
      and `a`'s socket alone is told. */
  method ReadInPair(relay: Relay, a: UserId, b: UserId, sa: SocketId, sb: SocketId, cid: ConvId,
                    m: Message, data: Payload)
    requires a != b && SentState(relay, a, b, sa, sb, cid, m) && m.readBy == [a]
    requires ParseRead(data) == Some(ReadRequest(cid, m.id))
    modifies relay`messages, relay`log
    ensures relay.Valid()
    ensures relay.messages == map[m.id := m.(readBy := [a, b])]
    ensures relay.log == [Outbound(sa, MessageNew(m)), Outbound(sb, MessageNew(m)), Outbound(sa, MessageRead(cid, m.id, b))]
  {
    assert b in relay.conversations[cid].participants;
    assert relay.ReadRecorded(Session(b, sb), data, Faults(false, false, false));
    relay.MarkRead(Session(b, sb), data, Faults(false, false, false));
    assert [a] + [b] == [a, b];
    ReceiptAfterEcho(relay.log, a, b, sa, sb, MessageNew(m), MessageRead(cid, m.id, b));
  }

  /** `a` and `b` share conversation `cid` and are both connected. `a` sends `text`;
      both sockets receive the stored message; `b`'s read receipt reaches `a`'s socket
      alone, and both are then among the readers. */
  method TwoPartyExchange(a: UserId, b: UserId, sa: SocketId, sb: SocketId, cid: ConvId,
                          text: string, newId: MsgId, now: nat)
    returns (sent: Ack, delivered: seq<Outbound>, readers: seq<UserId>)
    requires a != b && cid != "" && newId != ""
    requires Text.Trim(text) != [] && |text| <= 1000
    ensures sent == AckOk(Posted(newId, cid, a, text, now))
    ensures delivered == [Outbound(sa, MessageNew(Posted(newId, cid, a, text, now))),
                          Outbound(sb, MessageNew(Posted(newId, cid, a, text, now))),
                          Outbound(sa, MessageRead(cid, newId, b))]
    ensures readers == [a, b]
  {
    var sendData := SendBody(cid, text);
    var readData := ReadBody(cid, newId);
    var relay := PairRelay(a, b, sa, sb, cid);
    sent := SendInPair(relay, a, b, sa, sb, cid, text, sendData, newId, now);
    var m := Posted(newId, cid, a, text, now);
    ReadInPair(relay, a, b, sa, sb, cid, m, readData);
    delivered := relay.log;
    readers := relay.messages[newId].readBy;
  }
}
