/**
 * The real-time relay of one server process: the registry from user id to the
 * live socket id, the conversation and message stores it reads and writes, and
 * the log of events it emits. Each socket-event handler is one method and runs
 * as one atomic step; the awaited store calls that may throw are named by a
 * `Faults` argument.
 */
module SocketRelay {
  import opened Options
  import opened Text
  import opened JsValues
  import opened Chat

  type SocketId = string

  /** What a connection's handlers close over: the authenticated user id and the socket id. */
  datatype Session = Session(userId: UserId, socketId: SocketId)

  datatype TypingKind = TypingStart | TypingStop

  /** Server-to-client events. */
  datatype Event =
    | MessageNew(message: Message)
    | Typing(kind: TypingKind, conversationId: ConvId, userId: UserId)
    | MessageRead(conversationId: ConvId, messageId: MsgId, userId: UserId)

  /** One emit: the event and the socket it is addressed to. */
  datatype Outbound = Outbound(to: SocketId, event: Event)

  /** The acknowledgement passed to the `message:send` callback. */
  datatype Ack = AckOk(message: Message) | AckError(reason: string)

  const InvalidData := "Invalid data"
  const ConversationNotFound := "Conversation not found"
  const AccessDenied := "Access denied"
  const ServerError := "Server error"

  /** Which awaited store call throws during one handler run. A rejected
      `save` also covers a duplicate document id. */
  datatype Faults = Faults(findConversation: bool, findMessage: bool, save: bool)

  datatype SendRequest = SendRequest(conversationId: ConvId, text: string)

  /** The shape check of `message:send` on an object payload: both fields non-empty
      strings, the text not blank once trimmed, and at most 1000 characters before trimming. */
  function ParseSend(fields: map<string, JsValue>): Option<SendRequest> {
    var cid := NonEmptyString(Get(fields, "conversationId"));
    var text := NonEmptyString(Get(fields, "text"));
    if cid.Some? && text.Some? && Trim(text.value) != [] && |text.value| <= 1000
    then Some(SendRequest(cid.value, text.value))
    else None
  }

  /** The shape check of `typing:*`: the conversation id, when it is a non-empty string. */
  function ParseTyping(data: Payload): Option<ConvId> {
    if data.Nullish? then None else NonEmptyString(Get(data.fields, "conversationId"))
  }

  datatype ReadRequest = ReadRequest(conversationId: ConvId, messageId: MsgId)

  /** The shape check of `message:read`. */
  function ParseRead(data: Payload): Option<ReadRequest> {
    if data.Nullish? then None
    else
      var cid := NonEmptyString(Get(data.fields, "conversationId"));
      var mid := NonEmptyString(Get(data.fields, "messageId"));
      if cid.Some? && mid.Some? then Some(ReadRequest(cid.value, mid.value)) else None
  }

  /** `message:send` accepts exactly the payloads whose two fields are non-empty
      strings, the text non-blank and at most 1000 characters, and returns those strings. */
  lemma ParseSendExact(fields: map<string, JsValue>, req: SendRequest)
    ensures ParseSend(fields).Some? <==>
              && Get(fields, "conversationId").Str? && Get(fields, "conversationId").s != ""
              && Get(fields, "text").Str? && Trim(Get(fields, "text").s) != [] && |Get(fields, "text").s| <= 1000
    ensures ParseSend(fields) == Some(req) <==>
              && Get(fields, "conversationId") == Str(req.conversationId) && req.conversationId != ""
              && Get(fields, "text") == Str(req.text) && Trim(req.text) != [] && |req.text| <= 1000
  {
  }

  /** `typing:*` accepts exactly the payloads whose conversation id is a non-empty string. */
  lemma ParseTypingExact(data: Payload, cid: ConvId)
    ensures ParseTyping(data) == Some(cid) <==> data.Fields? && Get(data.fields, "conversationId") == Str(cid) && cid != ""
  {
  }

  /** `message:read` accepts exactly the object payloads whose two ids are non-empty strings. */
  lemma ParseReadExact(data: Payload, req: ReadRequest)
    ensures ParseRead(data) == Some(req) <==>
              && data.Fields?
              && Get(data.fields, "conversationId") == Str(req.conversationId) && req.conversationId != ""
              && Get(data.fields, "messageId") == Str(req.messageId) && req.messageId != ""
  {
  }

  /** The emit to the counterpart's live socket, if the registry has one. */
  function Route(registry: map<UserId, SocketId>, participants: seq<UserId>, me: UserId, ev: Event): seq<Outbound> {
    var p := Counterpart(participants, me);
    if p.Some? && p.value in registry then [Outbound(registry[p.value], ev)] else []
  }

  /** Routing addresses at most one socket: that of the first participant other
      than `me`, and only when that participant is registered. */
  lemma RouteTargets(registry: map<UserId, SocketId>, participants: seq<UserId>, me: UserId, ev: Event)
    ensures |Route(registry, participants, me, ev)| <= 1
    ensures Route(registry, participants, me, ev) != [] <==>
      exists i | 0 <= i < |participants| ::
        && participants[i] != me && participants[i] in registry
        && (forall j | 0 <= j < i :: participants[j] == me)
    ensures forall o | o in Route(registry, participants, me, ev) ::
      o.event == ev && exists p | p in registry && p in participants :: p != me && o.to == registry[p]
  {
    var p := Counterpart(participants, me);
    if p.Some? {
      var i :| 0 <= i < |participants| && participants[i] == p.value && p.value != me
        && forall j | 0 <= j < i :: participants[j] == me;
      if exists k | 0 <= k < |participants| ::
          && participants[k] != me && participants[k] in registry
          && (forall j | 0 <= j < k :: participants[j] == me) {
        var k :| 0 <= k < |participants| && participants[k] != me && participants[k] in registry
          && (forall j | 0 <= j < k :: participants[j] == me);
        assert !(k < i) && !(i < k);
      }
    }
  }

  /** In a conversation of three, a message from the first party reaches the second
      only: the relay addresses one counterpart, never all other participants. */
  lemma OnlyOneCounterpart(registry: map<UserId, SocketId>, a: UserId, b: UserId, c: UserId, ev: Event)
    requires a != b && a != c && b in registry && c in registry
    ensures Route(registry, [a, b, c], a, ev) == [Outbound(registry[b], ev)]
  {
    assert Counterpart([a, b, c], a) == Some(b);
  }

  /** A message document created by `message:send` satisfies the schema. */
  lemma AcceptedTextFitsSchema(text: string)
    requires Trim(text) != [] && |text| <= 1000
    ensures IsTrimmed(Trim(text)) && 1 <= |Trim(text)| <= 1000
  {
    var _, _ := TrimShape(text);
  }

  /** The length limit applies to the text as sent, not as trimmed: one letter followed
      by a thousand spaces is refused although it trims to one character. */
  lemma UntrimmedLengthCounts(cid: ConvId)
    requires cid != ""
    ensures var text := "a" + seq(1000, _ => ' ');
      && |Trim(text)| == 1
      && ParseSend(map["conversationId" := Str(cid), "text" := Str(text)]) == None
  {
    var text := "a" + seq(1000, _ => ' ');
    var i, j := TrimShape(text);
  }

  /** Every conversation is filed under its own id and has at least two participants. */
  predicate ConversationsOk(conversations: map<ConvId, Conversation>) {
    forall c | c in conversations :: conversations[c].id == c && |conversations[c].participants| >= 2
  }

  /** Every message is filed under its own id and is `WellFormed`: the message
      schema's text limits, the sender among the readers, no reader twice. */
  predicate MessagesOk(messages: map<MsgId, Message>) {
    forall k | k in messages :: messages[k].id == k && WellFormed(messages[k])
  }

  /** Storing a well-formed message under its own id keeps the collection valid. */
  lemma StoreKeepsMessagesOk(messages: map<MsgId, Message>, m: Message)
    requires MessagesOk(messages) && WellFormed(m)
    ensures MessagesOk(messages[m.id := m])
  {
  }

  /** A new reader keeps a message well formed. */
  lemma AddReaderKeepsWellFormed(m: Message, u: UserId)
    requires WellFormed(m) && u !in m.readBy
    ensures WellFormed(m.(readBy := m.readBy + [u]))
  {
    var r := m.readBy + [u];
    forall i, j | 0 <= i < j < |r| ensures r[i] != r[j] {
      if j == |r| - 1 { assert r[i] in m.readBy; }
    }
  }

  class Relay {
    /** `userSocketsMap`: user id to the socket id registered last. */
    var sockets: map<UserId, SocketId>
    /** The conversation collection; the relay only reads it. */
    const conversations: map<ConvId, Conversation>
    /** The message collection, by document id. */
    var messages: map<MsgId, Message>
    /** Every event emitted so far, oldest first. */
    var log: seq<Outbound>

    ghost predicate Valid()
      reads this`messages
    {
      ConversationsOk(conversations) && MessagesOk(messages)
    }

    constructor (conversations: map<ConvId, Conversation>, messages: map<MsgId, Message>)
      requires ConversationsOk(conversations) && MessagesOk(messages)
      ensures Valid()
      ensures this.conversations == conversations && this.messages == messages
      ensures sockets == map[] && log == []
    {
      this.conversations := conversations;
      this.messages := messages;
      sockets := map[];
      log := [];
    }

    /** The `connection` hook: registers the socket, overwriting any earlier one. */
    method Connect(me: Session)
      modifies this`sockets
      ensures sockets == old(sockets)[me.userId := me.socketId]
    {
      sockets := sockets[me.userId := me.socketId];
    }

    /** The `disconnect` handler: removes the user's entry whichever socket it names. */
    method Disconnect(me: Session)
      modifies this`sockets
      ensures sockets == old(sockets) - {me.userId}
    {
      sockets := sockets - {me.userId};
    }

    /** Corrected `disconnect`: removes the entry only while it still names this socket. */
    method DisconnectIfCurrent(me: Session)
      modifies this`sockets
      ensures me.userId in old(sockets) && old(sockets)[me.userId] == me.socketId ==>
                sockets == old(sockets) - {me.userId}
      ensures !(me.userId in old(sockets) && old(sockets)[me.userId] == me.socketId) ==>
                sockets == old(sockets)
    {
      if me.userId in sockets && sockets[me.userId] == me.socketId {
        sockets := sockets - {me.userId};
      }
    }

    /** The conditions under which `message:send` stores and delivers: an object
        payload that passes the shape check, a conversation that exists and has
        `me` as a participant, and no store failure. */
    ghost predicate SendAccepted(me: Session, data: Payload, faults: Faults, newId: MsgId)
      reads this`messages
    {
      && data.Fields? && ParseSend(data.fields).Some?
      && !faults.findConversation && !faults.save && newId !in messages
      && var cid := ParseSend(data.fields).value.conversationId;
         cid in conversations && me.userId in conversations[cid].participants
    }

    /** `message:send`: validate, find the conversation, check membership, persist,
        echo to the sender, deliver to the counterpart, acknowledge. */
    method Send(me: Session, data: Payload, faults: Faults, newId: MsgId, now: nat) returns (ack: Ack)
      requires Valid()
      modifies this`messages, this`log
      ensures Valid()
      ensures ack.AckOk? <==> old(SendAccepted(me, data, faults, newId))
      ensures ack.AckError? ==> messages == old(messages) && log == old(log)
      ensures data.Nullish? ==> ack == AckError(ServerError)
      ensures data.Fields? && ParseSend(data.fields).None? ==> ack == AckError(InvalidData)
      ensures data.Fields? && ParseSend(data.fields).Some? && !ack.AckOk? ==>
        var cid := ParseSend(data.fields).value.conversationId;
        if faults.findConversation then ack == AckError(ServerError)
        else if cid !in conversations then ack == AckError(ConversationNotFound)
        else if me.userId !in conversations[cid].participants then ack == AckError(AccessDenied)
        else ack == AckError(ServerError)
      ensures ack.AckOk? ==>
        var req := ParseSend(data.fields).value;
        var stored := Message(newId, req.conversationId, me.userId, Trim(req.text), [me.userId], now);
        && ack == AckOk(stored)
        && messages == old(messages)[newId := stored]
        && log == old(log) + [Outbound(me.socketId, MessageNew(stored))]
                  + Route(sockets, conversations[req.conversationId].participants, me.userId, MessageNew(stored))
    {
      if data.Nullish? {
        // destructuring `null` throws inside the try block
        return AckError(ServerError);
      }
      var req := ParseSend(data.fields);
      if req.None? {
        return AckError(InvalidData);
      }
      var cid, text := req.value.conversationId, req.value.text;
      if faults.findConversation {
        return AckError(ServerError);
      }
      if cid !in conversations {
        return AckError(ConversationNotFound);
      }
      var conversation := conversations[cid];
      if me.userId !in conversation.participants {
        return AckError(AccessDenied);
      }
      var message := Message(newId, cid, me.userId, Trim(text), [me.userId], now);
      if faults.save || newId in messages {
        return AckError(ServerError);
      }
      AcceptedTextFitsSchema(text);
      StoreKeepsMessagesOk(messages, message);
      messages := messages[newId := message];
      // the echo to the sender's own socket, then the counterpart's copy
      log := log + [Outbound(me.socketId, MessageNew(message))];
      log := log + Route(sockets, conversation.participants, me.userId, MessageNew(message));
      ack := AckOk(message);
    }

    /** `typing:start` and `typing:stop`: forwarded to the counterpart, never stored;
        every failure is silent. */
    method RelayTyping(kind: TypingKind, me: Session, data: Payload, faults: Faults)
      modifies this`log
      ensures var cid := ParseTyping(data);
        if cid.None? || faults.findConversation || cid.value !in conversations
           || me.userId !in conversations[cid.value].participants
        then log == old(log)
        else log == old(log) + Route(sockets, conversations[cid.value].participants, me.userId,
                                     Typing(kind, cid.value, me.userId))
    {
      var cid := ParseTyping(data);
      if cid.None? || faults.findConversation || cid.value !in conversations {
        return;
      }
      var conversation := conversations[cid.value];
      if me.userId !in conversation.participants {
        return;
      }
      var recipient := Counterpart(conversation.participants, me.userId);
      if recipient.Some? && recipient.value in sockets {
        log := log + [Outbound(sockets[recipient.value], Typing(kind, cid.value, me.userId))];
      }
    }

    /** The conditions under which `message:read` records a new reader: a valid
        payload, a conversation that has `me` as a participant, a message that
        exists and that `me` has not read yet, and no store failure. */
    ghost predicate ReadRecorded(me: Session, data: Payload, faults: Faults)
      reads this`messages
    {
      && ParseRead(data).Some? && !faults.findConversation && !faults.findMessage && !faults.save
      && var req := ParseRead(data).value;
         && req.conversationId in conversations
         && me.userId in conversations[req.conversationId].participants
         && req.messageId in messages
         && me.userId !in messages[req.messageId].readBy
    }

    /** `message:read`: adds the reader once, saves, notifies the counterpart.
        The message's own conversation is not compared with the payload's. */
    method MarkRead(me: Session, data: Payload, faults: Faults)
      requires Valid()
      modifies this`messages, this`log
      ensures Valid()
      ensures !old(ReadRecorded(me, data, faults)) ==> messages == old(messages) && log == old(log)
      ensures old(ReadRecorded(me, data, faults)) ==>
        var req := ParseRead(data).value;
        var mid, cid := req.messageId, req.conversationId;
        && messages == old(messages)[mid := old(messages)[mid].(readBy := old(messages)[mid].readBy + [me.userId])]
        && log == old(log) + Route(sockets, conversations[cid].participants, me.userId,
                                   MessageRead(cid, mid, me.userId))
    {
      var req := ParseRead(data);
      if req.None? || faults.findConversation || req.value.conversationId !in conversations {
        return;
      }
      var cid, mid := req.value.conversationId, req.value.messageId;
      var conversation := conversations[cid];
      if me.userId !in conversation.participants {
        return;
      }
      if faults.findMessage || mid !in messages {
        return;
      }
      var message := messages[mid];
      if me.userId in message.readBy {
        return;
      }
      var updated := message.(readBy := message.readBy + [me.userId]);
      if faults.save {
        // the pushed reader is lost with the failed save
        return;
      }
      AddReaderKeepsWellFormed(message, me.userId);
      StoreKeepsMessagesOk(messages, updated);
      messages := messages[mid := updated];
      var recipient := Counterpart(conversation.participants, me.userId);
      if recipient.Some? && recipient.value in sockets {
        log := log + [Outbound(sockets[recipient.value], MessageRead(cid, mid, me.userId))];
      }
    }
  }
}
