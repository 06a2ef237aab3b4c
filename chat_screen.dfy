/**
 * The chat screen's state updaters: what the client does with an incoming
 * message, a read receipt and the typing events, which receipts it sends after
 * loading the history, what it sends from the input box, and the candidate
 * conversation id it derives from the two user ids.
 */
module ChatScreen {
  import opened Options
  import opened JsValues
  import opened Text
  import opened Chat
  import opened SocketRelay

  // ---------------------------------------------------------------------------
  // `message:new`

  /** The `setMessages` updater of `message:new`: a message whose id is already
      listed changes nothing; otherwise it joins the list, sorted by `createdAt`. */
  function AddIncoming(prev: seq<Message>, m: Message): (r: seq<Message>)
    ensures m.id in Ids(prev) ==> r == prev
    ensures m.id !in Ids(prev) ==> Sorted(r) && multiset(r) == multiset(prev) + multiset{m}
  {
    if m.id in Ids(prev) then prev else SortByCreatedAt(prev + [m])
  }

  /** A list without repeated ids keeps that property, and holds the new id afterwards. */
  lemma AddIncomingKeepsIdsDistinct(prev: seq<Message>, m: Message)
    requires DistinctIds(prev)
    ensures DistinctIds(AddIncoming(prev, m))
    ensures Ids(AddIncoming(prev, m)) == Ids(prev) + {m.id}
  {
    if m.id !in Ids(prev) {
      IdsAppend(prev, m);
      SortIds(prev + [m]);
    }
  }

  /** On a list already in order, the updater is an insertion after every
      message that is not later than the new one. */
  lemma AddIncomingToSorted(prev: seq<Message>, m: Message)
    requires Sorted(prev) && m.id !in Ids(prev)
    ensures AddIncoming(prev, m) == Insert(prev, m)
  {
    SortAppend(prev, m);
  }

  /** The same message arriving twice: the second arrival changes nothing. */
  lemma AddIncomingIdempotent(prev: seq<Message>, m: Message)
    ensures AddIncoming(AddIncoming(prev, m), m) == AddIncoming(prev, m)
  {
    if m.id !in Ids(prev) {
      IdsAppend(prev, m);
      SortIds(prev + [m]);
    }
  }

  /** The screen's view after a `message:new` event, and the receipt it emits. */
  datatype Incoming = Incoming(conversationId: Option<ConvId>, messages: seq<Message>, receipt: Option<ReadRequest>)

  /** The `message:new` handler: a message of the current conversation, or any
      message while no conversation is set, is listed, adopts its conversation
      when none is set, and is acknowledged with a `message:read`. */
  function OnMessageNew(current: Option<ConvId>, prev: seq<Message>, m: Message): (r: Incoming)
    ensures r.receipt.Some? <==> current.None? || current.value == m.conversationId
    ensures r.receipt.Some? ==>
              && r.receipt.value == ReadRequest(m.conversationId, m.id)
              && r.conversationId == Some(m.conversationId)
              && r.messages == AddIncoming(prev, m)
    ensures r.receipt.None? ==> r.conversationId == current && r.messages == prev
  {
    if current == Some(m.conversationId) || current.None? then
      Incoming(Some(m.conversationId), AddIncoming(prev, m), Some(ReadRequest(m.conversationId, m.id)))
    else
      Incoming(current, prev, None)
  }

  // ---------------------------------------------------------------------------
  // `message:read`

  /** One message under the `message:read` updater. */
  function MarkReader(msg: Message, messageId: MsgId, userId: UserId): Message {
    if msg.id == messageId && userId !in msg.readBy then msg.(readBy := msg.readBy + [userId]) else msg
  }

  /** The `message:read` updater: `userId` joins the readers of the message with
      id `messageId` unless already there; every other message is unchanged. */
  function ApplyReadReceipt(prev: seq<Message>, messageId: MsgId, userId: UserId): (r: seq<Message>)
    ensures |r| == |prev|
    ensures forall i | 0 <= i < |prev| ::
              && r[i].(readBy := prev[i].readBy) == prev[i]
              && (prev[i].id != messageId ==> r[i] == prev[i])
              && (prev[i].id == messageId ==> userId in r[i].readBy)
              && (prev[i].id == messageId && userId in prev[i].readBy ==> r[i] == prev[i])
              && (prev[i].id == messageId && userId !in prev[i].readBy ==> r[i].readBy == prev[i].readBy + [userId])
              && |prev[i].readBy| <= |r[i].readBy| <= |prev[i].readBy| + 1
              && r[i].readBy[..|prev[i].readBy|] == prev[i].readBy
  {
    seq(|prev|, i requires 0 <= i < |prev| => MarkReader(prev[i], messageId, userId))
  }

  /** Applying the same receipt twice is applying it once. */
  lemma ApplyReadReceiptIdempotent(prev: seq<Message>, messageId: MsgId, userId: UserId)
    ensures ApplyReadReceipt(ApplyReadReceipt(prev, messageId, userId), messageId, userId)
              == ApplyReadReceipt(prev, messageId, userId)
  {
  }

  /** A receipt keeps the readers of every message free of repeats. */
  lemma ApplyReadReceiptNoDuplicates(prev: seq<Message>, messageId: MsgId, userId: UserId)
    requires forall i | 0 <= i < |prev| :: NoDuplicates(prev[i].readBy)
    ensures var r := ApplyReadReceipt(prev, messageId, userId);
      forall i | 0 <= i < |r| :: NoDuplicates(r[i].readBy)
  {
    var r := ApplyReadReceipt(prev, messageId, userId);
    forall i | 0 <= i < |r| ensures NoDuplicates(r[i].readBy) {
      if prev[i].id == messageId && userId !in prev[i].readBy {
        assert r[i].readBy == prev[i].readBy + [userId];
      }
    }
  }

  // ---------------------------------------------------------------------------
  // `typing:start` and `typing:stop`

  /** The `typing:start` updater, for the signed-in user `me`. */
  function TypingStarted(typing: set<UserId>, me: UserId, userId: UserId): (r: set<UserId>)
    ensures userId != me ==> r == typing + {userId}
    ensures userId == me ==> r == typing
  {
    if userId != me then typing + {userId} else typing
  }

  /** The `typing:stop` updater, for the signed-in user `me`. */
  function TypingStopped(typing: set<UserId>, me: UserId, userId: UserId): (r: set<UserId>)
    ensures userId != me ==> r == typing - {userId}
    ensures userId == me ==> r == typing
  {
    if userId != me then typing - {userId} else typing
  }

  /** The signed-in user never shows as typing, whatever events arrive. */
  lemma NeverTypingSelf(typing: set<UserId>, me: UserId, userId: UserId)
    requires me !in typing
    ensures me !in TypingStarted(typing, me, userId) && me !in TypingStopped(typing, me, userId)
  {
  }

  /** A start followed by a stop of another user leaves that user out of the set
      and everybody else as before. */
  lemma StartThenStop(typing: set<UserId>, me: UserId, userId: UserId)
    requires userId != me
    ensures TypingStopped(TypingStarted(typing, me, userId), me, userId) == typing - {userId}
  {
  }

  // ---------------------------------------------------------------------------
  // Receipts after loading the history

  /** The receipts owed for a loaded history: one per message `me` has not read, in list order. */
  function PendingReceipts(msgs: seq<Message>, me: UserId, conversationId: ConvId): (r: seq<ReadRequest>)
    ensures |r| <= |msgs|
    ensures forall q | q in r :: q.conversationId == conversationId
    ensures forall id :: ReadRequest(conversationId, id) in r <==>
              exists i | 0 <= i < |msgs| :: msgs[i].id == id && me !in msgs[i].readBy
  {
    if msgs == [] then []
    else
      var rest := PendingReceipts(msgs[..|msgs| - 1], me, conversationId);
      var last := msgs[|msgs| - 1];
      assert forall i | 0 <= i < |msgs| - 1 :: msgs[..|msgs| - 1][i] == msgs[i];
      if me !in last.readBy then rest + [ReadRequest(conversationId, last.id)] else rest
  }

  /** The `forEach` over the loaded messages, emitting `message:read` for each one `me` has not read. */
  method LoadReceipts(msgs: seq<Message>, me: UserId, conversationId: ConvId) returns (emitted: seq<ReadRequest>)
    ensures emitted == PendingReceipts(msgs, me, conversationId)
  {
    emitted := [];
    var k := 0;
    while k < |msgs|
      invariant 0 <= k <= |msgs|
      invariant emitted == PendingReceipts(msgs[..k], me, conversationId)
    {
      assert msgs[..k + 1][..k] == msgs[..k];
      if me !in msgs[k].readBy {
        emitted := emitted + [ReadRequest(conversationId, msgs[k].id)];
      }
      k := k + 1;
    }
    assert msgs[..|msgs|] == msgs;
  }

  // ---------------------------------------------------------------------------
  // Sending from the input box

  datatype SendAction =
    | NoAction
    | AlertNoConversation
    | EmitSend(conversationId: ConvId, text: string)

  /** `sendMessage`: nothing for blank input, an alert while no conversation is
      set (or it is the empty string), else `message:send` with the trimmed text. */
  function SendMessage(input: string, conversationId: Option<ConvId>): (r: SendAction)
    ensures r == NoAction <==> AllSpace(input)
    ensures r == AlertNoConversation <==> !AllSpace(input) && (conversationId.None? || conversationId.value == "")
    ensures r.EmitSend? ==>
              && Some(r.conversationId) == conversationId && r.conversationId != ""
              && r.text == Trim(input) && r.text != [] && IsTrimmed(r.text)
  {
    TrimEmptyIffAllSpace(input);
    TrimIsTrimmed(input);
    if Trim(input) == [] then NoAction
    else if conversationId.None? || conversationId.value == "" then AlertNoConversation
    else EmitSend(conversationId.value, Trim(input))
  }

  /** The payload the client emits for a send. */
  function SendPayload(a: SendAction): map<string, JsValue>
    requires a.EmitSend?
  {
    map["conversationId" := Str(a.conversationId), "text" := Str(a.text)]
  }

  /** What the client emits passes the relay's shape check exactly when the
      trimmed input has at most 1000 characters; the relay stores it unchanged. */
  lemma ClientSendMeetsServer(input: string, conversationId: Option<ConvId>)
    requires SendMessage(input, conversationId).EmitSend?
    ensures var a := SendMessage(input, conversationId);
      && (ParseSend(SendPayload(a)).Some? <==> |Trim(input)| <= 1000)
      && (ParseSend(SendPayload(a)).Some? ==> Trim(ParseSend(SendPayload(a)).value.text) == a.text)
  {
    var a := SendMessage(input, conversationId);
    var payload := SendPayload(a);
    assert |"conversationId"| != |"text"|;
    assert Get(payload, "conversationId") == Str(a.conversationId);
    assert Get(payload, "text") == Str(a.text);
    TrimIdempotent(input);
  }

  /** The acknowledgement callback: on `ok` the input is cleared; otherwise the
      server's message is shown, or a fallback when it is empty. */
  datatype AfterAck = ClearInput | ShowAlert(alert: string)

  function OnSendAck(ack: Ack): (r: AfterAck)
    ensures ack.AckOk? <==> r == ClearInput
    ensures ack.AckError? && ack.reason != "" ==> r == ShowAlert(ack.reason)
    ensures ack.AckError? && ack.reason == "" ==> r == ShowAlert("Failed to send message")
  {
    match ack
    case AckOk(_) => ClearInput
    case AckError(reason) => ShowAlert(if reason != "" then reason else "Failed to send message")
  }

  /** Every failure the relay acknowledges reaches the user with the relay's own words. */
  lemma RelayErrorsShown(reason: string)
    requires reason in {InvalidData, ConversationNotFound, AccessDenied, ServerError}
    ensures OnSendAck(AckError(reason)) == ShowAlert(reason)
  {
  }

  // ---------------------------------------------------------------------------
  // The candidate conversation id

  /** `[a, b].sort().join("_")`. */
  function ConversationIdCandidate(a: UserId, b: UserId): (r: string)
    ensures r == a + "_" + b || r == b + "_" + a
  {
    if Less(b, a) then b + "_" + a else a + "_" + b
  }

  /** The candidate does not depend on which of the two users computes it. */
  lemma CandidateSymmetric(a: UserId, b: UserId)
    ensures ConversationIdCandidate(a, b) == ConversationIdCandidate(b, a)
  {
    LessTrichotomy(a, b);
  }
}
