/**
 * `GET /conversations/:id/messages`: the history of one conversation, for one of
 * its participants, oldest first. The message collection is given in storage
 * order; the two store queries may fail.
 */
module MessageRoutes {
  import opened Chat

  datatype Body = MessageBody(message: string) | MessageList(messages: seq<Message>)
  datatype Reply = Reply(status: nat, body: Body)

  /** Which of the two store queries throws. */
  datatype HistoryFaults = HistoryFaults(findConversation: bool, findMessages: bool)

  /** `Message.find({ conversationId })`: the stored messages of one conversation, in storage order. */
  function InConversation(store: seq<Message>, conversationId: ConvId): (r: seq<Message>)
    ensures forall m :: m in r <==> m in store && m.conversationId == conversationId
    ensures multiset(r) <= multiset(store)
    ensures |r| <= |store|
  {
    if store == [] then []
    else
      var rest := InConversation(store[..|store| - 1], conversationId);
      var m := store[|store| - 1];
      assert store == store[..|store| - 1] + [m];
      if m.conversationId == conversationId then rest + [m] else rest
  }

  /** The route handler, for the authenticated `userId`. */
  function History(conversations: map<ConvId, Conversation>, store: seq<Message>,
                   conversationId: ConvId, userId: UserId, faults: HistoryFaults): (r: Reply)
    ensures r.status == 404 <==> !faults.findConversation && conversationId !in conversations
    ensures r.status == 403 <==>
              && !faults.findConversation && conversationId in conversations
              && userId !in conversations[conversationId].participants
    ensures r.status == 500 <==>
              || faults.findConversation
              || (&& conversationId in conversations
                  && userId in conversations[conversationId].participants
                  && faults.findMessages)
    ensures r.status in {200, 403, 404, 500}
    ensures r.status != 200 <==> r.body.MessageBody?
    ensures r.status == 404 ==> r.body.message == "Conversation not found"
    ensures r.status == 403 ==> r.body.message == "Access denied"
    ensures r.status == 500 ==> r.body.message == "Server error"
    ensures r.status == 200 ==>
              && Sorted(r.body.messages)
              && multiset(r.body.messages) == multiset(InConversation(store, conversationId))
  {
    if faults.findConversation then Reply(500, MessageBody("Server error"))
    else if conversationId !in conversations then Reply(404, MessageBody("Conversation not found"))
    else if userId !in conversations[conversationId].participants then Reply(403, MessageBody("Access denied"))
    else if faults.findMessages then Reply(500, MessageBody("Server error"))
    else Reply(200, MessageList(SortByCreatedAt(InConversation(store, conversationId))))
  }

  /** A participant receives every stored message of the conversation and nothing else. */
  lemma HistoryIsExactlyTheConversation(conversations: map<ConvId, Conversation>, store: seq<Message>,
                                        conversationId: ConvId, userId: UserId, faults: HistoryFaults, m: Message)
    requires History(conversations, store, conversationId, userId, faults).status == 200
    ensures (m in History(conversations, store, conversationId, userId, faults).body.messages)
              == (m in store && m.conversationId == conversationId)
  {
    var r := History(conversations, store, conversationId, userId, faults);
    assert m in r.body.messages <==> m in multiset(r.body.messages);
    assert m in InConversation(store, conversationId) <==> m in multiset(InConversation(store, conversationId));
  }

  /** The membership check sees only the conversation: the reply to an outsider
      and to a missing conversation never depends on the messages or on the
      message query. */
  lemma RefusalIgnoresMessages(conversations: map<ConvId, Conversation>, s1: seq<Message>, s2: seq<Message>,
                               conversationId: ConvId, userId: UserId, f1: HistoryFaults, f2: HistoryFaults)
    requires f1.findConversation == f2.findConversation
    requires History(conversations, s1, conversationId, userId, f1).status in {403, 404}
    ensures History(conversations, s1, conversationId, userId, f1)
              == History(conversations, s2, conversationId, userId, f2)
  {
  }
}
