# Chat relay and client reducers, in Dafny

This project models the core of a two-party chat application. It has a Node
back end and a React Native client. Everything the back end does in real time
goes through one socket.io handler:

- a module-level registry maps each user id to the socket id registered last;
- `message:send` validates the payload, finds the conversation and checks that
  the sender takes part in it. It then stores the message, echoes it to the
  sender, delivers it to the first other participant when that participant is
  connected, and acknowledges the call;
- `typing:start` and `typing:stop` are forwarded the same way and never stored;
- `message:read` adds the reader to `readBy` once, saves, and notifies the
  counterpart.

The model is `SocketRelay.Relay`, a class over the registry, the conversation
store, the message store and an outbound event log. Its methods are the
handlers. Each handler runs as one atomic step from its first line to its
acknowledgement, and each store call that can throw is a boolean in a `Faults`
argument.

Around the relay, the model also covers:

- the handshake middleware that guards registration (`AuthGate`);
- the history route (`MessageRoutes`);
- the register and login routes (`AuthRoutes`);
- the client's state updaters, its receipt and send logic (`ChatScreen`);
- the registration form (`RegisterScreen`);
- the 12-hour clock formatter (`FormatDate`).

Shared modules:

- `Text`: JavaScript's `trim`, white space and decimal digits;
- `JsValues`: JavaScript truthiness and payload objects;
- `EmailPattern`: the e-mail regular expression, run as an automaton and proved
  equal to a direct reading of the pattern;
- `Chat`: the documents, the counterpart choice, and a sort by `createdAt`
  that keeps ties in their original order (`Chat.LatestGoesLast`).

The invariant `Relay.Valid` combines two kinds of facts. Two come from the
mongoose schemas: a stored text is trimmed and has 1 to 1000 characters
(`backend/src/models/Message.js:15-20`), and a conversation has at least two
participants (`backend/src/models/Conversation.js:13`). Three more are kept by
the handlers themselves, not by any schema: the sender of a message is among
its readers (`backend/src/sockets/socketHandler.js:44-49`), no reader appears
twice (`backend/src/sockets/socketHandler.js:163-165`), and every stored
document is filed under its own id. The constructor requires all five facts of
the stores it is given, and every handler keeps them.

Several behaviours of the code that a reader may not expect are kept as written:

- The length limit of `message:send` applies to the text as received, before
  trimming. `SocketRelay.UntrimmedLengthCounts` shows a text that trims to one
  character and is still refused.
- `disconnect` removes the user's entry without checking whose socket it
  names. See "Findings".
- `readBy` is an array kept free of repeats, not a set.
- A `null` payload of `message:send` throws during destructuring inside the
  `try`, so it is acknowledged with "Server error", not "Invalid data".
- The client form has no upper bound on the username, and the server allows at
  most 30 characters. `RegisterScreen.SubmissionMeetsServer` and
  `RegisterScreen.LongUsernameRefused` state this.

## Model

| member | source | states |
|---|---|---|
| `SocketRelay.Relay.Connect` | backend/src/sockets/socketHandler.js:4-8 | the registry maps the user to this socket, replacing any earlier entry; nothing else changes |
| `SocketRelay.Relay.Disconnect` | backend/src/sockets/socketHandler.js:12-14 | as written: the user's entry is removed whichever socket it names |
| `SocketRelay.Relay.DisconnectIfCurrent` | backend/src/sockets/socketHandler.js:12-14 | corrected: the entry is removed only while it still names the disconnecting socket, otherwise the registry is unchanged |
| `SocketRelay.Relay.Send` | backend/src/sockets/socketHandler.js:16-81 | the ack is ok exactly when the payload is valid, the conversation exists, the sender takes part and no store call fails. It then carries the stored message: trimmed text, the sender as sender and as sole reader. The store gains exactly that message, and the log gains the echo to the sender followed by the copy routed to the counterpart. A `null` payload, an invalid payload, a missing conversation, an outsider and a store failure give "Server error", "Invalid data", "Conversation not found", "Access denied" and "Server error" in that order, and every error leaves the store and the log unchanged |
| `SocketRelay.Relay.RelayTyping` | backend/src/sockets/socketHandler.js:83-139 | an invalid payload, a missing conversation, an outsider or a failed lookup emit nothing; otherwise the log gains exactly the routed `{conversationId, userId}` event; no store changes |
| `SocketRelay.Relay.MarkRead` | backend/src/sockets/socketHandler.js:141-184 | when the payload is valid, `me` takes part, the message exists, `me` has not read it and nothing fails, `me` is appended to its `readBy` once and the counterpart is notified; in every other case the store and the log are unchanged; the message's own conversation is never compared with the payload's |
| `SocketRelay.ParseSend` | backend/src/sockets/socketHandler.js:18-28 | the shape check of `message:send`; its contract is stated by `SocketRelay.ParseSendExact` |
| `SocketRelay.ParseTyping` | backend/src/sockets/socketHandler.js:85-86 | the shape check of `typing:*`; its contract is stated by `SocketRelay.ParseTypingExact` |
| `SocketRelay.ParseRead` | backend/src/sockets/socketHandler.js:143-150 | the shape check of `message:read`; its contract is stated by `SocketRelay.ParseReadExact` |
| `SocketRelay.ParseSendExact` | backend/src/sockets/socketHandler.js:18-28 | `message:send` accepts a payload exactly when both fields are non-empty strings, the text is not blank once trimmed and has at most 1000 characters as sent; the request it returns holds those two strings |
| `SocketRelay.ParseTypingExact` | backend/src/sockets/socketHandler.js:85-86 | `typing:start`/`typing:stop` accept a payload exactly when its conversation id is a non-empty string, and yield that id |
| `SocketRelay.ParseReadExact` | backend/src/sockets/socketHandler.js:143-150 | `message:read` accepts a payload exactly when it is an object whose two ids are non-empty strings, and yields those ids |
| `SocketRelay.Route` | backend/src/sockets/socketHandler.js:51-73 | the emit to the first other participant's registered socket; its contract is stated by `SocketRelay.RouteTargets` and `SocketRelay.OnlyOneCounterpart` |
| `SocketRelay.RouteTargets` | backend/src/sockets/socketHandler.js:51-73 | routing addresses at most one socket, and does so exactly when the first participant other than the sender is registered; that socket is a registered other participant's |
| `SocketRelay.OnlyOneCounterpart` | backend/src/sockets/socketHandler.js:51-53 | in a three-party conversation only the first other participant is addressed |
| `SocketRelay.AcceptedTextFitsSchema` | backend/src/sockets/socketHandler.js:19-47 | a text that passes the shape check trims to a trimmed string of 1 to 1000 characters, which the message schema accepts |
| `SocketRelay.UntrimmedLengthCounts` | backend/src/sockets/socketHandler.js:19-28 | a letter followed by 1000 spaces trims to one character and is still refused |
| `SocketRelay.StoreKeepsMessagesOk` | backend/src/sockets/socketHandler.js:49 | saving a well-formed message under its id keeps the message store valid |
| `SocketRelay.AddReaderKeepsWellFormed` | backend/src/sockets/socketHandler.js:163-165 | pushing a reader who is absent keeps `readBy` free of repeats and keeps the sender in it |
| `SocketRelay.Relay.constructor` | backend/src/sockets/socketHandler.js:4 | a relay starts with an empty registry and log over valid stores |
| `RelayScenarios.Reconnect` | backend/src/sockets/socketHandler.js:4-8 | after connecting on `s1` then `s2`, the user resolves to `s2` |
| `RelayScenarios.StaleDisconnect` | backend/src/sockets/socketHandler.js:12-14 | connect on `s1`, connect on `s2`, disconnect `s1`: the user resolves to no socket although `s2` is live |
| `RelayScenarios.StaleDisconnectIfCurrent` | backend/src/sockets/socketHandler.js:12-14 | the same interleaving with the corrected disconnect still resolves to `s2` |
| `RelayScenarios.ReceiptTwice` | backend/src/sockets/socketHandler.js:163-179 | a second identical `message:read` stores and emits nothing, and no reader list shrinks |
| `RelayScenarios.SendBody` | backend/src/sockets/socketHandler.js:18-28 | the object payload it builds from a non-empty conversation id and a non-blank text of at most 1000 characters passes the shape check of `message:send` unchanged |
| `RelayScenarios.ReadBody` | backend/src/sockets/socketHandler.js:143-150 | the payload it builds from two non-empty ids passes the shape check of `message:read` unchanged |
| `RelayScenarios.RouteInPair` | backend/src/sockets/socketHandler.js:51-53 | in a conversation of two registered users each one's events go to the other's socket |
| `RelayScenarios.EchoThenCounterpart` | backend/src/sockets/socketHandler.js:64-73 | in a registered pair the outbound log of a send is one copy to the sender's socket followed by one to the counterpart's |
| `RelayScenarios.ReceiptAfterEcho` | backend/src/sockets/socketHandler.js:167-178 | in a registered pair the counterpart's receipt adds one event, to the sender's socket, after the two copies of the message |
| `RelayScenarios.SendAcceptedRequest` | backend/src/sockets/socketHandler.js:42-75 | an accepted send with no failing store call stores the message under the new id, echoes it to the sender's socket and appends the routed copy |
| `RelayScenarios.PairSendAccepted` | backend/src/sockets/socketHandler.js:18-40 | in the pair state a well-formed send from a member to the shared conversation passes every check |
| `RelayScenarios.PairSent` | backend/src/sockets/socketHandler.js:49-73 | storing the message in the empty store and logging the echo and the routed copy gives the state after the send |
| `RelayScenarios.SendInPair` | backend/src/sockets/socketHandler.js:42-75 | in a registered pair a send is acknowledged with the stored message and emits it to the sender's socket, then the counterpart's |
| `RelayScenarios.ReadInPair` | backend/src/sockets/socketHandler.js:160-178 | the counterpart's receipt makes `readBy` the pair `[a, b]` and notifies the sender's socket only |
| `RelayScenarios.TwoPartyExchange` | backend/src/sockets/socketHandler.js:16-184 | A sends to B and B acknowledges it: A's ack holds the trimmed text with readers `[A]`, both sockets get `message:new`, A's socket gets `message:read` from B, and the stored readers become `[A, B]` |
| `AuthGate.Check` | backend/src/index.js:42-54 | a handshake is refused with "Missing token" exactly when the token is falsy, with "Invalid token" when verification throws, and is otherwise admitted with the verified identity |
| `AuthGate.Authenticate` | backend/src/index.js:42-54 | on admission `socket.user` is set to the identity before `next()` is called; on refusal it is left as it was and `next` gets the error |
| `AuthGate.Handshake` | backend/src/index.js:42-58 | the relay registers the socket under the verified user id exactly when the handshake is admitted; a refused handshake registers nothing |
| `AuthGate.Socket.constructor` | backend/src/index.js:43 | a socket starts with its handshake token and no user |
| `MessageRoutes.InConversation` | backend/src/routes/messageRoutes.js:27 | the query yields exactly the stored messages with that conversation id, each no more often than stored |
| `MessageRoutes.History` | backend/src/routes/messageRoutes.js:10-37 | 404 exactly on a missing conversation; 403 exactly on an outsider of an existing one; 500 exactly when a query throws; for 200, the conversation's messages as a permutation sorted ascending by `createdAt`; each error status carries its message |
| `MessageRoutes.HistoryIsExactlyTheConversation` | backend/src/routes/messageRoutes.js:27-31 | a participant's 200 reply holds a message exactly when it is stored under that conversation |
| `MessageRoutes.RefusalIgnoresMessages` | backend/src/routes/messageRoutes.js:15-25 | a 403 or 404 reply does not depend on the message collection or on the message query |
| `AuthRoutes.RegisterCheck` | backend/src/routes/authRoutes.js:11-30 | the body passes exactly when the username is a string of 3 to 30 characters, the email matches the pattern and the password has at least 6 characters; the first failure in that order names the 400 message |
| `AuthRoutes.LoginCheck` | backend/src/routes/authRoutes.js:76-86 | the email is checked before the password; the first failure names the 400 message |
| `AuthRoutes.Taken` | backend/src/routes/authRoutes.js:33-35 | the `$or` lookup finds a stored user with that username or that e-mail; `AuthRoutes.UserStore.Register` states the 409 it leads to |
| `AuthRoutes.FindByEmail` | backend/src/routes/authRoutes.js:89 | the lookup finds a stored user with that email, and finds none only when no stored user has it |
| `AuthRoutes.UserStore.Register` | backend/src/routes/authRoutes.js:8-71 | 400 with the first validation failure, 500 when the lookup throws, 409 when the username or email is taken, 500 when hashing or saving fails, all with the store unchanged. Otherwise the store gains exactly one user, whose password field is `hash(password)`. The answer is then 201 with the token and a user without password, or 500 if signing fails after the save. No two accounts share a username or email |
| `AuthRoutes.UserStore.Login` | backend/src/routes/authRoutes.js:73-118 | 400 on validation before any lookup; 200 exactly when the email is found, the password matches and nothing throws, with the token and the public user; every 401 says "Invalid credentials"; status is one of 200, 400, 401, 500 |
| `AuthRoutes.UserStore.constructor` | backend/src/routes/authRoutes.js:8 | an empty user collection is valid |
| `AuthRoutes.CredentialFailuresAlike` | backend/src/routes/authRoutes.js:89-97 | an unknown email and a wrong password get the identical 401 reply |
| `EmailPattern.IsEmail` | backend/src/routes/authRoutes.js:23 | `emailRegex.test`, as an automaton run; its contract is stated by `EmailPattern.IsEmailCorrect` |
| `EmailPattern.IsEmailCorrect` | backend/src/routes/authRoutes.js:23 | the automaton accepts a string exactly when it is three non-empty runs of characters other than white space and `@`, separated by `@` and `.` |
| `EmailPattern.RunAccepts` | backend/src/routes/authRoutes.js:23 | running the automaton from any state ends accepting exactly when that state's language holds the rest of the input |
| `EmailPattern.PatternIsAccepted` | backend/src/routes/authRoutes.js:23 | every string of the pattern's shape is accepted from the start state |
| `EmailPattern.AcceptedIsPattern` | backend/src/routes/authRoutes.js:23 | every string accepted from the start state has the pattern's shape |
| `ChatScreen.AddIncoming` | frontend/src/components/Chat/ChatScreen.js:90-96 | a message whose id is listed leaves the list unchanged; otherwise the result is the list plus that message, sorted by `createdAt` |
| `ChatScreen.AddIncomingKeepsIdsDistinct` | frontend/src/components/Chat/ChatScreen.js:90-96 | a list without repeated ids keeps none and afterwards holds the new id |
| `ChatScreen.AddIncomingToSorted` | frontend/src/components/Chat/ChatScreen.js:93-95 | on a sorted list the updater inserts after every message that is not later |
| `ChatScreen.AddIncomingIdempotent` | frontend/src/components/Chat/ChatScreen.js:90-96 | the same message arriving twice changes the list once |
| `ChatScreen.OnMessageNew` | frontend/src/components/Chat/ChatScreen.js:85-106 | a message is taken, and a receipt emitted for it, exactly when it belongs to the current conversation or none is set; a missing current id is then set from the message; other messages change nothing |
| `ChatScreen.MarkReader` | frontend/src/components/Chat/ChatScreen.js:127-129 | the per-message step of the `message:read` updater; its contract is stated by `ChatScreen.ApplyReadReceipt` |
| `ChatScreen.ApplyReadReceipt` | frontend/src/components/Chat/ChatScreen.js:124-132 | only the message with the matching id may change; it is left alone when the reader is already listed, and otherwise gains the reader at the end, once |
| `ChatScreen.ApplyReadReceiptIdempotent` | frontend/src/components/Chat/ChatScreen.js:124-132 | applying a receipt twice is applying it once |
| `ChatScreen.ApplyReadReceiptNoDuplicates` | frontend/src/components/Chat/ChatScreen.js:127-129 | reader lists without repeats stay without repeats |
| `ChatScreen.TypingStarted` | frontend/src/components/Chat/ChatScreen.js:108-112 | another user is added to the typing set; the user's own id is ignored |
| `ChatScreen.TypingStopped` | frontend/src/components/Chat/ChatScreen.js:114-122 | another user is removed from the typing set; the user's own id is ignored |
| `ChatScreen.NeverTypingSelf` | frontend/src/components/Chat/ChatScreen.js:108-122 | the signed-in user never enters the typing set |
| `ChatScreen.StartThenStop` | frontend/src/components/Chat/ChatScreen.js:108-122 | a start then a stop of another user leaves that user out and the rest as before |
| `ChatScreen.PendingReceipts` | frontend/src/components/Chat/ChatScreen.js:150-157 | a receipt is owed for a message exactly when the user is not among its readers, all for the current conversation |
| `ChatScreen.LoadReceipts` | frontend/src/components/Chat/ChatScreen.js:150-157 | the loop emits exactly the owed receipts, in list order |
| `ChatScreen.SendMessage` | frontend/src/components/Chat/ChatScreen.js:169-188 | nothing for blank input; an alert exactly when the input is not blank and no conversation is set; otherwise a send of the trimmed, non-empty text to the current conversation |
| `ChatScreen.ClientSendMeetsServer` | frontend/src/components/Chat/ChatScreen.js:186-188 | what the client sends passes the relay's shape check exactly when the trimmed text has at most 1000 characters, and the relay's trim leaves it unchanged |
| `ChatScreen.SendPayload` | frontend/src/components/Chat/ChatScreen.js:186-188 | the `message:send` payload `{ conversationId, text }`; its contract is stated by `ChatScreen.ClientSendMeetsServer` |
| `ChatScreen.OnSendAck` | frontend/src/components/Chat/ChatScreen.js:189-195 | an ok ack clears the input; an error shows the server's message, or "Failed to send message" when it is empty |
| `ChatScreen.RelayErrorsShown` | frontend/src/components/Chat/ChatScreen.js:193 | each of the relay's four error messages is shown as it is |
| `ChatScreen.ConversationIdCandidate` | frontend/src/components/Chat/ChatScreen.js:46-48 | the candidate is the two ids joined by `_`, in one order or the other |
| `ChatScreen.CandidateSymmetric` | frontend/src/components/Chat/ChatScreen.js:46-48 | swapping the two user ids gives the same candidate |
| `RegisterScreen.Validate` | frontend/src/components/Auth/RegisterScreen.js:21-36 | passes exactly when the trimmed username has at least 3 characters, the trimmed email matches and the raw password has at least 6; the first failure in that order names the alert |
| `RegisterScreen.OnSubmit` | frontend/src/components/Auth/RegisterScreen.js:38-42 | `register` is called exactly when validation passes, with the trimmed username and email and the raw password |
| `RegisterScreen.BodyFields` | frontend/src/components/Auth/RegisterScreen.js:42 | each field of the request body carries the submitted string |
| `RegisterScreen.Body` | frontend/src/components/Auth/RegisterScreen.js:42 | the request body `{ username, email, password }`; its contract is stated by `RegisterScreen.BodyFields` |
| `RegisterScreen.SampleEmail` | frontend/src/components/Auth/RegisterScreen.js:26-27 | `a@b.co` is trimmed and matches the e-mail pattern |
| `RegisterScreen.SubmissionMeetsServer` | frontend/src/components/Auth/RegisterScreen.js:22 | a submission the form lets through passes the server's checks exactly when the trimmed username has at most 30 characters, and otherwise fails with "Invalid username" |
| `RegisterScreen.TrimmedInputsPass` | frontend/src/components/Auth/RegisterScreen.js:21-42 | trimmed inputs of sufficient length are submitted as typed |
| `RegisterScreen.LongUsernameRefused` | frontend/src/components/Auth/RegisterScreen.js:22-25 | there is a 31-character username the form submits and the server refuses with "Invalid username" |
| `Chat.Counterpart` | backend/src/sockets/socketHandler.js:51-53 | the first participant other than `me`, or none exactly when every participant is `me` |
| `Chat.CounterpartOfPair` | backend/src/sockets/socketHandler.js:51-53 | in a pair each party's counterpart is the other |
| `Chat.SortByCreatedAt` | frontend/src/components/Chat/ChatScreen.js:93-95 | the result is sorted ascending by `createdAt` and is a permutation of the input |
| `Chat.SortSorted` | backend/src/routes/messageRoutes.js:28 | sorting a sorted list changes nothing |
| `Chat.LatestGoesLast` | frontend/src/components/Chat/ChatScreen.js:93-95 | a message no earlier than any other is placed after all of them, also after those with an equal timestamp, so ties keep their order |
| `Chat.Insert` | frontend/src/components/Chat/ChatScreen.js:93-95 | insertion adds exactly the one message and keeps a sorted list sorted |
| `Chat.InsertIds` | frontend/src/components/Chat/ChatScreen.js:91-95 | insertion adds exactly the message's id and keeps ids distinct when it is new |
| `Text.Trim` | backend/src/sockets/socketHandler.js:24 | `String.prototype.trim`; its contract is stated by `Text.TrimShape`, `Text.TrimEmptyIffAllSpace`, `Text.TrimIdempotent` and `Text.TrimOfTrimmed` |
| `Text.TrimStart` | backend/src/sockets/socketHandler.js:24 | what remains after dropping leading white space is a suffix of the input, everything dropped is white space, and the rest does not start with white space |
| `Text.TrimEnd` | backend/src/sockets/socketHandler.js:24 | what remains after dropping trailing white space is a prefix of the input, everything dropped is white space, and the rest does not end with white space |
| `Text.CutBothEnds` | backend/src/sockets/socketHandler.js:24 | removing leading and then trailing white space leaves a slice of the input with white space on both sides and none at its own ends |
| `Text.TrimShape` | backend/src/sockets/socketHandler.js:24 | `trim` returns the middle of the string between white space at both ends, and the middle has none at its ends |
| `Text.TrimIsTrimmed` | frontend/src/components/Chat/ChatScreen.js:170 | what `trim` returns has no white space at either end |
| `Text.TrimEmptyIffAllSpace` | frontend/src/components/Chat/ChatScreen.js:170 | a string trims to empty exactly when it is all white space |
| `Text.TrimIdempotent` | backend/src/sockets/socketHandler.js:45 | trimming twice is trimming once |
| `Text.TrimOfTrimmed` | frontend/src/components/Auth/RegisterScreen.js:42 | a string without white space at its ends is left alone |
| `Text.TrimShorter` | backend/src/sockets/socketHandler.js:24-25 | trimming never lengthens |
| `Text.DecimalRoundTrip` | frontend/src/utils/formatDate.js:9 | reading back a number's decimal rendering gives the number |
| `Text.Decimal` | frontend/src/utils/formatDate.js:9 | the decimal rendering of a number (`${n}`): at least one digit, all digits, no leading zero; its contract is stated by `Text.DecimalRoundTrip` and `Text.DecimalLength` |
| `Text.LessTrichotomy` | frontend/src/components/Chat/ChatScreen.js:46-48 | string order is total and strict, as `sort` uses it |
| `Text.Less` | frontend/src/components/Chat/ChatScreen.js:46-48 | the default order of `Array.prototype.sort` on strings, character by character with a proper prefix first; its contract is stated by `Text.LessTrichotomy` |
| `JsValues.NonEmptyString` | backend/src/sockets/socketHandler.js:20-23 | the guard passes exactly on a truthy string, yielding it |
| `JsValues.Truthy` | backend/src/sockets/socketHandler.js:20-23 | JavaScript truthiness: `undefined`, `null`, `false`, `0` and `""` are falsy, everything else truthy; its contract is stated by `JsValues.NonEmptyString` |
| `FormatDate.Hour12` | frontend/src/utils/formatDate.js:6-7 | the displayed hour lies in 1..12 and agrees with the hour modulo 12 |
| `FormatDate.Suffix` | frontend/src/utils/formatDate.js:5 | "PM" exactly when the hour is at least 12, else "AM" |
| `FormatDate.MinuteText` | frontend/src/utils/formatDate.js:8 | the minutes always show as two digits denoting the minutes |
| `FormatDate.FormatDate` | frontend/src/utils/formatDate.js:1-9 | `formatDate`; its contract is stated by `FormatDate.FormatShape`, `FormatDate.FormatRoundTrip` and `FormatDate.FormatInjective` |
| `FormatDate.FormatShape` | frontend/src/utils/formatDate.js:9 | the output is an unpadded hour of one or two digits, a colon, two minute digits, a space and the suffix |
| `FormatDate.MidnightAndNoon` | frontend/src/utils/formatDate.js:5-7 | hour 0 shows as "12:MM AM" and hour 12 as "12:MM PM" |
| `FormatDate.FormatRoundTrip` | frontend/src/utils/formatDate.js:1-9 | reading a formatted time back recovers the hour and minute |
| `FormatDate.FormatInjective` | frontend/src/utils/formatDate.js:1-9 | different clock times never format alike |

## Left out

- Transport: socket.io wiring, rooms (`socket.join`) and `io.to(...).emit` delivery. An emit is an append to the relay's log. Delivery races with a disconnect are outside the model.
- Persistence: MongoDB and mongoose. `findById`, `find` and `save` become map and sequence operations, and a thrown call is a boolean fault. One input makes such a call throw in the code: a `conversationId` or `messageId` that is not a valid ObjectId makes `findById` reject with a cast error. `message:send` then acknowledges "Server error" instead of "Conversation not found" (backend/src/sockets/socketHandler.js:30-33, 76-79), and the typing and read handlers end silently in their catch. Ids are plain strings in the model, so that case is reached only through `faults.findConversation` and `faults.findMessage`. `populate("senderId", "username")` is not modelled; a message keeps its sender id.
- Tie order of the history query's sort on equal `createdAt`: the model sorts stably, and the database promises no order of ties.
- `backend/src/models/User.js` is not part of this model. Unique usernames and e-mails are assumed, as the invariant `Unique` that `Register` keeps itself through its lookup.
- JWT signing and verification, `hashPassword` and `comparePassword` are function parameters. Their own behaviour, salts and expiry are out of scope.
- SocketRelay.Relay.Send: the client is assumed to pass an acknowledgement function. Without one, the `callback(...)` call throws inside the `try` (after the save and both emits on the success path), the `callback(...)` in the `catch` throws again, and the rejection escapes the listener. The model always yields an ack.
- Concurrency: each handler runs as one atomic step. Interleavings inside one handler, across its `await`s, are not considered.
- Timers: the typing debounce with `setTimeout` in `onInputChange` (frontend/src/components/Chat/ChatScreen.js:199-210).
- React state, effects, JSX, styles and `Alert`: only the updater functions and the values they compute are modelled.
- ChatScreen.LoadReceipts: the optional chaining on a missing socket (`socketRef.current?.emit`) is not modelled. The receipts are those that would be emitted.
- Logging: the `console.error(err)` calls in the catch blocks (backend/src/sockets/socketHandler.js:78, 108, 137 and 182, backend/src/routes/messageRoutes.js:34, backend/src/routes/authRoutes.js:68 and 115) are dropped. They affect no state or reply.
- Express body parsing and the HTTP client: a request body is a map of field names to values.
- Numbers: the payload value type has integers only. Floating point and `NaN` truthiness are not modelled.
- Text lengths count characters, and JavaScript counts UTF-16 code units. The two differ for characters outside the Basic Multilingual Plane.
- Date parsing and time zones: `formatDate` takes the local hour and minute as integers, and `createdAt` is a natural number.
- The client's `sort` on `new Date(a.createdAt) - new Date(b.createdAt)` is read as a comparison of those numbers.

## Findings

| source | as written | input that shows it | evidently intended | confidence | as-written member | corrected member |
|---|---|---|---|---|---|---|
| backend/src/sockets/socketHandler.js:12-14 | `disconnect` deletes the user's registry entry whichever socket it names | connect user `u` on socket `s1`, connect `u` again on `s2`, then the delayed disconnect of `s1`: `u` resolves to no socket although `s2` is live, so every later message to `u` is dropped | remove the entry only while it still names the disconnecting socket | not executed; high | `SocketRelay.Relay.Disconnect` (scenario `RelayScenarios.StaleDisconnect`) | `SocketRelay.Relay.DisconnectIfCurrent` (scenario `RelayScenarios.StaleDisconnectIfCurrent`) |
