/**
 * The handshake gate in front of the relay: the `io.use` middleware that
 * authenticates a socket from its handshake token, and the `connection` hook that
 * hands an admitted socket to the relay. Token verification is a parameter.
 */
module AuthGate {
  import opened Options
  import opened JsValues
  import opened Chat
  import opened SocketRelay

  /** The identity a valid token carries. */
  datatype Identity = Identity(id: UserId, username: string, email: string)

  /** What the middleware passes to `next`: nothing, or an error. */
  datatype Next = Proceed | Refuse(error: string)

  const MissingToken := "Authentication error: Missing token"
  const InvalidToken := "Authentication error: Invalid token"

  /** A socket during its handshake. `token` is `handshake.auth?.token`
      (`Undefined` when the handshake carries no `auth` object). */
  class Socket {
    const id: SocketId
    const token: JsValue
    var user: Option<Identity>

    constructor (id: SocketId, token: JsValue)
      ensures this.id == id && this.token == token && user == None
    {
      this.id := id;
      this.token := token;
      user := None;
    }
  }

  datatype Verdict = Admitted(identity: Identity) | Refused(error: string)

  /** The verdict on a handshake: which error it is refused with, or the
      identity it is admitted with. `verify` returns `None` where the
      verifier throws. */
  function Check(token: JsValue, verify: JsValue -> Option<Identity>): (r: Verdict)
    ensures r.Refused? <==> !Truthy(token) || verify(token).None?
    ensures !Truthy(token) ==> r == Refused(MissingToken)
    ensures Truthy(token) && verify(token).None? ==> r == Refused(InvalidToken)
    ensures r.Admitted? ==> Some(r.identity) == verify(token)
  {
    if !Truthy(token) then Refused(MissingToken)
    else match verify(token)
      case None => Refused(InvalidToken)
      case Some(user) => Admitted(user)
  }

  /** The middleware: on success it attaches the identity to `socket.user`
      and only then calls `next()`; on failure `socket.user` is left as it was. */
  method Authenticate(socket: Socket, verify: JsValue -> Option<Identity>) returns (next: Next)
    modifies socket`user
    ensures Check(socket.token, verify).Refused? ==>
              next == Refuse(Check(socket.token, verify).error) && socket.user == old(socket.user)
    ensures Check(socket.token, verify).Admitted? ==>
              next == Proceed && socket.user == Some(Check(socket.token, verify).identity)
  {
    if !Truthy(socket.token) {
      return Refuse(MissingToken);
    }
    var user := verify(socket.token);
    if user.None? {
      return Refuse(InvalidToken);
    }
    socket.user := user;
    next := Proceed;
  }

  /** A handshake followed, when admitted, by the `connection` hook: the relay
      registers the socket under the verified user id; a refused handshake
      registers nothing. */
  method Handshake(relay: Relay, socket: Socket, verify: JsValue -> Option<Identity>) returns (next: Next)
    modifies socket`user, relay`sockets
    ensures next.Refuse? <==> !Truthy(socket.token) || verify(socket.token).None?
    ensures next.Refuse? ==> relay.sockets == old(relay.sockets) && socket.user == old(socket.user)
    ensures next.Proceed? ==>
              && socket.user == verify(socket.token)
              && relay.sockets == old(relay.sockets)[verify(socket.token).value.id := socket.id]
  {
    next := Authenticate(socket, verify);
    if next.Proceed? {
      relay.Connect(Session(socket.user.value.id, socket.id));
    }
  }
}
