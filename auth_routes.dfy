/**
 * `POST /auth/register` and `POST /auth/login`. Each route validates its body
 * fields in a fixed order, consults the user collection, and answers with a
 * status and a JSON body. Password hashing, password comparison and token
 * signing are parameters; each store or library call may throw.
 */
module AuthRoutes {
  import opened Options
  import opened JsValues
  import opened EmailPattern

  datatype User = User(id: string, username: string, email: string, passwordHash: string)

  /** The `user` object of a response: it has no password field at all. */
  datatype PublicUser = PublicUser(id: string, username: string, email: string)

  function Public(u: User): PublicUser {
    PublicUser(u.id, u.username, u.email)
  }

  datatype Body = MessageBody(message: string) | AuthBody(token: string, user: PublicUser)
  datatype Response = Response(status: nat, body: Body)

  const InvalidUsername := "Invalid username"
  const InvalidEmail := "Invalid email"
  const InvalidPassword := "Invalid password"
  const AlreadyInUse := "Username or email already in use"
  const InvalidCredentials := "Invalid credentials"
  const ServerError := "Server error"

  /** A truthy string of 3 to 30 characters, counted before any trimming. */
  predicate UsernameOk(v: JsValue) {
    Truthy(v) && v.Str? && 3 <= |v.s| <= 30
  }

  /** A truthy string matching `^[^\s@]+@[^\s@]+\.[^\s@]+$`. */
  predicate EmailOk(v: JsValue) {
    Truthy(v) && v.Str? && IsEmail(v.s)
  }

  /** A truthy string of at least 6 characters. */
  predicate PasswordOk(v: JsValue) {
    Truthy(v) && v.Str? && |v.s| >= 6
  }

  /** The validation of `/register`: the first failing check names the 400 message. */
  function RegisterCheck(body: map<string, JsValue>): (r: Option<string>)
    ensures r.None? <==>
              UsernameOk(Get(body, "username")) && EmailOk(Get(body, "email")) && PasswordOk(Get(body, "password"))
    ensures !UsernameOk(Get(body, "username")) ==> r == Some(InvalidUsername)
    ensures UsernameOk(Get(body, "username")) && !EmailOk(Get(body, "email")) ==> r == Some(InvalidEmail)
    ensures (UsernameOk(Get(body, "username")) && EmailOk(Get(body, "email")) && !PasswordOk(Get(body, "password")))
              ==> r == Some(InvalidPassword)
  {
    if !UsernameOk(Get(body, "username")) then Some(InvalidUsername)
    else if !EmailOk(Get(body, "email")) then Some(InvalidEmail)
    else if !PasswordOk(Get(body, "password")) then Some(InvalidPassword)
    else None
  }

  /** The validation of `/login`: the email first, then the password. */
  function LoginCheck(body: map<string, JsValue>): (r: Option<string>)
    ensures r.None? <==> EmailOk(Get(body, "email")) && PasswordOk(Get(body, "password"))
    ensures !EmailOk(Get(body, "email")) ==> r == Some(InvalidEmail)
    ensures EmailOk(Get(body, "email")) && !PasswordOk(Get(body, "password")) ==> r == Some(InvalidPassword)
  {
    if !EmailOk(Get(body, "email")) then Some(InvalidEmail)
    else if !PasswordOk(Get(body, "password")) then Some(InvalidPassword)
    else None
  }

  /** `User.findOne({ $or: [{ username }, { email }] })` finds someone. */
  predicate Taken(users: seq<User>, username: string, email: string) {
    exists i | 0 <= i < |users| :: users[i].username == username || users[i].email == email
  }

  /** `User.findOne({ email })`: the first stored user with this email. */
  function FindByEmail(users: seq<User>, email: string): (r: Option<User>)
    ensures r.None? <==> forall i | 0 <= i < |users| :: users[i].email != email
    ensures r.Some? ==> r.value in users && r.value.email == email
  {
    if users == [] then None
    else if users[0].email == email then Some(users[0])
    else FindByEmail(users[1..], email)
  }

  /** No two accounts share a username or an email. */
  ghost predicate Unique(users: seq<User>) {
    forall i, j | 0 <= i < j < |users| ::
      users[i].username != users[j].username && users[i].email != users[j].email && users[i].id != users[j].id
  }

  /** Which awaited call of `/register` throws. */
  datatype RegisterFaults = RegisterFaults(lookup: bool, hash: bool, save: bool, sign: bool)

  /** Which awaited call of `/login` throws. */
  datatype LoginFaults = LoginFaults(lookup: bool, compare: bool, sign: bool)

  class UserStore {
    /** The user collection, in storage order. */
    var users: seq<User>

    ghost predicate Valid()
      reads this
    {
      Unique(users)
    }

    constructor ()
      ensures Valid() && users == []
    {
      users := [];
    }

    /** `/register`. `hash` stands for `hashPassword`, `sign` for `signToken` and
        `newId` for the id the new document receives; a clash of `newId` with a
        stored id fails the save. */
    method Register(body: map<string, JsValue>, hash: string -> string, sign: PublicUser -> string,
                    newId: string, faults: RegisterFaults) returns (res: Response)
      requires Valid()
      modifies this`users
      ensures Valid()
      ensures RegisterCheck(body).Some? ==>
                res == Response(400, MessageBody(RegisterCheck(body).value)) && users == old(users)
      ensures RegisterCheck(body).None? ==>
        var username, email, password := Get(body, "username").s, Get(body, "email").s, Get(body, "password").s;
        var stored := User(newId, username, email, hash(password));
        && (faults.lookup ==> res == Response(500, MessageBody(ServerError)) && users == old(users))
        && (!faults.lookup && Taken(old(users), username, email) ==>
              res == Response(409, MessageBody(AlreadyInUse)) && users == old(users))
        && (!faults.lookup && !Taken(old(users), username, email) &&
            (faults.hash || faults.save || exists i | 0 <= i < |old(users)| :: old(users)[i].id == newId) ==>
              res == Response(500, MessageBody(ServerError)) && users == old(users))
        && (!faults.lookup && !Taken(old(users), username, email) && !faults.hash && !faults.save &&
            (forall i | 0 <= i < |old(users)| :: old(users)[i].id != newId) ==>
              && users == old(users) + [stored]
              && res == (if faults.sign then Response(500, MessageBody(ServerError))
                         else Response(201, AuthBody(sign(Public(stored)), Public(stored)))))
    {
      var check := RegisterCheck(body);
      if check.Some? {
        return Response(400, MessageBody(check.value));
      }
      var username, email, password := Get(body, "username").s, Get(body, "email").s, Get(body, "password").s;
      if faults.lookup {
        return Response(500, MessageBody(ServerError));
      }
      if Taken(users, username, email) {
        return Response(409, MessageBody(AlreadyInUse));
      }
      if faults.hash {
        return Response(500, MessageBody(ServerError));
      }
      var user := User(newId, username, email, hash(password));
      if faults.save || exists i | 0 <= i < |users| :: users[i].id == newId {
        return Response(500, MessageBody(ServerError));
      }
      users := users + [user];
      if faults.sign {
        // the account is already stored when signing fails
        return Response(500, MessageBody(ServerError));
      }
      res := Response(201, AuthBody(sign(Public(user)), Public(user)));
    }

    /** `/login`. `matches` stands for `comparePassword` on the plain password and
        the stored hash, `sign` for `signToken`. */
    function Login(body: map<string, JsValue>, matches: (string, string) -> bool, sign: PublicUser -> string,
                   faults: LoginFaults): (r: Response)
      reads this
      ensures LoginCheck(body).Some? ==> r == Response(400, MessageBody(LoginCheck(body).value))
      ensures r.status == 200 <==>
                && LoginCheck(body).None? && !faults.lookup && !faults.compare && !faults.sign
                && var found := FindByEmail(users, Get(body, "email").s);
                   found.Some? && matches(Get(body, "password").s, found.value.passwordHash)
      ensures r.status == 200 ==>
                var found := FindByEmail(users, Get(body, "email").s).value;
                r.body == AuthBody(sign(Public(found)), Public(found))
      ensures r.status == 401 ==> r.body == MessageBody(InvalidCredentials)
      ensures r.status in {200, 400, 401, 500}
    {
      if LoginCheck(body).Some? then Response(400, MessageBody(LoginCheck(body).value))
      else
        var email, password := Get(body, "email").s, Get(body, "password").s;
        if faults.lookup then Response(500, MessageBody(ServerError))
        else match FindByEmail(users, email)
          case None => Response(401, MessageBody(InvalidCredentials))
          case Some(user) =>
            if faults.compare then Response(500, MessageBody(ServerError))
            else if !matches(password, user.passwordHash) then Response(401, MessageBody(InvalidCredentials))
            else if faults.sign then Response(500, MessageBody(ServerError))
            else Response(200, AuthBody(sign(Public(user)), Public(user)))
    }
  }

  /** An unknown email and a wrong password get the very same answer, so a
      caller cannot tell which accounts exist. */
  lemma CredentialFailuresAlike(store: UserStore, body: map<string, JsValue>, matches: (string, string) -> bool,
                                sign: PublicUser -> string, faults: LoginFaults)
    requires LoginCheck(body).None? && !faults.lookup
    ensures var found := FindByEmail(store.users, Get(body, "email").s);
      || found.None?
      || (!faults.compare && !matches(Get(body, "password").s, found.value.passwordHash))
      ==> store.Login(body, matches, sign, faults) == Response(401, MessageBody(InvalidCredentials))
  {
  }
}
