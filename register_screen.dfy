/**
 * The registration form: its client-side validation, in the order the form
 * runs it, and the body it submits. The lemmas compare it with the server's
 * own validation of `/auth/register`.
 */
module RegisterScreen {
  import opened Options
  import opened JsValues
  import opened Text
  import opened EmailPattern
  import AuthRoutes

  datatype Verdict = Passed | Rejected(alert: string)

  const ShortUsername := "Username must be at least 3 characters"
  const BadEmail := "Email is not valid"
  const ShortPassword := "Password must be at least 6 characters"

  /** `validate()`: the trimmed username, then the trimmed email, then the raw
      password; the first failing check raises its alert. */
  function Validate(username: string, email: string, password: string): (r: Verdict)
    ensures r == Passed <==> |Trim(username)| >= 3 && IsEmail(Trim(email)) && |password| >= 6
    ensures |Trim(username)| < 3 ==> r == Rejected(ShortUsername)
    ensures |Trim(username)| >= 3 && !IsEmail(Trim(email)) ==> r == Rejected(BadEmail)
    ensures (|Trim(username)| >= 3 && IsEmail(Trim(email)) && |password| < 6) ==> r == Rejected(ShortPassword)
  {
    if |Trim(username)| < 3 then Rejected(ShortUsername)
    else if !IsEmail(Trim(email)) then Rejected(BadEmail)
    else if |password| < 6 then Rejected(ShortPassword)
    else Passed
  }

  datatype Submission = Blocked(alert: string) | CallRegister(username: string, email: string, password: string)

  /** `onSubmit`: `register` is called only after validation passes, with the
      username and email trimmed and the password as typed. */
  function OnSubmit(username: string, email: string, password: string): (r: Submission)
    ensures r.CallRegister? <==> Validate(username, email, password) == Passed
    ensures r.Blocked? ==> Validate(username, email, password) == Rejected(r.alert)
    ensures r.CallRegister? ==> r.username == Trim(username) && r.email == Trim(email) && r.password == password
  {
    match Validate(username, email, password)
    case Passed => CallRegister(Trim(username), Trim(email), password)
    case Rejected(alert) => Blocked(alert)
  }

  /** The request body `register` sends. */
  function Body(s: Submission): map<string, JsValue>
    requires s.CallRegister?
  {
    map["username" := Str(s.username), "email" := Str(s.email), "password" := Str(s.password)]
  }

  /** Each field of the body carries the submitted string. */
  lemma BodyFields(s: Submission)
    requires s.CallRegister?
    ensures Get(Body(s), "username") == Str(s.username)
    ensures Get(Body(s), "email") == Str(s.email)
    ensures Get(Body(s), "password") == Str(s.password)
  {
    assert "username"[0] != "email"[0] && "username"[0] != "password"[0] && "email"[0] != "password"[0];
  }

  /** A submission the form lets through passes the server's validation exactly
      when the trimmed username has at most 30 characters: the form has no upper bound. */
  lemma SubmissionMeetsServer(username: string, email: string, password: string)
    requires OnSubmit(username, email, password).CallRegister?
    ensures var s := OnSubmit(username, email, password);
      && (AuthRoutes.RegisterCheck(Body(s)).None? <==> |Trim(username)| <= 30)
      && (AuthRoutes.RegisterCheck(Body(s)).Some? ==>
            AuthRoutes.RegisterCheck(Body(s)) == Some(AuthRoutes.InvalidUsername))
  {
    var s := OnSubmit(username, email, password);
    BodyFields(s);
  }

  /** A sample e-mail address: "a@b.co". */
  lemma SampleEmail() returns (email: string)
    ensures IsTrimmed(email) && IsEmail(email)
  {
    email := "a@b.co";
    assert email[0] == 'a' && email[5] == 'o';
    assert Run(DomainDone, email[5..]) == DomainDone;
    assert Run(DomainDot, email[4..]) == DomainDone;
    assert Run(DomainNoDot, email[3..]) == DomainDone;
    assert Run(DomainEmpty, email[2..]) == DomainDone;
    assert Run(Local, email[1..]) == DomainDone;
  }

  /** Sample form inputs: a 31-character username, an email address and a password. */
  lemma SampleInputs() returns (username: string, email: string, password: string)
    ensures |username| == 31 && IsTrimmed(username)
    ensures Trim(email) == email && IsEmail(email)
    ensures |password| == 6
  {
    username := seq(31, _ => 'a');
    email := SampleEmail();
    password := "secret";
    TrimOfTrimmed(email);
  }

  /** A trimmed username of at least 3 characters, a trimmed email address and
      a password of at least 6 characters pass the form. */
  lemma TrimmedInputsPass(username: string, email: string, password: string)
    requires IsTrimmed(username) && |username| >= 3
    requires Trim(email) == email && IsEmail(email) && |password| >= 6
    ensures OnSubmit(username, email, password) == CallRegister(username, email, password)
  {
    TrimOfTrimmed(username);
  }

  /** A 31-character username the form accepts and the server refuses. */
  lemma LongUsernameRefused()
    ensures exists username: string, email: string, password: string ::
      && |username| == 31
      && OnSubmit(username, email, password).CallRegister?
      && AuthRoutes.RegisterCheck(Body(OnSubmit(username, email, password))) == Some(AuthRoutes.InvalidUsername)
  {
    var username, email, password := SampleInputs();
    TrimmedInputsPass(username, email, password);
    TrimOfTrimmed(username);
    SubmissionMeetsServer(username, email, password);
  }
}
