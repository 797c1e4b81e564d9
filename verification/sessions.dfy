/** `registerUser` of server/: the cookie session holds at most one display
    name; a request body is a decoded name or a decoding failure. */
module Sessions {
  import opened Types

  datatype Registration = AlreadyRegistered(name: string) | NewlyRegistered(name: string)

  datatype RegisterError = MalformedBody | InvalidName | SaveFailed

  /** `session.Values["name"].(string)` succeeded with a non-empty name. */
  predicate Registered(stored: Option<string>) {
    stored.Some? && stored.value != ""
  }

  /** A session that already names the user keeps that name; otherwise the
      body must decode to a name other than the empty string (a blank name
      such as " " is accepted), and the session must save. */
  function Register(stored: Option<string>, body: Option<string>, saved: bool): (r: Result<Registration, RegisterError>)
    ensures Registered(stored) ==> r == Success(AlreadyRegistered(stored.value))
    ensures !Registered(stored) ==> (r.Success? <==> body.Some? && body.value != "" && saved)
    ensures !Registered(stored) && r.Success? ==> r.value == NewlyRegistered(body.value)
    ensures !Registered(stored) && body.None? ==> r == Failure(MalformedBody)
    ensures !Registered(stored) && body == Some("") ==> r == Failure(InvalidName)
  {
    if Registered(stored) then Success(AlreadyRegistered(stored.value))
    else if body.None? then Failure(MalformedBody)
    else if body.value == "" then Failure(InvalidName)
    else if !saved then Failure(SaveFailed)
    else Success(NewlyRegistered(body.value))
  }

  /** The name the session holds after a registration attempt. */
  function StoredAfter(stored: Option<string>, r: Result<Registration, RegisterError>): Option<string> {
    if r.Success? && r.value.NewlyRegistered? then Some(r.value.name) else stored
  }

  /** Once a registration succeeds, every later one on the same session
      answers with the same name, whatever its body. */
  lemma RegisterIsIdempotent(stored: Option<string>, body: Option<string>, saved: bool, body': Option<string>, saved': bool)
    requires Register(stored, body, saved).Success?
    ensures var r := Register(stored, body, saved);
            Registered(StoredAfter(stored, r))
            && Register(StoredAfter(stored, r), body', saved') == Success(AlreadyRegistered(r.value.name))
  {
  }
}
