/** The handlers of sample-server/: the same rooms as server/, held in a
    `Server` value together with a map from session ids to registered names. */
module SampleServer {
  import opened Types
  import opened Broadcast
  import opened Registry
  import opened RoomIds
  import opened Sessions
  import ChatServer

  datatype Server = Server(hub: Hub, users: map<string, string>)

  const NewServer: Server := Server(EmptyHub, map[])

  /** The `session.ID` a cookie session carries. The cookie store keeps the
      whole session in the cookie and never assigns an id, so every session
      has the empty one. */
  const CookieSessionId: string := ""

  /** `registerUser`: like server/, except that a body that does not decode
      and an empty name are one and the same refusal, and that a new name is
      also recorded in the user map, under the session's id, once the
      session is saved. */
  function RegisterUser(s: Server, stored: Option<string>, body: Option<string>, saved: bool)
    : (r: Result<(Server, Registration), RegisterError>)
    ensures Registered(stored) ==> r == Success((s, AlreadyRegistered(stored.value)))
    ensures !Registered(stored) && (body.None? || body == Some("")) ==> r == Failure(InvalidName)
    ensures !Registered(stored) && body.Some? && body.value != "" && !saved ==> r == Failure(SaveFailed)
    ensures !Registered(stored) && body.Some? && body.value != "" && saved ==>
              && r.Success?
              && r.value.1 == NewlyRegistered(body.value)
              && r.value.0.hub == s.hub
              && r.value.0.users.Keys == s.users.Keys + {CookieSessionId}
              && r.value.0.users[CookieSessionId] == body.value
              && (forall id :: id in s.users && id != CookieSessionId ==> r.value.0.users[id] == s.users[id])
  {
    if Registered(stored) then Success((s, AlreadyRegistered(stored.value)))
    else if body.None? || body.value == "" then Failure(InvalidName)
    else if !saved then Failure(SaveFailed)
    else Success((s.(users := s.users[CookieSessionId := body.value]), NewlyRegistered(body.value)))
  }

  /** Both variants accept and answer alike; sample-server only folds the
      decoding failure into the invalid-name refusal. */
  lemma RegisterAgreesWithServer(s: Server, stored: Option<string>, body: Option<string>, saved: bool)
    ensures var r := RegisterUser(s, stored, body, saved);
            var q := Register(stored, body, saved);
            && (r.Success? <==> q.Success?)
            && (r.Success? ==> r.value.1 == q.value)
            && (r.Failure? ==> r.error == if q.error == MalformedBody then InvalidName else q.error)
  {
  }

  /** All registrations share the one session id, so the user map never
      holds more than one entry, and a new registration overwrites it: the
      map names only the last user registered. */
  lemma UsersHoldTheLastName(s: Server, stored: Option<string>, body: Option<string>, saved: bool)
    requires s.users.Keys <= {CookieSessionId}
    ensures var r := RegisterUser(s, stored, body, saved);
            r.Success? ==> r.value.0.users.Keys <= {CookieSessionId} && |r.value.0.users| <= 1
    ensures var r := RegisterUser(s, stored, body, saved);
            r.Success? && r.value.1.NewlyRegistered? ==> r.value.0.users == map[CookieSessionId := body.value]
  {
    var r := RegisterUser(s, stored, body, saved);
    if r.Success? {
      var u := r.value.0.users;
      assert u.Keys == {} || u.Keys == {CookieSessionId};
      assert |u| == |u.Keys|;
    }
  }

  /** `createRoom`, on the server's rooms; the user map is not touched. */
  function CreateRoom(s: Server, stored: Option<string>): (r: Result<(Server, string), Error>)
    ensures r.Failure? <==> !Registered(stored)
    ensures r.Failure? ==> r.error == Unauthorized
    ensures r.Success? ==>
              var (s', id) := r.value;
              && id == RoomName(|s.hub.rooms| + 1)
              && s'.hub.rooms.Keys == s.hub.rooms.Keys + {id}
              && s'.hub.rooms[id] == Room(id, map[])
              && s'.hub.failing == s.hub.failing
              && s'.users == s.users
  {
    match ChatServer.CreateRoomHandler(s.hub, stored)
    case Failure(e) => Failure(e)
    case Success((h', id)) => Success((s.(hub := h'), id))
  }

  /** `joinRoom` followed by `handleMessages`, on the server's rooms. */
  function JoinRoom(s: Server, stored: Option<string>, roomId: string, upgrade: Option<ConnId>, trace: seq<string>)
    : (r: Result<Server, Error>)
    ensures !Registered(stored) ==> r == Failure(Unauthorized)
    ensures Registered(stored) && roomId !in s.hub.rooms ==> r == Failure(NotFound)
    ensures Registered(stored) && roomId in s.hub.rooms && upgrade.None? ==> r == Failure(UpgradeFailed)
    ensures r.Success? <==> Registered(stored) && roomId in s.hub.rooms && upgrade.Some?
    ensures r.Success? ==>
              && r.value.hub.rooms.Keys == s.hub.rooms.Keys
              && r.value.hub.rooms[roomId].members == s.hub.rooms[roomId].members - {stored.value}
              && r.value.users == s.users
  {
    match ChatServer.JoinRoomHandler(s.hub, stored, roomId, upgrade, trace)
    case Failure(e) => Failure(e)
    case Success(h') => Success(s.(hub := h'))
  }

  /** `listRegisteredUsers`: the values of the user map, one entry per key,
      so a name stored under several ids would be listed as often as that.
      Under the cookie store there is at most one key (`UsersHoldTheLastName`). */
  method ListRegisteredUsers(s: Server) returns (names: seq<string>)
    ensures |names| == |s.users|
    ensures forall v :: multiset(names)[v] == |KeysTo(s.users, s.users.Keys, v)|
  {
    names := [];
    var pending := s.users.Keys;
    ghost var done: set<string> := {};
    while pending != {}
      invariant pending + done == s.users.Keys && pending !! done
      invariant |names| == |done|
      invariant forall v :: multiset(names)[v] == |KeysTo(s.users, done, v)|
      decreases pending
    {
      var k :| k in pending;
      forall v ensures |KeysTo(s.users, done + {k}, v)| == |KeysTo(s.users, done, v)| + (if v == s.users[k] then 1 else 0) {
        KeysToGrows(s.users, done, k, v);
      }
      names := names + [s.users[k]];
      pending := pending - {k};
      done := done + {k};
    }
    assert |s.users.Keys| == |s.users|;
  }
}
