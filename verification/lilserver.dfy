/** The handlers of lilserver/: no sessions; ids come from `GenId`, and
    members are keyed by the caller's user id while the notices and chat
    lines carry the display name. */
module LilServer {
  import opened Types
  import opened Wire
  import opened Broadcast
  import opened Registry
  import opened Membership
  import opened Ids

  datatype CreateRequest = CreateRequest(userId: string, name: string)

  /** `registerUser`: a missing or empty name is refused; otherwise a fresh
      user id is drawn and returned beside the name. Nothing is stored. */
  function RegisterUser(body: Option<string>, draws: seq<nat>): (r: Result<(string, string), Error>)
    requires ValidDraws(draws)
    ensures r.Failure? <==> body.None? || body.value == ""
    ensures r.Failure? ==> r.error == BadRequest
    ensures r.Success? ==> r.value.1 == body.value && r.value.0 == GenId(draws) && |r.value.0| == IdLength && OverCharset(r.value.0)
  {
    if body.None? || body.value == "" then Failure(BadRequest)
    else Success((GenId(draws), body.value))
  }

  /** `createRoom`: a body that does not decode, or has an empty user id or
      name, is refused; otherwise a room is stored under a drawn id. The id
      is not checked against the rooms: on a collision the existing room is
      replaced by an empty one. */
  function CreateRoom(h: Hub, req: Option<CreateRequest>, draws: seq<nat>): (r: Result<(Hub, string), Error>)
    requires ValidDraws(draws)
    ensures r.Failure? <==> req.None? || req.value.userId == "" || req.value.name == ""
    ensures r.Failure? ==> r.error == BadRequest
    ensures r.Success? ==>
              var (h', id) := r.value;
              && id == GenId(draws) && |id| == IdLength && OverCharset(id)
              && h'.rooms.Keys == h.rooms.Keys + {id}
              && h'.rooms[id] == Room(id, map[])
              && (forall k :: k in h.rooms && k != id ==> h'.rooms[k] == h.rooms[k])
              && |h'.rooms| == (if id in h.rooms then |h.rooms| else |h.rooms| + 1)
              && h'.outboxes == h.outboxes && h'.failing == h.failing
  {
    if req.None? || req.value.userId == "" || req.value.name == "" then Failure(BadRequest)
    else
      var id := GenId(draws);
      Success((Registry.CreateRoom(h, id), id))
  }

  /** The checks of `joinRoom` and its insert and join notice. The three
      parameters are checked before the room is looked up, the room before
      the upgrade; the member is stored under the user id. */
  function Admit(h: Hub, roomId: string, userId: string, name: string, upgrade: Option<ConnId>): (r: Result<Hub, Error>)
    ensures roomId == "" || userId == "" || name == "" ==> r == Failure(BadRequest)
    ensures roomId != "" && userId != "" && name != "" && roomId !in h.rooms ==> r == Failure(NotFound)
    ensures roomId != "" && userId != "" && name != "" && roomId in h.rooms && upgrade.None? ==> r == Failure(UpgradeFailed)
    ensures r.Success? <==> roomId != "" && userId != "" && name != "" && roomId in h.rooms && upgrade.Some?
    ensures r.Success? ==>
              && r.value.rooms.Keys == h.rooms.Keys
              && r.value.rooms[roomId].members == h.rooms[roomId].members[userId := upgrade.value]
    ensures r.Success? && upgrade.value !in h.failing ==>
              var s := Sent(r.value.outboxes, upgrade.value);
              |s| > 0 && s[|s| - 1] == JoinedNotice(name)
  {
    if roomId == "" || userId == "" || name == "" then Failure(BadRequest)
    else if roomId !in h.rooms then Failure(NotFound)
    else if upgrade.None? then Failure(UpgradeFailed)
    else Join(h, roomId, userId, name, upgrade.value)
  }

  /** `joinRoom` followed by `handleMessages(room, userID, conn, userName)`:
      the leave deletes by user id. */
  function JoinRoom(h: Hub, roomId: string, userId: string, name: string, upgrade: Option<ConnId>, trace: seq<string>)
    : (r: Result<Hub, Error>)
    ensures roomId == "" || userId == "" || name == "" ==> r == Failure(BadRequest)
    ensures r.Success? <==> Admit(h, roomId, userId, name, upgrade).Success?
    ensures r.Failure? ==> r == Admit(h, roomId, userId, name, upgrade)
    ensures r.Success? ==>
              && r.value.rooms.Keys == h.rooms.Keys
              && r.value.rooms[roomId].members == h.rooms[roomId].members - {userId}
              && r.value.failing == h.failing + {upgrade.value}
  {
    match Admit(h, roomId, userId, name, upgrade)
    case Failure(e) => Failure(e)
    case Success(h1) =>
      assert h1.rooms[roomId].members - {userId} == h.rooms[roomId].members - {userId};
      Success(Relay(h1, roomId, userId, name, upgrade.value, trace))
  }

  /** Two users sharing a display name are two members, and the member list
      shows their user ids: the name is only ever part of the messages. */
  lemma SameNameDistinctUsers(h: Hub, roomId: string, u1: string, u2: string, name: string, c1: ConnId, c2: ConnId)
    requires u1 != u2 && u2 != ""
    requires Admit(h, roomId, u1, name, Some(c1)).Success?
    ensures var h1 := Admit(h, roomId, u1, name, Some(c1)).value;
            var h2 := Admit(h1, roomId, u2, name, Some(c2));
            && h2.Success?
            && h2.value.rooms[roomId].members.Keys == h.rooms[roomId].members.Keys + {u1, u2}
            && h2.value.rooms[roomId].members[u1] == c1
            && h2.value.rooms[roomId].members[u2] == c2
  {
    var m: Members := h.rooms[roomId].members;
    var m2: Members := m[u1 := c1][u2 := c2];
    var h1 := Admit(h, roomId, u1, name, Some(c1)).value;
    var h2 := Admit(h1, roomId, u2, name, Some(c2));
    assert h2.value.rooms[roomId].members == m2;
    assert m2.Keys == m.Keys + {u1, u2};
  }
}
