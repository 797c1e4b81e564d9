/** The handlers of server/: rooms keyed by sequential ids, members keyed by
    the display name held in the cookie session. */
module ChatServer {
  import opened Types
  import opened Broadcast
  import opened Registry
  import opened Membership
  import opened RoomIds
  import opened Sessions

  /** `createRoom`: an unnamed session is refused; otherwise a room is added
      under the next sequential id. */
  function CreateRoomHandler(h: Hub, stored: Option<string>): (r: Result<(Hub, string), Error>)
    ensures r.Failure? <==> !Registered(stored)
    ensures r.Failure? ==> r.error == Unauthorized
    ensures r.Success? ==>
              var (h', id) := r.value;
              && id == RoomName(|h.rooms| + 1)
              && h'.rooms.Keys == h.rooms.Keys + {id}
              && h'.rooms[id] == Room(id, map[])
              && (forall k :: k in h.rooms && k != id ==> h'.rooms[k] == h.rooms[k])
              && h'.outboxes == h.outboxes && h'.failing == h.failing
  {
    if !Registered(stored) then Failure(Unauthorized)
    else
      var id := NextRoomId(h);
      Success((CreateRoom(h, id), id))
  }

  /** `joinRoom` followed by `handleMessages`: refuse an unnamed session, then
      an unknown room (before any upgrade), then a failed upgrade; otherwise
      the connection lives its whole life in the room, keyed by the name. */
  function JoinRoomHandler(h: Hub, stored: Option<string>, roomId: string, upgrade: Option<ConnId>, trace: seq<string>): (r: Result<Hub, Error>)
    ensures !Registered(stored) ==> r == Failure(Unauthorized)
    ensures Registered(stored) && roomId !in h.rooms ==> r == Failure(NotFound)
    ensures Registered(stored) && roomId in h.rooms && upgrade.None? ==> r == Failure(UpgradeFailed)
    ensures r.Success? <==> Registered(stored) && roomId in h.rooms && upgrade.Some?
    ensures r.Success? ==>
              && r.value.rooms.Keys == h.rooms.Keys
              && r.value.rooms[roomId].members == h.rooms[roomId].members - {stored.value}
              && (forall k :: k in h.rooms && k != roomId ==> r.value.rooms[k] == h.rooms[k])
              && r.value.failing == h.failing + {upgrade.value}
  {
    if !Registered(stored) then Failure(Unauthorized)
    else if roomId !in h.rooms then Failure(NotFound)
    else if upgrade.None? then Failure(UpgradeFailed)
    else Session(h, roomId, stored.value, stored.value, upgrade.value, trace)
  }

  datatype Request =
    | CreateRoomRequest(stored: Option<string>)
    | JoinRoomRequest(stored: Option<string>, roomId: string, upgrade: Option<ConnId>, trace: seq<string>)

  /** One request; a refused request leaves the state as it was. Only a
      creation adds a room id, and only the generated one; no id is removed. */
  function Handle(h: Hub, req: Request): (h': Hub)
    ensures h'.rooms.Keys == h.rooms.Keys || h'.rooms.Keys == h.rooms.Keys + {NextRoomId(h)}
    ensures |h'.rooms| <= |h.rooms| + 1
    ensures h.failing <= h'.failing
  {
    match req
    case CreateRoomRequest(stored) =>
      (match CreateRoomHandler(h, stored) case Success((h', _)) => h' case Failure(_) => h)
    case JoinRoomRequest(stored, roomId, upgrade, trace) =>
      (match JoinRoomHandler(h, stored, roomId, upgrade, trace) case Success(h') => h' case Failure(_) => h)
  }

  /** Requests handled one after another: room ids are never removed, each
      request adds at most one, and closed connections stay closed. */
  function Serve(h: Hub, reqs: seq<Request>): (h': Hub)
    ensures h.rooms.Keys <= h'.rooms.Keys
    ensures |h'.rooms| <= |h.rooms| + |reqs|
    ensures h.failing <= h'.failing
    decreases |reqs|
  {
    if reqs == [] then h else Serve(Handle(h, reqs[0]), reqs[1..])
  }

  lemma HandleKeepsNumbering(h: Hub, req: Request)
    requires WellNumbered(h.rooms)
    ensures WellNumbered(Handle(h, req).rooms)
  {
    if req.CreateRoomRequest? && Registered(req.stored) {
      CreateKeepsNumbering(h);
    }
  }

  lemma {:induction false} ServeKeepsNumbering(h: Hub, reqs: seq<Request>)
    requires WellNumbered(h.rooms)
    ensures WellNumbered(Serve(h, reqs).rooms)
    decreases |reqs|
  {
    if reqs != [] {
      var h1 := Handle(h, reqs[0]);
      HandleKeepsNumbering(h, reqs[0]);
      ServeKeepsNumbering(h1, reqs[1..]);
    }
  }

  /** From an empty server, after any requests, the room ids are room-1 ..
      room-n, so the next generated id is not in use. */
  lemma RoomIdsStaySequential(reqs: seq<Request>)
    ensures WellNumbered(Serve(EmptyHub, reqs).rooms)
    ensures NextRoomId(Serve(EmptyHub, reqs)) !in Serve(EmptyHub, reqs).rooms
  {
    EmptyIsWellNumbered();
    ServeKeepsNumbering(EmptyHub, reqs);
    NextRoomIdIsFresh(Serve(EmptyHub, reqs));
  }
}
