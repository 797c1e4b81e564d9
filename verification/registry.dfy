/** The in-memory room registry: the `rooms` map, each room's member map, and
    the connections' outboxes. Each function is one critical section under
    `roomMutex` or a room's `Lock`, taken as a single atomic step. */
module Registry {
  import opened Types
  import opened Broadcast

  datatype Room = Room(id: string, members: Members)

  /** The whole observable state: the registry, what every connection has been
      sent, and the connections whose writes fail. */
  datatype Hub = Hub(rooms: map<string, Room>, outboxes: Outboxes, failing: set<ConnId>)

  const EmptyHub: Hub := Hub(map[], map[], {})

  /** `rooms[roomID] = &Room{ID: roomID, Members: make(...)}`: an existing
      entry under the same id is replaced by the new empty room. */
  function CreateRoom(h: Hub, id: string): (h': Hub)
    ensures id in h'.rooms && h'.rooms[id] == Room(id, map[])
    ensures h'.rooms.Keys == h.rooms.Keys + {id}
    ensures forall r :: r in h.rooms && r != id ==> h'.rooms[r] == h.rooms[r]
    ensures |h'.rooms| == if id in h.rooms then |h.rooms| else |h.rooms| + 1
    ensures h'.outboxes == h.outboxes && h'.failing == h.failing
  {
    h.(rooms := h.rooms[id := Room(id, map[])])
  }

  /** Replaces the member map of an existing room, nothing else. */
  function SetMembers(h: Hub, id: string, members: Members): (h': Hub)
    requires id in h.rooms
    ensures h'.rooms.Keys == h.rooms.Keys
    ensures h'.rooms[id] == Room(h.rooms[id].id, members)
    ensures forall r :: r in h.rooms && r != id ==> h'.rooms[r] == h.rooms[r]
    ensures h'.outboxes == h.outboxes && h'.failing == h.failing
  {
    h.(rooms := h.rooms[id := h.rooms[id].(members := members)])
  }

  /** `listMembers`: the keys of the room's member map, collected by a loop
      over the map, or NotFound for an unknown room. */
  method ListMembers(h: Hub, id: string) returns (r: Result<seq<string>, Error>)
    ensures r.Failure? <==> id !in h.rooms
    ensures r.Failure? ==> r.error == NotFound
    ensures r.Success? ==> |r.value| == |h.rooms[id].members|
    ensures r.Success? ==> forall k :: k in r.value <==> k in h.rooms[id].members
    ensures r.Success? ==> forall i, j :: 0 <= i < j < |r.value| ==> r.value[i] != r.value[j]
  {
    if id !in h.rooms {
      return Failure(NotFound);
    }
    var members := h.rooms[id].members;
    var names: seq<string> := [];
    var pending := members.Keys;
    while pending != {}
      invariant pending <= members.Keys
      invariant forall k :: k in names <==> k in members && k !in pending
      invariant |names| + |pending| == |members.Keys|
      invariant forall i, j :: 0 <= i < j < |names| ==> names[i] != names[j]
      decreases pending
    {
      var k :| k in pending;
      names := names + [k];
      pending := pending - {k};
    }
    assert |members.Keys| == |members|;
    return Success(names);
  }
}
