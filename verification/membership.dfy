/** The join / relay / leave lifecycle of one connection in one room:
    `joinRoom` after its input checks, `handleMessages`, and its deferred
    clean-up. The member key is the display name in server/ and
    sample-server/, the user id in lilserver/; the display name is what the
    notices and chat lines carry. */
module Membership {
  import opened Types
  import opened Wire
  import opened Broadcast
  import opened Registry

  /** `broadcastMessage(room, msg)` on the whole state. */
  function Announce(h: Hub, members: Members, msg: string): (h': Hub)
    ensures h'.rooms == h.rooms && h'.failing == h.failing
    ensures forall c :: Sent(h.outboxes, c) <= Sent(h'.outboxes, c)
    ensures forall c :: c in h.failing || c !in members.Values ==> Sent(h'.outboxes, c) == Sent(h.outboxes, c)
  {
    h.(outboxes := Deliver(h.outboxes, members, h.failing, msg))
  }

  /** Look the room up, store the connection under the key (overwriting any
      earlier one), then broadcast the join notice to the new member map. */
  function Join(h: Hub, roomId: string, key: string, name: string, conn: ConnId): (r: Result<Hub, Error>)
    ensures r.Failure? <==> roomId !in h.rooms
    ensures r.Failure? ==> r.error == NotFound
    ensures r.Success? ==> r.value.rooms.Keys == h.rooms.Keys && r.value.failing == h.failing
    ensures r.Success? ==> r.value.rooms[roomId] == h.rooms[roomId].(members := h.rooms[roomId].members[key := conn])
    ensures r.Success? ==> forall id :: id in h.rooms && id != roomId ==> r.value.rooms[id] == h.rooms[id]
    ensures r.Success? && conn !in h.failing ==>
              var s := Sent(r.value.outboxes, conn);
              |s| > |Sent(h.outboxes, conn)| && s[|s| - 1] == JoinedNotice(name)
  {
    if roomId !in h.rooms then Failure(NotFound)
    else
      var members := h.rooms[roomId].members[key := conn];
      var h1 := SetMembers(h, roomId, members);
      if conn !in h.failing then
        DeliverReachesMember(h1.outboxes, members, h1.failing, JoinedNotice(name), key);
        Success(Announce(h1, members, JoinedNotice(name)))
      else
        Success(Announce(h1, members, JoinedNotice(name)))
  }

  /** The tagged lines a relay loop broadcasts for a trace of reads. */
  function ChatLines(name: string, trace: seq<string>): (r: seq<string>)
    ensures |r| == |trace|
    ensures forall i :: 0 <= i < |trace| ==> r[i] == ChatLine(name, trace[i])
  {
    if trace == [] then [] else [ChatLine(name, trace[0])] + ChatLines(name, trace[1..])
  }

  /** The `for` loop of `handleMessages`: every message read successfully is
      broadcast, tagged with the sender's name, to the room's members at that
      moment. The read error that ends the trace is handled by `Leave`. */
  function RelayReads(h: Hub, roomId: string, name: string, trace: seq<string>): (h': Hub)
    requires roomId in h.rooms
    ensures h'.rooms == h.rooms && h'.failing == h.failing
    decreases |trace|
  {
    if trace == [] then h
    else RelayReads(Announce(h, h.rooms[roomId].members, ChatLine(name, trace[0])), roomId, name, trace[1..])
  }

  /** The deferred clean-up: delete the key (whichever connection is stored
      under it now, and nothing if none is), broadcast the leave notice to the
      members that remain, close the connection. A closed connection is one
      whose writes fail. */
  function Leave(h: Hub, roomId: string, key: string, name: string, conn: ConnId): (h': Hub)
    requires roomId in h.rooms
    ensures h'.rooms.Keys == h.rooms.Keys
    ensures h'.rooms[roomId] == h.rooms[roomId].(members := h.rooms[roomId].members - {key})
    ensures forall id :: id in h.rooms && id != roomId ==> h'.rooms[id] == h.rooms[id]
    ensures h'.failing == h.failing + {conn}
  {
    var members := h.rooms[roomId].members - {key};
    var h1 := Announce(SetMembers(h, roomId, members), members, LeftNotice(name));
    h1.(failing := h1.failing + {conn})
  }

  /** `handleMessages` from its first read to its return. */
  function Relay(h: Hub, roomId: string, key: string, name: string, conn: ConnId, trace: seq<string>): (h': Hub)
    requires roomId in h.rooms
    ensures h'.rooms.Keys == h.rooms.Keys
    ensures h'.rooms[roomId] == h.rooms[roomId].(members := h.rooms[roomId].members - {key})
    ensures forall id :: id in h.rooms && id != roomId ==> h'.rooms[id] == h.rooms[id]
    ensures h'.failing == h.failing + {conn}
  {
    Leave(RelayReads(h, roomId, name, trace), roomId, key, name, conn)
  }

  /** A whole connection's life once the upgrade has succeeded: join, relay
      the reads, leave. Whatever was stored under the key before, the key is
      gone at the end. */
  function Session(h: Hub, roomId: string, key: string, name: string, conn: ConnId, trace: seq<string>): (r: Result<Hub, Error>)
    ensures r.Failure? <==> roomId !in h.rooms
    ensures r.Failure? ==> r.error == NotFound
    ensures r.Success? ==> r.value.rooms.Keys == h.rooms.Keys
    ensures r.Success? ==> r.value.rooms[roomId] == h.rooms[roomId].(members := h.rooms[roomId].members - {key})
    ensures r.Success? ==> forall id :: id in h.rooms && id != roomId ==> r.value.rooms[id] == h.rooms[id]
    ensures r.Success? ==> r.value.failing == h.failing + {conn}
  {
    match Join(h, roomId, key, name, conn)
    case Failure(e) => Failure(e)
    case Success(h1) =>
      assert h1.rooms[roomId].members - {key} == h.rooms[roomId].members - {key};
      Success(Relay(h1, roomId, key, name, conn, trace))
  }
}
