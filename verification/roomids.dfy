/** `generateRoomID` of server/ and sample-server/: `"room-%d"` of the number
    of rooms plus one. Since creation is the only change to the set of room
    ids, the ids are always room-1 .. room-n and the next one is fresh. */
module RoomIds {
  import opened Decimal
  import opened Registry

  /** `"room-%d"`: the number can be read back from the id. */
  function RoomName(i: nat): (r: string)
    ensures |r| > 5 && r[..5] == "room-"
    ensures forall j :: 5 <= j < |r| ==> IsDigit(r[j])
    ensures ParseDecimal(r[5..]) == i
  {
    ParseRendersBack(i);
    assert ("room-" + NatToString(i))[5..] == NatToString(i);
    "room-" + NatToString(i)
  }

  /** The id `createRoom` asks for: it carries the room count plus one. */
  function NextRoomId(h: Hub): (r: string)
    ensures |r| > 5 && r[..5] == "room-"
    ensures forall j :: 5 <= j < |r| ==> IsDigit(r[j])
    ensures ParseDecimal(r[5..]) == |h.rooms| + 1
  {
    RoomName(|h.rooms| + 1)
  }

  lemma RoomNameIsInjective(i: nat, j: nat)
    ensures RoomName(i) == RoomName(j) ==> i == j
  {
    if RoomName(i) == RoomName(j) {
      assert NatToString(i) == RoomName(i)[5..];
      assert NatToString(j) == RoomName(j)[5..];
      RenderingIsInjective(i, j);
    }
  }

  ghost function RoomNamesUpTo(n: nat): set<string> {
    set i | 1 <= i <= n :: RoomName(i)
  }

  /** The room ids are exactly room-1 .. room-n, n being the number of rooms. */
  ghost predicate WellNumbered(rooms: map<string, Room>) {
    rooms.Keys == RoomNamesUpTo(|rooms|)
  }

  lemma EmptyIsWellNumbered()
    ensures WellNumbered(EmptyHub.rooms)
  {
  }

  lemma NextRoomIdIsFresh(h: Hub)
    requires WellNumbered(h.rooms)
    ensures NextRoomId(h) !in h.rooms
  {
    var n := |h.rooms|;
    forall i | 1 <= i <= n ensures RoomName(i) != RoomName(n + 1) {
      RoomNameIsInjective(i, n + 1);
    }
  }

  /** Creating a room under the generated id adds exactly one room and keeps
      the numbering. */
  lemma CreateKeepsNumbering(h: Hub)
    requires WellNumbered(h.rooms)
    ensures var h' := CreateRoom(h, NextRoomId(h));
            |h'.rooms| == |h.rooms| + 1 && WellNumbered(h'.rooms)
  {
    NextRoomIdIsFresh(h);
    var n := |h.rooms|;
    assert RoomNamesUpTo(n + 1) == RoomNamesUpTo(n) + {RoomName(n + 1)};
  }
}
