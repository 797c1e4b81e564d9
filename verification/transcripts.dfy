/** What each member's connection observes across joins, relayed reads and
    leaves, when every connection is stored under at most one key (a
    connection is fresh from its upgrade when it joins). */
module Transcripts {
  import opened Types
  import opened Wire
  import opened Broadcast
  import opened Registry
  import opened Membership

  lemma InjectiveAfterInsert(members: Members, key: string, conn: ConnId)
    requires Injective(members) && conn !in members.Values
    ensures Injective(members[key := conn])
  {
    forall k | k in members ensures members[k] != conn {
      assert members[k] in members.Values;
    }
  }

  lemma InjectiveAfterRemove(members: Members, key: string)
    requires Injective(members)
    ensures Injective(members - {key})
  {
  }

  /** Removing a key removes the only occurrence of its connection. */
  lemma RemovedConnIsGone(members: Members, key: string)
    requires Injective(members) && key in members
    ensures members[key] !in (members - {key}).Values
  {
    var m' := members - {key};
    forall c | c in m'.Values ensures c != members[key] {
      var k :| k in m' && m'[k] == c;
      assert k != key && members[k] == c;
    }
  }

  /** Overwriting a key with a fresh connection leaves the old one stored nowhere. */
  lemma DisplacedConnIsGone(members: Members, key: string, conn: ConnId)
    requires Injective(members) && key in members && conn !in members.Values
    ensures members[key] !in members[key := conn].Values
  {
    RemovedConnIsGone(members, key);
    assert members[key] in members.Values;
    var m' := members[key := conn];
    forall c | c in m'.Values ensures c == conn || c in (members - {key}).Values {
      var k :| k in m' && m'[k] == c;
      if k != key {
        assert (members - {key})[k] == c;
      }
    }
  }

  /** After a join with a fresh connection every member that can be written
      to, the joiner included, has received the notice exactly once; the
      connection the key displaced, if any, has received nothing. */
  lemma JoinNotifiesEveryMember(h: Hub, roomId: string, key: string, name: string, conn: ConnId)
    requires roomId in h.rooms
    requires Injective(h.rooms[roomId].members) && conn !in h.rooms[roomId].members.Values
    ensures Join(h, roomId, key, name, conn).Success?
    ensures var h' := Join(h, roomId, key, name, conn).value;
            var m' := h'.rooms[roomId].members;
            forall k :: k in m' && m'[k] !in h.failing ==>
              Sent(h'.outboxes, m'[k]) == Sent(h.outboxes, m'[k]) + [JoinedNotice(name)]
    ensures var h' := Join(h, roomId, key, name, conn).value;
            var m := h.rooms[roomId].members;
            key in m ==> Sent(h'.outboxes, m[key]) == Sent(h.outboxes, m[key])
  {
    var m := h.rooms[roomId].members;
    var m' := m[key := conn];
    InjectiveAfterInsert(m, key, conn);
    var h' := Join(h, roomId, key, name, conn).value;
    forall k | k in m' && m'[k] !in h.failing
      ensures Sent(h'.outboxes, m'[k]) == Sent(h.outboxes, m'[k]) + [JoinedNotice(name)]
    {
      DeliverOncePerMember(h.outboxes, m', h.failing, JoinedNotice(name), k);
    }
    if key in m {
      DisplacedConnIsGone(m, key, conn);
    }
  }

  /** The relay loop broadcasts the reads in order: every member that can be
      written to, the sender's own connection included, receives exactly the
      tagged lines, in read order. */
  lemma {:induction false} RelayReadsInOrder(h: Hub, roomId: string, name: string, trace: seq<string>, k: string)
    requires roomId in h.rooms
    requires Injective(h.rooms[roomId].members)
    requires k in h.rooms[roomId].members && h.rooms[roomId].members[k] !in h.failing
    ensures var c := h.rooms[roomId].members[k];
            Sent(RelayReads(h, roomId, name, trace).outboxes, c) == Sent(h.outboxes, c) + ChatLines(name, trace)
    decreases |trace|
  {
    var c := h.rooms[roomId].members[k];
    if trace != [] {
      var h1 := Announce(h, h.rooms[roomId].members, ChatLine(name, trace[0]));
      DeliverOncePerMember(h.outboxes, h.rooms[roomId].members, h.failing, ChatLine(name, trace[0]), k);
      RelayReadsInOrder(h1, roomId, name, trace[1..], k);
      assert ChatLines(name, trace) == [ChatLine(name, trace[0])] + ChatLines(name, trace[1..]);
    }
  }

  /** A connection outside the room, or one whose writes fail, sees nothing of
      the relayed reads. */
  lemma {:induction false} RelayReadsReachOnlyMembers(h: Hub, roomId: string, name: string, trace: seq<string>, c: ConnId)
    requires roomId in h.rooms
    requires c in h.failing || c !in h.rooms[roomId].members.Values
    ensures Sent(RelayReads(h, roomId, name, trace).outboxes, c) == Sent(h.outboxes, c)
    decreases |trace|
  {
    if trace != [] {
      var h1 := Announce(h, h.rooms[roomId].members, ChatLine(name, trace[0]));
      RelayReadsReachOnlyMembers(h1, roomId, name, trace[1..], c);
    }
  }

  /** The leave notice reaches each remaining member exactly once, and never
      the connection that was stored under the departing key. */
  lemma LeaveNotifiesRemaining(h: Hub, roomId: string, key: string, name: string, conn: ConnId, k: string)
    requires roomId in h.rooms
    requires Injective(h.rooms[roomId].members)
    requires k in h.rooms[roomId].members && h.rooms[roomId].members[k] !in h.failing
    ensures var c := h.rooms[roomId].members[k];
            Sent(Leave(h, roomId, key, name, conn).outboxes, c)
              == Sent(h.outboxes, c) + (if k == key then [] else [LeftNotice(name)])
  {
    var m := h.rooms[roomId].members;
    var m' := m - {key};
    InjectiveAfterRemove(m, key);
    if k == key {
      RemovedConnIsGone(m, key);
    } else {
      DeliverOncePerMember(h.outboxes, m', h.failing, LeftNotice(name), k);
    }
  }

  /** The whole transcript of one relay loop as a member sees it: the tagged
      reads in order, then the leave notice, except that the member whose key
      is leaving gets its own echoes but not its own leave notice. */
  lemma RelayTranscript(h: Hub, roomId: string, key: string, name: string, conn: ConnId, trace: seq<string>, k: string)
    requires roomId in h.rooms
    requires Injective(h.rooms[roomId].members)
    requires k in h.rooms[roomId].members && h.rooms[roomId].members[k] !in h.failing
    ensures var c := h.rooms[roomId].members[k];
            Sent(Relay(h, roomId, key, name, conn, trace).outboxes, c)
              == Sent(h.outboxes, c) + ChatLines(name, trace) + (if k == key then [] else [LeftNotice(name)])
  {
    RelayReadsInOrder(h, roomId, name, trace, k);
    LeaveNotifiesRemaining(RelayReads(h, roomId, name, trace), roomId, key, name, conn, k);
  }
}
