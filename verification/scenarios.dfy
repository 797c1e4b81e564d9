/** Concrete runs of the room engine, one connection id per client. They show
    what the code does where a reader might expect otherwise: a joiner hears
    its own join notice, a sender its own echo, and a second member with the
    same key takes over the first one's entry. */
module Scenarios {
  import opened Types
  import opened Wire
  import opened Broadcast
  import opened Registry
  import opened Membership
  import opened Transcripts

  /** A room `r` that has just been created: no members, and no connection
      has been written to or fails yet. */
  predicate Quiet(h: Hub, r: string) {
    r in h.rooms && h.rooms[r].members == map[] && h.outboxes == map[] && h.failing == {}
  }

  lemma CreatedIsQuiet(r: string)
    ensures Quiet(CreateRoom(EmptyHub, r), r)
  {
  }

  /** The first member of a quiet room hears its own join notice. */
  lemma FirstJoin(h0: Hub, r: string, who: string, c: ConnId)
    requires Quiet(h0, r)
    ensures Join(h0, r, who, who, c).Success?
    ensures var h1 := Join(h0, r, who, who, c).value;
            && h1.rooms[r].members == map[who := c]
            && Sent(h1.outboxes, c) == [JoinedNotice(who)]
            && (forall c' :: c' != c ==> Sent(h1.outboxes, c') == [])
            && h1.failing == {}
  {
    JoinNotifiesEveryMember(h0, r, who, who, c);
    var h1 := Join(h0, r, who, who, c).value;
    forall c' | c' != c ensures Sent(h1.outboxes, c') == [] {
      assert c' !in h1.rooms[r].members.Values;
    }
  }

  /** A second member with another key and connection: both hear its notice. */
  lemma SecondJoin(h1: Hub, r: string, a: string, ca: ConnId, b: string, cb: ConnId)
    requires r in h1.rooms && h1.rooms[r].members == map[a := ca] && h1.failing == {}
    requires a != b && ca != cb
    ensures Join(h1, r, b, b, cb).Success?
    ensures var h2 := Join(h1, r, b, b, cb).value;
            && h2.rooms[r].members == map[a := ca, b := cb]
            && Sent(h2.outboxes, ca) == Sent(h1.outboxes, ca) + [JoinedNotice(b)]
            && Sent(h2.outboxes, cb) == Sent(h1.outboxes, cb) + [JoinedNotice(b)]
            && h2.failing == {}
  {
    JoinNotifiesEveryMember(h1, r, b, b, cb);
    var h2 := Join(h1, r, b, b, cb).value;
    assert h2.rooms[r].members == map[a := ca, b := cb];
    assert h2.rooms[r].members[a] == ca;
  }

  /** One read relayed in a room of two: both members get the tagged line. */
  lemma OneReadInPair(h2: Hub, r: string, a: string, ca: ConnId, b: string, cb: ConnId, text: string)
    requires r in h2.rooms && h2.rooms[r].members == map[a := ca, b := cb] && h2.failing == {}
    requires a != b && ca != cb
    ensures var h3 := RelayReads(h2, r, a, [text]);
            && Sent(h3.outboxes, ca) == Sent(h2.outboxes, ca) + [ChatLine(a, text)]
            && Sent(h3.outboxes, cb) == Sent(h2.outboxes, cb) + [ChatLine(a, text)]
  {
    assert h2.rooms[r].members[a] == ca && h2.rooms[r].members[b] == cb;
    RelayReadsInOrder(h2, r, a, [text], a);
    RelayReadsInOrder(h2, r, a, [text], b);
    assert ChatLines(a, [text]) == [ChatLine(a, text)];
  }

  /** In a room of two, the first one's read fails at once: the other one
      hears the leave notice, the leaver nothing, and one member is left. */
  lemma ImmediateLeaveInPair(h2: Hub, r: string, a: string, ca: ConnId, b: string, cb: ConnId)
    requires r in h2.rooms && h2.rooms[r].members == map[a := ca, b := cb] && h2.failing == {}
    requires a != b && ca != cb
    ensures var h3 := Relay(h2, r, a, a, ca, []);
            && h3.rooms[r].members == map[b := cb]
            && Sent(h3.outboxes, ca) == Sent(h2.outboxes, ca)
            && Sent(h3.outboxes, cb) == Sent(h2.outboxes, cb) + [LeftNotice(a)]
  {
    assert h2.rooms[r].members[a] == ca && h2.rooms[r].members[b] == cb;
    RelayTranscript(h2, r, a, a, ca, [], a);
    RelayTranscript(h2, r, a, a, ca, [], b);
    assert map[a := ca, b := cb] - {a} == map[b := cb];
  }

  /** a joins a quiet room, then b: each has heard the notices of its own
      join and of the joins after it. */
  lemma TwoJoins(h0: Hub, h1: Hub, h2: Hub, r: string, a: string, ca: ConnId, b: string, cb: ConnId)
    requires Quiet(h0, r) && a != b && ca != cb
    requires Join(h0, r, a, a, ca) == Success(h1) && Join(h1, r, b, b, cb) == Success(h2)
    ensures r in h2.rooms && h2.rooms[r].members == map[a := ca, b := cb] && h2.failing == {}
    ensures Sent(h2.outboxes, ca) == [JoinedNotice(a), JoinedNotice(b)]
    ensures Sent(h2.outboxes, cb) == [JoinedNotice(b)]
  {
    FirstJoin(h0, r, a, ca);
    SecondJoin(h1, r, a, ca, b, cb);
  }

  /** The second of two connections under one key takes over the entry; the
      displaced one hears nothing of it. */
  lemma Takeover(h1: Hub, r: string, k: string, c1: ConnId, c2: ConnId)
    requires r in h1.rooms && h1.rooms[r].members == map[k := c1] && h1.failing == {}
    requires c1 != c2
    ensures var h2 := Join(h1, r, k, k, c2).value;
            && h2.rooms[r].members == map[k := c2]
            && Sent(h2.outboxes, c1) == Sent(h1.outboxes, c1)
            && Sent(h2.outboxes, c2) == Sent(h1.outboxes, c2) + [JoinedNotice(k)]
            && h2.failing == {}
  {
    JoinNotifiesEveryMember(h1, r, k, k, c2);
    var h2 := Join(h1, r, k, k, c2).value;
    assert h2.rooms[r].members == map[k := c2];
    assert h2.rooms[r].members[k] == c2;
  }

  /** The displaced connection's relay still reaches the one that took over,
      but not itself; its leave then deletes the key, removing the other. */
  lemma DisplacedRelay(h2: Hub, r: string, k: string, c1: ConnId, c2: ConnId, text: string)
    requires r in h2.rooms && h2.rooms[r].members == map[k := c2] && h2.failing == {}
    requires c1 != c2
    ensures var h3 := RelayReads(h2, r, k, [text]);
            && Sent(h3.outboxes, c1) == Sent(h2.outboxes, c1)
            && Sent(h3.outboxes, c2) == Sent(h2.outboxes, c2) + [ChatLine(k, text)]
            && Leave(h3, r, k, k, c1).rooms[r].members == map[]
  {
    assert h2.rooms[r].members[k] == c2;
    RelayReadsInOrder(h2, r, k, [text], k);
    assert ChatLines(k, [text]) == [ChatLine(k, text)];
    assert c1 !in h2.rooms[r].members.Values;
    RelayReadsReachOnlyMembers(h2, r, k, [text], c1);
    assert map[k := c2] - {k} == map[];
  }

  /** Two connections join under the same key ("carl", say). The second
      takes over the entry; the first can still read and relay, reaching the
      second but no longer itself; when the first one's read fails it deletes
      the key and so removes the second connection, which is still being read. */
  lemma SameKeyTwice(h0: Hub, h1: Hub, h2: Hub, r: string, k: string, c1: ConnId, c2: ConnId, text: string)
    requires Quiet(h0, r) && c1 != c2
    requires Join(h0, r, k, k, c1) == Success(h1) && Join(h1, r, k, k, c2) == Success(h2)
    ensures var h3 := RelayReads(h2, r, k, [text]);
            && h2.rooms[r].members == map[k := c2]
            && Sent(h3.outboxes, c1) == [JoinedNotice(k)]
            && Sent(h3.outboxes, c2) == [JoinedNotice(k), ChatLine(k, text)]
            && Leave(h3, r, k, k, c1).rooms[r].members == map[]
  {
    FirstJoin(h0, r, k, c1);
    Takeover(h1, r, k, c1, c2);
    assert Sent(h2.outboxes, c1) == [JoinedNotice(k)];
    assert Sent(h2.outboxes, c2) == [JoinedNotice(k)];
    DisplacedRelay(h2, r, k, c1, c2, text);
  }
}
