/** `broadcastMessage`: one pass over a room's member map that writes the
    message to every stored connection. A connection is an identifier, its
    socket is the list of messages written to it (its outbox), and a write to
    a connection in the failing set is an error that is only logged. */
module Broadcast {
  import opened Types

  type Outboxes = map<ConnId, seq<string>>

  type Members = map<string, ConnId>

  /** Everything written so far to `c`; nothing if it was never written to. */
  function Sent(o: Outboxes, c: ConnId): seq<string> {
    if c in o then o[c] else []
  }

  function Repeat(msg: string, n: nat): (r: seq<string>)
    ensures |r| == n
    ensures forall i :: 0 <= i < n ==> r[i] == msg
  {
    if n == 0 then [] else Repeat(msg, n - 1) + [msg]
  }

  /** Each connection is stored under at most one key. */
  predicate Injective(members: Members) {
    forall k1, k2 :: k1 in members && k2 in members && members[k1] == members[k2] ==> k1 == k2
  }

  /** The keys among `ks` under which `v` is stored. */
  function KeysTo<V(==)>(m: map<string, V>, ks: set<string>, v: V): set<string> {
    set k | k in ks && k in m && m[k] == v
  }

  /** How many copies `c` receives from a pass over the keys `ks`. */
  function Copies(members: Members, ks: set<string>, failing: set<ConnId>, c: ConnId): nat {
    if c in failing then 0 else |KeysTo(members, ks, c)|
  }

  /** The connections a pass over the keys `ks` writes to successfully. */
  function Targets(members: Members, ks: set<string>, failing: set<ConnId>): set<ConnId> {
    set k | k in ks && k in members && members[k] !in failing :: members[k]
  }

  /** The outboxes after one full pass, independent of the iteration order. */
  function Deliver(o: Outboxes, members: Members, failing: set<ConnId>, msg: string): (r: Outboxes)
    ensures forall c :: c in failing || c !in members.Values ==> Sent(r, c) == Sent(o, c)
    ensures forall c :: Sent(o, c) <= Sent(r, c)
    ensures forall c, i :: |Sent(o, c)| <= i < |Sent(r, c)| ==> Sent(r, c)[i] == msg
  {
    var r := map c | c in o.Keys + Targets(members, members.Keys, failing)
      :: Sent(o, c) + Repeat(msg, Copies(members, members.Keys, failing, c));
    forall c | c in failing || c !in members.Values
      ensures Sent(r, c) == Sent(o, c)
    {
      NoKeysNoCopies(members, failing, c);
    }
    r
  }

  /** A connection some key maps to is a stored value, and a write target
      unless it fails. */
  lemma KeysToIsStored(members: Members, ks: set<string>, failing: set<ConnId>, c: ConnId)
    ensures KeysTo(members, ks, c) != {} ==> c in members.Values
    ensures KeysTo(members, ks, c) != {} && c !in failing ==> c in Targets(members, ks, failing)
  {
    if KeysTo(members, ks, c) != {} {
      var k :| k in KeysTo(members, ks, c);
      assert members[k] == c;
    }
  }

  lemma NoKeysNoCopies(members: Members, failing: set<ConnId>, c: ConnId)
    requires c in failing || c !in members.Values
    ensures Copies(members, members.Keys, failing, c) == 0
  {
    KeysToIsStored(members, members.Keys, failing, c);
  }

  /** The closed form of a delivery, for every connection. */
  lemma DeliverSent(o: Outboxes, members: Members, failing: set<ConnId>, msg: string, c: ConnId)
    ensures Sent(Deliver(o, members, failing, msg), c)
         == Sent(o, c) + Repeat(msg, Copies(members, members.Keys, failing, c))
  {
    KeysToIsStored(members, members.Keys, failing, c);
  }

  /** With every connection under one key, each non-failing member receives
      the message exactly once. */
  lemma DeliverOncePerMember(o: Outboxes, members: Members, failing: set<ConnId>, msg: string, k: string)
    requires Injective(members)
    requires k in members && members[k] !in failing
    ensures Sent(Deliver(o, members, failing, msg), members[k]) == Sent(o, members[k]) + [msg]
  {
    DeliverSent(o, members, failing, msg, members[k]);
    assert KeysTo(members, members.Keys, members[k]) == {k};
  }

  /** A stored connection that can be written to receives at least one copy,
      and the message is the last thing in its outbox. */
  lemma DeliverReachesMember(o: Outboxes, members: Members, failing: set<ConnId>, msg: string, k: string)
    requires k in members && members[k] !in failing
    ensures |Sent(Deliver(o, members, failing, msg), members[k])| > |Sent(o, members[k])|
    ensures Sent(Deliver(o, members, failing, msg), members[k])[|Sent(Deliver(o, members, failing, msg), members[k])| - 1] == msg
  {
    DeliverSent(o, members, failing, msg, members[k]);
    assert k in KeysTo(members, members.Keys, members[k]);
  }

  /** Visiting one more key adds it to the keys of its own value only. */
  lemma KeysToGrows<V>(m: map<string, V>, ks: set<string>, k: string, v: V)
    requires k in m && k !in ks
    ensures m[k] == v ==> |KeysTo(m, ks + {k}, v)| == |KeysTo(m, ks, v)| + 1
    ensures m[k] != v ==> KeysTo(m, ks + {k}, v) == KeysTo(m, ks, v)
  {
    if m[k] == v {
      assert KeysTo(m, ks + {k}, v) == KeysTo(m, ks, v) + {k};
    }
  }

  /** What the loop has written after visiting the keys `done`. */
  ghost predicate Visited(o: Outboxes, o': Outboxes, members: Members, failing: set<ConnId>, msg: string, done: set<string>) {
    && o'.Keys == o.Keys + Targets(members, done, failing)
    && forall c :: Sent(o', c) == Sent(o, c) + Repeat(msg, Copies(members, done, failing, c))
  }

  /** One loop iteration: write to the connection stored under `k`. */
  function WriteTo(o: Outboxes, members: Members, failing: set<ConnId>, msg: string, k: string): Outboxes
    requires k in members
  {
    var c := members[k];
    if c in failing then o else o[c := Sent(o, c) + [msg]]
  }

  lemma TargetsGrow(members: Members, failing: set<ConnId>, done: set<string>, k: string)
    requires k in members && k !in done
    ensures Targets(members, done + {k}, failing)
         == Targets(members, done, failing) + (if members[k] !in failing then {members[k]} else {})
  {
  }

  lemma CopiesGrow(members: Members, failing: set<ConnId>, done: set<string>, k: string, c: ConnId)
    requires k in members && k !in done
    ensures Copies(members, done + {k}, failing, c)
         == Copies(members, done, failing, c) + (if c == members[k] && c !in failing then 1 else 0)
  {
    KeysToGrows(members, done, k, c);
  }

  lemma {:induction false} VisitOneMore(o: Outboxes, o': Outboxes, members: Members, failing: set<ConnId>, msg: string, done: set<string>, k: string)
    requires k in members && k !in done
    requires Visited(o, o', members, failing, msg, done)
    ensures Visited(o, WriteTo(o', members, failing, msg, k), members, failing, msg, done + {k})
  {
    var c := members[k];
    var o'' := WriteTo(o', members, failing, msg, k);
    forall c' ensures Sent(o'', c') == Sent(o, c') + Repeat(msg, Copies(members, done + {k}, failing, c')) {
      CopiesGrow(members, failing, done, k, c');
      var n := Copies(members, done, failing, c');
      assert Sent(o', c') == Sent(o, c') + Repeat(msg, n);
      if c' == c && c !in failing {
        assert Sent(o'', c') == Sent(o', c') + [msg];
        assert Repeat(msg, n + 1) == Repeat(msg, n) + [msg];
      } else {
        assert Sent(o'', c') == Sent(o', c');
      }
    }
    TargetsGrow(members, failing, done, k);
  }

  lemma VisitedAll(o: Outboxes, o': Outboxes, members: Members, failing: set<ConnId>, msg: string)
    requires Visited(o, o', members, failing, msg, members.Keys)
    ensures o' == Deliver(o, members, failing, msg)
  {
    var d := Deliver(o, members, failing, msg);
    forall c | c in o' ensures o'[c] == d[c] {
      DeliverSent(o, members, failing, msg, c);
      assert o'[c] == Sent(o', c);
    }
  }

  /** Appending copies in two runs is appending them in one. */
  lemma RepeatAdds(msg: string, a: nat, b: nat)
    ensures Repeat(msg, a) + Repeat(msg, b) == Repeat(msg, a + b)
  {
    assert |Repeat(msg, a) + Repeat(msg, b)| == a + b;
  }

  /** The loop run over one particular listing of the keys, first to last. */
  function WriteInOrder(o: Outboxes, members: Members, failing: set<ConnId>, msg: string, ks: seq<string>): Outboxes
    requires forall i :: 0 <= i < |ks| ==> ks[i] in members
    decreases |ks|
  {
    if ks == [] then o
    else WriteInOrder(WriteTo(o, members, failing, msg, ks[0]), members, failing, msg, ks[1..])
  }

  /** A pass over a listing without repeats writes `c` once per listed key
      that stores it, unless its writes fail. */
  lemma {:induction false} WriteInOrderSent(o: Outboxes, members: Members, failing: set<ConnId>, msg: string, ks: seq<string>, c: ConnId)
    requires forall i :: 0 <= i < |ks| ==> ks[i] in members
    requires forall i, j :: 0 <= i < j < |ks| ==> ks[i] != ks[j]
    ensures Sent(WriteInOrder(o, members, failing, msg, ks), c)
         == Sent(o, c) + Repeat(msg, if c in failing then 0 else |KeysTo(members, (set k | k in ks), c)|)
    decreases |ks|
  {
    if ks != [] {
      var k0, rest := ks[0], ks[1..];
      var o1 := WriteTo(o, members, failing, msg, k0);
      WriteInOrderSent(o1, members, failing, msg, rest, c);
      assert (set k | k in ks) == (set k | k in rest) + {k0};
      assert k0 !in rest by {
        forall i | 0 <= i < |rest| ensures rest[i] != k0 {
          assert rest[i] == ks[i + 1];
        }
      }
      KeysToGrows(members, (set k | k in rest), k0, c);
      var n := |KeysTo(members, (set k | k in rest), c)|;
      if c == members[k0] && c !in failing {
        assert Sent(o1, c) == Sent(o, c) + [msg];
        RepeatAdds(msg, 1, n);
        assert Repeat(msg, 1) == [msg];
      } else {
        assert Sent(o1, c) == Sent(o, c);
      }
    }
  }

  /** Writing to the members key by key, in any listing of the keys without
      repeats, gives each connection one copy per key that stores it, and
      nothing to a connection whose writes fail. */
  lemma SequentialPassSent(o: Outboxes, members: Members, failing: set<ConnId>, msg: string, ks: seq<string>, c: ConnId)
    requires forall k :: k in members <==> k in ks
    requires forall i, j :: 0 <= i < j < |ks| ==> ks[i] != ks[j]
    ensures c in failing ==> Sent(WriteInOrder(o, members, failing, msg, ks), c) == Sent(o, c)
    ensures c !in failing ==>
              Sent(WriteInOrder(o, members, failing, msg, ks), c)
              == Sent(o, c) + Repeat(msg, |set k | k in members && members[k] == c|)
  {
    WriteInOrderSent(o, members, failing, msg, ks, c);
    assert KeysTo(members, (set k | k in ks), c) == (set k | k in members && members[k] == c);
  }

  /** The source's loop: visit the member keys one at a time, in whatever
      order the map yields them, append to each stored connection, and only
      log a failed write. Every order gives the same outboxes. */
  method BroadcastMessage(o: Outboxes, members: Members, failing: set<ConnId>, msg: string)
    returns (o': Outboxes)
    ensures o' == Deliver(o, members, failing, msg)
  {
    o' := o;
    var pending := members.Keys;
    ghost var done: set<string> := {};
    while pending != {}
      invariant pending + done == members.Keys && pending !! done
      invariant Visited(o, o', members, failing, msg, done)
      decreases pending
    {
      var k :| k in pending;
      VisitOneMore(o, o', members, failing, msg, done, k);
      o' := WriteTo(o', members, failing, msg, k);
      pending := pending - {k};
      done := done + {k};
    }
    VisitedAll(o, o', members, failing, msg);
  }
}
