/** The connection registry of the hub: an ordered list of connection
    handles, with join, leave and a self-healing broadcast. */
module Registry {

  /** A connection handle. Connections are told apart by identity only;
      an id stands for that identity. */
  type ConnId = nat

  /** One message handed to the transport for one connection. */
  datatype Delivery<M> = Delivery(to: ConnId, msg: M)

  /** The outcome of one broadcast: the entries kept (those whose send
      succeeded) and the messages delivered, in registry order. */
  datatype Broadcast<M> = Broadcast(living: seq<ConnId>, outbox: seq<Delivery<M>>)

  // ---------------------------------------------------------------------
  // Join and leave
  // ---------------------------------------------------------------------

  /** Registering a connection appends it at the end; a handle already
      present is not rejected, it simply appears twice. */
  function Connect(reg: seq<ConnId>, c: ConnId): (r: seq<ConnId>)
    ensures |r| == |reg| + 1
    ensures r[..|reg|] == reg && r[|reg|] == c
    ensures multiset(r) == multiset(reg) + multiset{c}
  {
    reg + [c]
  }

  /** The position of the first occurrence of `c` in `reg`. */
  function FirstIndex(reg: seq<ConnId>, c: ConnId): (i: nat)
    requires c in reg
    ensures i < |reg| && reg[i] == c
    ensures c !in reg[..i]
  {
    if reg[0] == c then 0
    else
      var j := FirstIndex(reg[1..], c);
      assert reg[..j + 1] == [reg[0]] + reg[1..][..j];
      j + 1
  }

  /** Unregistering removes one occurrence of the handle (Python's
      `list.remove`); removing an absent handle is a silent no-op.
      `DisconnectRemovesFirst` states which occurrence goes. */
  function Disconnect(reg: seq<ConnId>, c: ConnId): (r: seq<ConnId>)
    ensures c !in reg ==> r == reg
    ensures |r| == if c in reg then |reg| - 1 else |reg|
    ensures multiset(r) == multiset(reg) - multiset{c}
  {
    if |reg| == 0 then reg
    else if reg[0] == c then
      assert reg == [reg[0]] + reg[1..];
      reg[1..]
    else
      var rest := Disconnect(reg[1..], c);
      assert reg == [reg[0]] + reg[1..];
      [reg[0]] + rest
  }

  /** Exactly the first occurrence is removed and the other entries keep
      their relative order. */
  lemma {:induction false} DisconnectRemovesFirst(reg: seq<ConnId>, c: ConnId)
    requires c in reg
    ensures var i := FirstIndex(reg, c);
            Disconnect(reg, c) == reg[..i] + reg[i + 1..]
    decreases |reg|
  {
    if reg[0] == c {
      assert reg[..0] + reg[1..] == reg[1..];
    } else {
      var tail := reg[1..];
      var j := FirstIndex(tail, c);
      DisconnectRemovesFirst(tail, c);
      assert FirstIndex(reg, c) == j + 1;
      assert Disconnect(reg, c) == [reg[0]] + (tail[..j] + tail[j + 1..]);
      DropAfterHead(reg, j);
    }
  }

  /** Deleting position `j + 1` of `reg` is deleting position `j` of its tail. */
  lemma DropAfterHead(reg: seq<ConnId>, j: nat)
    requires j + 1 < |reg|
    ensures reg[..j + 1] + reg[j + 2..] == [reg[0]] + (reg[1..][..j] + reg[1..][j + 1..])
  {
  }

  /** Applies `Connect` for each handle of `joins`, in order. */
  function ConnectAll(reg: seq<ConnId>, joins: seq<ConnId>): seq<ConnId>
    decreases |joins|
  {
    if |joins| == 0 then reg else ConnectAll(Connect(reg, joins[0]), joins[1..])
  }

  /** Applies `Disconnect` for each handle of `leaves`, in order. */
  function DisconnectAll(reg: seq<ConnId>, leaves: seq<ConnId>): seq<ConnId>
    decreases |leaves|
  {
    if |leaves| == 0 then reg else DisconnectAll(Disconnect(reg, leaves[0]), leaves[1..])
  }

  /** A second leave of the same connection changes nothing, as long as
      it was registered at most once. */
  lemma DisconnectIdempotent(reg: seq<ConnId>, c: ConnId)
    requires multiset(reg)[c] <= 1
    ensures Disconnect(Disconnect(reg, c), c) == Disconnect(reg, c)
  {
  }

  /** A fresh connection that joins and then leaves restores the registry. */
  lemma DisconnectUndoesConnect(reg: seq<ConnId>, c: ConnId)
    requires c !in reg
    ensures Disconnect(Connect(reg, c), c) == reg
  {
    var r := Connect(reg, c);
    assert r[..|reg|] == reg;
    DisconnectRemovesFirst(r, c);
  }

  /** Joining a connection that is already registered keeps both entries:
      the registry grows and the handle now occurs once more. */
  lemma ConnectKeepsDuplicates(reg: seq<ConnId>, c: ConnId)
    requires c in reg
    ensures |Connect(reg, c)| == |reg| + 1
    ensures multiset(Connect(reg, c))[c] >= 2
  {
  }

  /** `ConnectAll` appends the joins in order. */
  lemma {:induction false} ConnectAllAppends(reg: seq<ConnId>, joins: seq<ConnId>)
    ensures ConnectAll(reg, joins) == reg + joins
    decreases |joins|
  {
    if |joins| > 0 {
      ConnectAllAppends(Connect(reg, joins[0]), joins[1..]);
      assert reg + [joins[0]] + joins[1..] == reg + joins;
    }
  }

  /** Leaves of registered connections each remove exactly one entry. */
  lemma {:induction false} DisconnectAllSize(reg: seq<ConnId>, leaves: seq<ConnId>)
    requires multiset(leaves) <= multiset(reg)
    ensures |DisconnectAll(reg, leaves)| == |reg| - |leaves|
    ensures multiset(DisconnectAll(reg, leaves)) == multiset(reg) - multiset(leaves)
    decreases |leaves|
  {
    if |leaves| > 0 {
      var l := leaves[0];
      assert leaves == [l] + leaves[1..];
      assert multiset(leaves) == multiset{l} + multiset(leaves[1..]);
      assert l in multiset(reg);
      var r := Disconnect(reg, l);
      assert multiset(leaves[1..]) <= multiset(r);
      DisconnectAllSize(r, leaves[1..]);
    }
  }

  /** After k joins and m leaves of joined connections (m <= k), the
      registry holds k - m more entries than it started with. */
  lemma JoinsThenLeaves(reg: seq<ConnId>, joins: seq<ConnId>, leaves: seq<ConnId>)
    requires multiset(leaves) <= multiset(joins)
    ensures |DisconnectAll(ConnectAll(reg, joins), leaves)| == |reg| + |joins| - |leaves|
  {
    ConnectAllAppends(reg, joins);
    assert multiset(reg + joins) == multiset(reg) + multiset(joins);
    DisconnectAllSize(reg + joins, leaves);
  }

  // ---------------------------------------------------------------------
  // Broadcast
  // ---------------------------------------------------------------------

  /** `a` can be obtained from `b` by deleting entries: `a` keeps the
      relative order of `b`. */
  ghost predicate IsSubsequence(a: seq<ConnId>, b: seq<ConnId>)
    decreases |b|
  {
    |a| == 0 ||
    (|b| > 0 &&
     ((a[0] == b[0] && IsSubsequence(a[1..], b[1..])) || IsSubsequence(a, b[1..])))
  }

  /** The entries whose send succeeds, in registry order. */
  function Living(reg: seq<ConnId>, dead: set<ConnId>): (r: seq<ConnId>)
    ensures |r| <= |reg|
    ensures forall i :: 0 <= i < |r| ==> r[i] !in dead
  {
    if |reg| == 0 then []
    else
      var rest := Living(reg[1..], dead);
      if reg[0] in dead then rest else [reg[0]] + rest
  }

  /** Every entry whose send succeeds is kept with its multiplicity, and
      every failing one is dropped. */
  lemma {:induction false} LivingCounts(reg: seq<ConnId>, dead: set<ConnId>)
    ensures forall c :: multiset(Living(reg, dead))[c] == if c in dead then 0 else multiset(reg)[c]
    decreases |reg|
  {
    if |reg| > 0 {
      LivingCounts(reg[1..], dead);
      assert reg == [reg[0]] + reg[1..];
      assert multiset(reg) == multiset{reg[0]} + multiset(reg[1..]);
    }
  }

  /** The kept entries are in registry order. */
  lemma {:induction false} LivingIsSubsequence(reg: seq<ConnId>, dead: set<ConnId>)
    ensures IsSubsequence(Living(reg, dead), reg)
    decreases |reg|
  {
    if |reg| > 0 {
      LivingIsSubsequence(reg[1..], dead);
      var rest := Living(reg[1..], dead);
      if reg[0] !in dead {
        assert ([reg[0]] + rest)[1..] == rest;
      }
    }
  }

  /** The number of registry entries whose send fails. */
  function CountFailing(reg: seq<ConnId>, dead: set<ConnId>): nat
  {
    if |reg| == 0 then 0
    else (if reg[0] in dead then 1 else 0) + CountFailing(reg[1..], dead)
  }

  /** One message for each connection of `to`, in order. */
  function Deliver<M>(to: seq<ConnId>, msg: M): seq<Delivery<M>>
  {
    seq(|to|, i requires 0 <= i < |to| => Delivery(to[i], msg))
  }

  /** The recipients of an outbox, in order. */
  function Recipients<M>(outbox: seq<Delivery<M>>): seq<ConnId>
  {
    seq(|outbox|, i requires 0 <= i < |outbox| => outbox[i].to)
  }

  /** Sends `msg` to every registered entry and keeps exactly the entries
      whose send succeeded. A connection receives the message once per
      registry entry if its send succeeds and not at all otherwise; no
      failure is reported to the caller. */
  function Fanout<M>(reg: seq<ConnId>, dead: set<ConnId>, msg: M): (r: Broadcast<M>)
    ensures r.living == Living(reg, dead)
    ensures Recipients(r.outbox) == r.living
    ensures forall i :: 0 <= i < |r.outbox| ==> r.outbox[i].msg == msg
    ensures forall c :: multiset(Recipients(r.outbox))[c] == if c in dead then 0 else multiset(reg)[c]
  {
    var living := Living(reg, dead);
    LivingCounts(reg, dead);
    assert Recipients(Deliver(living, msg)) == living;
    Broadcast(living, Deliver(living, msg))
  }

  /** The send loop as the hub runs it: entries are tried one after
      another, a failed send is skipped, and the registry is replaced by
      the entries that succeeded. It computes the same as `Fanout`. */
  method SendAll<M>(reg: seq<ConnId>, dead: set<ConnId>, msg: M)
    returns (living: seq<ConnId>, outbox: seq<Delivery<M>>)
    ensures Broadcast(living, outbox) == Fanout(reg, dead, msg)
  {
    living := [];
    outbox := [];
    for i := 0 to |reg|
      invariant living == Living(reg[..i], dead)
      invariant outbox == Deliver(living, msg)
    {
      assert reg[..i + 1] == reg[..i] + [reg[i]];
      LivingConcat(reg[..i], [reg[i]], dead);
      assert [reg[i]][1..] == [];
      if reg[i] !in dead {
        living := living + [reg[i]];
        outbox := outbox + [Delivery(reg[i], msg)];
      }
    }
    assert reg[..|reg|] == reg;
  }

  /** Failure isolation: the outcome for the entries of `b` does not depend
      on which entries of `a`, sent earlier, fail. */
  lemma {:induction false} LivingConcat(a: seq<ConnId>, b: seq<ConnId>, dead: set<ConnId>)
    ensures Living(a + b, dead) == Living(a, dead) + Living(b, dead)
    decreases |a|
  {
    if |a| == 0 {
      assert a + b == b;
    } else {
      assert (a + b)[0] == a[0];
      assert (a + b)[1..] == a[1..] + b;
      LivingConcat(a[1..], b, dead);
    }
  }

  /** A broadcast shrinks the registry by exactly the number of failing
      entries. */
  lemma {:induction false} LivingLength(reg: seq<ConnId>, dead: set<ConnId>)
    ensures |Living(reg, dead)| == |reg| - CountFailing(reg, dead)
    ensures CountFailing(reg, dead) <= |reg|
    decreases |reg|
  {
    if |reg| > 0 {
      LivingLength(reg[1..], dead);
    }
  }

  /** No entry fails exactly when the broadcast keeps every entry. */
  lemma {:induction false} NoFailureKeepsAll(reg: seq<ConnId>, dead: set<ConnId>)
    ensures CountFailing(reg, dead) == 0 <==> forall i :: 0 <= i < |reg| ==> reg[i] !in dead
    ensures |Living(reg, dead)| == |reg| <==> forall i :: 0 <= i < |reg| ==> reg[i] !in dead
    decreases |reg|
  {
    LivingLength(reg, dead);
    if |reg| > 0 {
      NoFailureKeepsAll(reg[1..], dead);
      if forall i :: 0 <= i < |reg| ==> reg[i] !in dead {
        assert forall i :: 0 <= i < |reg[1..]| ==> reg[1..][i] !in dead by {
          forall i | 0 <= i < |reg[1..]| ensures reg[1..][i] !in dead {
            assert reg[1..][i] == reg[i + 1];
          }
        }
      }
      if CountFailing(reg, dead) == 0 {
        forall i | 0 <= i < |reg| ensures reg[i] !in dead {
          if i > 0 {
            assert reg[i] == reg[1..][i - 1];
          }
        }
      }
    }
  }

  /** A broadcast with no failing entry leaves the registry as it was. */
  lemma {:induction false} LivingAllAlive(reg: seq<ConnId>, dead: set<ConnId>)
    requires forall i :: 0 <= i < |reg| ==> reg[i] !in dead
    ensures Living(reg, dead) == reg
    decreases |reg|
  {
    if |reg| > 0 {
      assert reg[0] !in dead;
      forall i | 0 <= i < |reg[1..]| ensures reg[1..][i] !in dead {
        assert reg[1..][i] == reg[i + 1];
      }
      LivingAllAlive(reg[1..], dead);
      assert reg == [reg[0]] + reg[1..];
    }
  }
}
