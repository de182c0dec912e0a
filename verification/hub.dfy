/** The per-connection protocol of the hub as one step function over the
    shared state: a join, one received message, or a disconnect moves the
    registry and the document and yields the messages sent. */
module Hub {
  import opened Values
  import opened Registry
  import opened DocumentCell
  import opened Messages

  /** The shared state: the connection registry and the document. */
  datatype State = State(registry: seq<ConnId>, doc: Document)

  /** The state at process start. */
  const Start: State := State([], Initial)

  /** At process start no connection is registered, the text is empty and
      the document has never been updated. */
  lemma StartIsEmpty()
    ensures |Start.registry| == 0
    ensures Start.doc.text == JString("") && Start.doc.lastUpdated == None
  {
  }

  /** What can happen on one connection. */
  datatype Event =
    | Join(c: ConnId)                  // the channel was accepted
    | Receive(c: ConnId, msg: Inbound) // one message was read from it
    | Leave(c: ConnId)                 // the client went away

  /** The new state and the messages handed to the transport, in order. */
  datatype Outcome = Outcome(hub: State, outbox: seq<Delivery<Outbound>>)

  /** The value echoed as the author of an edit: the payload's `author`
      field, null when absent. */
  function AuthorOf(edit: map<string, Json>): Json
  {
    Get(edit, "author", JNull)
  }

  /** Broadcasts `msg` to the registry `reg` and keeps the document `doc`. */
  function Announce(reg: seq<ConnId>, doc: Document, dead: set<ConnId>, msg: Outbound): Outcome
  {
    var b := Fanout(reg, dead, msg);
    Outcome(State(b.living, doc), b.outbox)
  }

  /** A broadcast keeps only registered connections and sends only to the
      connections it keeps. */
  lemma AnnounceStaysInRegistry(reg: seq<ConnId>, doc: Document, dead: set<ConnId>, msg: Outbound)
    ensures var r := Announce(reg, doc, dead, msg);
            && r.hub.doc == doc
            && |r.hub.registry| <= |reg|
            && (forall x :: x in r.hub.registry ==> x in reg)
            && (forall i :: 0 <= i < |r.outbox| ==> r.outbox[i].to in r.hub.registry)
  {
  }

  /** One step of the hub. `now` is the wall-clock reading taken if the
      step is an edit; `dead` holds the connections whose sends fail
      during the step's broadcast. Only a join adds to the registry, only
      an edit changes the document, and every message goes to a
      connection still registered afterwards or to the connection the
      event came from. */
  function Step(hub: State, e: Event, now: Timestamp, dead: set<ConnId>): (r: Outcome)
    ensures forall x :: x in r.hub.registry ==> x in hub.registry || (e.Join? && x == e.c)
    ensures |r.hub.registry| <= |hub.registry| + (if e.Join? then 1 else 0)
    ensures r.hub.doc != hub.doc ==> e.Receive? && e.msg.InUpdate?
    ensures forall i :: 0 <= i < |r.outbox| ==>
              r.outbox[i].to in r.hub.registry || r.outbox[i].to == e.c
  {
    match e
    case Join(c) =>
      var reg := Connect(hub.registry, c);
      var init := Delivery(c, OutInit(hub.doc.text, hub.doc.lastUpdated, |reg|));
      var b := Announce(reg, hub.doc, dead, OutPresence(|reg|));
      AnnounceStaysInRegistry(reg, hub.doc, dead, OutPresence(|reg|));
      Outcome(b.hub, [init] + b.outbox)
    case Receive(c, m) =>
      (match m
       case InUpdate(edit) =>
         var doc := ApplyUpdate(hub.doc, edit, now);
         var msg := OutUpdate(doc.text, now, AuthorOf(edit));
         AnnounceStaysInRegistry(hub.registry, doc, dead, msg);
         Announce(hub.registry, doc, dead, msg)
       case InMeta(p) =>
         AnnounceStaysInRegistry(hub.registry, hub.doc, dead, OutMeta(p));
         Announce(hub.registry, hub.doc, dead, OutMeta(p))
       case InPing =>
         Outcome(hub, [Delivery(c, OutPong)])
       case InOther(_) =>
         Outcome(hub, []))
    case Leave(c) =>
      var reg := Disconnect(hub.registry, c);
      assert forall x :: x in reg ==> x in hub.registry by {
        forall x | x in reg ensures x in hub.registry {
          assert x in multiset(reg);
        }
      }
      AnnounceStaysInRegistry(reg, hub.doc, dead, OutPresence(|reg|));
      Announce(reg, hub.doc, dead, OutPresence(|reg|))
  }

  // ---------------------------------------------------------------------
  // The three transitions
  // ---------------------------------------------------------------------

  /** On join the joiner alone first receives the document and the online
      count including itself; then every registered connection, the
      joiner too, is sent a presence message with that same count. */
  lemma JoinSendsInitThenPresence(hub: State, c: ConnId, now: Timestamp, dead: set<ConnId>)
    ensures var r := Step(hub, Join(c), now, dead);
            var online := |hub.registry| + 1;
            && |r.outbox| >= 1
            && r.outbox[0] == Delivery(c, OutInit(hub.doc.text, hub.doc.lastUpdated, online))
            && r.outbox[1..] == Deliver(Living(hub.registry + [c], dead), OutPresence(online))
            && r.hub.registry == Living(hub.registry + [c], dead)
            && r.hub.doc == hub.doc
  {
  }

  /** The join-time presence count is taken before the broadcast drops
      failing peers: it can exceed the registry left behind, and matches
      it exactly when no send fails. */
  lemma JoinPresenceCountedBeforeHealing(hub: State, c: ConnId, now: Timestamp, dead: set<ConnId>)
    ensures var r := Step(hub, Join(c), now, dead);
            var reg := hub.registry + [c];
            && |r.hub.registry| <= |hub.registry| + 1
            && (|r.hub.registry| == |hub.registry| + 1 <==> forall i :: 0 <= i < |reg| ==> reg[i] !in dead)
  {
    NoFailureKeepsAll(hub.registry + [c], dead);
  }

  /** A concrete case of the above: with one peer whose send fails, a
      joiner is told two connections are online while one remains. */
  lemma JoinPresenceOvercountExample()
    ensures var r := Step(State([1], Initial), Join(2), "t", {1});
            && r.outbox == [Delivery(2, OutInit(JString(""), None, 2)), Delivery(2, OutPresence(2))]
            && r.hub.registry == [2]
  {
  }

  /** An edit sets the document to the payload's text (empty when absent)
      stamped with `now`, and every surviving connection receives that
      text, that stamp and the author echoed verbatim. */
  lemma UpdateStep(hub: State, c: ConnId, edit: map<string, Json>, now: Timestamp, dead: set<ConnId>)
    ensures var r := Step(hub, Receive(c, InUpdate(edit)), now, dead);
            && r.hub.doc == Document(Get(edit, "text", JString("")), Some(now))
            && r.hub.registry == Living(hub.registry, dead)
            && r.outbox == Deliver(r.hub.registry, OutUpdate(r.hub.doc.text, now, Get(edit, "author", JNull)))
  {
  }

  /** A meta message is relayed unchanged to every surviving connection;
      the document is untouched. */
  lemma MetaStep(hub: State, c: ConnId, payload: Json, now: Timestamp, dead: set<ConnId>)
    ensures var r := Step(hub, Receive(c, InMeta(payload)), now, dead);
            && r.hub.doc == hub.doc
            && r.hub.registry == Living(hub.registry, dead)
            && r.outbox == Deliver(r.hub.registry, OutMeta(payload))
  {
  }

  /** A ping is answered with one pong to the sender and nothing else: no
      other connection sees output and the state does not change. */
  lemma PingStep(hub: State, c: ConnId, now: Timestamp, dead: set<ConnId>)
    ensures var r := Step(hub, Receive(c, InPing), now, dead);
            && r.hub == hub
            && |r.outbox| == 1
            && forall i :: 0 <= i < |r.outbox| ==> r.outbox[i] == Delivery(c, OutPong)
  {
  }

  /** A message of any other type is ignored. */
  lemma OtherStep(hub: State, c: ConnId, kind: Json, now: Timestamp, dead: set<ConnId>)
    ensures Step(hub, Receive(c, InOther(kind)), now, dead) == Outcome(hub, [])
  {
  }

  /** On disconnect the connection's first entry is removed first, then the
      remaining connections are sent the count after that removal. */
  lemma LeaveStep(hub: State, c: ConnId, now: Timestamp, dead: set<ConnId>)
    ensures var r := Step(hub, Leave(c), now, dead);
            var reg := Disconnect(hub.registry, c);
            && |reg| == (if c in hub.registry then |hub.registry| - 1 else |hub.registry|)
            && r.hub.registry == Living(reg, dead)
            && r.outbox == Deliver(r.hub.registry, OutPresence(|reg|))
            && r.hub.doc == hub.doc
  {
  }

  /** When nobody's send fails, a connection registered once that leaves
      is gone and receives nothing, and each other connection receives the
      presence count after the removal once per registry entry it has. */
  lemma LeaveWithoutFailures(hub: State, c: ConnId, now: Timestamp)
    requires multiset(hub.registry)[c] == 1
    ensures var r := Step(hub, Leave(c), now, {});
            && c !in r.hub.registry
            && |r.hub.registry| == |hub.registry| - 1
            && (forall i :: 0 <= i < |r.outbox| ==> r.outbox[i].msg == OutPresence(|hub.registry| - 1))
            && multiset(Recipients(r.outbox))[c] == 0
            && forall x :: x in hub.registry && x != c ==>
                 multiset(Recipients(r.outbox))[x] == multiset(hub.registry)[x]
  {
    var reg := Disconnect(hub.registry, c);
    LivingAllAlive(reg, {});
    assert c !in multiset(reg);
  }

  // ---------------------------------------------------------------------
  // Runs of many events
  // ---------------------------------------------------------------------

  /** One event with the clock reading and the failing sends of its step. */
  datatype Tick = Tick(event: Event, now: Timestamp, dead: set<ConnId>)

  /** Applies the ticks in order, collecting every message sent: the
      loop that reads one message after another on each connection, with
      every connection's events merged in the order they were applied.
      Every connection registered at the end was registered at the start
      or joined during the run, and a run without joins never grows the
      registry. */
  function Run(hub: State, ticks: seq<Tick>): (r: Outcome)
    ensures forall x :: x in r.hub.registry ==>
              x in hub.registry || exists i :: 0 <= i < |ticks| && ticks[i].event == Join(x)
    ensures (forall i :: 0 <= i < |ticks| ==> !ticks[i].event.Join?) ==>
              |r.hub.registry| <= |hub.registry|
    decreases |ticks|
  {
    if |ticks| == 0 then Outcome(hub, [])
    else
      var s := Step(hub, ticks[0].event, ticks[0].now, ticks[0].dead);
      var rest := Run(s.hub, ticks[1..]);
      Outcome(rest.hub, s.outbox + rest.outbox)
  }

  /** The last edit among the ticks, with the time it was applied. */
  function LatestEdit(ticks: seq<Tick>): (r: Option<Edit>)
    decreases |ticks|
  {
    if |ticks| == 0 then None
    else
      var later := LatestEdit(ticks[1..]);
      if later.Some? then later
      else
        var e := ticks[0].event;
        if e.Receive? && e.msg.InUpdate? then Some(Edit(e.msg.edit, ticks[0].now)) else None
  }

  /** Last write wins across any run: the document ends as the last edit
      of the run set it, and is untouched by a run without edits. */
  lemma {:induction false} RunLastWriteWins(hub: State, ticks: seq<Tick>)
    ensures Run(hub, ticks).hub.doc ==
              match LatestEdit(ticks)
              case None => hub.doc
              case Some(edit) => Document(TextOf(edit.payload), Some(edit.at))
    decreases |ticks|
  {
    if |ticks| > 0 {
      var s := Step(hub, ticks[0].event, ticks[0].now, ticks[0].dead);
      RunLastWriteWins(s.hub, ticks[1..]);
    }
  }

  // ---------------------------------------------------------------------
  // The opening exchange: a first client joins an empty hub, a second
  // joins, the first edits, and the first disconnects; no send fails.
  // ---------------------------------------------------------------------

  /** The first client is told the empty text and one online. */
  lemma ScenarioFirstJoin()
    ensures var s := Step(Start, Join(1), "t0", {});
            && s.outbox == [Delivery(1, OutInit(JString(""), None, 1)), Delivery(1, OutPresence(1))]
            && s.hub == State([1], Initial)
  {
  }

  /** The second client is told two online, and both see the presence. */
  lemma ScenarioSecondJoin()
    ensures var s := Step(State([1], Initial), Join(2), "t1", {});
            && s.outbox == [Delivery(2, OutInit(JString(""), None, 2)), Delivery(1, OutPresence(2)), Delivery(2, OutPresence(2))]
            && s.hub == State([1, 2], Initial)
  {
  }

  /** An edit by the first client reaches both, author included. */
  lemma ScenarioEdit()
    ensures var edit := map["text" := JString("hello"), "author" := JString("alice")];
            var s := Step(State([1, 2], Initial), Receive(1, InUpdate(edit)), "t2", {});
            && s.outbox == [Delivery(1, OutUpdate(JString("hello"), "t2", JString("alice"))),
                            Delivery(2, OutUpdate(JString("hello"), "t2", JString("alice")))]
            && s.hub == State([1, 2], Document(JString("hello"), Some("t2")))
  {
  }

  /** When the first client leaves, the second receives one presence
      message and nothing else. */
  lemma ScenarioLeave()
    ensures var doc := Document(JString("hello"), Some("t2"));
            var s := Step(State([1, 2], doc), Leave(1), "t3", {});
            && s.outbox == [Delivery(2, OutPresence(1))]
            && s.hub == State([2], doc)
  {
  }
}
