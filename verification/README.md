# Collaboration hub — a Dafny model

This project models the in-memory collaboration hub of a real-time shared
text editor. The hub keeps one document and a list of live client
connections. Every client sees the document and the online count when it
joins. After that it receives every edit, every relayed meta message and
every presence change.

The model has three parts:

- **Connection registry** (`Registry`). The registry is an ordered list of
  connection ids. `Connect` appends an id and does not deduplicate.
  `Disconnect` removes the first occurrence of an id and does nothing when
  the id is absent. `Fanout` sends one message to every entry and keeps only
  the entries whose send succeeded (self-healing membership). Send failure
  is an input: the set `dead` of connections whose sends fail. `SendAll` is
  the send loop as the hub runs it, and it is proved to compute what
  `Fanout` computes.
- **Document cell** (`DocumentCell`). The document holds `text` and an
  optional `lastUpdated` stamp. Each edit overwrites the whole record, so
  the last edit wins.
- **Session protocol** (`Messages`, `Hub`). `Step` takes the registry, the
  document, an event, a clock reading `now` and the set `dead`. It returns
  the new registry, the new document and an outbox of
  `(recipient, message)` pairs. The events are:
  - a join, which sends `init` to the joiner only and then broadcasts
    `presence`;
  - a received message: `update` edits and broadcasts, `meta` relays,
    `ping` answers `pong` to the sender only, and any other type is ignored;
  - a leave, which removes the connection and then broadcasts `presence`.

  `Run` applies a sequence of events. `Classify` reads a raw JSON message
  the way the hub does. `Wire` gives the JSON shape of each outbound
  message.

The model keeps these behaviours exactly as the code has them:

- The registry may hold the same connection twice, because joining does not
  deduplicate. Leaving removes one entry.
- The join-time `presence` count is read before the broadcast that may drop
  dead peers. It can therefore exceed the size of the registry that remains.
  `Hub.JoinPresenceCountedBeforeHealing` says exactly when this happens.
- An `update` whose payload is not a JSON object makes the handler raise. It
  is not ignored. `Classify` returns `None` for it.
- The document text is whatever JSON value the edit carried under `text`.
  It is not necessarily a string.
- Nothing is claimed about the order of timestamps. They come from the wall
  clock.

## Model

| member | source | states |
|---|---|---|
| Hub.StartIsEmpty | backend/main.py:46-52 | At process start the registry is empty (the list created at backend/main.py:22). The document text is the empty string and `last_updated` is null. The state is the constant `Hub.Start`, whose document is `DocumentCell.Initial`. |
| Registry.Connect | backend/main.py:24-26 | Joining appends the handle at the end: length grows by exactly one, the earlier entries are unchanged, and the handle's multiplicity grows by one. |
| Registry.ConnectKeepsDuplicates | backend/main.py:26 | Joining a handle that is already registered is not rejected: the registry grows and the handle then occurs at least twice. |
| Registry.FirstIndex | backend/main.py:30 | The position `list.remove` acts on: an occurrence of the handle with no occurrence before it. |
| Registry.Disconnect | backend/main.py:28-32 | Removing an absent handle leaves the registry unchanged. Removing a present handle shortens the registry by one and lowers that handle's multiplicity by one, and no other handle's. |
| Registry.DisconnectRemovesFirst | backend/main.py:30 | Exactly the first occurrence is removed, and the remaining entries keep their relative order. |
| Registry.DisconnectUndoesConnect | backend/main.py:24-32 | A handle not yet registered that joins and then leaves restores the registry exactly. |
| Registry.DisconnectIdempotent | backend/main.py:28-32 | For a handle registered at most once, a second leave changes nothing. |
| Registry.ConnectAllAppends | backend/main.py:24-26 | A series of joins appends the joined handles in order. |
| Registry.DisconnectAllSize | backend/main.py:28-32 | Leaves of registered handles each remove exactly one entry: size and multiset drop by the leaves. |
| Registry.JoinsThenLeaves | backend/main.py:24-32 | After k joins and m leaves of joined handles, the registry has grown by exactly k - m entries. |
| Registry.Living | backend/main.py:36-44 | The registry after a broadcast contains no entry whose send failed and is never longer than before. |
| Registry.LivingCounts | backend/main.py:37-44 | After a broadcast, a handle whose send succeeds keeps all its entries and a handle whose send fails has none. |
| Registry.LivingIsSubsequence | backend/main.py:37-44 | The registry after a broadcast is an order-preserving subsequence of the registry before it. |
| Registry.LivingLength | backend/main.py:36-44 | A broadcast shrinks the registry by exactly the number of failing entries. |
| Registry.NoFailureKeepsAll | backend/main.py:36-44 | A broadcast keeps the registry at full length if and only if no entry's send fails. |
| Registry.LivingAllAlive | backend/main.py:36-44 | When no send fails, a broadcast leaves the registry as it was. |
| Registry.LivingConcat | backend/main.py:37-43 | A failure on an earlier entry does not affect what happens to later entries: the outcome of a broadcast splits over any split of the registry. |
| Registry.Fanout | backend/main.py:34-44 | A broadcast returns no error. Its outbox carries the message to exactly the kept entries, in order. Each connection receives the message once per entry if its send succeeds and never otherwise. |
| Registry.SendAll | backend/main.py:34-44 | The send loop (try each entry in turn, skip a failure, replace the list with the entries that succeeded) computes the same registry and outbox as `Fanout`. |
| DocumentCell.ApplyUpdate | backend/main.py:77-78 | An edit sets `text` to the payload's `text` field, or the empty string when the field is absent, and sets `lastUpdated` to the supplied time. |
| DocumentCell.UpdateOverwritesWhole | backend/main.py:77-78 | An edit replaces the whole record: any two documents given the same edit at the same time become equal. |
| DocumentCell.LastWriteWins | backend/main.py:75-78 | After a non-empty series of edits, the document is exactly what the last edit set, whatever came before. |
| Messages.Classify | backend/main.py:70-93 | A non-object message, or an `update` whose payload is not an object, cannot be handled. Otherwise the `type` field picks `update`, `meta` (payload relayed as is), `ping` or other, with missing fields read as null. |
| Messages.ClassifyFrame | backend/main.py:71-73 | Every well-formed inbound message a client frames is read back as itself, unless an "other" message carries a recognised tag. |
| Messages.Wire | backend/main.py:59-99 | Each outbound kind has the JSON shape the handler builds: an object whose `type` field is init, update, meta, presence or pong, carrying a `payload` field exactly when the kind is not pong. The field contents are fixed by the definition; `Messages.WireInjective` shows they tell the kinds and values apart. |
| Messages.WireInjective | backend/main.py:59-95 | Distinct outbound messages have distinct JSON forms. |
| Hub.AnnounceStaysInRegistry | backend/main.py:34-44 | A broadcast keeps only connections that were registered, never lengthens the registry, and sends only to connections it keeps. |
| Hub.Step | backend/main.py:55-99 | In every transition, only a join adds to the registry (by at most one), only an `update` changes the document, and every message goes to a connection registered afterwards or to the event's own connection. |
| Hub.JoinSendsInitThenPresence | backend/main.py:56-67 | On join, the joiner alone first receives `init` with the current text, the current `lastUpdated` and the count including itself. Every kept connection then receives `presence` with that same count. |
| Hub.JoinPresenceCountedBeforeHealing | backend/main.py:67 | The join-time presence count is taken before dead peers are dropped. The registry left behind is at most that count, and equals it if and only if no send fails. |
| Hub.JoinPresenceOvercountExample | backend/main.py:56-67 | With one peer whose send fails, a joiner is told two are online while only the joiner remains registered. |
| Hub.UpdateStep | backend/main.py:75-86 | An `update` sets the document to the payload's text (empty when absent), stamped with `now`. Every kept connection receives that text, that stamp and the `author` field echoed verbatim (null when absent). |
| Hub.MetaStep | backend/main.py:87-92 | A `meta` payload is broadcast unchanged, and the document is untouched. |
| Hub.PingStep | backend/main.py:93-95 | A `ping` yields exactly one `pong`, addressed to the sender. There is no broadcast and no state change. |
| Hub.OtherStep | backend/main.py:72-95 | A message of any other type produces no output and no state change. |
| Hub.LeaveStep | backend/main.py:97-99 | On disconnect, the connection's first entry is removed. `presence` with the post-removal count then goes to every kept connection, and the document is untouched. |
| Hub.LeaveWithoutFailures | backend/main.py:97-99 | When no send fails and the leaver was registered once, the leaver is gone. Every other connection receives exactly as many messages as it has entries, all of them the post-removal presence count. |
| Hub.Run | backend/main.py:69-70 | Handler invocations applied one event after another, with each connection's receive loop merged into one order. Every connection registered at the end was registered at the start or joined during the run. A run without joins never grows the registry. |
| Hub.RunLastWriteWins | backend/main.py:69-86 | Over any run of events, the document ends as set by the run's last edit, or unchanged if the run has no edit. |
| Hub.ScenarioFirstJoin | backend/main.py:56-67 | A first client joining an empty hub receives `init` with empty text and one online, then `presence` with one online. |
| Hub.ScenarioSecondJoin | backend/main.py:56-67 | A second client receives `init` with two online, and both clients receive `presence` with two online. |
| Hub.ScenarioEdit | backend/main.py:75-86 | An edit "hello" by alice reaches both clients with its author and stamp. |
| Hub.ScenarioLeave | backend/main.py:97-99 | When the first client leaves, the second receives exactly one `presence` with one online. |

## Left out

- The WebSocket transport, `accept`, JSON parsing and printing, and the CORS setup (backend/main.py:1-17). These are library plumbing. Connections are ids, and messages are the `Json` datatype.
- Asynchronous interleaving. Each step is atomic. In the code, a connection that joins while a broadcast is suspended can be lost when the list is reassigned (backend/main.py:36-44). The model cannot show this.
- The timestamp format (backend/main.py:78). `now` is an opaque string given as an input, so nothing is claimed about timestamps increasing.
- Failures of unicast sends. The `init` and `pong` sends always succeed in the model. Both sit inside the handler's `try` (backend/main.py:57). A `WebSocketDisconnect` from them is caught at backend/main.py:97 and runs the leave transition. Any other exception escapes the handler.
- What happens after the handler raises. `Classify` marks a message the handler cannot process, and `Step` is defined only for classified messages. In the code, the connection stays registered in that case, and no presence message is sent.
- Registry.Fanout: a send failure is per connection and per step (the set `dead`). If a connection is registered twice, both of its entries fail or succeed together. A failure that affects only one of its entries is not modelled.
- JSON numbers are integers. Floating-point values are never interpreted by the hub, only relayed.
- Event order per connection. The model does not enforce that a connection's events run join, then messages, then leave. `Step` accepts events in any order, like the code's shared functions.
- The `/save` endpoint, which writes files (backend/main.py:102-113), and the `/` status endpoint (backend/main.py:116-118).
- Messages.Wire: the contract states only the `type` tag and whether a `payload` field is present. The payload's field names and values are fixed by the definition, and `Messages.WireInjective` proves that they tell messages apart.
