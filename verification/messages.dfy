/** The messages the hub exchanges with its clients: the inbound kinds it
    recognises and the outbound kinds it produces, with their JSON shapes. */
module Messages {
  import opened Values
  import opened DocumentCell

  /** An inbound message after its `type` tag has been read. */
  datatype Inbound =
    | InUpdate(edit: map<string, Json>)      // an edit of the whole text
    | InMeta(payload: Json)                  // relayed as is, e.g. a name change
    | InPing                                 // keepalive
    | InOther(kind: Json)                    // any other tag, or none

  /** An outbound message. */
  datatype Outbound =
    | OutInit(text: Json, lastUpdated: Option<Timestamp>, online: nat)
    | OutUpdate(text: Json, stamp: Timestamp, author: Json)
    | OutMeta(payload: Json)
    | OutPresence(online: nat)
    | OutPong

  /** Reads a received JSON message the way the hub does: the `type` and
      `payload` fields default to null, and an edit whose payload is not
      an object cannot be handled (the handler raises, which `None`
      stands for). A message that is not an object raises as well. */
  function Classify(msg: Json): (r: Option<Inbound>)
    ensures !msg.JObject? ==> r == None
    ensures msg.JObject? ==>
              var typ := Get(msg.fields, "type", JNull);
              var payload := Get(msg.fields, "payload", JNull);
              && (r == None <==> typ == JString("update") && !payload.JObject?)
              && (r.Some? && r.value.InUpdate? ==> typ == JString("update") && payload == JObject(r.value.edit))
              && (r.Some? && r.value.InMeta? ==> typ == JString("meta") && r.value.payload == payload)
              && (r.Some? && r.value.InPing? <==> typ == JString("ping"))
              && (r.Some? && r.value.InOther? <==>
                    typ !in {JString("update"), JString("meta"), JString("ping")})
  {
    if !msg.JObject? then None
    else
      var typ := Get(msg.fields, "type", JNull);
      var payload := Get(msg.fields, "payload", JNull);
      if typ == JString("update") then
        if payload.JObject? then Some(InUpdate(payload.fields)) else None
      else if typ == JString("meta") then Some(InMeta(payload))
      else if typ == JString("ping") then Some(InPing)
      else Some(InOther(typ))
  }

  /** The JSON a client sends for an inbound message. */
  function Frame(m: Inbound): Json
  {
    match m
    case InUpdate(p) => JObject(map["type" := JString("update"), "payload" := JObject(p)])
    case InMeta(p) => JObject(map["type" := JString("meta"), "payload" := p])
    case InPing => JObject(map["type" := JString("ping")])
    case InOther(k) => JObject(map["type" := k])
  }

  /** Every well-formed inbound message is read back as itself, as long as
      an "other" message does not carry one of the recognised tags. */
  lemma ClassifyFrame(m: Inbound)
    requires m.InOther? ==> m.kind !in {JString("update"), JString("meta"), JString("ping")}
    ensures Classify(Frame(m)) == Some(m)
  {
  }

  /** The JSON the hub sends for an outbound message: an object whose
      `type` field is the message's kind, with a `payload` field for every
      kind except `pong`. */
  function Wire(m: Outbound): (j: Json)
    ensures j.JObject? && "type" in j.fields
    ensures j.fields["type"] == JString(Tag(m))
    ensures "payload" in j.fields <==> !m.OutPong?
  {
    match m
    case OutInit(text, lu, online) =>
      JObject(map["type" := JString("init"),
                  "payload" := JObject(map["text" := text,
                                           "last_updated" := OrNull(lu),
                                           "online" := JNumber(online)])])
    case OutUpdate(text, lu, author) =>
      JObject(map["type" := JString("update"),
                  "payload" := JObject(map["text" := text,
                                           "last_updated" := JString(lu),
                                           "author" := author])])
    case OutMeta(p) =>
      JObject(map["type" := JString("meta"), "payload" := p])
    case OutPresence(online) =>
      JObject(map["type" := JString("presence"),
                  "payload" := JObject(map["online" := JNumber(online)])])
    case OutPong =>
      JObject(map["type" := JString("pong")])
  }

  /** The `type` tag of an outbound message. */
  function Tag(m: Outbound): string
  {
    match m
    case OutInit(_, _, _) => "init"
    case OutUpdate(_, _, _) => "update"
    case OutMeta(_) => "meta"
    case OutPresence(_) => "presence"
    case OutPong => "pong"
  }

  /** Distinct outbound messages have distinct JSON forms, so a client can
      always tell what the hub sent. */
  lemma WireInjective(a: Outbound, b: Outbound)
    requires Wire(a) == Wire(b)
    ensures a == b
  {
    assert Tag(a) == Tag(b);
    match a
    case OutInit(t, lu, n) =>
      var p := Wire(a).fields["payload"].fields;
      assert p["text"] == b.text && p["online"] == JNumber(b.online);
      assert p["last_updated"] == OrNull(b.lastUpdated);
      assert OrNull(lu) == OrNull(b.lastUpdated);
      match lu {
        case None =>
        case Some(x) =>
      }
    case OutUpdate(t, lu, au) =>
      var p := Wire(a).fields["payload"].fields;
      assert p["text"] == b.text && p["last_updated"] == JString(b.stamp) && p["author"] == b.author;
    case OutMeta(p) =>
      assert Wire(a).fields["payload"] == b.payload;
    case OutPresence(n) =>
      assert Wire(a).fields["payload"].fields["online"] == JNumber(b.online);
    case OutPong =>
  }
}
