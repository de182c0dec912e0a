/** The single shared document of the hub: its text and the time of the
    last accepted edit. Every edit overwrites the whole record. */
module DocumentCell {
  import opened Values

  /** A wall-clock reading in the hub's textual format. It is opaque to
      the model: nothing is assumed about its order. */
  type Timestamp = string

  /** The document record. `text` holds whatever JSON value the last edit
      carried under its `text` key. */
  datatype Document = Document(text: Json, lastUpdated: Option<Timestamp>)

  /** The state at process start: empty text, never updated. */
  const Initial: Document := Document(JString(""), None)

  /** The text an edit payload sets: its `text` field, or the empty
      string when the field is absent. */
  function TextOf(payload: map<string, Json>): Json
  {
    Get(payload, "text", JString(""))
  }

  /** Applies one edit at time `now`. */
  function ApplyUpdate(doc: Document, payload: map<string, Json>, now: Timestamp): (d: Document)
    ensures "text" in payload ==> d.text == payload["text"]
    ensures "text" !in payload ==> d.text == JString("")
    ensures d.lastUpdated == Some(now)
  {
    Document(TextOf(payload), Some(now))
  }

  /** An edit replaces the whole record: two documents that receive the
      same edit at the same time become equal. */
  lemma UpdateOverwritesWhole(a: Document, b: Document, payload: map<string, Json>, now: Timestamp)
    ensures ApplyUpdate(a, payload, now) == ApplyUpdate(b, payload, now)
  {
  }

  /** One edit with the time it was applied. */
  datatype Edit = Edit(payload: map<string, Json>, at: Timestamp)

  /** Applies a sequence of edits in order. */
  function ApplyAll(doc: Document, edits: seq<Edit>): Document
    decreases |edits|
  {
    if |edits| == 0 then doc
    else ApplyAll(ApplyUpdate(doc, edits[0].payload, edits[0].at), edits[1..])
  }

  /** Last write wins: after a non-empty sequence of edits the document is
      exactly what the last edit set, whatever came before. */
  lemma {:induction false} LastWriteWins(doc: Document, edits: seq<Edit>)
    requires |edits| > 0
    ensures var last := edits[|edits| - 1];
            ApplyAll(doc, edits) == Document(TextOf(last.payload), Some(last.at))
    decreases |edits|
  {
    if |edits| > 1 {
      LastWriteWins(ApplyUpdate(doc, edits[0].payload, edits[0].at), edits[1..]);
    }
  }
}
