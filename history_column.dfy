/** The `transaction_history` text column, as the forms of text the service tells apart.
    The JSON syntax itself is left abstract: `Json(h)` stands for the text that
    `Json.encodeToString` produces for a non-empty history `h`. */
module HistoryColumn {
  import opened Failures
  import opened Ledger

  datatype HistoryText =
    | EmptyText                               // ""
    | EmptyObject                             // "{}", the column default and what an empty map encodes to
    | Json(history: History)                  // the encoding of a non-empty history
    | Malformed(text: string, reason: string) // text the decoder rejects, with the message it throws

  /** The forms the encoder can produce. */
  predicate Canonical(t: HistoryText) {
    t.EmptyObject? || (t.Json? && t.history != map[])
  }

  /** The read side: "" and "{}" are the empty history without calling the decoder;
      anything else goes through `Json.decodeFromString`, which throws on bad text. */
  function Decode(t: HistoryText): (r: Attempt<History>)
    ensures r.Threw? <==> t.Malformed?
    ensures r.Threw? ==> r.error.kind == Serialization
    ensures (t.EmptyText? || t.EmptyObject?) ==> r == Returned(map[])
    ensures t.Json? ==> r == Returned(t.history)
  {
    match t
    case EmptyText => Returned(map[])
    case EmptyObject => Returned(map[])
    case Json(h) => Returned(h)
    case Malformed(_, reason) => Threw(Exception(Serialization, reason))
  }

  /** The write side: `Json.encodeToString` of the history map. */
  function Encode(h: History): (t: HistoryText)
    ensures Canonical(t)
    ensures h == map[] <==> t == EmptyObject
  {
    if h == map[] then EmptyObject else Json(h)
  }

  /** Persisting a history and reading it back loses nothing. */
  lemma DecodeEncode(h: History)
    ensures Decode(Encode(h)) == Returned(h)
  {
  }

  /** Re-encoding what was read gives back the stored text, for every text the encoder writes. */
  lemma EncodeDecode(t: HistoryText)
    requires Canonical(t)
    ensures Decode(t).Returned? && Encode(Decode(t).value) == t
  {
  }
}
