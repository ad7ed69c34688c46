/**
 * The chunk record that the index builder writes, one per vector row, and the way
 * the readers look its fields up by key.
 */
module Metadata {
  import opened Results
  import opened PyStr

  /** One metadata line: `id` is the row of the record's vector in the index. */
  datatype ChunkRecord = ChunkRecord(
    id: nat,
    sectionId: string,
    pageStart: int,
    pageEnd: int,
    text: string,
    nTokens: nat)

  /** A field value of a record read back as a dictionary. */
  datatype Value = IntValue(i: int) | StrValue(s: string)

  /** The keys the builder writes. */
  const Keys: set<string> := {"id", "section_id", "page_start", "page_end", "text", "n_tokens"}

  /** `rec[key]`; `None` is a `KeyError`. */
  function Lookup(rec: ChunkRecord, key: string): (v: Option<Value>)
    ensures v.Some? <==> key in Keys
  {
    if key == "id" then Some(IntValue(rec.id))
    else if key == "section_id" then Some(StrValue(rec.sectionId))
    else if key == "page_start" then Some(IntValue(rec.pageStart))
    else if key == "page_end" then Some(IntValue(rec.pageEnd))
    else if key == "text" then Some(StrValue(rec.text))
    else if key == "n_tokens" then Some(IntValue(rec.nTokens))
    else None
  }

  /** How an f-string renders a field value: strings as they are, integers in decimal. */
  function Render(v: Value): string {
    match v
    case IntValue(i) => IntToDecimal(i)
    case StrValue(s) => s
  }

  /** A record copied out of the metadata with the search score added under `"score"`. */
  datatype Scored<S> = Scored(record: ChunkRecord, score: S)

  /** The chunk text is stored under `"text"`; there is no `"content"` key. */
  lemma TextKey(rec: ChunkRecord)
    ensures Lookup(rec, "text") == Some(StrValue(rec.text))
    ensures Lookup(rec, "content") == None
  {
  }
}
