/** `get_dict`: a mapping is returned as it is; text and streams go through
    the JSON decoder, which is passed in; anything else has no `read`. */
module Ingest {
  import opened Results
  import opened Errors
  import Json

  /** What `get_dict` may be given: a `dict` (its items in insertion order),
      a string, a readable stream (what `read()` returns), or another object. */
  datatype Data =
    | DictData(members: seq<Json.Member>)
    | TextData(text: string)
    | StreamData(contents: string)
    | OtherData

  function GetDict(data: Data, loads: string -> Result<Json.Json, Error>): (r: Result<Json.Json, Error>)
    ensures data.DictData? ==> r == Ok(Json.JObj(data.members))
    ensures data.OtherData? ==> r == Err(NotReadable)
    ensures data.TextData? ==> r == loads(data.text)
    ensures data.StreamData? ==> r == loads(data.contents)
  {
    match data
    case DictData(ms) => Ok(Json.JObj(ms))
    case TextData(t) => loads(t)
    case StreamData(t) => loads(t)
    case OtherData => Err(NotReadable)
  }

  /** The decoder agrees with the exact reader on every text that reader
      accepts (in particular, on every canonical serialisation). */
  ghost predicate ReadsCanonical(loads: string -> Result<Json.Json, Error>) {
    forall t :: Json.Deserialize(t).Some? ==> loads(t) == Ok(Json.Deserialize(t).value)
  }

  /** An object handed back by `get_dict` passes through it unchanged
      a second time. */
  lemma GetDictIdempotent(data: Data, loads: string -> Result<Json.Json, Error>)
    requires GetDict(data, loads).Ok? && GetDict(data, loads).value.JObj?
    ensures GetDict(DictData(GetDict(data, loads).value.members), loads) == GetDict(data, loads)
  {
  }

  /** Serialised text, given as a string or as a stream, comes back as the
      value that was serialised. */
  lemma GetDictOfSerialized(j: Json.Json, loads: string -> Result<Json.Json, Error>)
    requires ReadsCanonical(loads)
    ensures GetDict(TextData(Json.Serialize(j)), loads) == Ok(j)
    ensures GetDict(StreamData(Json.Serialize(j)), loads) == Ok(j)
  {
    Json.SerializeRoundTrip(j);
  }
}
