/**
 * The values `json.load` produces, as far as the post-processing scripts look
 * at them. Numbers are kept as integers: no script inspects them.
 */
module Json {
  import opened Wrappers

  datatype Json =
    | JNull
    | JBool(b: bool)
    | JNum(n: int)
    | JStr(s: string)
    | JArr(items: seq<Json>)
    | JObj(fields: map<string, Json>)

  /** `d.get(name)` on a dictionary. */
  function Field(fields: map<string, Json>, name: string): (r: Option<Json>)
    ensures r.Some? <==> name in fields
    ensures r.Some? ==> r.value == fields[name]
  {
    if name in fields then Some(fields[name]) else None
  }

  /** A file of a directory listing: its name and its parsed content, `None` when `open`
      or `json.load` raises. */
  datatype File = File(name: string, page: Option<Json>)
}
