/** The JSON values an issuer profile is made of. */
module JsonValue {
  /** An object keeps its entries in insertion order, as a Python `dict` does from Python 3.7 on. */
  datatype Json =
    | JNull
    | JStr(s: string)
    | JArr(items: seq<Json>)
    | JObj(entries: seq<(string, Json)>)
}
