// JSON values as the worker and the route exchange them. Numbers are
// integers here; the stored casts never need fractional values.
module JsonValues {

  datatype Json =
    | JNull
    | JBool(b: bool)
    | JNum(n: int)
    | JStr(s: string)
    | JArr(items: seq<Json>)
    | JObj(members: map<string, Json>)
}
