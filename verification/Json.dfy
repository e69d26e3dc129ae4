/** JSON values as the scripts see them after json.loads: objects are dictionaries. */
module Json {
  datatype Json =
    | Null
    | Bool(flag: bool)
    | Number(text: string)
    | Str(text: string)
    | Arr(items: seq<Json>)
    | Obj(fields: map<string, Json>)

  type Dict = map<string, Json>

  // dict.get(key): None for a missing key and for null alike.
  function Get(d: Dict, key: string): Json
  {
    if key in d then d[key] else Null
  }
}
