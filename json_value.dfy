/**
 * The values `json.loads` can return, with the three things the program
 * does to them: a truth test (`if not data`), `dict.get` with a default,
 * and `str()` inside an f-string.
 */
module JsonValue {
  import Text

  /**
   * A loaded JSON value. An object is the items of the Python dict, in
   * insertion order, one entry per key.
   */
  datatype Json =
    | JNull
    | JBool(b: bool)
    | JNumber(n: int)
    | JString(s: string)
    | JArray(items: seq<Json>)
    | JObject(entries: seq<(string, Json)>)

  /** Python truthiness of the loaded value. */
  predicate Truthy(v: Json) {
    match v
    case JNull => false
    case JBool(b) => b
    case JNumber(n) => n != 0
    case JString(s) => s != ""
    case JArray(items) => items != []
    case JObject(entries) => entries != []
  }

  /** No entry of the object has this key. */
  predicate KeyAbsent(entries: seq<(string, Json)>, key: string) {
    forall i :: 0 <= i < |entries| ==> entries[i].0 != key
  }

  /** `d.get(key, default)` on a dict given by its items: the first entry with the key. */
  function Get(entries: seq<(string, Json)>, key: string, default: Json): (r: Json)
    ensures KeyAbsent(entries, key) ==> r == default
    ensures forall i ::
              (0 <= i < |entries| && entries[i].0 == key && (forall j :: 0 <= j < i ==> entries[j].0 != key))
              ==> r == entries[i].1
  {
    if entries == [] then default
    else if entries[0].0 == key then entries[0].1
    else
      var r := Get(entries[1..], key, default);
      assert forall j :: 1 <= j < |entries| ==> entries[1..][j - 1] == entries[j];
      r
  }

  /** `str(v)`: a string is itself, anything else is its `repr`. */
  function Str(v: Json): string {
    if v.JString? then v.s else Repr(v)
  }

  /** `repr(v)` of the Python value `json.loads` builds. */
  function Repr(v: Json): string
    decreases v, 1
  {
    match v
    case JNull => "None"
    case JBool(b) => if b then "True" else "False"
    case JNumber(n) => Text.IntToString(n)
    case JString(s) => "'" + s + "'"
    case JArray(items) => "[" + ReprItems(v, items) + "]"
    case JObject(entries) => "{" + ReprEntries(v, entries) + "}"
  }

  /** The elements of a list, each `repr`'d, separated by `", "`. */
  function ReprItems(ghost parent: Json, items: seq<Json>): string
    requires forall i :: 0 <= i < |items| ==> items[i] < parent
    decreases parent, 0, |items|
  {
    if items == [] then ""
    else Repr(items[0]) + (if |items| == 1 then "" else ", " + ReprItems(parent, items[1..]))
  }

  /** The items of a dict as `'key': repr(value)`, separated by `", "`. */
  function ReprEntries(ghost parent: Json, entries: seq<(string, Json)>): string
    requires forall i :: 0 <= i < |entries| ==> entries[i].1 < parent
    decreases parent, 0, |entries|
  {
    if entries == [] then ""
    else
      "'" + entries[0].0 + "': " + Repr(entries[0].1)
      + (if |entries| == 1 then "" else ", " + ReprEntries(parent, entries[1..]))
  }
}
