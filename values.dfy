/** The dictionaries that flow through the core. A calendar row from
    `csv.DictReader` maps column names to strings (or to None, for a column
    missing from a short row); a scraped sector record maps field names to
    strings, integers or None. */
module Values {
  import Text
  import Wrappers

  datatype Value = Str(s: string) | Int(i: int) | Null

  /** A Python `dict` with string keys. */
  type Record = map<string, Value>

  /** `record.get(key, default)`. */
  function Get(r: Record, key: string, default: Value): (v: Value)
    ensures key in r ==> v == r[key]
    ensures key !in r ==> v == default
  {
    if key in r then r[key] else default
  }

  /** `str(v)`: a string as itself, an integer in its canonical decimal
      spelling (which `int()` reads back), None as "None". */
  function Show(v: Value): (s: string)
    ensures v.Str? ==> s == v.s
    ensures v.Null? ==> s == "None"
    ensures v.Int? ==> s == Text.IntToString(v.i) && Text.ParseInt(s) == Wrappers.Some(v.i)
  {
    match v
    case Str(s) => s
    case Int(i) => Text.IntToStringRoundTrip(i); Text.IntToString(i)
    case Null => "None"
  }

  /** A JSON-shaped value, as handed to `json.dumps` by the consumers of the
      daily payload. */
  datatype Json = JValue(v: Value) | JArray(elems: seq<Json>) | JObject(fields: map<string, Json>)

  function RecordJson(r: Record): Json {
    JObject(map k | k in r :: JValue(r[k]))
  }

  function RecordsJson(rs: seq<Record>): Json {
    JArray(seq(|rs|, i requires 0 <= i < |rs| => RecordJson(rs[i])))
  }
}
