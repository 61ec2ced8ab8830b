/** The metadata record: a Python dict from field name to a value that is a
    string, an int or None (what yt-dlp's info dict and the editors put
    there). Python's truthiness, `dict.get` and `str()` are spelled out. */
module Values {
  import opened Wrappers
  import opened Text

  datatype Value = Str(s: string) | Int(i: int) | NoneVal

  /** Keys: title, artist, album, year, description, thumbnail, duration,
      view_count, video_url, video_id, and any other key a caller adds. */
  type Record = map<string, Value>

  /** `bool(v)`: the empty string, 0 and None are false. */
  predicate Truthy(v: Value)
  {
    match v
    case Str(s) => s != ""
    case Int(i) => i != 0
    case NoneVal => false
  }

  /** `record.get(key)`: None when the key is absent. */
  function Get(rec: Record, key: string): Value
  {
    if key in rec then rec[key] else NoneVal
  }

  /** `record.get(key, default)`. */
  function GetOr(rec: Record, key: string, default: Value): Value
  {
    if key in rec then rec[key] else default
  }

  /** `str(v)`: what `str.format` and f-strings print for the value. */
  function ToStr(v: Value): string
  {
    match v
    case Str(s) => s
    case Int(i) => IntToString(i)
    case NoneVal => "None"
  }

  /** `str()` loses nothing for an int: the printed text reads back as the
      same int, and it is never the text `str(None)` prints. */
  lemma ToStrIntReadsBack(i: int)
    ensures ParseInt(ToStr(Int(i))) == Some(i)
    ensures ToStr(Int(i)) != ToStr(NoneVal)
  {
    IntToStringRoundTrip(i);
  }
}
