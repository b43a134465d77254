/**
 * Sheet records as `get_all_records` gives them, and the way the bot reads one
 * field of a record: `str(r.get(key, "")).strip()`.
 */
module Records {
  import opened Wrappers
  import opened Text

  /** One sheet record as `get_all_records` gives it: column header to cell text. */
  type Row = map<string, string>

  /** `str(r.get(key, "")).strip()`. */
  function Field(r: Row, key: string): (v: string)
    ensures IsTrimmed(v)
  {
    Trim(if key in r then r[key] else "")
  }

  /** A stripped field as an optional key: absent when empty. */
  function OptionalField(r: Row, key: string): (v: Option<string>)
    ensures v.Some? ==> v.value != "" && IsTrimmed(v.value)
    ensures v.None? <==> Field(r, key) == ""
    ensures v.Some? ==> v.value == Field(r, key)
  {
    var f := Field(r, key);
    if f == "" then None else Some(f)
  }
}
