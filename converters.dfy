/** Column conversions of the database layer (src/db/utils/converters.ts). SQLite
    stores booleans as the numbers 0 and 1 and lists as JSON text. */
module Converters {
  import opened Wrappers

  /** `value === 1`; `None` is a `null` or `undefined` column. */
  function ToBool(value: Option<real>): bool {
    value == Some(1.0)
  }

  /** `value ? 1 : 0` */
  function FromBool(value: bool): (r: real)
    ensures r == 0.0 || r == 1.0
  {
    if value then 1.0 else 0.0
  }

  /** Only the number 1 reads as true: 0, any other number, `null` and `undefined` read as false. */
  lemma ToBoolExactlyOne(value: Option<real>)
    ensures ToBool(value) <==> value.Some? && value.value == 1.0
    ensures ToBool(Some(0.0)) == false && ToBool(Some(2.0)) == false && ToBool(None) == false
  {
  }

  /** Storing a boolean and reading it back gives it again; reading a column and storing
      the result gives the column back exactly when it held 0 or 1. */
  lemma BoolRoundTrip(b: bool, value: Option<real>)
    ensures ToBool(Some(FromBool(b))) == b
    ensures Some(FromBool(ToBool(value))) == value <==> value == Some(0.0) || value == Some(1.0)
  {
  }

  /** `parseJson`: a `null` or empty column gives the fallback without parsing; otherwise
      the parsed value, or the fallback when `JSON.parse` throws. `parse` stands for
      `JSON.parse` and is `None` where it throws. */
  function ParseJson<T>(value: Option<string>, fallback: T, parse: string -> Option<T>): (r: T)
    ensures value.None? || value == Some("") ==> r == fallback
    ensures r == fallback || (value.Some? && parse(value.value) == Some(r))
    ensures value.Some? && value.value != "" && parse(value.value).Some? ==> r == parse(value.value).value
  {
    match value
    case None => fallback
    case Some(text) =>
      if text == "" then fallback
      else match parse(text)
        case None => fallback
        case Some(parsed) => parsed
  }
}
