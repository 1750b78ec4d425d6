/** The checks of the validation library that the rule tables use. Those
    whose definition lives in the library (e-mail and phone syntax, ISO 8601
    dates, float syntax) are supplied as a `Formats` record; length bounds,
    emptiness and integer syntax are written out. */
module Validator {
  import opened Wrappers
  import opened Text

  /** The library's syntax checks, and the parsers the controllers apply to
      the same text afterwards. `isoDate(s)` is `Some(d)` exactly when `s`
      passes `isISO8601`, and `d` is the date `new Date(s)` denotes;
      `decimal(s)` is `Some(v)` exactly when `s` passes `isFloat`, and `v` is
      `parseFloat(s)`. */
  datatype Formats = Formats(
    isEmail: string -> bool,
    isMobilePhone: string -> bool,
    isoDate: string -> Option<int>,
    decimal: string -> Option<real>)

  /** The library's ISO 8601 and float checks both refuse the empty
      string. */
  predicate RejectsEmpty(f: Formats)
  {
    f.isoDate("").None? && f.decimal("").None?
  }

  /** A missing body field is checked as the empty string. */
  function ValueOf(field: Option<string>): (v: string)
    ensures field.None? ==> v == ""
    ensures field.Some? ==> v == field.value
  {
    field.GetOr("")
  }

  predicate NotEmpty(v: string)
  {
    |v| != 0
  }

  /** `isInt({ min })`. */
  predicate IsIntAtLeast(v: string, min: int)
  {
    ParseInteger(v).Some? && ParseInteger(v).value >= min
  }

  /** `isFloat({ min })`. */
  predicate IsFloatAtLeast(f: Formats, v: string, min: real)
  {
    f.decimal(v).Some? && f.decimal(v).value >= min
  }
}
