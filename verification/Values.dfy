/** Column values as the database driver hands them over, and their two readings
    (DBToFloat64 and DBToString in internal/pgxexporter/utils.go). */
module Values {
  import opened Wrappers

  datatype Float64 = NaN | NegativeInfinity | PositiveInfinity | Finite(value: real)

  datatype DBValue =
    | Int32(n: int)
    | Int64(n: int)
    | Float(f: Float64)
    | Time(unix: int)
    | Bytes(text: string)
    | Text(text: string)
    | Bool(b: bool)
    | Null
    | Other

  /** The numeric library functions, which are not part of this model. */
  datatype Numerics = Numerics(
    ofInt: int -> Float64,
    parseFloat: string -> Option<Float64>,
    parseMilliseconds: string -> Option<Float64>,
    showInt: int -> string,
    showFloat: Float64 -> string)

  /** The second result of Go's DBToFloat64 is whether the first is usable. */
  function DBToFloat64(num: Numerics, v: DBValue): (r: (Float64, bool))
    ensures !r.1 ==> r.0 == NaN
  {
    match v
    case Int32(n) => (num.ofInt(n), true)
    case Int64(n) => (num.ofInt(n), true)
    case Float(f) => (f, true)
    case Time(unix) => (num.ofInt(unix), true)
    case Bytes(text) => OrNaN(num.parseFloat(text))
    case Text(text) => OrNaN(num.parseFloat(text))
    case Bool(b) => (Finite(if b then 1.0 else 0.0), true)
    case Null => (NaN, true)
    case Other => (NaN, false)
  }

  function OrNaN(r: Option<Float64>): (Float64, bool) {
    match r
    case None => (NaN, false)
    case Some(f) => (f, true)
  }

  function DBToString(num: Numerics, v: DBValue): (string, bool) {
    match v
    case Int32(n) => (num.showInt(n), true)
    case Int64(n) => (num.showInt(n), true)
    case Float(f) => (num.showFloat(f), true)
    case Time(unix) => (num.showInt(unix), true)
    case Null => ("", true)
    case Bytes(text) => (text, true)
    case Text(text) => (text, true)
    case Bool(b) => (if b then "true" else "false", true)
    case Other => ("", false)
  }

  /** Numbers, times and Booleans read as themselves; texts read as the number they denote or not at all; NULL is a
      usable NaN; no other value can be read. */
  lemma FloatReadings(num: Numerics, v: DBValue)
    ensures v == Null ==> DBToFloat64(num, v) == (NaN, true)
    ensures v == Bool(true) ==> DBToFloat64(num, v) == (Finite(1.0), true)
    ensures v == Bool(false) ==> DBToFloat64(num, v) == (Finite(0.0), true)
    ensures v.Int32? || v.Int64? ==> DBToFloat64(num, v) == (num.ofInt(v.n), true)
    ensures v.Float? ==> DBToFloat64(num, v) == (v.f, true)
    ensures v.Time? ==> DBToFloat64(num, v) == (num.ofInt(v.unix), true)
    ensures v.Bytes? || v.Text? ==>
              (DBToFloat64(num, v).1 <==> num.parseFloat(v.text).Some?) &&
              (num.parseFloat(v.text).Some? ==> DBToFloat64(num, v).0 == num.parseFloat(v.text).value)
    ensures v == Other ==> !DBToFloat64(num, v).1
  {
  }

  /** As a label, NULL and what cannot be read are empty. */
  lemma LabelReadings(num: Numerics, v: DBValue)
    ensures v == Null || v == Other ==> DBToString(num, v).0 == ""
    ensures DBToString(num, v).1 <==> v != Other
    ensures v == Bool(true) ==> DBToString(num, v).0 == "true"
    ensures v == Bool(false) ==> DBToString(num, v).0 == "false"
    ensures v.Int32? || v.Int64? ==> DBToString(num, v).0 == num.showInt(v.n)
    ensures v.Float? ==> DBToString(num, v).0 == num.showFloat(v.f)
    ensures v.Time? ==> DBToString(num, v).0 == num.showInt(v.unix)
    ensures v.Bytes? || v.Text? ==> DBToString(num, v).0 == v.text
  {
  }
}
