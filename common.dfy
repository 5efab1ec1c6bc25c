/**
 * Shared vocabulary of the model: optional values, results, naive local
 * time, JSON values (what json.dump writes and json.load reads) and the
 * datetime text conversions the code relies on.
 */
module Common {

  datatype Option<+T> = None | Some(value: T) {
    function GetOr(default: T): T {
      match this
      case Some(v) => v
      case None => default
    }
  }

  datatype Result<+T, +E> = Ok(value: T) | Err(error: E)

  /** Naive local time, in microseconds; Python's datetime carries no zone here. */
  type Instant = int

  const Second: int := 1_000_000
  const Hour: int := 3600 * Second
  const Day: int := 24 * Hour

  /** Midnight of the day that holds `t`. */
  function DayStart(t: Instant): (r: Instant)
    ensures r <= t < r + Day
    ensures r % Day == 0
  {
    t - t % Day
  }

  /** Time elapsed since midnight of `t`'s day. */
  function TimeOfDay(t: Instant): (r: int)
    ensures 0 <= r < Day
    ensures DayStart(t) + r == t
  {
    t % Day
  }

  /** A JSON value as json.dump writes it and json.load reads it back. */
  datatype Json =
    | JNull
    | JBool(b: bool)
    | JInt(i: int)
    | JFloat(f: real)
    | JStr(s: string)
    | JList(items: seq<Json>)
    | JObject(fields: map<string, Json>)

  /** Python's truth test applied to a loaded JSON value. */
  predicate Truthy(v: Json) {
    match v
    case JNull => false
    case JBool(b) => b
    case JInt(i) => i != 0
    case JFloat(f) => f != 0.0
    case JStr(s) => s != ""
    case JList(items) => items != []
    case JObject(fields) => fields != map[]
  }

  function OptionalTimeJson(t: Option<Instant>, format: Instant -> string): Json {
    match t
    case None => JNull
    case Some(v) => JStr(format(v))
  }

  /**
   * The datetime library's text conversions: `isoformat()`, `str()` and
   * `fromisoformat()`, the last one answering None where Python raises.
   */
  datatype DateText = DateText(
    isoformat: Instant -> string,
    str: Instant -> string,
    fromisoformat: string -> Option<Instant>)

  /** What the model relies on: isoformat is never empty and parses back. */
  ghost predicate Faithful(d: DateText) {
    && d.fromisoformat("") == None
    && forall t :: d.isoformat(t) != "" && d.fromisoformat(d.isoformat(t)) == Some(t)
  }

  /** The round trip at one instant. */
  lemma FaithfulAt(d: DateText, t: Instant)
    requires Faithful(d)
    ensures d.isoformat(t) != "" && d.fromisoformat(d.isoformat(t)) == Some(t)
  {
  }
}
