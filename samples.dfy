/**
  Telemetry samples as the acquisition engine builds them: a Python `dict`
  from string keys to JSON-compatible values.
*/
module Samples {
  import opened Timestamps

  /** A value inside a sample: `None`, a `str`, a number, or a `datetime`. */
  datatype Value = Null | Str(s: string) | Num(r: real) | Time(t: Instant)

  /** A sample record: the keys present and their values. */
  type Sample = map<string, Value>

  /** What `json.loads(json.dumps(v, default=str))` returns for `v`: a datetime
      comes back as its `str()`, everything else as it was. */
  function JsonRoundTrip(v: Value): (r: Value)
    ensures !v.Time? ==> r == v
    ensures v.Time? ==> r == Str(DateTimeStr(v.t))
  {
    match v
    case Time(t) => Str(DateTimeStr(t))
    case _ => v
  }

  /** The payload decoded from the `value_json` column written for `sample`. */
  function Reencode(sample: Sample): (r: Sample)
    ensures r.Keys == sample.Keys
    ensures forall k :: k in sample ==> r[k] == JsonRoundTrip(sample[k])
  {
    map k | k in sample :: JsonRoundTrip(sample[k])
  }
}
