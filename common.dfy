/** Small shared vocabulary: optional values, the outcome of an awaited call, and strings. */
module Common {

  /** A JavaScript string; the model works on characters, not UTF-16 code units. */
  type String = seq<char>

  /** A value that may be absent (`undefined` or `null` in the source). */
  datatype Option<+T> = None | Some(value: T)

  /** How an awaited call settled: the simulated network calls of the pages are
      replaced by this value, passed in by the caller. */
  datatype Outcome = Success | Failure

  /** JavaScript truthiness of an optional string: absent and "" are both falsy. */
  predicate Truthy(s: Option<String>)
  {
    s.Some? && s.value != []
  }
}
