/** Shared record types: optional values, results with the faults the
    timelapse builder can raise, and the six-slot tile URL record. */
module Records {

  datatype Option<+T> = None | Some(value: T)

  /** The faults that abort a run. */
  datatype Fault =
    | MissingRow(timestamp: int)   // no table row carries the requested timestamp

  datatype Result<+T> = Ok(value: T) | Err(fault: Fault)

  /** One URL fragment slot of a tile record: absent (None), or a fragment
      string that may be empty. */
  type Slot = Option<string>

  /** A slot is fetched exactly when it holds a non-empty fragment: the
      source tests the fragment's truthiness, so None and "" are both blank. */
  predicate HasUrl(s: Slot) {
    s.Some? && s.value != ""
  }
}
