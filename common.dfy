/** Small value types shared by the view-state controllers. */
module Common {

  /** A value that may be absent: JavaScript's `T | null` state slots. */
  datatype Option<+T> = None | Some(value: T)
}
