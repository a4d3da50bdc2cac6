/** The one wrapper every module shares: a value that may be absent (None / null / undefined). */
module Optional {
  datatype Option<+T> = None | Some(value: T)
}
