/** The optional value used wherever the driver has "no answer" or "did not parse". */
module Options {
  datatype Option<+T> = None | Some(value: T)
}
