/** The optional value used wherever the scanner's Python code returns
    `None` for "no result" (a failed ping, a malformed address). */
module Options {

  datatype Option<+T> = None | Some(value: T)
}
