/** The Some/None wrapper used wherever the source holds a value or `null`. */
module Optional {

  datatype Option<+T> = None | Some(value: T)
}
