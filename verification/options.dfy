/** The optional value used wherever the source works with a possibly-null
    reference (a table cell that is not there, an entry without payload). */
module Options {

  datatype Option<+T> = None | Some(value: T)
}
