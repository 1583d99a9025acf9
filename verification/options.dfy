/** The optional value used wherever the source has `undefined`, `null` or
    "no match". */
module Options {

  datatype Option<+T> = None | Some(value: T)
}
