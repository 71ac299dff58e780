/** The optional value used wherever the source stores `None` or leaves a
    dictionary key out. */
module Optional {

  datatype Option<T> = None | Some(value: T)
}
