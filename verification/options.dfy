/** The optional value used wherever the page may find nothing: an absent
    storage key, a string that is not a number, a malformed label. */
module Options {

  datatype Option<+T> = None | Some(value: T)

}
