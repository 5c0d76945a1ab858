/** Python's `None`-or-value: optional form fields, optional names and
    phones, and the optional tag of a sales response. */
module Optional {
  datatype Option<T> = None | Some(value: T)
}
