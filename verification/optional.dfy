/** An optional value, for the places where the source yields `null` or a
    decoder can refuse its input. */
module Optional {

  datatype Option<+T> = None | Some(value: T)
}
