/** An optional value: NumPy-side `None` or a present value. */
module Optional {

  datatype Option<+T> = None | Some(value: T)
}
