/** An optional value: None stands for C#'s null and for default(T) of a reference type. */
module Optional {
  datatype Option<+T> = None | Some(value: T)
}
