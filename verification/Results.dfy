/** The option type shared by the model's modules. */
module Results {
  datatype Option<+T> = None | Some(value: T)
}
