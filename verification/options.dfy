/** The optional value returned by intersection tests, scattering and the
    samplers. */
module Options {
  datatype Option<T> = None | Some(value: T)
}
