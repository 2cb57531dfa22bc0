/** The optional value used for the component's `number | null` results. */
module Options {
  datatype Option<T> = None | Some(value: T)
}
