/** The optional value the dashboard expresses with `null`, `undefined` or a falsy result. */
module Options {

  datatype Option<+T> = None | Some(value: T)
}
