/** An optional value: `None` plays JavaScript's `undefined` / `null` where the source
    returns "nothing", and a failed parse. */
module Options {
  datatype Option<T> = None | Some(value: T)
}
