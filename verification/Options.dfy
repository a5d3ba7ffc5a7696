module Options {

  datatype Option<+T> = None | Some(value: T)

  /** JavaScript's `x ?? fallback`. */
  function OrElse<T>(x: Option<T>, fallback: T): T
  {
    match x case Some(v) => v case None => fallback
  }
}
