// A value that may be missing: a nullable column, an absent name, a probe that found nothing.
module Options {
  datatype Option<+T> = None | Some(value: T)
}
