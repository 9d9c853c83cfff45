/** A field or dashboard value that may be missing: a Java field still
    holding null, or a dashboard key no one has published. */
module Options {

  datatype Option<T> = None | Some(value: T)
}
