/** The Go code returns pointers that may be nil; `Option` stands for them. */
module Optional {

  datatype Option<+T> = None | Some(value: T)
}
