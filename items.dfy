/** The tokens that travel along the belt, and an optional value for refused accesses. */
module Items {

  /** Something that can occupy a belt slot; `Empty` is the free slot. */
  datatype Item = A | B | Product | Empty

  /** A value that may be absent; a workstation answers `None` when it refuses a take. */
  datatype Option<T> = None | Some(value: T)
}
