/** Result shapes shared by the parsers and lookups of this project. */
module Results {
  datatype Option<+T> = None | Some(value: T)

  /** What a parser makes of the head of a sequence: a value and the rest. */
  datatype Parsed<+A, +T> = Failed | Parsed(value: A, rest: seq<T>)
}
