/** Option and result types, bytes and bounds shared by the models of the release scripts. */
module Prelude {
  datatype Option<+T> = None | Some(value: T)

  datatype Result<+T, +E> = Ok(value: T) | Err(error: E)

  type Byte = b: int | 0 <= b < 256
  type Bytes = seq<Byte>

  const NUL: Byte := 0
  const NEWLINE: Byte := 10
  const SPACE: Byte := 32
  const DOT: Byte := 46
  const SLASH: Byte := 47
  const BACKSLASH: Byte := 92

  /** No inventory of a release is longer. */
  const MAX_FILES := 4096

  /** No element of `s` occurs twice. */
  predicate Distinct<T(==)>(s: seq<T>) {
    forall i, j :: 0 <= i < j < |s| ==> s[i] != s[j]
  }
}
