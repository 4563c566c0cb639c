/**
 What several parts use: a value that may be missing, and a list put together from pieces.
 */
module Shared {
  datatype Option<+T> = None | Some(value: T)

  function Flatten<T>(chunks: seq<seq<T>>): seq<T> {
    if chunks == [] then [] else Flatten(chunks[..|chunks| - 1]) + chunks[|chunks| - 1]
  }
}
