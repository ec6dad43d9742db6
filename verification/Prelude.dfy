// Shared vocabulary of the model.

module Prelude {

  datatype Option<+T> = None | Some(value: T)

  /** All sequences of `ss`, one after the other. */
  function Concat<T>(ss: seq<seq<T>>): seq<T> {
    if ss == [] then [] else Concat(ss[..|ss| - 1]) + ss[|ss| - 1]
  }
}
