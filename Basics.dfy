/** General helpers the other modules share: an optional value and the
    integer minimum and maximum. */
module Basics {

  datatype Option<T> = None | Some(value: T)

  function Max(a: int, b: int): int { if a >= b then a else b }

  function Min(a: int, b: int): int { if a <= b then a else b }
}
