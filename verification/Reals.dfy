// The larger and the smaller of two numbers.
module Reals {

  function Max(x: real, y: real): real {
    if x < y then y else x
  }

  function Min(x: real, y: real): real {
    if x < y then x else y
  }
}
