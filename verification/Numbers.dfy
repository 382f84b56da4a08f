/** Minimum, maximum and absolute value. */
module Numbers {

  function Min(x: int, y: int): int {
    if x < y then x else y
  }

  function Max(x: int, y: int): int {
    if x < y then y else x
  }

  function MinReal(x: real, y: real): real {
    if x < y then x else y
  }

  function MaxReal(x: real, y: real): real {
    if x < y then y else x
  }

  function Abs(x: real): real {
    if x < 0.0 then -x else x
  }
}
