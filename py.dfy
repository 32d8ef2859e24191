/** Python runtime notions shared by the scripts: optional values, the
    exceptions a script can raise, and Python's integer modulo. */
module Py {

  datatype Option<+T> = None | Some(value: T)

  /** The Python exception a script run ends with. */
  datatype Exc =
    | IndexError
    | KeyError
    | ValueError
    | TypeError
    | NameError
    | AttributeError
    | AssertionError
    | ZeroDivisionError
    | StopIteration
    | RuntimeError
    | UnboundLocalError
    | SystemExit
    | SyntaxError

  /** A value, or the exception raised while computing it. */
  datatype Result<+T> = Ok(value: T) | Err(exc: Exc)

  /** Python's `a % b` (the result takes the sign of the divisor);
      `b == 0` raises ZeroDivisionError. */
  function PyMod(a: int, b: int): (r: Result<int>)
    ensures b == 0 <==> r == Err(ZeroDivisionError)
    ensures b > 0 ==> r.Ok? && 0 <= r.value < b
    ensures b < 0 ==> r.Ok? && b < r.value <= 0
    ensures b > 0 ==> r == Ok(a % b)
  {
    if b == 0 then Err(ZeroDivisionError)
    else if b > 0 then Ok(a % b)
    else
      var m := a % b;
      if m == 0 then Ok(0) else Ok(m + b)
  }
}
