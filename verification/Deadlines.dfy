/** Arithmetic on optional deadlines and budgets; times are real numbers of seconds. */
module Deadlines {
  import opened Options

  function Max0(x: real): real { if x < 0.0 then 0.0 else x }

  function Min(x: real, y: real): real { if x <= y then x else y }

  /** The earlier of two optional deadlines. */
  function Earlier(a: Option<real>, b: Option<real>): Option<real> {
    if a.None? then b else if b.None? then a else Some(Min(a.value, b.value))
  }
}
