/** Small shared vocabulary: an optional value and the real-number helpers that
    stand for JavaScript's Math.max, Math.min, Math.abs and Math.round. */
module Base {

  datatype Option<+T> = None | Some(value: T) {

    /** The wrapped value, or `default` when there is none (JavaScript's `a ?? b`). */
    function GetOr(default: T): T {
      match this
      case Some(v) => v
      case None => default
    }
  }

  function Max(a: real, b: real): real {
    if a >= b then a else b
  }

  function Min(a: real, b: real): real {
    if a <= b then a else b
  }

  function Abs(a: real): real {
    if a < 0.0 then -a else a
  }

  /** Math.round on a real: the nearest integer, halves rounded up. */
  function Round(v: real): (k: int)
    ensures v - 0.5 < k as real <= v + 0.5
  {
    (v + 0.5).Floor
  }

  /** `v` is an integer multiple of `g`. */
  predicate IsMultipleOf(v: real, g: real)
    requires g != 0.0
  {
    (v / g).Floor as real == v / g
  }
}
