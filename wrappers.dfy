/** Small helpers shared by the matching-engine model. */
module Wrappers {

  /** Stands for a C++ pointer that may be null, or a lookup that may find nothing. */
  datatype Option<+T> = None | Some(value: T)

  /** std::min on two ints. */
  function Min(a: int, b: int): (m: int)
    ensures m <= a && m <= b
    ensures m == a || m == b
  {
    if a <= b then a else b
  }
}
