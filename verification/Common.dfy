/** Shared by the models: an optional value and one step of arithmetic. */
module Common {
  datatype Option<T> = None | Some(value: T)

  lemma MulLe(a: int, b: int, k: int)
    requires a <= b && k >= 0
    ensures a * k <= b * k
  {
  }
}
