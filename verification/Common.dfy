/** What several modules share. */
module Common {
  datatype Option<T> = None | Some(value: T)

  function Min(a: nat, b: nat): nat { if a <= b then a else b }

  predicate IsPowerOfTwo(n: nat) { n == 1 || (n > 1 && n % 2 == 0 && IsPowerOfTwo(n / 2)) }
}
