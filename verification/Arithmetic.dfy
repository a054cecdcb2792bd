/** Facts about products that the solver should not have to find again and again. */
module Arithmetic {

  lemma MulAdd(a: int, b: int, k: int)
    ensures (a + b) * k == a * k + b * k
  {
  }

  lemma MulGrows(a: int, b: int, k: nat)
    requires a <= b
    ensures a * k <= b * k
  {
    MulAdd(a, b - a, k);
  }

  /** The next multiple. */
  lemma MulNext(n: int, k: int)
    ensures (n + 1) * k == n * k + k
  {
    MulAdd(n, 1, k);
  }
}
