/** Total orders, used to break ties between equally frequent values the way
    pandas does: it reports the modes of a column in ascending order. */
module Orders {

  /** `le` is a total order (a reflexive, antisymmetric, transitive and total relation). */
  ghost predicate TotalOrder<T(!new)>(le: (T, T) -> bool) {
    && (forall x, y :: le(x, y) || le(y, x))
    && (forall x, y :: le(x, y) && le(y, x) ==> x == y)
    && (forall x, y, z :: le(x, y) && le(y, z) ==> le(x, z))
  }

  /** Numeric order on integer columns (month, hour). */
  predicate IntLe(a: int, b: int) {
    a <= b
  }

  lemma IntLeIsTotalOrder()
    ensures TotalOrder(IntLe)
  {
  }
}
