/** Orderings used by the sorter: the comparers are modelled as "less than or equal" relations. */
module Orders {

  /** A relation that relates every pair one way or the other (so it is reflexive) and is transitive. */
  ghost predicate TotalPreorder<T(!new)>(le: (T, T) -> bool) {
    && (forall x, y :: le(x, y) || le(y, x))
    && (forall x, y, z :: le(x, y) && le(y, z) ==> le(x, z))
  }

  /** a comes strictly before b. */
  predicate StrictlyBefore<T>(le: (T, T) -> bool, a: T, b: T) {
    le(a, b) && !le(b, a)
  }

  lemma StrictlyBeforeTransitive<T(!new)>(le: (T, T) -> bool, a: T, b: T, c: T)
    requires TotalPreorder(le) && StrictlyBefore(le, a, b) && StrictlyBefore(le, b, c)
    ensures StrictlyBefore(le, a, c)
  {
  }
}
