module Sets {
  /** A set that is not empty has an element to pick. */
  lemma Inhabited<T(!new)>(s: set<T>)
    ensures s == {} || exists x :: x in s
  {
    assert (forall x :: x !in s) ==> s == {};
  }
}
