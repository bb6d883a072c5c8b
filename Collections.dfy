/** Facts about finite collections that the models share. */
module Collections {

  /** A set of ids other than the empty set has a member to pick. */
  lemma NonEmptyHasMember(s: set<int>)
    requires s != {}
    ensures exists x :: x in s
  {
    if forall x :: x !in s {
      assert false;
    }
  }
}
