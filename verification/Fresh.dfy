/** There is always an id that no row has yet. */
module Fresh {
  lemma Unused(ids: set<nat>) returns (id: nat)
    ensures forall x :: x in ids ==> x < id
  {
    id := 0;
    var rest := ids;
    while rest != {}
      invariant rest <= ids
      invariant forall x :: x in ids && x !in rest ==> x < id
    {
      var x :| x in rest;
      rest := rest - {x};
      if id <= x { id := x + 1; }
    }
  }
}
