/** Facts about finite sets. */
module Sets {
  lemma Pick<T>(s: set<T>) returns (x: T)
    requires s != {}
    ensures x in s
  {
    x :| x in s;
  }

  /** A non-empty finite set has a least element. */
  lemma {:induction false} HasLeast(s: set<int>)
    requires s != {}
    ensures exists x :: x in s && forall y | y in s :: x <= y
    decreases |s|
  {
    var x := Pick(s);
    var rest := s - {x};
    assert forall y | y in s :: y == x || y in rest;
    if rest != {} {
      HasLeast(rest);
      var y :| y in rest && forall z | z in rest :: y <= z;
      var least := if x < y then x else y;
      assert least in s && forall z | z in s :: least <= z;
    }
  }
}
