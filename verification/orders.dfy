/** Least elements of finite sets. */
module Orders {

  /** A non-empty finite set has a least element under any total preorder. */
  lemma {:induction false} LeastExists<T(!new)>(s: set<T>, atMost: (T, T) -> bool)
    requires s != {}
    requires forall a, b | a in s && b in s :: atMost(a, b) || atMost(b, a)
    requires forall a, b, c | a in s && b in s && c in s && atMost(a, b) && atMost(b, c) :: atMost(a, c)
    ensures exists m :: m in s && forall k | k in s :: atMost(m, k)
    decreases |s|
  {
    var x :| x in s;
    var rest := s - {x};
    var least := x;
    if rest != {} {
      LeastExists(rest, atMost);
      var m :| m in rest && forall k | k in rest :: atMost(m, k);
      least := if atMost(x, m) then x else m;
    }
    forall k | k in s ensures atMost(least, k) {
      assert k == x || k in rest;
    }
  }

  /** Some element, as a loop over a set takes them. */
  method AnyOf<T>(s: set<T>) returns (x: T)
    requires s != {}
    ensures x in s
  {
    x :| x in s;
  }
}
