/** Identifiers are totally ordered by the database; they appear as their ranks. */
module Ordering {
  function Least(s: set<nat>): (m: nat)
    requires s != {}
    ensures m in s && forall o | o in s :: m <= o
  {
    var x :| x in s;
    HasLeastBelow(s, x);
    var m :| m in s && forall o | o in s :: m <= o;
    m
  }

  lemma {:induction false} HasLeastBelow(s: set<nat>, x: nat)
    requires x in s
    ensures exists m :: m in s && forall o | o in s :: m <= o
    decreases x
  {
    if y :| y in s && y < x { HasLeastBelow(s, y); }
  }
}
