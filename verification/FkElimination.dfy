/** The deletion loop of the onboarding smoke: every table is deleted from, repeatedly, without knowing the
 *  foreign-key graph. A delete statement takes all rows it matches or none: it fails, alone in its savepoint,
 *  while a row it would leave behind still refers to a row it would take.
 *
 * Keys with ON DELETE CASCADE do not block. They enter through the statements: the set of a statement is what it
 * takes, the rows it matches and the rows that cascade away with them. `Refs` and the rows keyed to the tenant are
 * about the keys that block.
 */
module FkElimination {
  type Row = nat

  /** `(r, s) in refs`: row r refers to row s with a key that blocks the deletion of s. */
  type Refs = set<(Row, Row)>

  predicate Blocked(alive: set<Row>, doomed: set<Row>, refs: Refs) {
    exists p | p in refs :: p.0 in alive && p.0 !in doomed && p.1 in doomed
  }

  function AfterDelete(alive: set<Row>, matched: set<Row>, refs: Refs): set<Row> {
    if Blocked(alive, alive * matched, refs) then alive else alive - matched
  }

  /** One pass over the statements, in their order. */
  function AfterPass(alive: set<Row>, statements: seq<set<Row>>, refs: Refs): set<Row> {
    if statements == [] then alive else AfterPass(AfterDelete(alive, statements[0], refs), statements[1..], refs)
  }

  function AfterPasses(alive: set<Row>, statements: seq<set<Row>>, refs: Refs, n: nat): set<Row> {
    if n == 0 then alive else AfterPass(AfterPasses(alive, statements, refs, n - 1), statements, refs)
  }

  predicate Matched(statements: seq<set<Row>>, r: Row) { exists m | m in statements :: r in m }

  /** The graph is acyclic between statements: whatever refers to a matched row, and is not taken by the same
   *  statement, is taken by a statement of a lower level. */
  ghost predicate Layered(alive: set<Row>, statements: seq<set<Row>>, refs: Refs, level: set<Row> -> nat) {
    forall m, p | m in statements && p in refs && p.1 in m && p.1 in alive && p.0 in alive && p.0 !in m ::
      exists l | l in statements :: p.0 in l && level(l) < level(m)
  }

  /** Every statement below level k has nothing left to delete. */
  ghost predicate Cleared(alive: set<Row>, statements: seq<set<Row>>, level: set<Row> -> nat, k: nat) {
    forall m | m in statements && level(m) < k :: alive !! m
  }

  lemma {:induction false} PassShrinks(alive: set<Row>, statements: seq<set<Row>>, refs: Refs)
    ensures AfterPass(alive, statements, refs) <= alive
    ensures forall r | r in alive && r !in AfterPass(alive, statements, refs) :: Matched(statements, r)
  {
    if statements != [] {
      PassShrinks(AfterDelete(alive, statements[0], refs), statements[1..], refs);
    }
  }

  /** A pass in any order clears the next level. `done` are the statements already behind. */
  lemma {:induction false} PassClearsNextLevel(start: set<Row>, alive: set<Row>, all: seq<set<Row>>,
                                               todo: seq<set<Row>>, refs: Refs, level: set<Row> -> nat, k: nat)
    requires alive <= start && Layered(start, all, refs, level) && Cleared(start, all, level, k)
    requires forall m | m in todo :: m in all
    ensures forall m | m in todo && level(m) == k :: AfterPass(alive, todo, refs) !! m
  {
    if todo != [] {
      var m, next := todo[0], AfterDelete(alive, todo[0], refs);
      if level(m) == k {
        assert !Blocked(alive, alive * m, refs);
        PassShrinks(next, todo[1..], refs);
      }
      PassClearsNextLevel(start, next, all, todo[1..], refs, level, k);
    }
  }

  lemma {:induction false} PassesClearLevels(alive: set<Row>, statements: seq<set<Row>>, refs: Refs,
                                             level: set<Row> -> nat, n: nat)
    requires Layered(alive, statements, refs, level)
    ensures AfterPasses(alive, statements, refs, n) <= alive
    ensures Cleared(AfterPasses(alive, statements, refs, n), statements, level, n)
  {
    if n > 0 {
      PassesClearLevels(alive, statements, refs, level, n - 1);
      var before := AfterPasses(alive, statements, refs, n - 1);
      PassShrinks(before, statements, refs);
      PassClearsNextLevel(before, before, statements, statements, refs, level, n - 1);
    }
  }

  /** A pass that removes nothing on a layered graph means that nothing is left to remove. */
  lemma {:induction false} NoProgressMeansEmpty(alive: set<Row>, statements: seq<set<Row>>, refs: Refs,
                                                level: set<Row> -> nat, k: nat)
    requires Layered(alive, statements, refs, level) && AfterPass(alive, statements, refs) == alive
    ensures Cleared(alive, statements, level, k)
  {
    if k > 0 {
      NoProgressMeansEmpty(alive, statements, refs, level, k - 1);
      PassClearsNextLevel(alive, alive, statements, statements, refs, level, k - 1);
    }
  }

  lemma NothingMatchedLeft(start: set<Row>, statements: seq<set<Row>>, refs: Refs, level: set<Row> -> nat, n: nat,
                           stopped: bool)
    requires Layered(start, statements, refs, level)
    requires stopped ==>
      AfterPass(AfterPasses(start, statements, refs, n), statements, refs) == AfterPasses(start, statements, refs, n)
    requires stopped || forall m | m in statements :: level(m) < n
    ensures forall r | r in AfterPasses(start, statements, refs, n) :: !Matched(statements, r)
  {
    var rows := AfterPasses(start, statements, refs, n);
    PassesClearLevels(start, statements, refs, level, n);
    forall m | m in statements ensures rows !! m {
      if stopped { NoProgressMeansEmpty(rows, statements, refs, level, level(m) + 1); }
    }
  }

  // ---------------------------------------------------------------- exactly the layered graphs

  ghost predicate IsLayered(alive: set<Row>, statements: seq<set<Row>>, refs: Refs) {
    exists level: set<Row> -> nat :: Layered(alive, statements, refs, level)
  }

  /** Layered, with every statement below level k. */
  ghost predicate IsShallow(alive: set<Row>, statements: seq<set<Row>>, refs: Refs, k: nat) {
    exists level: set<Row> -> nat :: Layered(alive, statements, refs, level) && Below(statements, level, k)
  }

  ghost predicate Below(statements: seq<set<Row>>, level: set<Row> -> nat, k: nat) {
    forall m | m in statements :: level(m) < k
  }

  /** No matched row is left. */
  ghost predicate Gone(alive: set<Row>, statements: seq<set<Row>>) {
    forall r | r in alive :: !Matched(statements, r)
  }

  ghost predicate GoneAfter(alive: set<Row>, statements: seq<set<Row>>, refs: Refs, n: nat) {
    Gone(AfterPasses(alive, statements, refs, n), statements)
  }

  /** Levels after one delete give levels before it: the executed statement comes first, then those it emptied on the
   *  side, then the others in their order. */
  lemma LevelsBeforeDelete(alive: set<Row>, s: set<Row>, all: seq<set<Row>>, refs: Refs, level: set<Row> -> nat)
    returns (earlier: set<Row> -> nat)
    requires s in all && Layered(AfterDelete(alive, s, refs), all, refs, level)
    ensures Layered(alive, all, refs, earlier)
  {
    var next := AfterDelete(alive, s, refs);
    earlier := m => if !(next !! m) then level(m) + 2 else if m == s then 0 else 1;
    forall m, p | m in all && p in refs && p.1 in m && p.1 in alive && p.0 in alive && p.0 !in m
      ensures exists l | l in all :: p.0 in l && earlier(l) < earlier(m)
    {
      if p.0 in next && p.1 in next {
        var l :| l in all && p.0 in l && level(l) < level(m);
        assert earlier(l) < earlier(m);
      } else {
        assert p.0 in s && earlier(s) == 0;
      }
    }
  }

  lemma {:induction false} LevelsBeforePass(alive: set<Row>, todo: seq<set<Row>>, all: seq<set<Row>>, refs: Refs,
                                            level: set<Row> -> nat)
    returns (earlier: set<Row> -> nat)
    requires (forall m | m in todo :: m in all) && Layered(AfterPass(alive, todo, refs), all, refs, level)
    ensures Layered(alive, all, refs, earlier)
    decreases |todo|
  {
    earlier := level;
    if todo != [] {
      earlier := LevelsBeforePass(AfterDelete(alive, todo[0], refs), todo[1..], all, refs, level);
      earlier := LevelsBeforeDelete(alive, todo[0], all, refs, earlier);
    }
  }

  lemma {:induction false} LevelsBeforePasses(alive: set<Row>, statements: seq<set<Row>>, refs: Refs, n: nat,
                                              level: set<Row> -> nat)
    requires Layered(AfterPasses(alive, statements, refs, n), statements, refs, level)
    ensures IsLayered(alive, statements, refs)
  {
    if n > 0 {
      var earlier := LevelsBeforePass(AfterPasses(alive, statements, refs, n - 1), statements, statements, refs, level);
      LevelsBeforePasses(alive, statements, refs, n - 1, earlier);
    }
  }

  /** Each pass without a stall takes a row. */
  lemma {:induction false} PassesStall(alive: set<Row>, statements: seq<set<Row>>, refs: Refs, n: nat)
    ensures var rows := AfterPasses(alive, statements, refs, n);
      rows <= alive && (|rows| + n <= |alive| || AfterPass(rows, statements, refs) == rows)
  {
    if n > 0 {
      PassesStall(alive, statements, refs, n - 1);
      var before := AfterPasses(alive, statements, refs, n - 1);
      var rows := AfterPass(before, statements, refs);
      PassShrinks(before, statements, refs);
      assert rows != before ==> |before| == |rows| + |before - rows| && |before - rows| > 0 by {
        assert before == rows + (before - rows);
      }
    }
  }

  /** The loop, given enough passes, leaves no matched row exactly when the graph is layered. As many passes as there
   *  are rows are enough, if any number is. */
  lemma ExactlyTheLayeredGraphsGo(alive: set<Row>, statements: seq<set<Row>>, refs: Refs)
    ensures IsLayered(alive, statements, refs) <==> GoneAfter(alive, statements, refs, |alive|)
    ensures IsLayered(alive, statements, refs) <==> exists n: nat :: GoneAfter(alive, statements, refs, n)
  {
    if level :| Layered(alive, statements, refs, level) {
      PassesStall(alive, statements, refs, |alive|);
      var rows := AfterPasses(alive, statements, refs, |alive|);
      if AfterPass(rows, statements, refs) == rows {
        NothingMatchedLeft(alive, statements, refs, level, |alive|, true);
      }
    }
    if n: nat :| GoneAfter(alive, statements, refs, n) { GoneMeansLayered(alive, statements, refs, n); }
  }

  lemma GoneMeansLayered(alive: set<Row>, statements: seq<set<Row>>, refs: Refs, n: nat)
    requires GoneAfter(alive, statements, refs, n)
    ensures IsLayered(alive, statements, refs)
  {
    LevelsBeforePasses(alive, statements, refs, n, _ => 0);
  }

  // ---------------------------------------------------------------- exactly what a number of passes removes

  /** The statements of n passes, one after the other. */
  function Repeated(statements: seq<set<Row>>, n: nat): seq<set<Row>> {
    if n == 0 then [] else Repeated(statements, n - 1) + statements
  }

  /** A timetable gives every matched row a statement of the run that takes it, by its index. When that statement's turn
   *  comes, every row that refers from outside to a row it still has to take is gone: its own turn was earlier. */
  ghost predicate Timetable(alive: set<Row>, run: seq<set<Row>>, all: seq<set<Row>>, refs: Refs, turn: Row -> nat) {
    forall r | r in alive && Matched(all, r) :: HasTurn(alive, run, all, refs, turn, r)
  }

  ghost predicate HasTurn(alive: set<Row>, run: seq<set<Row>>, all: seq<set<Row>>, refs: Refs, turn: Row -> nat,
                          r: Row) {
    && turn(r) < |run| && r in run[turn(r)]
    && forall p | p in refs && p.0 in alive && p.0 !in run[turn(r)] && p.1 in alive && p.1 in run[turn(r)] ::
         turn(p.1) >= turn(r) ==> Matched(all, p.0) && turn(p.0) < turn(r)
  }

  ghost predicate IsPlanned(alive: set<Row>, statements: seq<set<Row>>, refs: Refs, n: nat) {
    exists turn: Row -> nat :: Timetable(alive, Repeated(statements, n), statements, refs, turn)
  }

  /** What a run removes entirely has a timetable: the times at which the rows went. */
  lemma {:induction false} RunGivesTimetable(alive: set<Row>, run: seq<set<Row>>, all: seq<set<Row>>, refs: Refs)
    returns (turn: Row -> nat)
    requires (forall m | m in run :: m in all) && Gone(AfterPass(alive, run, refs), all)
    ensures Timetable(alive, run, all, refs, turn)
    decreases |run|
  {
    turn := _ => 0;
    if run != [] {
      var next := AfterDelete(alive, run[0], refs);
      var later := RunGivesTimetable(next, run[1..], all, refs);
      turn := r => if r in next then later(r) + 1 else 0;
      forall r | r in alive && Matched(all, r) ensures HasTurn(alive, run, all, refs, turn, r) {
        if r in next { assert HasTurn(next, run[1..], all, refs, later, r); }
      }
    }
  }

  /** A run that has a timetable removes everything. */
  lemma {:induction false} TimetableRuns(alive: set<Row>, run: seq<set<Row>>, all: seq<set<Row>>, refs: Refs,
                                         turn: Row -> nat)
    requires (forall m | m in run :: m in all) && Timetable(alive, run, all, refs, turn)
    ensures Gone(AfterPass(alive, run, refs), all)
    decreases |run|
  {
    if run == [] {
      assert forall r | r in alive && Matched(all, r) :: HasTurn(alive, run, all, refs, turn, r);
    } else {
      var next := AfterDelete(alive, run[0], refs);
      var later := r => if turn(r) > 0 then turn(r) - 1 else 0;
      forall r | r in next && Matched(all, r) ensures turn(r) > 0 && HasTurn(next, run[1..], all, refs, later, r) {
        FirstTurnTaken(alive, run, all, refs, turn, r);
        assert HasTurn(alive, run, all, refs, turn, r);
        assert run[turn(r)] in run;
        forall p | p in refs && p.0 in next && p.0 !in run[turn(r)] && p.1 in next && p.1 in run[turn(r)]
          && later(p.1) >= later(r)
          ensures Matched(all, p.0) && later(p.0) < later(r)
        {
          FirstTurnTaken(alive, run, all, refs, turn, p.1);
          if Matched(all, p.0) { FirstTurnTaken(alive, run, all, refs, turn, p.0); }
        }
      }
      TimetableRuns(next, run[1..], all, refs, later);
    }
  }

  /** A row that outlives the first statement has a later turn. */
  lemma FirstTurnTaken(alive: set<Row>, run: seq<set<Row>>, all: seq<set<Row>>, refs: Refs, turn: Row -> nat, r: Row)
    requires run != [] && run[0] in all && Timetable(alive, run, all, refs, turn)
    requires r in AfterDelete(alive, run[0], refs) && Matched(all, r)
    ensures turn(r) > 0
  {
    assert HasTurn(alive, run, all, refs, turn, r);
    assert r in run[0] ==> Blocked(alive, alive * run[0], refs);
  }

  lemma {:induction false} RunSplits(alive: set<Row>, a: seq<set<Row>>, b: seq<set<Row>>, refs: Refs)
    ensures AfterPass(alive, a + b, refs) == AfterPass(AfterPass(alive, a, refs), b, refs)
    decreases |a|
  {
    if a == [] {
      assert a + b == b;
    } else {
      assert (a + b)[0] == a[0] && (a + b)[1..] == a[1..] + b;
      RunSplits(AfterDelete(alive, a[0], refs), a[1..], b, refs);
    }
  }

  lemma {:induction false} PassesAreARun(alive: set<Row>, statements: seq<set<Row>>, refs: Refs, n: nat)
    ensures AfterPasses(alive, statements, refs, n) == AfterPass(alive, Repeated(statements, n), refs)
    ensures forall m | m in Repeated(statements, n) :: m in statements
  {
    if n > 0 {
      PassesAreARun(alive, statements, refs, n - 1);
      RunSplits(alive, Repeated(statements, n - 1), statements, refs);
    }
  }

  /** n passes leave no matched row exactly when the statements of n passes have a timetable. */
  lemma ExactlyThePlannedGraphsGo(alive: set<Row>, statements: seq<set<Row>>, refs: Refs, n: nat)
    ensures GoneAfter(alive, statements, refs, n) <==> IsPlanned(alive, statements, refs, n)
  {
    var run := Repeated(statements, n);
    PassesAreARun(alive, statements, refs, n);
    if GoneAfter(alive, statements, refs, n) {
      var turn := RunGivesTimetable(alive, run, statements, refs);
    }
    if turn :| Timetable(alive, run, statements, refs, turn) {
      TimetableRuns(alive, run, statements, refs, turn);
    }
  }

  /** Passes after one without progress change nothing. */
  lemma {:induction false} StallStays(alive: set<Row>, statements: seq<set<Row>>, refs: Refs, n: nat, more: nat)
    requires
      AfterPass(AfterPasses(alive, statements, refs, n), statements, refs) == AfterPasses(alive, statements, refs, n)
    ensures AfterPasses(alive, statements, refs, n + more) == AfterPasses(alive, statements, refs, n)
    decreases more
  {
    if more > 0 { StallStays(alive, statements, refs, n, more - 1); }
  }

  // ---------------------------------------------------------------- the bound of ten passes is tight

  predicate Under(r: Row, n: nat) { r < n }

  ghost function FirstRows(n: nat): set<Row> { set r: Row | 0 <= r < n && Under(r, n) }

  /** A chain: row r + 1 refers to row r, and row r is deleted by statement r, parents first. */
  ghost function ChainRefs(n: nat): Refs { set r: Row | 1 <= r < n && Under(r, n) :: (r, (r - 1) as nat) }

  ghost function ChainStatements(n: nat): seq<set<Row>> { seq(n, i => {i}) }

  lemma {:induction false} ChainSuffix(n: nat, alive: nat, i: nat)
    requires i < alive <= n
    ensures AfterPass(FirstRows(alive), ChainStatements(n)[i..], ChainRefs(n)) == FirstRows(alive - 1)
    decreases alive - i
  {
    var todo, refs := ChainStatements(n)[i..], ChainRefs(n);
    assert todo[0] == {i} && todo[1..] == ChainStatements(n)[i + 1..];
    assert FirstRows(alive) * {i} == {i};
    if i + 1 < alive {
      assert Under(i + 1, n) && Under(i + 1, alive);
      assert (i + 1, i) in refs && Blocked(FirstRows(alive), {i}, refs);
      ChainSuffix(n, alive, i + 1);
    } else {
      forall p | p in refs ensures !(p.0 in FirstRows(alive) && p.0 !in {i} && p.1 in {i}) {}
      assert AfterDelete(FirstRows(alive), {i}, refs) == FirstRows(alive - 1);
      ChainGone(n, alive - 1, i + 1);
    }
  }

  lemma {:induction false} ChainGone(n: nat, alive: nat, i: nat)
    requires alive < i <= n
    ensures AfterPass(FirstRows(alive), ChainStatements(n)[i..], ChainRefs(n)) == FirstRows(alive)
    decreases n - i
  {
    var todo := ChainStatements(n)[i..];
    if i < n {
      assert todo[0] == {i} && todo[1..] == ChainStatements(n)[i + 1..];
      assert AfterDelete(FirstRows(alive), {i}, ChainRefs(n)) == FirstRows(alive);
      ChainGone(n, alive, i + 1);
    }
  }

  /** Deleting parents first, every pass removes one link: a chain of n tables needs n passes, so ten passes
   *  leave a chain of eleven unfinished. */
  lemma {:induction false} ChainLosesOneLinkPerPass(n: nat, passes: nat)
    requires passes <= n
    ensures AfterPasses(FirstRows(n), ChainStatements(n), ChainRefs(n), passes) == FirstRows(n - passes)
  {
    if passes > 0 {
      ChainLosesOneLinkPerPass(n, passes - 1);
      assert ChainStatements(n)[0..] == ChainStatements(n);
      ChainSuffix(n, n - passes + 1, 0);
    }
  }

  // ---------------------------------------------------------------- the loop

  const PASSES: nat := 10

  class Database {
    var rows: set<Row>
    var tenant: bool
    const refs: Refs

    constructor (rows: set<Row>, refs: Refs)
      ensures this.rows == rows && this.refs == refs && tenant
    {
      this.rows, this.refs, tenant := rows, refs, true;
    }

    /** One DELETE in its savepoint: a failure leaves the rows as they are and counts nothing. */
    method Delete(matched: set<Row>) returns (rowcount: nat)
      modifies this`rows
      ensures rows == AfterDelete(old(rows), matched, refs)
      ensures rowcount == |old(rows)| - |rows| && (rowcount == 0 <==> rows == old(rows))
    {
      var doomed := rows * matched;
      var remaining := rows - matched;
      assert rows == remaining + doomed && remaining !! doomed;
      if exists p | p in refs :: p.0 in remaining && p.1 in doomed {
        assert Blocked(rows, doomed, refs);
        return 0;
      }
      rows := remaining;
      return |doomed|;
    }

    method Pass(statements: seq<set<Row>>) returns (progress: nat)
      modifies this`rows
      ensures rows == AfterPass(old(rows), statements, refs)
      ensures progress == 0 <==> rows == old(rows)
    {
      progress := 0;
      for i := 0 to |statements|
        invariant AfterPass(rows, statements[i..], refs) == AfterPass(old(rows), statements, refs)
        invariant rows <= old(rows) && progress == |old(rows)| - |rows|
        invariant progress == 0 <==> rows == old(rows)
      {
        assert statements[i..][0] == statements[i] && statements[i..][1..] == statements[i + 1..];
        ghost var before := rows;
        var n := Delete(statements[i]);
        Smaller(rows, before, old(rows));
        progress := progress + n;
      }
    }

    /** At most ten passes, stopping after one without progress: the rows left are those that ten passes leave. Nothing
     *  matched is left exactly when ten passes have a timetable, which a layered graph of at most ten levels always
     *  has; after an early stop exactly when the graph was layered, whatever its depth. */
    method Eliminate(statements: seq<set<Row>>) returns (stopped: bool)
      modifies this`rows
      ensures rows == AfterPasses(old(rows), statements, refs, 10)
      ensures rows <= old(rows) && forall r | r in old(rows) && r !in rows :: Matched(statements, r)
      ensures Gone(rows, statements) <==> IsPlanned(old(rows), statements, refs, 10)
      ensures IsShallow(old(rows), statements, refs, 10) ==> Gone(rows, statements)
      ensures stopped ==> (Gone(rows, statements) <==> IsLayered(old(rows), statements, refs))
      ensures Gone(rows, statements) ==> IsLayered(old(rows), statements, refs)
    {
      var n: nat := 0;
      stopped := false;
      while n < PASSES && !stopped
        invariant n <= PASSES && rows == AfterPasses(old(rows), statements, refs, n)
        invariant rows <= old(rows) && forall r | r in old(rows) && r !in rows :: Matched(statements, r)
        invariant stopped ==> AfterPass(rows, statements, refs) == rows
        decreases PASSES - n, !stopped
      {
        PassShrinks(rows, statements, refs);
        var progress := Pass(statements);
        n := n + 1;
        if progress == 0 { stopped := true; }
      }
      if stopped { StallStays(old(rows), statements, refs, n, PASSES - n); }
      ExactlyThePlannedGraphsGo(old(rows), statements, refs, PASSES);
      WhatIsLeft(old(rows), statements, refs, PASSES, stopped);
    }

    /** The loop, then the tenant row itself, which goes exactly when no row with a blocking key to it is left. `keyed`
     *  are the rows that have such a key. A clean result is honest for those rows on any graph; for the matched rows
     *  exactly when ten passes have a timetable. */
    method RemoveTenant(statements: seq<set<Row>>, keyed: set<Row>) returns (clean: bool, stopped: bool)
      modifies this
      ensures rows == AfterPasses(old(rows), statements, refs, 10)
      ensures rows <= old(rows) && forall r | r in old(rows) && r !in rows :: Matched(statements, r)
      ensures clean <==> !tenant
      ensures clean <==> rows !! keyed
      ensures Gone(rows, statements) <==> IsPlanned(old(rows), statements, refs, 10)
      ensures IsShallow(old(rows), statements, refs, 10) ==> Gone(rows, statements)
      ensures stopped ==> (Gone(rows, statements) <==> IsLayered(old(rows), statements, refs))
      ensures Gone(rows, statements) ==> IsLayered(old(rows), statements, refs)
      ensures Gone(rows, statements) && (forall r | r in old(rows) && r in keyed :: Matched(statements, r)) ==> clean
    {
      stopped := Eliminate(statements);
      tenant := rows * keyed != {};
      assert forall r | r in rows && r in keyed :: r in rows * keyed;
      clean := !tenant;
    }
  }

  lemma WhatIsLeft(start: set<Row>, statements: seq<set<Row>>, refs: Refs, n: nat, stopped: bool)
    requires stopped ==>
      AfterPass(AfterPasses(start, statements, refs, n), statements, refs) == AfterPasses(start, statements, refs, n)
    ensures stopped && IsLayered(start, statements, refs) ==> GoneAfter(start, statements, refs, n)
    ensures IsShallow(start, statements, refs, n) ==> GoneAfter(start, statements, refs, n)
    ensures GoneAfter(start, statements, refs, n) ==> IsLayered(start, statements, refs)
  {
    if stopped {
      if level :| Layered(start, statements, refs, level) {
        NothingMatchedLeft(start, statements, refs, level, n, true);
      }
    }
    if level :| Layered(start, statements, refs, level) && Below(statements, level, n) {
      NothingMatchedLeft(start, statements, refs, level, n, false);
    }
    if GoneAfter(start, statements, refs, n) { GoneMeansLayered(start, statements, refs, n); }
  }

  /** On a graph that is not layered a clean result can hide rows: two rows that refer to each other and hold no key to
   *  the tenant survive any number of passes, and nothing blocks the tenant row. */
  lemma {:induction false} CleanCanHideACycle(n: nat)
    ensures AfterPasses({0, 1}, [{0}, {1}], {(0, 1), (1, 0)}, n) == {0, 1}
    ensures Matched([{0}, {1}], 0) && Matched([{0}, {1}], 1)
  {
    var refs: Refs := {(0, 1), (1, 0)};
    assert {0} in [{0}, {1}] && {1} in [{0}, {1}];
    if n > 0 {
      CleanCanHideACycle(n - 1);
      var rows: set<Row> := {0, 1};
      assert (0, 1) in refs && (1, 0) in refs;
      assert AfterDelete(rows, {0}, refs) == rows && AfterDelete(rows, {1}, refs) == rows;
      var todo: seq<set<Row>> := [{0}, {1}];
      assert todo[1..] == [{1}] && todo[1..][1..] == [];
      assert AfterPass(rows, [{1}], refs) == rows;
    }
  }

  lemma Smaller(a: set<Row>, b: set<Row>, c: set<Row>)
    requires a <= b <= c
    ensures |a| <= |b| <= |c| && (|a| == |c| ==> a == c)
  {
    assert b == a + (b - a) && c == b + (c - b);
  }
}
