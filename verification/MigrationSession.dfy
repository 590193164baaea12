/** Migration 0080 as it runs: statements, guards, transactions, crashes and interleaved writers. */
module MigrationSession {
  import opened Options
  import opened OnlineMigration

  /** The statements `upgrade` and `downgrade` issue for one pair. */
  datatype Stmt =
    | CreateUqIndex | DropUqIndexConcurrently | AddUqUsingIndex
    | AddColumn | Backfill | SetNotNull | AddFkParent | AddFkTenant
    | ValidateFkParent | ValidateFkTenant | CreateIxChild | DropIxChildConcurrently
    | DropFkTenant | DropFkParent | DropUqConstraint | DropUqIndex | DropColumn

  datatype Reply = Ok(pair: Pair) | SqlError

  function BackfillRows(p: Pair): map<Id, Child> {
    map k | k in p.children ::
      var c := p.children[k];
      if c.tenant == None && c.parent in p.parents then c.(tenant := Some(p.parents[c.parent])) else c
  }

  /** The backfill gives every child its parent's tenant, overwrites no value already there, and changes no
   *  other column. */
  lemma BackfillAgrees(p: Pair)
    requires forall k | k in p.children :: p.children[k].parent in p.parents
    ensures forall k | k in p.children :: p.children[k].tenant.Some? ==> BackfillRows(p)[k] == p.children[k]
    ensures (forall k | k in p.children :: p.children[k].tenant.Some? ==>
              p.children[k].tenant.value == p.parents[p.children[k].parent])
            <==> Agrees(p.(children := BackfillRows(p)))
    ensures Plain(p.(children := BackfillRows(p))) == Plain(p)
    ensures Agrees(p) ==> BackfillRows(p) == p.children
  {
    var q := p.(children := BackfillRows(p));
    assert forall k | k in p.children :: q.children[k].parent == p.children[k].parent;
    assert Plain(q).1 == Plain(p).1;
    if Agrees(q) {
      forall k | k in p.children && p.children[k].tenant.Some?
        ensures p.children[k].tenant.value == p.parents[p.children[k].parent]
      {
        assert q.children[k].tenant == Some(q.parents[q.children[k].parent]);
      }
    }
  }

  /** The server's answer to one statement, with the conditions under which PostgreSQL refuses it. */
  function Exec(tenants: set<Tenant>, p: Pair, s: Stmt): Reply {
    match s
    case CreateUqIndex => Ok(if p.uqIndex == NoIndex then p.(uqIndex := ValidIndex) else p)
    case DropUqIndexConcurrently =>
      if p.uqConstraint || p.fkParent != NoFk then SqlError else Ok(p.(uqIndex := NoIndex))
    case AddUqUsingIndex =>
      if p.uqConstraint || p.uqIndex != ValidIndex then SqlError else Ok(p.(uqConstraint := true))
    case AddColumn => Ok(p.(hasColumn := true))
    case Backfill => if !p.hasColumn then SqlError else Ok(p.(children := BackfillRows(p)))
    case SetNotNull =>
      if !p.hasColumn || exists k | k in p.children :: p.children[k].tenant == None then SqlError
      else Ok(p.(notNull := true))
    case AddFkParent =>
      if !p.hasColumn || p.fkParent != NoFk || p.uqIndex != ValidIndex then SqlError else Ok(p.(fkParent := NotValid))
    case AddFkTenant =>
      if !p.hasColumn || p.fkTenant != NoFk then SqlError else Ok(p.(fkTenant := NotValid))
    case ValidateFkParent =>
      if p.fkParent == NoFk || exists k | k in p.children ::
           p.children[k].tenant.Some? &&
           !(p.children[k].parent in p.parents && p.parents[p.children[k].parent] == p.children[k].tenant.value)
      then SqlError else Ok(p.(fkParent := Validated))
    case ValidateFkTenant =>
      if p.fkTenant == NoFk || exists k | k in p.children ::
           p.children[k].tenant.Some? && p.children[k].tenant.value !in tenants
      then SqlError else Ok(p.(fkTenant := Validated))
    case CreateIxChild =>
      if !p.hasColumn then SqlError else Ok(if p.ixChild == NoIndex then p.(ixChild := ValidIndex) else p)
    case DropIxChildConcurrently => Ok(p.(ixChild := NoIndex))
    case DropFkTenant => Ok(p.(fkTenant := NoFk))
    case DropFkParent => Ok(p.(fkParent := NoFk))
    case DropUqConstraint =>
      if !p.uqConstraint then Ok(p)
      else if p.fkParent != NoFk then SqlError
      else Ok(p.(uqConstraint := false, uqIndex := NoIndex))
    case DropUqIndex =>
      if p.uqConstraint || (p.uqIndex != NoIndex && p.fkParent != NoFk) then SqlError else Ok(p.(uqIndex := NoIndex))
    case DropColumn =>
      Ok(p.(hasColumn := false, notNull := false, fkParent := NoFk, fkTenant := NoFk, ixChild := NoIndex,
            children := map k | k in p.children :: p.children[k].(tenant := None)))
  }

  /** What a statement asks for, constraints aside. IF NOT EXISTS skips whatever has the name. */
  ghost function Intended(p: Pair, s: Stmt): Pair {
    match s
    case CreateUqIndex => if p.uqIndex == NoIndex then p.(uqIndex := ValidIndex) else p
    case DropUqIndexConcurrently => p.(uqIndex := NoIndex)
    case AddUqUsingIndex => p.(uqConstraint := true)
    case AddColumn => p.(hasColumn := true)
    case Backfill => p.(children := BackfillRows(p))
    case SetNotNull => p.(notNull := true)
    case AddFkParent => p.(fkParent := NotValid)
    case AddFkTenant => p.(fkTenant := NotValid)
    case ValidateFkParent => p.(fkParent := Validated)
    case ValidateFkTenant => p.(fkTenant := Validated)
    case CreateIxChild => if p.ixChild == NoIndex then p.(ixChild := ValidIndex) else p
    case DropIxChildConcurrently => p.(ixChild := NoIndex)
    case DropFkTenant => p.(fkTenant := NoFk)
    case DropFkParent => p.(fkParent := NoFk)
    case DropUqConstraint => if p.uqConstraint then p.(uqConstraint := false, uqIndex := NoIndex) else p
    case DropUqIndex => p.(uqIndex := NoIndex)
    case DropColumn => Pair(p.cascade, p.parents, map k | k in p.children :: Child(p.children[k].parent, None),
                            p.uqIndex, p.uqConstraint, false, false, NoFk, NoFk, NoIndex)
  }

  /** The column a statement names exists, the key it validates is there, and the object it adds is new. */
  ghost predicate Applicable(p: Pair, s: Stmt) {
    && (s.Backfill? || s.SetNotNull? || s.AddFkParent? || s.AddFkTenant? || s.CreateIxChild? ==> p.hasColumn)
    && (s.AddUqUsingIndex? ==> !p.uqConstraint)
    && (s.AddFkParent? ==> p.fkParent == NoFk) && (s.AddFkTenant? ==> p.fkTenant == NoFk)
    && (s.ValidateFkParent? ==> p.fkParent != NoFk) && (s.ValidateFkTenant? ==> p.fkTenant != NoFk)
  }

  /** The server executes a statement exactly when it applies and the outcome breaks no promise of the catalog: it
   *  never refuses without reason, and never reports success for a state that could not exist. */
  lemma ServerAnswers(tenants: set<Tenant>, p: Pair, s: Stmt)
    requires CatalogOk(tenants, p)
    ensures Exec(tenants, p, s) ==
      if Applicable(p, s) && CatalogOk(tenants, Intended(p, s)) then Ok(Intended(p, s)) else SqlError
  {
    match s
    case Backfill => if p.hasColumn { BackfillFits(tenants, p); }
    case SetNotNull => if p.hasColumn { NotNullFits(tenants, p); }
    case ValidateFkParent => if p.fkParent != NoFk { ParentKeyFits(tenants, p); }
    case ValidateFkTenant => if p.fkTenant != NoFk { TenantKeyFits(tenants, p); }
    case DropColumn => ColumnGoes(tenants, p);
    case _ => ObjectsFit(tenants, p, s);
  }

  lemma ObjectsFit(tenants: set<Tenant>, p: Pair, s: Stmt)
    requires CatalogOk(tenants, p)
    requires !s.Backfill? && !s.SetNotNull? && !s.ValidateFkParent? && !s.ValidateFkTenant? && !s.DropColumn?
    ensures Exec(tenants, p, s) ==
      if Applicable(p, s) && CatalogOk(tenants, Intended(p, s)) then Ok(Intended(p, s)) else SqlError
  {
  }

  lemma BackfillFits(tenants: set<Tenant>, p: Pair)
    requires CatalogOk(tenants, p) && p.hasColumn
    ensures CatalogOk(tenants, p.(children := BackfillRows(p)))
  {
    var q := p.(children := BackfillRows(p));
    forall k | k in q.children
      ensures q.children[k].parent == p.children[k].parent && q.children[k].parent in q.parents
      ensures q.children[k] == p.children[k] || q.children[k].tenant == Some(p.parents[p.children[k].parent])
    {
    }
  }

  lemma NotNullFits(tenants: set<Tenant>, p: Pair)
    requires CatalogOk(tenants, p) && p.hasColumn
    ensures CatalogOk(tenants, p.(notNull := true)) <==> forall k | k in p.children :: p.children[k].tenant.Some?
  {
    var q := p.(notNull := true);
    forall k | k in p.children ensures q.children[k] == p.children[k] { }
  }

  lemma ParentKeyFits(tenants: set<Tenant>, p: Pair)
    requires CatalogOk(tenants, p) && p.fkParent != NoFk
    ensures CatalogOk(tenants, p.(fkParent := Validated)) <==>
      forall k | k in p.children && p.children[k].tenant.Some? ::
        p.children[k].parent in p.parents && p.parents[p.children[k].parent] == p.children[k].tenant.value
  {
    var q := p.(fkParent := Validated);
    forall k | k in p.children ensures q.children[k] == p.children[k] { }
  }

  lemma TenantKeyFits(tenants: set<Tenant>, p: Pair)
    requires CatalogOk(tenants, p) && p.fkTenant != NoFk
    ensures CatalogOk(tenants, p.(fkTenant := Validated)) <==>
      forall k | k in p.children && p.children[k].tenant.Some? :: p.children[k].tenant.value in tenants
  {
    var q := p.(fkTenant := Validated);
    forall k | k in p.children ensures q.children[k] == p.children[k] { }
  }

  lemma ColumnGoes(tenants: set<Tenant>, p: Pair)
    requires CatalogOk(tenants, p)
    ensures CatalogOk(tenants, Intended(p, DropColumn))
    ensures Exec(tenants, p, DropColumn) == Ok(Intended(p, DropColumn))
  {
    assert Exec(tenants, p, DropColumn).pair.children == Intended(p, DropColumn).children;
  }

  /** In every state the migration can meet the catalog keeps its promises. */
  lemma RecoverableIsOk(tenants: set<Tenant>, p: Pair)
    requires PairOk(tenants, p)
    ensures CatalogOk(tenants, p)
  {
  }

  datatype Outcome = Done | Crashed | Refused

  ghost predicate Step2Ready(p: Pair) {
    forall k | k in p.children :: p.children[k].tenant.Some? || p.children[k].parent in p.parents
  }

  ghost function Step2(p: Pair): Pair {
    p.(hasColumn := true, notNull := true, children := BackfillRows(p))
  }

  ghost function Step3(p: Pair): Pair {
    p.(fkParent := if p.fkParent == NoFk then NotValid else p.fkParent,
       fkTenant := if p.fkTenant == NoFk then NotValid else p.fkTenant)
  }

  lemma DropColumnErases(p: Pair)
    requires !p.uqConstraint && p.uqIndex == NoIndex
    ensures Exec({}, p, DropColumn).Ok? && Exec({}, p, DropColumn).pair == OriginalPair(p)
  {
  }

  /** The object a cut-off concurrent build or drop leaves behind. */
  function LeftInvalid(p: Pair, s: Stmt): Pair {
    match s
    case CreateUqIndex => if p.uqIndex == NoIndex then p.(uqIndex := InvalidIndex) else p
    case DropUqIndexConcurrently =>
      if p.uqIndex != NoIndex && !p.uqConstraint && p.fkParent == NoFk then p.(uqIndex := InvalidIndex) else p
    case CreateIxChild => if p.hasColumn && p.ixChild == NoIndex then p.(ixChild := InvalidIndex) else p
    case DropIxChildConcurrently => if p.ixChild != NoIndex then p.(ixChild := InvalidIndex) else p
    case _ => p
  }

  /** Why the guards are needed: what a cut-off build leaves is skipped by the next CREATE, and the constraint cannot
   *  be put on it; dropped first, it is built and takes the constraint. */
  lemma LeftoverBlocksWithoutTheGuard(tenants: set<Tenant>, p: Pair)
    requires Before(p) && p.uqIndex == NoIndex
    ensures var q := LeftInvalid(p, CreateUqIndex);
      && q == p.(uqIndex := InvalidIndex)
      && Exec(tenants, q, CreateUqIndex) == Ok(q) && Exec(tenants, q, AddUqUsingIndex) == SqlError
      && Exec(tenants, q, DropUqIndexConcurrently) == Ok(p)
      && Exec(tenants, p.(uqIndex := ValidIndex), AddUqUsingIndex).Ok?
    ensures LeftInvalid(p.(uqIndex := ValidIndex), DropUqIndexConcurrently) == p.(uqIndex := InvalidIndex)
  {
  }

  lemma ChildLeftoverIsSkipped(tenants: set<Tenant>, p: Pair)
    requires After(p) && p.ixChild == NoIndex
    ensures var q := LeftInvalid(p, CreateIxChild);
      q == p.(ixChild := InvalidIndex) && Exec(tenants, q, CreateIxChild) == Ok(q)
    ensures LeftInvalid(p.(ixChild := ValidIndex), DropIxChildConcurrently) == p.(ixChild := InvalidIndex)
  {
  }

  function SetPair(db: Db, i: nat, q: Pair): Db
    requires i < |db.pairs|
  {
    db.(pairs := db.pairs[i := q])
  }

  function Run(db: Db, i: nat, s: Stmt): Reply
    requires i < |db.pairs|
  {
    Exec(db.tenants, db.pairs[i], s)
  }

  /** `b` can follow `a` while upgrading: nothing that was finished is lost. */
  ghost predicate Forward(a: Db, b: Db, quiet: bool) {
    && |a.pairs| == |b.pairs| && Recoverable(b)
    && (quiet ==> SameRows(a, b))
    && (forall j | 0 <= j < |a.pairs| :: After(a.pairs[j]) ==> After(b.pairs[j]))
    && (forall j | 0 <= j < |a.pairs| :: PairComplete(a.pairs[j]) ==> PairComplete(b.pairs[j]))
  }

  /** `b` can follow `a` while downgrading: nothing that was removed comes back. */
  ghost predicate Backward(a: Db, b: Db, quiet: bool) {
    && |a.pairs| == |b.pairs| && Recoverable(b)
    && (quiet ==> SameRows(a, b))
    && (forall j | 0 <= j < |a.pairs| :: PairPristine(a.pairs[j]) ==> PairPristine(b.pairs[j]))
  }

  lemma WritersMoveBothWays(a: Db, b: Db, quiet: bool)
    requires Recoverable(a) && Recoverable(b) && SameCatalog(a, b) && (quiet ==> a == b)
    ensures Forward(a, b, quiet) && Backward(a, b, quiet)
  {
  }

  lemma ForwardTransitive(a: Db, b: Db, c: Db, quiet: bool)
    requires Forward(a, b, quiet) && Forward(b, c, quiet)
    ensures Forward(a, c, quiet)
  {
  }

  lemma BackwardTransitive(a: Db, b: Db, c: Db, quiet: bool)
    requires Backward(a, b, quiet) && Backward(b, c, quiet)
    ensures Backward(a, c, quiet)
  {
  }

  /** The autocommitted statements, each in the state the migration issues it in. */
  ghost predicate Allowed(tenants: set<Tenant>, p: Pair, s: Stmt) {
    && PairOk(tenants, p)
    && (s.CreateUqIndex? || s.DropUqIndexConcurrently? ==> Before(p))
    && (s.ValidateFkParent? || s.ValidateFkTenant? || s.CreateIxChild? ==> After(p))
    && (s.CreateUqIndex? || s.DropUqIndexConcurrently? || s.ValidateFkParent? || s.ValidateFkTenant?
        || s.CreateIxChild? || s.DropIxChildConcurrently?)
  }

  /** `q` is a committed successor of `p` in the same phase, with the same application rows. */
  ghost predicate SamePhase(tenants: set<Tenant>, p: Pair, q: Pair) {
    && PairOk(tenants, q) && Plain(q) == Plain(p)
    && (Before(p) ==> Before(q)) && (After(p) ==> After(q))
  }

  /** An autocommitted statement is never refused, and finished or cut off it stays inside its phase. */
  lemma AllowedStays(tenants: set<Tenant>, p: Pair, s: Stmt)
    requires Allowed(tenants, p, s)
    ensures Exec(tenants, p, s).Ok?
    ensures SamePhase(tenants, p, Exec(tenants, p, s).pair) && SamePhase(tenants, p, LeftInvalid(p, s))
    ensures !s.DropIxChildConcurrently? && PairComplete(p) ==>
      PairComplete(Exec(tenants, p, s).pair) && PairComplete(LeftInvalid(p, s))
    ensures !s.CreateUqIndex? && PairPristine(p) ==>
      PairPristine(Exec(tenants, p, s).pair) && PairPristine(LeftInvalid(p, s))
  {
  }

  lemma SetPairMoves(a: Db, i: nat, q: Pair, quiet: bool)
    requires Recoverable(a) && i < |a.pairs| && PairOk(a.tenants, q) && Plain(q) == Plain(a.pairs[i])
    ensures SameRows(a, SetPair(a, i, q)) && Recoverable(SetPair(a, i, q))
    ensures (After(a.pairs[i]) ==> After(q)) && (PairComplete(a.pairs[i]) ==> PairComplete(q)) ==>
      Forward(a, SetPair(a, i, q), quiet)
    ensures (PairPristine(a.pairs[i]) ==> PairPristine(q)) ==> Backward(a, SetPair(a, i, q), quiet)
  {
  }

  predicate KeysValidated(p: Pair) { p.fkParent == Validated && p.fkTenant == Validated }

  /** A migration run: what is committed, and what its open transaction sees. `calm` runs are never cut off,
   *  `quiet` runs meet no concurrent writer. */
  class Session {
    var committed: Db
    var working: Db
    const calm: bool
    const quiet: bool

    constructor (db: Db, calm: bool, quiet: bool)
      ensures committed == working == db && this.calm == calm && this.quiet == quiet
    {
      committed, working := db, db;
      this.calm, this.quiet := calm, quiet;
    }

    /** No uncommitted change is pending. */
    ghost predicate Settled() reads this { working == committed && Recoverable(committed) }

    method Fault() returns (f: bool)
      ensures calm ==> !f
    {
      var b: bool := *;
      f := b && !calm;
    }

    /** Application statements, any number of them, between two transactions of the migration. */
    method Writers()
      requires Settled()
      modifies this
      ensures Settled() && SameCatalog(old(committed), committed)
      ensures quiet ==> committed == old(committed)
      ensures Forward(old(committed), committed, quiet) && Backward(old(committed), committed, quiet)
    {
      var n: nat := *;
      while n > 0 && !quiet
        invariant Settled() && SameCatalog(old(committed), committed)
        invariant quiet ==> committed == old(committed)
      {
        var w: Write := *;
        WriterKeepsRecoverable(committed, w);
        committed := Apply(committed, w);
        working := committed;
        n := n - 1;
      }
      WritersMoveBothWays(old(committed), committed, quiet);
    }

    /** The end of a transaction, also on entering an autocommit block. */
    method Commit() returns (r: Outcome)
      modifies this
      ensures working == committed
      ensures (r == Done && committed == old(working)) || (r == Crashed && committed == old(committed) && !calm)
    {
      var f := Fault();
      if f { working := committed; return Crashed; }
      committed := working;
      return Done;
    }

    /** The open transaction has touched pair `i` only. */
    ghost predicate Focus(i: nat) reads this {
      i < |committed.pairs| && |working.pairs| == |committed.pairs|
        && working == SetPair(committed, i, working.pairs[i])
    }

    /** A statement inside the open transaction. A crash or a refusal rolls back to the last commit. */
    method Execute(i: nat, s: Stmt) returns (r: Outcome)
      requires Focus(i)
      modifies this`working
      ensures r != Done ==> working == committed
      ensures r == Refused ==> Run(old(working), i, s) == SqlError
      ensures r == Crashed ==> !calm
      ensures r == Done ==> Run(old(working), i, s).Ok? && Focus(i) && working.pairs[i] == Run(old(working), i, s).pair
    {
      var f := Fault();
      if f { working := committed; return Crashed; }
      match Run(working, i, s)
      case SqlError => working := committed; return Refused;
      case Ok(q) =>
        working := SetPair(working, i, q);
        assert working.pairs == committed.pairs[i := q];
        return Done;
    }

    /** A statement of an autocommit block. Cut off, it has either not happened, or left the concurrently
     *  built or dropped index behind INVALID. */
    method Autocommit(i: nat, s: Stmt) returns (r: Outcome)
      requires i < |working.pairs| && working == committed
      modifies this
      ensures working == committed
      ensures r == Refused ==> committed == old(committed) && Run(old(committed), i, s) == SqlError
      ensures r == Crashed ==> !calm
      ensures r == Crashed ==>
        committed == old(committed) || committed == SetPair(old(committed), i, LeftInvalid(old(committed).pairs[i], s))
      ensures r == Done ==>
        Run(old(committed), i, s).Ok? && committed == SetPair(old(committed), i, Run(old(committed), i, s).pair)
    {
      var f := Fault();
      if f {
        var halfway: bool := *;
        if halfway {
          committed := SetPair(committed, i, LeftInvalid(committed.pairs[i], s));
          working := committed;
        }
        return Crashed;
      }
      match Run(committed, i, s)
      case SqlError => return Refused;
      case Ok(q) =>
        committed := SetPair(committed, i, q);
        working := committed;
        return Done;
    }

    /** An autocommitted statement of the migration, with writers before and after it. */
    method AutocommitStep(i: nat, s: Stmt) returns (r: Outcome)
      requires Settled() && i < |committed.pairs| && Allowed(committed.tenants, committed.pairs[i], s)
      modifies this
      ensures Settled()
      ensures r != Refused && (calm ==> r == Done)
      ensures !s.DropIxChildConcurrently? || !PairComplete(old(committed).pairs[i]) ==>
        Forward(old(committed), committed, quiet)
      ensures !s.CreateUqIndex? ==> Backward(old(committed), committed, quiet)
      ensures |committed.pairs| == |old(committed).pairs|
      ensures Before(old(committed).pairs[i]) ==> Before(committed.pairs[i])
      ensures After(old(committed).pairs[i]) ==> After(committed.pairs[i])
      ensures r == Done ==> SameCatalogPair(committed.pairs[i], Run(old(committed), i, s).pair)
      ensures r == Done && quiet ==> committed == SetPair(old(committed), i, Run(old(committed), i, s).pair)
    {
      ghost var start := committed;
      AllowedStays(committed.tenants, committed.pairs[i], s);
      SetPairMoves(start, i, Run(start, i, s).pair, quiet);
      SetPairMoves(start, i, LeftInvalid(start.pairs[i], s), quiet);
      r := Autocommit(i, s);
      ghost var mid := committed;
      assert Recoverable(mid);
      Writers();
      assert SameCatalogPair(mid.pairs[i], committed.pairs[i]);
      assert PairOk(committed.tenants, committed.pairs[i]);
      if !s.DropIxChildConcurrently?
        || !PairComplete(start.pairs[i]) { ForwardTransitive(start, mid, committed, quiet); }
      if !s.CreateUqIndex? { BackwardTransitive(start, mid, committed, quiet); }
    }

    // -------------------------------------------------------------- upgrade

    /** CREATE UNIQUE INDEX CONCURRENTLY behind its restart guard: valid is skipped, INVALID is rebuilt. */
    method CreateUniqueConcurrently(i: nat) returns (r: Outcome)
      requires Settled() && i < |committed.pairs| && Before(committed.pairs[i])
      modifies this
      ensures Settled() && Forward(old(committed), committed, quiet)
      ensures r != Refused && (calm ==> r == Done)
      ensures Before(committed.pairs[i])
      ensures r == Done ==> committed.pairs[i].uqIndex == ValidIndex
    {
      var state := working.pairs[i].uqIndex;
      if state == ValidIndex { return Done; }
      r := Commit();
      if r != Done { return; }
      ghost var start := committed;
      Writers();
      assert SameCatalogPair(start.pairs[i], committed.pairs[i]);
      assert PairOk(committed.tenants, committed.pairs[i]);
      if state == InvalidIndex {
        r := AutocommitStep(i, DropUqIndexConcurrently);
        if r != Done { return; }
        assert PairOk(committed.tenants, committed.pairs[i]);
      }
      r := AutocommitStep(i, CreateUqIndex);
    }

    /** Step 1: the unique index on the parent, and the constraint on top of it, in the open transaction. */
    method EnsureUnique(i: nat) returns (r: Outcome)
      requires Settled() && i < |committed.pairs|
      modifies this
      ensures r != Refused && (calm ==> r == Done)
      ensures Forward(old(committed), committed, quiet)
      ensures r != Done ==> working == committed
      ensures r == Done ==> Pending(i)
      ensures r == Done && !After(committed.pairs[i]) ==>
        working.pairs[i] == committed.pairs[i].(uqConstraint := true) && working.pairs[i].uqIndex == ValidIndex
      ensures After(old(committed).pairs[i]) ==> committed == old(committed)
    {
      assert PairOk(committed.tenants, committed.pairs[i]);
      assert committed.pairs[i := committed.pairs[i]] == committed.pairs;
      if !working.pairs[i].uqConstraint {
        r := CreateUniqueConcurrently(i);
        if r != Done { return; }
        assert PairOk(committed.tenants, committed.pairs[i]);
        assert committed.pairs[i := committed.pairs[i]] == committed.pairs;
        r := Execute(i, AddUqUsingIndex);
      } else {
        r := Done;
      }
    }

    /** The open transaction has touched pair `i` only; a pair that was already migrated is untouched. */
    ghost predicate Pending(i: nat) reads this {
      && Recoverable(committed) && Focus(i)
      && RowsOk(committed.tenants, committed.pairs[i])
      && Plain(working.pairs[i]) == Plain(committed.pairs[i])
      && (After(committed.pairs[i]) ==> working == committed)
      && (!After(committed.pairs[i]) ==> Before(committed.pairs[i]))
    }

    /** Step 2, in the open transaction: the column, its backfill, NOT NULL. */
    method AddTenantColumn(i: nat) returns (r: Outcome)
      requires Focus(i) && Step2Ready(working.pairs[i])
      modifies this`working
      ensures r != Refused && (calm ==> r == Done)
      ensures r != Done ==> working == committed
      ensures r == Done ==> Focus(i) && working.pairs[i] == Step2(old(working).pairs[i])
    {
      r := Execute(i, AddColumn);
      if r != Done { return; }
      r := Execute(i, Backfill);
      if r != Done { return; }
      r := Execute(i, SetNotNull);
    }

    /** Step 3, in the open transaction: both foreign keys, NOT VALID, unless they are there already. */
    method AddKeys(i: nat) returns (r: Outcome)
      requires Focus(i) && working.pairs[i].hasColumn && working.pairs[i].uqIndex == ValidIndex
      modifies this`working
      ensures r != Refused && (calm ==> r == Done)
      ensures r != Done ==> working == committed
      ensures r == Done ==> Focus(i) && working.pairs[i] == Step3(old(working).pairs[i])
    {
      if working.pairs[i].fkParent == NoFk {
        r := Execute(i, AddFkParent);
        if r != Done { return; }
      }
      if working.pairs[i].fkTenant == NoFk {
        r := Execute(i, AddFkTenant);
        if r != Done { return; }
      }
      return Done;
    }

    /** Steps 2 and 3: no writer can see one of them without the other. */
    method AddColumnAndKeys(i: nat) returns (r: Outcome)
      requires Pending(i)
      requires !After(committed.pairs[i]) ==>
        working.pairs[i] == committed.pairs[i].(uqConstraint := true) && working.pairs[i].uqIndex == ValidIndex
      modifies this`working
      ensures r != Refused && (calm ==> r == Done)
      ensures r != Done ==> working == committed
      ensures r == Done ==> Pending(i) && PairOk(working.tenants, working.pairs[i]) && After(working.pairs[i])
    {
      ghost var p := working.pairs[i];
      assert committed.pairs[i := committed.pairs[i]] == committed.pairs;
      BackfillAgrees(p);
      r := AddTenantColumn(i);
      if r != Done { return; }
      r := AddKeys(i);
      assert r == Done ==> Plain(working.pairs[i]) == Plain(Step2(p));
    }

    /** On entering the autocommit block the pair is committed; writers see it from here on. */
    method CommitPair(i: nat) returns (r: Outcome)
      requires Pending(i) && PairOk(working.tenants, working.pairs[i]) && After(working.pairs[i])
      modifies this
      ensures Settled() && Forward(old(committed), committed, quiet)
      ensures r != Refused && (calm ==> r == Done)
      ensures r == Done ==> After(committed.pairs[i])
      ensures r == Done && quiet && PairComplete(old(committed).pairs[i]) ==> committed == old(committed)
    {
      ghost var start := committed;
      SetPairMoves(committed, i, working.pairs[i], quiet);
      r := Commit();
      if r != Done { return; }
      Writers();
      ForwardTransitive(start, SetPair(start, i, old(working).pairs[i]), committed, quiet);
    }

    /** Step 4, first half: the pair is committed, and whatever is still NOT VALID is validated. */
    method ValidateKeys(i: nat) returns (r: Outcome)
      requires Pending(i) && PairOk(working.tenants, working.pairs[i]) && After(working.pairs[i])
      modifies this
      ensures Settled() && Forward(old(committed), committed, quiet)
      ensures r != Refused && (calm ==> r == Done)
      ensures r == Done ==> After(committed.pairs[i]) && KeysValidated(committed.pairs[i])
      ensures r == Done && quiet && PairComplete(old(committed).pairs[i]) ==> committed == old(committed)
    {
      ghost var start := committed;
      r := CommitPair(i);
      if r != Done { return; }
      assert PairOk(committed.tenants, committed.pairs[i]);
      if committed.pairs[i].fkParent == NotValid {
        ghost var written := committed;
        r := AutocommitStep(i, ValidateFkParent);
        ForwardTransitive(start, written, committed, quiet);
        if r != Done { return; }
        assert PairOk(committed.tenants, committed.pairs[i]);
      }
      if committed.pairs[i].fkTenant == NotValid {
        ghost var once := committed;
        r := AutocommitStep(i, ValidateFkTenant);
        ForwardTransitive(start, once, committed, quiet);
      }
    }

    /** Step 4, second half: the index for the row policies, behind the same restart guard. */
    method CreateChildIndexConcurrently(i: nat) returns (r: Outcome)
      requires Settled() && i < |committed.pairs| && After(committed.pairs[i])
      modifies this
      ensures Settled() && Forward(old(committed), committed, quiet)
      ensures r != Refused && (calm ==> r == Done)
      ensures After(committed.pairs[i])
      ensures r == Done ==> committed.pairs[i].ixChild == ValidIndex
      ensures r == Done && KeysValidated(old(committed).pairs[i]) ==> PairComplete(committed.pairs[i])
      ensures old(committed).pairs[i].ixChild == ValidIndex ==> committed == old(committed)
    {
      var state := working.pairs[i].ixChild;
      if state == ValidIndex { return Done; }
      ghost var start := committed;
      r := Commit();
      if r != Done { return; }
      if state == InvalidIndex {
        assert PairOk(committed.tenants, committed.pairs[i]);
        r := AutocommitStep(i, DropIxChildConcurrently);
        if r != Done { return; }
      }
      ghost var once := committed;
      assert PairOk(committed.tenants, committed.pairs[i]);
      r := AutocommitStep(i, CreateIxChild);
      ForwardTransitive(start, once, committed, quiet);
    }

    method UpgradePair(i: nat) returns (r: Outcome)
      requires Settled() && i < |committed.pairs|
      modifies this
      ensures Settled() && Forward(old(committed), committed, quiet)
      ensures r != Refused && (calm ==> r == Done)
      ensures r == Done ==> PairComplete(committed.pairs[i])
      ensures r == Done && quiet && PairComplete(old(committed).pairs[i]) ==> committed == old(committed)
    {
      ghost var start := committed;
      r := EnsureUnique(i);
      if r != Done { return; }
      ghost var once := committed;
      r := AddColumnAndKeys(i);
      if r != Done { return; }
      r := ValidateKeys(i);
      ForwardTransitive(start, once, committed, quiet);
      if r != Done { return; }
      ghost var twice := committed;
      r := CreateChildIndexConcurrently(i);
      ForwardTransitive(start, twice, committed, quiet);
    }

    /** One upgrade attempt. It is never refused by the server; cut off anywhere, with writers in between, it
     *  leaves a recoverable database; finished, it has migrated every pair. On a database that is already
     *  migrated it changes nothing. */
    method Upgrade() returns (r: Outcome)
      requires Settled()
      modifies this
      ensures Settled() && Forward(old(committed), committed, quiet)
      ensures r != Refused && (calm ==> r == Done)
      ensures r == Done ==> Complete(committed)
      ensures r == Done && quiet ==> committed == Migrated(old(committed))
      ensures r == Done && quiet && Complete(old(committed)) ==> committed == old(committed)
    {
      ghost var start := committed;
      assert Forward(start, committed, quiet);
      for i := 0 to |committed.pairs|
        invariant Settled() && Forward(start, committed, quiet)
        invariant i <= |committed.pairs|
        invariant forall j | 0 <= j < i :: PairComplete(committed.pairs[j])
        invariant quiet && Complete(start) ==> committed == start
      {
        ghost var before := committed;
        r := UpgradePair(i);
        ForwardTransitive(start, before, committed, quiet);
        if r != Done { return; }
      }
      r := Commit();
      if r == Done && quiet { MigratedIgnoresHistory(committed, start); }
    }

    // -------------------------------------------------------------- downgrade

    method DropForeignKeys(i: nat) returns (r: Outcome)
      requires Focus(i)
      modifies this`working
      ensures r != Refused && (calm ==> r == Done)
      ensures r != Done ==> working == committed
      ensures r == Done ==> Focus(i) && working.pairs[i] == old(working).pairs[i].(fkTenant := NoFk, fkParent := NoFk)
    {
      r := Execute(i, DropFkTenant);
      if r != Done { return; }
      r := Execute(i, DropFkParent);
    }

    /** Dropping the constraint takes its index along; an index that never became a constraint is dropped alone. */
    method DropUnique(i: nat) returns (r: Outcome)
      requires Focus(i) && working.pairs[i].fkParent == NoFk
      modifies this`working
      ensures r != Refused && (calm ==> r == Done)
      ensures r != Done ==> working == committed
      ensures r == Done ==>
        Focus(i) && working.pairs[i] == old(working).pairs[i].(uqConstraint := false, uqIndex := NoIndex)
    {
      r := Execute(i, DropUqConstraint);
      if r != Done { return; }
      r := Execute(i, DropUqIndex);
    }

    /** The drops of one pair, in the open transaction and in the source's order; none is blocked. */
    method DropObjects(i: nat) returns (r: Outcome)
      requires Focus(i)
      modifies this`working
      ensures r != Refused && (calm ==> r == Done)
      ensures r != Done ==> working == committed
      ensures r == Done ==> Focus(i) && working.pairs[i] == OriginalPair(old(working).pairs[i])
    {
      ghost var p := working.pairs[i];
      r := DropForeignKeys(i);
      if r != Done { return; }
      r := DropUnique(i);
      if r != Done { return; }
      r := Execute(i, DropColumn);
      if r == Done {
        ghost var q := p.(fkTenant := NoFk, fkParent := NoFk, uqConstraint := false, uqIndex := NoIndex);
        DropColumnErases(q);
      }
    }

    /** The drops of the previous pair are still uncommitted when a pair is entered, and are committed by its
     *  autocommit block. */
    method DowngradePair(i: nat) returns (r: Outcome)
      requires i < |committed.pairs| && Recoverable(committed) && Backward(committed, working, quiet)
      modifies this
      ensures Backward(old(committed), committed, quiet)
      ensures r != Refused && (calm ==> r == Done)
      ensures r != Done ==> Settled()
      ensures r == Done ==> Backward(committed, working, quiet) && Backward(old(working), working, quiet)
      ensures r == Done ==> PairPristine(working.pairs[i])
    {
      ghost var start, pending := committed, working;
      r := Commit();
      if r != Done { return; }
      Writers();
      ghost var once := committed;
      BackwardTransitive(start, pending, once, quiet);
      assert PairOk(committed.tenants, committed.pairs[i]);
      r := AutocommitStep(i, DropIxChildConcurrently);
      BackwardTransitive(start, once, committed, quiet);
      if r != Done { return; }
      BackwardTransitive(pending, once, committed, quiet);
      assert committed.pairs[i := committed.pairs[i]] == committed.pairs;
      assert PairOk(committed.tenants, committed.pairs[i]);
      ghost var p := committed.pairs[i];
      r := DropObjects(i);
      if r != Done { return; }
      OriginalKeepsRows(committed.tenants, p);
      SetPairMoves(committed, i, OriginalPair(p), quiet);
      BackwardTransitive(pending, committed, working, quiet);
    }

    /** One downgrade attempt, from any state that upgrades and downgrades, finished or cut off, can leave. */
    method Downgrade() returns (r: Outcome)
      requires Settled()
      modifies this
      ensures Settled() && Backward(old(committed), committed, quiet)
      ensures r != Refused && (calm ==> r == Done)
      ensures r == Done ==> Pristine(committed)
      ensures r == Done && quiet ==> committed == Original(old(committed))
    {
      ghost var start := committed;
      assert Backward(start, committed, quiet);
      var i := |committed.pairs|;
      while i > 0
        invariant 0 <= i <= |start.pairs| == |committed.pairs|
        invariant Recoverable(committed) && Backward(start, committed, quiet) && Backward(committed, working, quiet)
        invariant forall j | i <= j < |start.pairs| :: PairPristine(working.pairs[j])
      {
        i := i - 1;
        ghost var before, pending := committed, working;
        r := DowngradePair(i);
        BackwardTransitive(start, before, committed, quiet);
        if r != Done { return; }
      }
      BackwardTransitive(start, committed, working, quiet);
      r := Commit();
      if r == Done && quiet { OriginalIgnoresHistory(committed, start); }
    }
  }

  lemma OriginalKeepsRows(tenants: set<Tenant>, p: Pair)
    requires PairOk(tenants, p)
    ensures PairOk(tenants, OriginalPair(p)) && PairPristine(OriginalPair(p)) && Plain(OriginalPair(p)) == Plain(p)
  {
    assert Plain(OriginalPair(p)).1 == Plain(p).1;
  }

  datatype Attempt = Attempt(up: bool, calm: bool)

  /** Any history of upgrade and downgrade attempts, each cut off anywhere, in any order, ending with one
   *  uninterrupted upgrade: the result is the migrated form of the original rows, as if that last run had been
   *  the only one. */
  method ConvergesAfterAnyHistory(db: Db, history: seq<Attempt>) returns (final: Db)
    requires Recoverable(db)
    ensures final == Migrated(db) && Complete(final)
  {
    var current := db;
    for n := 0 to |history|
      invariant Recoverable(current) && SameRows(db, current)
    {
      var s := new Session(current, history[n].calm, true);
      if history[n].up { var _ := s.Upgrade(); } else { var _ := s.Downgrade(); }
      current := s.committed;
    }
    var last := new Session(current, true, true);
    var r := last.Upgrade();
    final := last.committed;
    MigratedIgnoresHistory(db, current);
  }

  /** The same for the rollback: one uninterrupted downgrade restores the schema and the rows of `db`. */
  method RollsBackFromAnyHistory(db: Db, history: seq<Attempt>) returns (final: Db)
    requires Recoverable(db)
    ensures final == Original(db) && Pristine(final)
    ensures Pristine(db) ==> final == db
  {
    var current := db;
    for n := 0 to |history|
      invariant Recoverable(current) && SameRows(db, current)
    {
      var s := new Session(current, history[n].calm, true);
      if history[n].up { var _ := s.Upgrade(); } else { var _ := s.Downgrade(); }
      current := s.committed;
    }
    var last := new Session(current, true, true);
    var r := last.Downgrade();
    final := last.committed;
    OriginalIgnoresHistory(db, current);
    OriginalIgnoresHistory(db, db);
  }

  /** Under concurrent writers the attempts can be cut off and repeated any number of times: the database stays
   *  recoverable, the server refuses nothing, and the first run that is not cut off completes the migration. */
  method CompletesUnderWriters(db: Db, crashed: nat) returns (final: Db)
    requires Recoverable(db)
    ensures Complete(final) && |final.pairs| == |db.pairs|
  {
    var s := new Session(db, false, false);
    for n := 0 to crashed
      invariant s.Settled() && |s.committed.pairs| == |db.pairs| && fresh(s)
    {
      var r := s.Upgrade();
      assert r != Refused;
      s.Writers();
    }
    var last := new Session(s.committed, true, false);
    var r := last.Upgrade();
    final := last.committed;
  }
}
