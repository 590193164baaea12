/** Migration 0080: every child row gets its own tenant_id, tied to its parent by a composite foreign key.
 *
 * The migration runs in several transactions, any of which can be cut off, while the application keeps
 * writing between them. A table pair is a value; a `Session` holds the committed database and the view
 * of the migration's open transaction, and runs the statements in the order of the source.
 * Row identifiers and tenants are only ever compared for equality, so they are natural numbers.
 */
module OnlineMigration {
  import opened Options

  type Id = nat
  type Tenant = nat

  datatype IndexState = NoIndex | InvalidIndex | ValidIndex
  datatype FkState = NoFk | NotValid | Validated
  datatype Child = Child(parent: Id, tenant: Option<Tenant>)

  /** One (child, parent) entry of the pair list: both tables and the catalog objects the migration owns.
   *  `cascade` is the ON DELETE rule of the foreign keys from child to parent. */
  datatype Pair = Pair(
    cascade: bool,
    parents: map<Id, Tenant>,
    children: map<Id, Child>,
    uqIndex: IndexState,
    uqConstraint: bool,
    hasColumn: bool,
    notNull: bool,
    fkParent: FkState,
    fkTenant: FkState,
    ixChild: IndexState)

  datatype Db = Db(tenants: set<Tenant>, pairs: seq<Pair>)

  // ---------------------------------------------------------------- states

  ghost predicate RowsOk(tenants: set<Tenant>, p: Pair) {
    && (forall k | k in p.parents :: p.parents[k] in tenants)
    && (forall k | k in p.children :: p.children[k].parent in p.parents)
  }

  /** The committed state before the pair's transaction commits: at most a leftover unique index. */
  ghost predicate Before(p: Pair) {
    && !p.hasColumn && !p.notNull && !p.uqConstraint
    && p.fkParent == NoFk && p.fkTenant == NoFk && p.ixChild == NoIndex
    && (forall k | k in p.children :: p.children[k].tenant == None)
  }

  /** Every child carries its parent's tenant. */
  ghost predicate Agrees(p: Pair) {
    forall k | k in p.children ::
      p.children[k].parent in p.parents && p.children[k].tenant == Some(p.parents[p.children[k].parent])
  }

  /** The committed state once the pair's transaction has committed. */
  ghost predicate After(p: Pair) {
    && p.hasColumn && p.notNull && p.uqConstraint && p.uqIndex == ValidIndex
    && p.fkParent != NoFk && p.fkTenant != NoFk
    && Agrees(p)
  }

  ghost predicate PairOk(tenants: set<Tenant>, p: Pair) {
    RowsOk(tenants, p) && (Before(p) || After(p))
  }

  /** What holds of the committed database at every moment, whatever was cut off where. */
  ghost predicate Recoverable(db: Db) {
    forall i | 0 <= i < |db.pairs| :: PairOk(db.tenants, db.pairs[i])
  }

  ghost predicate PairComplete(p: Pair) {
    After(p) && p.fkParent == Validated && p.fkTenant == Validated && p.ixChild == ValidIndex
  }

  ghost predicate Complete(db: Db) {
    Recoverable(db) && forall i | 0 <= i < |db.pairs| :: PairComplete(db.pairs[i])
  }

  ghost predicate PairPristine(p: Pair) { Before(p) && p.uqIndex == NoIndex }

  ghost predicate Pristine(db: Db) {
    Recoverable(db) && forall i | 0 <= i < |db.pairs| :: PairPristine(db.pairs[i])
  }

  /** The rows as the application knew them before the migration: everything but the new column. */
  function Plain(p: Pair): (r: (map<Id, Tenant>, map<Id, Id>, bool)) {
    (p.parents, map k | k in p.children :: p.children[k].parent, p.cascade)
  }

  ghost predicate SameRows(a: Db, b: Db) {
    && a.tenants == b.tenants
    && |a.pairs| == |b.pairs|
    && forall i | 0 <= i < |a.pairs| :: Plain(a.pairs[i]) == Plain(b.pairs[i])
  }

  /** Specification of the whole migration: a function of the application's rows alone. */
  ghost function MigratedPair(p: Pair): Pair
    requires forall k | k in p.children :: p.children[k].parent in p.parents
  {
    Pair(p.cascade, p.parents,
         map k | k in p.children :: Child(p.children[k].parent, Some(p.parents[p.children[k].parent])),
         ValidIndex, true, true, true, Validated, Validated, ValidIndex)
  }

  ghost function Migrated(db: Db): Db
    requires Recoverable(db)
  {
    Db(db.tenants, seq(|db.pairs|, i requires 0 <= i < |db.pairs| => MigratedPair(db.pairs[i])))
  }

  /** Specification of the rollback: the application's rows, and no trace of the migration. */
  ghost function OriginalPair(p: Pair): Pair {
    Pair(p.cascade, p.parents, map k | k in p.children :: Child(p.children[k].parent, None),
         NoIndex, false, false, false, NoFk, NoFk, NoIndex)
  }

  ghost function Original(db: Db): Db {
    Db(db.tenants, seq(|db.pairs|, i requires 0 <= i < |db.pairs| => OriginalPair(db.pairs[i])))
  }

  lemma PlainDecides(p: Pair, q: Pair)
    requires Plain(p) == Plain(q)
    ensures p.children.Keys == q.children.Keys
    ensures forall k | k in p.children :: p.children[k].parent == q.children[k].parent
  {
    var m, n := Plain(p).1, Plain(q).1;
    assert p.children.Keys == m.Keys == n.Keys == q.children.Keys;
    forall k | k in p.children ensures p.children[k].parent == q.children[k].parent {
      assert m[k] == n[k];
    }
  }

  /** Two databases with the same application rows migrate to the same database: nothing of the history,
   *  of leftover indexes or half-done runs, survives in the result. */
  lemma MigratedIgnoresHistory(a: Db, b: Db)
    requires Recoverable(a) && Recoverable(b) && SameRows(a, b)
    ensures Migrated(a) == Migrated(b) && Complete(Migrated(a)) && SameRows(a, Migrated(a))
    ensures Complete(a) ==> a == Migrated(b)
  {
    forall i | 0 <= i < |a.pairs|
      ensures MigratedPair(a.pairs[i]) == MigratedPair(b.pairs[i])
      ensures Complete(a) ==> a.pairs[i] == MigratedPair(a.pairs[i])
      ensures Plain(a.pairs[i]) == Plain(MigratedPair(a.pairs[i]))
      ensures RowsOk(a.tenants, MigratedPair(a.pairs[i]))
    {
      PlainDecides(a.pairs[i], b.pairs[i]);
      var p, q := a.pairs[i], MigratedPair(a.pairs[i]);
      assert PairOk(a.tenants, p) && PairOk(b.tenants, b.pairs[i]);
      assert q.children == MigratedPair(b.pairs[i]).children;
      assert Plain(p).1 == Plain(q).1;
      if Complete(a) {
        assert PairComplete(p);
        assert p.children == q.children;
      }
    }
    assert Migrated(a).pairs == Migrated(b).pairs;
    if Complete(a) { assert a.pairs == Migrated(a).pairs; }
  }

  lemma OriginalIgnoresHistory(a: Db, b: Db)
    requires Recoverable(a) && Recoverable(b) && SameRows(a, b)
    ensures Original(a) == Original(b) && Pristine(Original(a)) && SameRows(a, Original(a))
    ensures Pristine(a) ==> a == Original(b)
  {
    forall i | 0 <= i < |a.pairs|
      ensures OriginalPair(a.pairs[i]) == OriginalPair(b.pairs[i])
      ensures Pristine(a) ==> a.pairs[i] == OriginalPair(a.pairs[i])
      ensures Plain(a.pairs[i]) == Plain(OriginalPair(a.pairs[i]))
      ensures RowsOk(a.tenants, OriginalPair(a.pairs[i]))
    {
      PlainDecides(a.pairs[i], b.pairs[i]);
      var p, q := a.pairs[i], OriginalPair(a.pairs[i]);
      assert PairOk(a.tenants, p) && PairOk(b.tenants, b.pairs[i]);
      assert q.children == OriginalPair(b.pairs[i]).children;
      assert Plain(p).1 == Plain(q).1;
      if Pristine(a) { assert p.children == q.children; }
    }
    assert Original(a).pairs == Original(b).pairs;
    if Pristine(a) { assert a.pairs == Original(a).pairs; }
  }

  // ---------------------------------------------------------------- application writers

  datatype Write =
    | InsertTenant(t: Tenant)
    | DeleteTenant(t: Tenant)
    | InsertParent(pair: nat, id: Id, t: Tenant)
    | MoveParent(pair: nat, id: Id, t: Tenant)
    | DeleteParent(pair: nat, id: Id)
    | InsertChild(pair: nat, id: Id, row: Child)
    | UpdateChild(pair: nat, id: Id, row: Child)
    | DeleteChild(pair: nat, id: Id)

  /** The constraints the server checks on a new child row. A NOT VALID foreign key is enforced on new
   *  rows; a NULL tenant satisfies a foreign key; a column that does not exist cannot be given a value. */
  predicate ChildAccepted(tenants: set<Tenant>, p: Pair, row: Child) {
    && row.parent in p.parents
    && (!p.hasColumn ==> row.tenant == None)
    && (p.notNull ==> row.tenant.Some?)
    && (p.fkParent != NoFk && row.tenant.Some? ==> p.parents[row.parent] == row.tenant.value)
    && (p.fkTenant != NoFk && row.tenant.Some? ==> row.tenant.value in tenants)
  }

  function WritePair(tenants: set<Tenant>, p: Pair, w: Write): Pair
    requires !w.InsertTenant? && !w.DeleteTenant?
  {
    match w
    case InsertParent(_, id, t) =>
      if id !in p.parents && t in tenants then p.(parents := p.parents[id := t]) else p
    case MoveParent(_, id, t) =>
      if id in p.parents && t in tenants &&
         (p.fkParent == NoFk || t == p.parents[id] ||
          forall k | k in p.children :: p.children[k] != Child(id, Some(p.parents[id])))
      then p.(parents := p.parents[id := t]) else p
    case DeleteParent(_, id) =>
      if p.cascade then
        p.(parents := p.parents - {id}, children := map k | k in p.children && p.children[k].parent != id ::
          p.children[k])
      else if forall k | k in p.children :: p.children[k].parent != id then p.(parents := p.parents - {id})
      else p
    case InsertChild(_, id, row) =>
      if id !in p.children && ChildAccepted(tenants, p, row) then p.(children := p.children[id := row]) else p
    case UpdateChild(_, id, row) =>
      if id in p.children && ChildAccepted(tenants, p, row) then p.(children := p.children[id := row]) else p
    case DeleteChild(_, id) =>
      p.(children := p.children - {id})
  }

  predicate TenantUsed(p: Pair, t: Tenant) {
    || (exists k | k in p.parents :: p.parents[k] == t)
    || (p.fkTenant != NoFk && exists k | k in p.children :: p.children[k].tenant == Some(t))
  }

  /** One application statement; a statement that violates a constraint is rejected and changes nothing. */
  function Apply(db: Db, w: Write): Db {
    match w
    case InsertTenant(t) => db.(tenants := db.tenants + {t})
    case DeleteTenant(t) =>
      if exists i | 0 <= i < |db.pairs| :: TenantUsed(db.pairs[i], t) then db else db.(tenants := db.tenants - {t})
    case _ =>
      if w.pair < |db.pairs| then
        db.(pairs := db.pairs[w.pair := WritePair(db.tenants, db.pairs[w.pair], w)])
      else db
  }

  ghost predicate SameCatalogPair(p: Pair, q: Pair) {
    && p.cascade == q.cascade && p.uqIndex == q.uqIndex && p.uqConstraint == q.uqConstraint
    && p.hasColumn == q.hasColumn && p.notNull == q.notNull
    && p.fkParent == q.fkParent && p.fkTenant == q.fkTenant && p.ixChild == q.ixChild
  }

  ghost predicate SameCatalog(a: Db, b: Db) {
    |a.pairs| == |b.pairs| && forall i | 0 <= i < |a.pairs| :: SameCatalogPair(a.pairs[i], b.pairs[i])
  }

  lemma WritePairKeeps(tenants: set<Tenant>, p: Pair, w: Write)
    requires PairOk(tenants, p) && !w.InsertTenant? && !w.DeleteTenant?
    ensures PairOk(tenants, WritePair(tenants, p, w))
    ensures Before(p) ==> Before(WritePair(tenants, p, w))
    ensures After(p) ==> After(WritePair(tenants, p, w))
    ensures SameCatalogPair(p, WritePair(tenants, p, w))
  {
    var q := WritePair(tenants, p, w);
    if After(p) && w.MoveParent? && q != p {
      forall k | k in q.children
        ensures q.children[k].tenant == Some(q.parents[q.children[k].parent])
      {
        assert p.children[k].tenant == Some(p.parents[p.children[k].parent]);
        if p.children[k].parent == w.id { assert p.children[k] == Child(w.id, Some(p.parents[w.id])); }
      }
    }
  }

  /** Everything that the catalog of a pair promises about its rows and its own objects. */
  ghost predicate CatalogOk(tenants: set<Tenant>, p: Pair) {
    && RowsOk(tenants, p)
    && (!p.hasColumn ==> !p.notNull && p.fkParent == NoFk && p.fkTenant == NoFk && p.ixChild == NoIndex)
    && (p.uqConstraint || p.fkParent != NoFk ==> p.uqIndex == ValidIndex)
    && (forall k | k in p.children && p.children[k].tenant == None :: !p.notNull)
    && (forall k | k in p.children && p.children[k].tenant.Some? ::
      && p.hasColumn
      && (p.fkParent == Validated ==> p.parents[p.children[k].parent] == p.children[k].tenant.value)
      && (p.fkTenant == Validated ==> p.children[k].tenant.value in tenants))
  }

  /** The pair as if every foreign key in it had been checked on all rows. */
  ghost function Checked(p: Pair): Pair {
    p.(fkParent := if p.fkParent == NoFk then NoFk else Validated,
       fkTenant := if p.fkTenant == NoFk then NoFk else Validated)
  }

  /** What an application statement asks for, constraints aside. */
  ghost function Asked(p: Pair, w: Write): Pair
    requires !w.InsertTenant? && !w.DeleteTenant?
  {
    match w
    case InsertParent(_, id, t) => p.(parents := p.parents[id := t])
    case MoveParent(_, id, t) => p.(parents := p.parents[id := t])
    case DeleteParent(_, id) => p.(parents := p.parents - {id}, children := map k | k in p.children &&
      !(p.cascade && p.children[k].parent == id) :: p.children[k])
    case InsertChild(_, id, row) => p.(children := p.children[id := row])
    case UpdateChild(_, id, row) => p.(children := p.children[id := row])
    case DeleteChild(_, id) => p.(children := map k | k in p.children && k != id :: p.children[k])
  }

  /** An INSERT needs a free identifier, an UPDATE an existing row. */
  ghost predicate Addresses(p: Pair, w: Write) {
    match w
    case InsertParent(_, id, _) => id !in p.parents
    case MoveParent(_, id, _) => id in p.parents
    case InsertChild(_, id, _) => id !in p.children
    case UpdateChild(_, id, _) => id in p.children
    case _ => true
  }

  /** A writer gets what it asks for exactly when no constraint forbids the outcome, and otherwise changes nothing. */
  lemma WritersGetWhatTheyAsk(tenants: set<Tenant>, p: Pair, w: Write)
    requires PairOk(tenants, p) && !w.InsertTenant? && !w.DeleteTenant?
    ensures WritePair(tenants, p, w) ==
      if Addresses(p, w) && CatalogOk(tenants, Checked(Asked(p, w))) then Asked(p, w) else p
  {
    match w
    case InsertParent(_, id, t) => if id !in p.parents { ParentFits(tenants, p, id, t); }
    case MoveParent(_, id, t) => if id in p.parents { ParentFits(tenants, p, id, t); }
    case DeleteParent(_, id) => DeletionFits(tenants, p, id);
    case InsertChild(_, id, row) => if id !in p.children { ChildFits(tenants, p, id, row); }
    case UpdateChild(_, id, row) => if id in p.children { ChildFits(tenants, p, id, row); }
    case DeleteChild(_, id) => ChildGoes(tenants, p, id);
  }

  lemma ParentFits(tenants: set<Tenant>, p: Pair, id: Id, t: Tenant)
    requires PairOk(tenants, p)
    ensures CatalogOk(tenants, Checked(p.(parents := p.parents[id := t]))) <==>
      t in tenants && (p.fkParent == NoFk || id !in p.parents || t == p.parents[id] ||
        forall k | k in p.children :: p.children[k] != Child(id, Some(p.parents[id])))
  {
    var q := Checked(p.(parents := p.parents[id := t]));
    assert q.parents[id] == t;
    if CatalogOk(tenants, q) && p.fkParent != NoFk && id in p.parents && t != p.parents[id] {
      forall k | k in p.children ensures p.children[k] != Child(id, Some(p.parents[id])) {
        assert q.children[k] == p.children[k];
      }
    }
  }

  lemma DeletionFits(tenants: set<Tenant>, p: Pair, id: Id)
    requires PairOk(tenants, p)
    ensures CatalogOk(tenants, Checked(Asked(p, DeleteParent(0, id)))) <==>
            p.cascade || forall k | k in p.children :: p.children[k].parent != id
    ensures var w := DeleteParent(0, id);
      CatalogOk(tenants, Checked(Asked(p, w))) ==> WritePair(tenants, p, w) == Asked(p, w)
  {
    var q := Asked(p, DeleteParent(0, id));
    if p.cascade {
      assert q.children == map k | k in p.children && p.children[k].parent != id :: p.children[k];
    } else {
      assert q.children == p.children;
      if CatalogOk(tenants, Checked(q)) {
        forall k | k in p.children ensures p.children[k].parent != id { assert q.children[k].parent in q.parents; }
      }
    }
  }

  lemma ChildFits(tenants: set<Tenant>, p: Pair, id: Id, row: Child)
    requires PairOk(tenants, p)
    ensures CatalogOk(tenants, Checked(p.(children := p.children[id := row]))) <==> ChildAccepted(tenants, p, row)
  {
    var q := Checked(p.(children := p.children[id := row]));
    assert q.children[id] == row;
    forall k | k in p.children && k != id ensures q.children[k] == p.children[k] { }
  }

  lemma ChildGoes(tenants: set<Tenant>, p: Pair, id: Id)
    requires PairOk(tenants, p)
    ensures var q := Asked(p, DeleteChild(0, id));
      CatalogOk(tenants, Checked(q)) && q == p.(children := p.children - {id})
  {
    assert Asked(p, DeleteChild(0, id)).children == p.children - {id};
  }

  /** A tenant can be added at any time, and deleted exactly while no row needs it. */
  lemma TenantsComeAndGo(db: Db, t: Tenant)
    requires Recoverable(db)
    ensures Apply(db, InsertTenant(t)) == Db(db.tenants + {t}, db.pairs)
    ensures Apply(db, DeleteTenant(t)) ==
      if forall i | 0 <= i < |db.pairs| :: CatalogOk(db.tenants - {t}, Checked(db.pairs[i]))
      then Db(db.tenants - {t}, db.pairs) else db
  {
    forall i | 0 <= i < |db.pairs|
      ensures CatalogOk(db.tenants - {t}, Checked(db.pairs[i])) <==> !TenantUsed(db.pairs[i], t)
    {
      TenantFits(db.tenants, db.pairs[i], t);
    }
  }

  lemma TenantFits(tenants: set<Tenant>, p: Pair, t: Tenant)
    requires PairOk(tenants, p)
    ensures CatalogOk(tenants - {t}, Checked(p)) <==> !TenantUsed(p, t)
  {
    var q := Checked(p);
    if CatalogOk(tenants - {t}, q) {
      forall k | k in p.parents ensures p.parents[k] != t { assert q.parents[k] in tenants - {t}; }
      forall k | k in p.children && p.fkTenant != NoFk ensures p.children[k].tenant != Some(t) {
        assert q.children[k] == p.children[k];
      }
    }
  }

  /** A concurrent writer cannot take the committed database out of the recoverable states, and cannot
   *  undo a step of the migration. */
  lemma WriterKeepsRecoverable(db: Db, w: Write)
    requires Recoverable(db)
    ensures Recoverable(Apply(db, w)) && SameCatalog(db, Apply(db, w))
  {
    var r := Apply(db, w);
    if !w.InsertTenant? && !w.DeleteTenant? {
      if w.pair < |db.pairs| {
        assert PairOk(db.tenants, db.pairs[w.pair]);
        WritePairKeeps(db.tenants, db.pairs[w.pair], w);
      }
    } else {
      forall i | 0 <= i < |db.pairs| ensures PairOk(r.tenants, r.pairs[i]) {
        var p := db.pairs[i];
        assert PairOk(db.tenants, p);
        forall k | k in p.parents ensures p.parents[k] in r.tenants {
          if w.DeleteTenant? && p.parents[k] == w.t { assert TenantUsed(p, w.t); }
        }
      }
    }
  }
}
