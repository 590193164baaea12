/** Where 0080 and 0082 meet: what the migration leaves is what the policies rely on, and from there on every session
 *  sees a child row exactly when it sees its parent.
 *
 * The online migration knows a pair of tables by its rows, the policy evaluator by named tables; `Shows` ties them.
 */
module ParentChildVisibility {
  import opened Options
  import Online = OnlineMigration
  import opened RowSecurity
  import opened TenantIsolation

  function Named(t: Option<nat>): Option<Name> { if t.Some? then Some(Name(t.value)) else None }

  function ChildRow(c: Online.Child): (Option<Tenant>, Option<Id>) { (Named(c.tenant), Some(Name(c.parent))) }

  /** The tables of the key hold the rows of the pair; other columns are free. */
  ghost predicate ShowsPair(k: Key, p: Online.Pair, d: Db) {
    && k.parent in d && k.child in d && k.cascade == p.cascade
    && (forall id | id in d[k.parent] :: id.n in p.parents && d[k.parent][id].tenant == Some(Name(p.parents[id.n])))
    && (forall n | n in p.parents :: Name(n) in d[k.parent])
    && (forall id | id in d[k.child] ::
      id.n in p.children && (d[k.child][id].tenant, d[k.child][id].ref) == ChildRow(p.children[id.n]))
  }

  ghost predicate Shows(keys: seq<Key>, db: Online.Db, d: Db) {
    |keys| == |db.pairs| && forall i | 0 <= i < |keys| :: ShowsPair(keys[i], db.pairs[i], d)
  }

  function KeySet(keys: seq<Key>): set<Key> { set k | k in keys }

  /** A pair is past its migration exactly as the policies need it: every child has a parent of its own tenant. */
  lemma PairIsIntact(k: Key, p: Online.Pair, d: Db, c: Id)
    requires ShowsPair(k, p, d) && Online.After(p) && c in d[k.child]
    ensures ChildOk(k, d, d[k.child][c])
  {
    assert (d[k.child][c].tenant, d[k.child][c].ref) == ChildRow(p.children[c.n]);
  }

  /** A completed migration has established the composite keys. */
  lemma MigratedIsIntact(keys: seq<Key>, db: Online.Db, d: Db)
    requires Online.Complete(db) && Shows(keys, db, d)
    ensures Intact(KeySet(keys), d)
  {
    forall k, c | k in KeySet(keys) && k.child in d && c in d[k.child] ensures ChildOk(k, d, d[k.child][c]) {
      var i :| 0 <= i < |keys| && keys[i] == k;
      assert Online.PairComplete(db.pairs[i]);
      PairIsIntact(k, db.pairs[i], d, c);
    }
  }

  lemma {:induction false} RunKeepsIntact(sec: Security, keys: set<Key>, d: Db, turns: seq<Turn>)
    requires KeysFit(keys, d.Keys) && Intact(keys, d)
    ensures Intact(keys, RunAll(sec, keys, d, turns)) && RunAll(sec, keys, d, turns).Keys == d.Keys
    decreases |turns|
  {
    if turns != [] {
      ExecKeepsIntact(sec, keys, turns[0].role, turns[0].ctx, d, turns[0].stmt);
      RunKeepsIntact(sec, keys, Exec(sec, keys, turns[0].role, turns[0].ctx, d, turns[0].stmt).0, turns[1..]);
    }
  }

  /** The session sees the row. */
  predicate Sees(sec: Security, ctx: Option<Tenant>, d: Db, t: Table, id: Id) {
    t in View(sec, App, ctx, d) && id in View(sec, App, ctx, d)[t]
  }

  /** With its parent, and exactly when it is the session's own. */
  ghost predicate SeenTogether(sec: Security, ctx: Option<Tenant>, d: Db, k: Key, c: Id)
    requires k.child in d && c in d[k.child] && ChildOk(k, d, d[k.child][c])
  {
    var row := d[k.child][c];
    && (Sees(sec, ctx, d, k.child, c) <==> Sees(sec, ctx, d, k.parent, row.ref.value))
    && (Sees(sec, ctx, d, k.child, c) <==> row.tenant == ctx)
  }

  lemma IntactIsSeenTogether(sec: Security, tables: set<Table>, bundle: set<Table>, keys: set<Key>, ctx: Option<Tenant>,
                             d: Db, k: Key, c: Id)
    requires Installed(sec, tables, bundle) && KeysFit(keys, tables) && Intact(keys, d) && tables <= d.Keys
    requires k in keys && c in d[k.child]
    requires (App, k.child, SelectCmd) in sec.grants && (App, k.parent, SelectCmd) in sec.grants
    ensures ChildOk(k, d, d[k.child][c]) && SeenTogether(sec, ctx, d, k, c)
  {
    ChildSeenWithParent(sec, tables, bundle, keys, ctx, d, k, c);
    AppUsing(sec, tables, bundle, ctx, k.child, SelectCmd, c, d[k.child][c]);
  }

  /** From a migrated database on, after any statements of any roles, every child has a parent of its own tenant, and an
   *  application session that may read both tables sees the child exactly when it sees that parent. */
  lemma SeenTogetherInEveryRun(sec: Security, tables: set<Table>, bundle: set<Table>, keys: seq<Key>, db: Online.Db,
                               d: Db, turns: seq<Turn>, ctx: Option<Tenant>, k: Key, c: Id)
    requires Online.Complete(db) && Shows(keys, db, d)
    requires Installed(sec, tables, bundle) && KeysFit(KeySet(keys), tables) && d.Keys == tables + {ROOT}
    requires k in keys && (App, k.child, SelectCmd) in sec.grants && (App, k.parent, SelectCmd) in sec.grants
    requires var after := RunAll(sec, KeySet(keys), d, turns); k.child in after && c in after[k.child]
    ensures var after := RunAll(sec, KeySet(keys), d, turns);
      ChildOk(k, after, after[k.child][c]) && SeenTogether(sec, ctx, after, k, c)
  {
    MigratedIsIntact(keys, db, d);
    RunKeepsIntact(sec, KeySet(keys), d, turns);
    IntactIsSeenTogether(sec, tables, bundle, KeySet(keys), ctx, RunAll(sec, KeySet(keys), d, turns), k, c);
  }
}
