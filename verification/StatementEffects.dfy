/** What each statement of a session does, stated row by row: when it is refused for want of a privilege, and, under the
 *  installed policies, which rows an application session inserts, changes and deletes. */
module StatementEffects {
  import opened Options
  import opened RowSecurity
  import opened TenantIsolation

  // ---------------------------------------------------------------- privileges

  /** An INSERT needs its own privilege, an UPDATE and a DELETE also the one to read. */
  predicate Granted(sec: Security, role: Role, s: Stmt)
    requires !s.Read?
  {
    match s
    case Insert(t, _, _) => (role, t, InsertCmd) in sec.grants
    case Update(t, _, _) => (role, t, UpdateCmd) in sec.grants && (role, t, SelectCmd) in sec.grants
    case Delete(t, _) => (role, t, DeleteCmd) in sec.grants && (role, t, SelectCmd) in sec.grants
  }

  /** On an existing table a statement is denied exactly when a privilege is missing, and then changes nothing. */
  lemma DeniedWithoutPrivilege(sec: Security, keys: set<Key>, role: Role, ctx: Option<Tenant>, db: Db, s: Stmt)
    requires !s.Read? && s.table in db
    ensures Exec(sec, keys, role, ctx, db, s).1 == Denied <==> !Granted(sec, role, s)
    ensures !Granted(sec, role, s) ==> Exec(sec, keys, role, ctx, db, s) == (db, Denied)
  {
  }

  /** Reading shows exactly the tables that the role may read, and changes nothing. */
  lemma ReadNeedsPrivilege(sec: Security, keys: set<Key>, role: Role, ctx: Option<Tenant>, db: Db)
    ensures Exec(sec, keys, role, ctx, db, Read).0 == db && Exec(sec, keys, role, ctx, db, Read).1.Seen?
    ensures forall t :: t in Exec(sec, keys, role, ctx, db, Read).1.view <==>
      t in db && (role, t, SelectCmd) in sec.grants
  {
  }

  /** Privileges are not enough: under row security a role to which no policy of the table applies sees no row of it,
   *  and each row it would write is refused. Without row security, and for the owner, policies do not matter. */
  lemma PoliciesDenyByDefault(sec: Security, role: Role, ctx: Option<Tenant>, t: Table, cmd: Cmd, id: Id, row: Row)
    ensures role == Owner || t !in sec.rls ==>
      PassesUsing(sec, role, ctx, t, cmd, id, row) && PassesCheck(sec, role, ctx, t, cmd, id, row)
    ensures role != Owner && t in sec.rls && NoPolicy(sec, role, t, cmd) ==>
      !PassesUsing(sec, role, ctx, t, cmd, id, row) && !PassesCheck(sec, role, ctx, t, cmd, id, row)
  {
    assert forall k | k in sec.policies && k.0 == t :: k == (t, k.1);
  }

  /** Every policy of the table is for another role, or for another command. */
  ghost predicate NoPolicy(sec: Security, role: Role, t: Table, cmd: Cmd) {
    forall kind | (t, kind) in sec.policies ::
      var p := sec.policies[(t, kind)];
      p.role != role || (p.cmd.Some? && p.cmd.value != cmd)
  }

  /** The new version passes WITH CHECK and stays readable to the session. */
  predicate Writable(sec: Security, role: Role, ctx: Option<Tenant>, t: Table, id: Id, row: Row) {
    PassesCheck(sec, role, ctx, t, UpdateCmd, id, row) && PassesUsing(sec, role, ctx, t, SelectCmd, id, row)
  }

  lemma NewVersionsAreChecked(sec: Security, keys: set<Key>, role: Role, ctx: Option<Tenant>, db: Db, view: Db,
                              t: Table, ids: set<Id>, change: (Db, Id, Row) -> Row)
    requires t in db && forall id | id in ids :: id in db[t]
    ensures UpdateRows(sec, keys, role, ctx, db, view, t, ids, change).1 == PolicyViolation <==>
      exists id | id in ids :: !Writable(sec, role, ctx, t, id, change(view, id, db[t][id]))
  {
    var rows := ChangedRows(db[t], view, ids, change);
    forall id | id in ids ensures rows[id] == change(view, id, db[t][id]) { }
    assert RowsPass(sec, role, ctx, t, rows, ids) <==>
      forall id | id in ids :: Writable(sec, role, ctx, t, id, rows[id]);
  }

  /** A granted INSERT is a policy violation exactly when its row fails WITH CHECK, a granted UPDATE exactly when a row
   *  it selects would fail it or would no longer be readable to the session; and then nothing changes. */
  lemma WrittenRowsAreChecked(sec: Security, keys: set<Key>, role: Role, ctx: Option<Tenant>, db: Db, s: Stmt)
    requires (s.Insert? || s.Update?) && s.table in db && Granted(sec, role, s)
    ensures Exec(sec, keys, role, ctx, db, s).1 == PolicyViolation <==>
      if s.Insert? then !PassesCheck(sec, role, ctx, s.table, InsertCmd, s.id, s.row)
      else exists id | id in Targets(sec, role, ctx, db, s.table, UpdateCmd, s.where) ::
        !Writable(sec, role, ctx, s.table, id, s.change(View(sec, role, ctx, db), id, db[s.table][id]))
  {
    if s.Update? {
      var view, ids := View(sec, role, ctx, db), Targets(sec, role, ctx, db, s.table, UpdateCmd, s.where);
      assert Exec(sec, keys, role, ctx, db, s) == UpdateRows(sec, keys, role, ctx, db, view, s.table, ids, s.change);
      NewVersionsAreChecked(sec, keys, role, ctx, db, view, s.table, ids, s.change);
    }
  }

  /** A statement that is refused, for whatever reason, changes nothing. */
  lemma RefusalsChangeNothing(sec: Security, keys: set<Key>, role: Role, ctx: Option<Tenant>, db: Db, s: Stmt)
    ensures var out := Exec(sec, keys, role, ctx, db, s); !out.1.Affected? ==> out.0 == db
  {
  }

  /** No privilege of the role on the table, and no key by which a cascade could reach it. */
  ghost predicate Closed(sec: Security, keys: set<Key>, role: Role, t: Table) {
    (forall cmd: Cmd :: (role, t, cmd) !in sec.grants) && forall k | k in keys :: k.child != t
  }

  /** A statement of the role neither sees nor changes a closed table. */
  lemma ClosedIsUntouched(sec: Security, keys: set<Key>, role: Role, ctx: Option<Tenant>, db: Db, s: Stmt, t: Table)
    requires Closed(sec, keys, role, t) && t in db
    ensures var out := Exec(sec, keys, role, ctx, db, s);
      && t in out.0 && out.0[t] == db[t]
      && (s.Read? ==> out.1.Seen? && t !in out.1.view)
      && (!s.Read? && s.table == t ==> out.1 == Denied)
    ensures t !in View(sec, role, ctx, db)
  {
    if s.Delete? && s.table in db && s.table != t {
      assert Key(t, s.table, true) !in keys;
    }
  }

  /** Nor does any run of such statements. */
  lemma {:induction false} ClosedInEveryRun(sec: Security, keys: set<Key>, role: Role, db: Db, turns: seq<Turn>,
                                            t: Table)
    requires Closed(sec, keys, role, t) && t in db && forall a | a in turns :: a.role == role
    ensures t in RunAll(sec, keys, db, turns) && RunAll(sec, keys, db, turns)[t] == db[t]
    decreases |turns|
  {
    if turns != [] {
      var first := turns[0];
      assert first in turns && forall a | a in turns[1..] :: a in turns;
      ClosedIsUntouched(sec, keys, role, first.ctx, db, first.stmt, t);
      ClosedInEveryRun(sec, keys, role, Exec(sec, keys, role, first.ctx, db, first.stmt).0, turns[1..], t);
    }
  }

  // ---------------------------------------------------------------- what an application session does

  /** A tenant table with the privileges of the application role. */
  ghost predicate Open(sec: Security, tables: set<Table>, bundle: set<Table>, db: Db, t: Table) {
    Installed(sec, tables, bundle) && t in tables && t in db && forall cmd: Cmd :: (App, t, cmd) in sec.grants
  }

  /** Reading shows, row for row as stored, the session's own rows of a tenant table and its own row of the root table;
   *  without a context, nothing. */
  lemma ReadShowsOwnRows(sec: Security, tables: set<Table>, bundle: set<Table>, keys: set<Key>, ctx: Option<Tenant>,
                         db: Db, t: Table, id: Id)
    requires Installed(sec, tables, bundle) && t in tables + {ROOT} && t in db && (App, t, SelectCmd) in sec.grants
    ensures var view := Exec(sec, keys, App, ctx, db, Read).1.view;
      && t in view && (id in view[t] ==> id in db[t] && view[t][id] == db[t][id])
      && (t != ROOT ==> (id in view[t] <==> id in db[t] && ctx.Some? && db[t][id].tenant == ctx))
      && (t == ROOT ==> (id in view[t] <==> id in db[t] && ctx == Some(id)))
  {
    if id in db[t] { AppUsing(sec, tables, bundle, ctx, t, SelectCmd, id, db[t][id]); }
  }

  /** The parent that the row names has the row's tenant. */
  ghost predicate HasParent(k: Key, db: Db, row: Row) {
    && row.tenant.Some? && row.ref.Some? && k.parent in db && row.ref.value in db[k.parent]
    && db[k.parent][row.ref.value].tenant == row.tenant
  }

  /** An INSERT is refused by the policy exactly for a row that is not the session's, otherwise by a constraint exactly
   *  for a taken id or a missing parent; otherwise that row is added and nothing else changes. */
  lemma InsertAddsTheRow(sec: Security, tables: set<Table>, bundle: set<Table>, keys: set<Key>, ctx: Option<Tenant>,
                         db: Db, t: Table, id: Id, row: Row)
    requires Open(sec, tables, bundle, db, t)
    ensures var out := Exec(sec, keys, App, ctx, db, Insert(t, id, row));
      if ctx == None || row.tenant != ctx then out == (db, PolicyViolation)
      else if id in db[t] || exists k | k in keys :: k.child == t && !HasParent(k, db, row)
      then out == (db, ConstraintViolation)
      else out == (db[t := db[t][id := row]], Affected({id}))
  {
    AppCheck(sec, tables, bundle, ctx, t, InsertCmd, id, row);
    assert forall k | k in keys :: HasParent(k, db, row) <==> ChildOk(k, db, row);
  }

  /** The session's own rows that the condition selects. */
  function Chosen(sec: Security, ctx: Option<Tenant>, db: Db, t: Table, where: (Db, Id, Row) -> bool): set<Id>
    requires t in db
  {
    set id | id in db[t] && ctx.Some? && db[t][id].tenant == ctx && where(View(sec, App, ctx, db), id, db[t][id])
  }

  lemma ChosenAreTheTargets(sec: Security, tables: set<Table>, bundle: set<Table>, ctx: Option<Tenant>, db: Db,
                            t: Table, cmd: Cmd, where: (Db, Id, Row) -> bool)
    requires Open(sec, tables, bundle, db, t)
    ensures Targets(sec, App, ctx, db, t, cmd, where) == Chosen(sec, ctx, db, t, where)
  {
    forall id | id in db[t]
      ensures PassesUsing(sec, App, ctx, t, SelectCmd, id, db[t][id]) <==> ctx.Some? && db[t][id].tenant == ctx
      ensures PassesUsing(sec, App, ctx, t, cmd, id, db[t][id]) <==> ctx.Some? && db[t][id].tenant == ctx
    {
      AppUsing(sec, tables, bundle, ctx, t, SelectCmd, id, db[t][id]);
      AppUsing(sec, tables, bundle, ctx, t, cmd, id, db[t][id]);
    }
  }

  /** A row goes with the chosen ones: it is one of them, or a child of one by a cascading key. */
  ghost predicate Goes(keys: set<Key>, t: Table, chosen: set<Id>, u: Table, id: Id, row: Row) {
    if u == t then id in chosen else Key(u, t, true) in keys && row.ref.Some? && row.ref.value in chosen
  }

  /** A child of a chosen row by a key without cascade stands in the way. */
  ghost predicate Held(keys: set<Key>, db: Db, t: Table, chosen: set<Id>) {
    exists k | k in keys :: k.parent == t && !k.cascade && k.child in db &&
      exists c | c in db[k.child] :: db[k.child][c].ref.Some? && db[k.child][c].ref.value in chosen
  }

  /** A DELETE is refused exactly while a chosen row is held; otherwise the chosen rows and their cascading children go,
   *  and every other row of every table stays as it is. */
  lemma DeleteTakesTheChosen(sec: Security, tables: set<Table>, bundle: set<Table>, keys: set<Key>, ctx: Option<Tenant>,
                             db: Db, t: Table, where: (Db, Id, Row) -> bool)
    requires Open(sec, tables, bundle, db, t)
    ensures var out, chosen := Exec(sec, keys, App, ctx, db, Delete(t, where)), Chosen(sec, ctx, db, t, where);
      if Held(keys, db, t, chosen) then out == (db, ConstraintViolation)
      else
        && out.1 == Affected(chosen) && out.0.Keys == db.Keys
        && forall u | u in db ::
             && (forall id :: id in out.0[u] <==> id in db[u] && !Goes(keys, t, chosen, u, id, db[u][id]))
             && (forall id | id in out.0[u] :: out.0[u][id] == db[u][id])
  {
    ChosenAreTheTargets(sec, tables, bundle, ctx, db, t, DeleteCmd, where);
    var chosen := Chosen(sec, ctx, db, t, where);
    assert forall k | k in keys && k.child in db :: Referenced(k, db, chosen) <==>
      exists c | c in db[k.child] :: db[k.child][c].ref.Some? && db[k.child][c].ref.value in chosen;
  }

  /** An UPDATE is refused by the policy exactly when it would take a chosen row away from the session; if it is
   *  accepted the chosen rows, and no others, are changed, each as the statement says. */
  lemma UpdateChangesTheChosen(sec: Security, tables: set<Table>, bundle: set<Table>, keys: set<Key>,
                               ctx: Option<Tenant>, db: Db, t: Table, where: (Db, Id, Row) -> bool,
                               change: (Db, Id, Row) -> Row)
    requires Open(sec, tables, bundle, db, t)
    ensures var out, chosen := Exec(sec, keys, App, ctx, db, Update(t, where, change)), Chosen(sec, ctx, db, t, where);
      var view := View(sec, App, ctx, db);
      && (out.1 == PolicyViolation <==> exists id | id in chosen :: change(view, id, db[t][id]).tenant != ctx)
      && (out.1 == PolicyViolation || out.1 == ConstraintViolation || out.1 == Affected(chosen))
      && (out.1 != Affected(chosen) ==> out.0 == db)
      && (out.1 == Affected(chosen) ==>
            && out.0.Keys == db.Keys && (forall u | u in db && u != t :: out.0[u] == db[u])
              && out.0[t].Keys == db[t].Keys
            && forall id | id in db[t] ::
              out.0[t][id] == if id in chosen then change(view, id, db[t][id]) else db[t][id])
  {
    ChosenAreTheTargets(sec, tables, bundle, ctx, db, t, UpdateCmd, where);
    var view, chosen := View(sec, App, ctx, db), Chosen(sec, ctx, db, t, where);
    RowsPassIsOwnership(sec, tables, bundle, ctx, t, ChangedRows(db[t], view, chosen, change), chosen);
    assert Exec(sec, keys, App, ctx, db, Update(t, where, change)) ==
      UpdateRows(sec, keys, App, ctx, db, view, t, chosen, change);
  }

  lemma KeysHoldForParents(keys: set<Key>, tables: set<Table>, ctx: Option<Tenant>, db: Db, view: Db, t: Table,
                           ids: set<Id>, change: (Db, Id, Row) -> Row)
    requires KeysFit(keys, tables) && ROOT !in tables && Intact(keys, db) && tables <= db.Keys && t in tables
    requires forall id | id in ids :: id in db[t] && Owns(ctx, t, id, db[t][id])
    requires forall id | id in ids :: Owns(ctx, t, id, change(view, id, db[t][id]))
    ensures KeysHold(keys, Updated(db, view, t, ids, change), t, ids) <==>
      forall k, id | k in keys && id in ids && k.child == t :: HasParent(k, db, change(view, id, db[t][id]))
  {
    var after := Updated(db, view, t, ids, change);
    forall k | k in keys && k.parent == t && k.child in db ensures !Torn(k, after, ids) {
      NothingTorn(keys, tables, ctx, db, view, t, ids, change, k);
    }
    forall k, id | k in keys && id in ids && k.child == t
      ensures ChildOk(k, after, after[t][id]) <==> HasParent(k, db, change(view, id, db[t][id]))
    {
      assert k.parent != t && after[k.parent] == db[k.parent];
    }
  }

  /** Once no row would leave the session, an UPDATE is refused exactly when a changed row would have no parent of its
   *  tenant; children of changed rows never stand in the way. */
  lemma UpdateIsRefusedForAParent(sec: Security, tables: set<Table>, bundle: set<Table>, keys: set<Key>,
                                  ctx: Option<Tenant>, db: Db, t: Table, where: (Db, Id, Row) -> bool,
                                  change: (Db, Id, Row) -> Row)
    requires Open(sec, tables, bundle, db, t) && KeysFit(keys, tables) && Intact(keys, db) && tables <= db.Keys
    ensures var out, chosen := Exec(sec, keys, App, ctx, db, Update(t, where, change)), Chosen(sec, ctx, db, t, where);
      var view := View(sec, App, ctx, db);
      out.1 == ConstraintViolation <==>
        && (forall id | id in chosen :: change(view, id, db[t][id]).tenant == ctx)
        && exists k, id | k in keys && id in chosen :: k.child == t && !HasParent(k, db, change(view, id, db[t][id]))
  {
    ChosenAreTheTargets(sec, tables, bundle, ctx, db, t, UpdateCmd, where);
    var view, chosen := View(sec, App, ctx, db), Chosen(sec, ctx, db, t, where);
    RowsPassIsOwnership(sec, tables, bundle, ctx, t, ChangedRows(db[t], view, chosen, change), chosen);
    if forall id | id in chosen :: change(view, id, db[t][id]).tenant == ctx {
      KeysHoldForParents(keys, tables, ctx, db, view, t, chosen, change);
    }
    assert Exec(sec, keys, App, ctx, db, Update(t, where, change)) ==
      UpdateRows(sec, keys, App, ctx, db, view, t, chosen, change);
  }
}
