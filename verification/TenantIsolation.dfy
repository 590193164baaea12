/** What migrations 0078, 0080 and 0082 together promise: an application session cannot tell the shared
 *  database from a private one that holds nothing but its own tenant's rows, and leaves every other row alone. */
module TenantIsolation {
  import opened Options
  import opened RowSecurity

  // ---------------------------------------------------------------- the installed policies

  function PolicyOf(kind: Kind): Policy {
    match kind
    case TenantKind => Policy(None, App, Some(TenantIsContext), Some(TenantIsContext))
    case MaintenanceKind => Policy(None, Maintenance, Some(Always), Some(Always))
    case SelfKind => Policy(Some(SelectCmd), App, Some(IdIsContext), None)
    case IdentityKind => Policy(Some(InsertCmd), Identity, None, Some(Always))
  }

  predicate HasPolicy(tables: set<Table>, bundle: set<Table>, t: Table, kind: Kind) {
    match kind
    case TenantKind => t in tables
    case MaintenanceKind => t in tables || t == ROOT
    case SelfKind => t == ROOT
    case IdentityKind => t in bundle || t == ROOT
  }

  /** Row security is on for exactly the tenant tables and the root table, with exactly the policies meant. */
  ghost predicate Installed(sec: Security, tables: set<Table>, bundle: set<Table>) {
    && ROOT !in tables
    && sec.rls == tables + {ROOT}
    && (forall t, kind :: (t, kind) in sec.policies <==> HasPolicy(tables, bundle, t, kind))
    && (forall k | k in sec.policies :: sec.policies[k] == PolicyOf(k.1))
  }

  /** The rows that belong to the session's tenant; without a context, none. */
  predicate Owns(ctx: Option<Tenant>, t: Table, id: Id, row: Row) {
    ctx.Some? && (if t == ROOT then id == ctx.value else row.tenant == ctx)
  }

  /** What the policies let the application role read or target: its own rows, the root row for reading only. */
  lemma AppUsing(sec: Security, tables: set<Table>, bundle: set<Table>, ctx: Option<Tenant>, t: Table, cmd: Cmd, id: Id,
                 row: Row)
    requires Installed(sec, tables, bundle) && t in sec.rls
    ensures PassesUsing(sec, App, ctx, t, cmd, id, row) <==> Owns(ctx, t, id, row) && (t == ROOT ==> cmd == SelectCmd)
  {
    assert t in tables ==> (t, TenantKind) in sec.policies;
    assert t == ROOT ==> (t, SelfKind) in sec.policies;
    if PassesUsing(sec, App, ctx, t, cmd, id, row) {
      var k :| k in sec.policies && k.0 == t && Applies(sec.policies[k], App, cmd)
        && sec.policies[k].using.Some? && Holds(sec.policies[k].using.value, ctx, id, row);
      assert HasPolicy(tables, bundle, k.0, k.1);
    }
  }

  /** What they let it write: rows of its own tenant, and no root row. */
  lemma AppCheck(sec: Security, tables: set<Table>, bundle: set<Table>, ctx: Option<Tenant>, t: Table, cmd: Cmd, id: Id,
                 row: Row)
    requires Installed(sec, tables, bundle) && t in sec.rls && cmd != SelectCmd
    ensures PassesCheck(sec, App, ctx, t, cmd, id, row) <==> t != ROOT && Owns(ctx, t, id, row)
  {
    assert t in tables ==> (t, TenantKind) in sec.policies;
    if PassesCheck(sec, App, ctx, t, cmd, id, row) {
      var k :| k in sec.policies && k.0 == t && Applies(sec.policies[k], App, cmd)
        && (if sec.policies[k].check.Some? then Holds(sec.policies[k].check.value, ctx, id, row)
            else sec.policies[k].using.Some? && Holds(sec.policies[k].using.value, ctx, id, row));
      assert HasPolicy(tables, bundle, k.0, k.1);
    }
  }

  // ---------------------------------------------------------------- slices

  function SliceRows(ctx: Option<Tenant>, t: Table, rows: map<Id, Row>): map<Id, Row> {
    map id | id in rows && Owns(ctx, t, id, rows[id]) :: rows[id]
  }

  function RestRows(ctx: Option<Tenant>, t: Table, rows: map<Id, Row>): map<Id, Row> {
    map id | id in rows && !Owns(ctx, t, id, rows[id]) :: rows[id]
  }

  function Slice(ctx: Option<Tenant>, db: Db): Db {
    map t | t in db :: SliceRows(ctx, t, db[t])
  }

  function Rest(ctx: Option<Tenant>, db: Db): Db {
    map t | t in db :: RestRows(ctx, t, db[t])
  }

  /** The setting of the theorems: policies installed, keys among the tenant tables and intact, and no id the
   *  session may choose for a new row already taken by a row it does not own. */
  ghost predicate Setting(sec: Security, tables: set<Table>, bundle: set<Table>, keys: set<Key>, ctx: Option<Tenant>,
                          own: Id -> bool, db: Db) {
    && Installed(sec, tables, bundle)
    && db.Keys == tables + {ROOT}
    && KeysFit(keys, tables)
    && Intact(keys, db)
    && forall t, id | t in db && id in db[t] && !Owns(ctx, t, id, db[t][id]) :: !own(id)
  }

  predicate ChoosesOwnId(s: Stmt, own: Id -> bool) { s.Insert? ==> own(s.id) }

  lemma SliceSetting(sec: Security, tables: set<Table>, bundle: set<Table>, keys: set<Key>, ctx: Option<Tenant>,
                     own: Id -> bool, db: Db)
    requires Setting(sec, tables, bundle, keys, ctx, own, db)
    ensures Setting(sec, tables, bundle, keys, ctx, own, Slice(ctx, db))
    ensures Slice(ctx, Slice(ctx, db)) == Slice(ctx, db)
  {
    var s := Slice(ctx, db);
    forall k, c | k in keys && k.child in s && c in s[k.child] ensures ChildOk(k, s, s[k.child][c]) {
      assert ChildOk(k, db, db[k.child][c]);
    }
    forall t | t in s ensures Slice(ctx, s)[t] == s[t] {}
  }

  lemma ViewIsLocal(sec: Security, tables: set<Table>, bundle: set<Table>, keys: set<Key>, ctx: Option<Tenant>,
                    own: Id -> bool, db: Db)
    requires Setting(sec, tables, bundle, keys, ctx, own, db)
    ensures View(sec, App, ctx, db) == View(sec, App, ctx, Slice(ctx, db))
    ensures forall t, id | t in db && (App, t, SelectCmd) in sec.grants ::
      t in View(sec, App, ctx, db) && (id in View(sec, App, ctx, db)[t] <==> id in db[t] && Owns(ctx, t, id, db[t][id]))
  {
    var v, w := View(sec, App, ctx, db), View(sec, App, ctx, Slice(ctx, db));
    forall t, id | t in db && id in db[t]
      ensures PassesUsing(sec, App, ctx, t, SelectCmd, id, db[t][id]) <==> Owns(ctx, t, id, db[t][id])
    {
      AppUsing(sec, tables, bundle, ctx, t, SelectCmd, id, db[t][id]);
    }
    forall t | t in v ensures v[t] == w[t] {}
  }

  lemma TargetsAreLocal(sec: Security, tables: set<Table>, bundle: set<Table>, keys: set<Key>, ctx: Option<Tenant>,
                        own: Id -> bool, db: Db, t: Table, cmd: Cmd, where: (Db, Id, Row) -> bool)
    requires Setting(sec, tables, bundle, keys, ctx, own, db) && t in db && (cmd == UpdateCmd || cmd == DeleteCmd)
    ensures Targets(sec, App, ctx, db, t, cmd, where) == Targets(sec, App, ctx, Slice(ctx, db), t, cmd, where)
    ensures forall id | id in Targets(sec, App, ctx, db, t, cmd, where) ::
      t != ROOT && id in db[t] && Owns(ctx, t, id, db[t][id])
  {
    ViewIsLocal(sec, tables, bundle, keys, ctx, own, db);
    forall id | id in db[t]
      ensures PassesUsing(sec, App, ctx, t, SelectCmd, id, db[t][id]) <==> Owns(ctx, t, id, db[t][id])
      ensures PassesUsing(sec, App, ctx, t, cmd, id, db[t][id]) <==> t != ROOT && Owns(ctx, t, id, db[t][id])
    {
      AppUsing(sec, tables, bundle, ctx, t, SelectCmd, id, db[t][id]);
      AppUsing(sec, tables, bundle, ctx, t, cmd, id, db[t][id]);
    }
  }

  lemma ChildOkIsLocal(keys: set<Key>, tables: set<Table>, ctx: Option<Tenant>, db: Db, k: Key, row: Row)
    requires KeysFit(keys, tables) && ROOT !in tables && k in keys && row.tenant == ctx
    ensures ChildOk(k, db, row) <==> ChildOk(k, Slice(ctx, db), row)
  {
  }

  ghost predicate Local(ctx: Option<Tenant>, db: Db, whole: (Db, Answer), private: (Db, Answer)) {
    && whole.1 == private.1
    && Slice(ctx, whole.0) == private.0
    && Rest(ctx, whole.0) == Rest(ctx, db)
  }

  /** Replacing a table replaces its slice. */
  lemma SliceOfReplaced(ctx: Option<Tenant>, db: Db, t: Table, rows: map<Id, Row>)
    requires t in db && RestRows(ctx, t, rows) == RestRows(ctx, t, db[t])
    ensures Slice(ctx, db[t := rows]) == Slice(ctx, db)[t := SliceRows(ctx, t, rows)]
    ensures Rest(ctx, db[t := rows]) == Rest(ctx, db)
  {
  }

  lemma InsertedSlice(ctx: Option<Tenant>, db: Db, t: Table, id: Id, row: Row)
    requires t in db && id !in db[t] && Owns(ctx, t, id, row)
    ensures Slice(ctx, db[t := db[t][id := row]]) == Slice(ctx, db)[t := Slice(ctx, db)[t][id := row]]
    ensures Rest(ctx, db[t := db[t][id := row]]) == Rest(ctx, db)
  {
    var rows := db[t][id := row];
    assert SliceRows(ctx, t, rows) == SliceRows(ctx, t, db[t])[id := row];
    assert RestRows(ctx, t, rows) == RestRows(ctx, t, db[t]);
    SliceOfReplaced(ctx, db, t, rows);
  }

  lemma InsertIsLocal(sec: Security, tables: set<Table>, bundle: set<Table>, keys: set<Key>, ctx: Option<Tenant>,
                      own: Id -> bool, db: Db, t: Table, id: Id, row: Row)
    requires Setting(sec, tables, bundle, keys, ctx, own, db) && t in db && own(id)
    ensures Local(ctx, db, ExecInsert(sec, keys, App, ctx, db, t, id, row),
      ExecInsert(sec, keys, App, ctx, Slice(ctx, db), t, id, row))
  {
    AppCheck(sec, tables, bundle, ctx, t, InsertCmd, id, row);
    assert id in db[t] <==> id in Slice(ctx, db)[t];
    if t != ROOT && Owns(ctx, t, id, row) {
      forall k | k in keys && k.child == t ensures ChildOk(k, db, row) <==> ChildOk(k, Slice(ctx, db), row) {
        ChildOkIsLocal(keys, tables, ctx, db, k, row);
      }
      if id !in db[t] { InsertedSlice(ctx, db, t, id, row); }
    }
  }

  /** A child that refers to a row of the slice lies in the slice. */
  lemma ChildrenFollow(keys: set<Key>, tables: set<Table>, ctx: Option<Tenant>, db: Db, t: Table, ids: set<Id>)
    requires KeysFit(keys, tables) && ROOT !in tables && Intact(keys, db) && t in db
    requires tables <= db.Keys
    requires forall id | id in ids :: t != ROOT && id in db[t] && Owns(ctx, t, id, db[t][id])
    ensures forall k, c | k in keys && k.parent == t && c in db[k.child]
      && db[k.child][c].ref.Some? && db[k.child][c].ref.value in ids ::
      Owns(ctx, k.child, c, db[k.child][c])
  {
  }

  lemma ReferencedIsLocal(keys: set<Key>, tables: set<Table>, ctx: Option<Tenant>, db: Db, t: Table, ids: set<Id>,
                          k: Key)
    requires KeysFit(keys, tables) && ROOT !in tables && Intact(keys, db) && t in db && tables <= db.Keys
    requires forall id | id in ids :: t != ROOT && id in db[t] && Owns(ctx, t, id, db[t][id])
    requires k in keys && k.parent == t
    ensures Referenced(k, db, ids) <==> Referenced(k, Slice(ctx, db), ids)
  {
    ChildrenFollow(keys, tables, ctx, db, t, ids);
    if Referenced(k, db, ids) {
      var c :| c in db[k.child] && db[k.child][c].ref.Some? && db[k.child][c].ref.value in ids;
      assert c in Slice(ctx, db)[k.child];
    }
  }

  lemma CascadedRowsAreLocal(keys: set<Key>, ctx: Option<Tenant>, u: Table, rows: map<Id, Row>, t: Table, ids: set<Id>)
    requires u == t ==> forall id | id in ids :: id in rows && Owns(ctx, t, id, rows[id])
    requires Key(u, t, true) in keys ==>
      forall c | c in rows && rows[c].ref.Some? && rows[c].ref.value in ids :: Owns(ctx, u, c, rows[c])
    ensures SliceRows(ctx, u, CascadedRows(keys, u, rows, t, ids)) ==
      CascadedRows(keys, u, SliceRows(ctx, u, rows), t, ids)
    ensures RestRows(ctx, u, CascadedRows(keys, u, rows, t, ids)) == RestRows(ctx, u, rows)
  {
  }

  /** The cascade runs outside the policies and still stays inside the slice. */
  lemma CascadeIsLocal(keys: set<Key>, tables: set<Table>, ctx: Option<Tenant>, db: Db, t: Table, ids: set<Id>)
    requires KeysFit(keys, tables) && ROOT !in tables && Intact(keys, db) && t in db && tables <= db.Keys
    requires forall id | id in ids :: t != ROOT && id in db[t] && Owns(ctx, t, id, db[t][id])
    ensures Slice(ctx, Cascaded(keys, db, t, ids)) == Cascaded(keys, Slice(ctx, db), t, ids)
    ensures Rest(ctx, Cascaded(keys, db, t, ids)) == Rest(ctx, db)
  {
    ChildrenFollow(keys, tables, ctx, db, t, ids);
    forall u | u in db
      ensures SliceRows(ctx, u, CascadedRows(keys, u, db[u], t, ids)) ==
        CascadedRows(keys, u, SliceRows(ctx, u, db[u]), t, ids)
      ensures RestRows(ctx, u, CascadedRows(keys, u, db[u], t, ids)) == RestRows(ctx, u, db[u])
    {
      CascadedRowsAreLocal(keys, ctx, u, db[u], t, ids);
    }
  }

  lemma DeleteRowsIsLocal(keys: set<Key>, tables: set<Table>, ctx: Option<Tenant>, db: Db, t: Table, ids: set<Id>)
    requires KeysFit(keys, tables) && ROOT !in tables && Intact(keys, db) && t in db && tables <= db.Keys
    requires forall id | id in ids :: t != ROOT && id in db[t] && Owns(ctx, t, id, db[t][id])
    ensures Local(ctx, db, DeleteRows(keys, db, t, ids), DeleteRows(keys, Slice(ctx, db), t, ids))
  {
    forall k | k in keys && k.parent == t ensures Referenced(k, db, ids) <==> Referenced(k, Slice(ctx, db), ids) {
      ReferencedIsLocal(keys, tables, ctx, db, t, ids, k);
    }
    CascadeIsLocal(keys, tables, ctx, db, t, ids);
  }

  lemma DeleteIsLocal(sec: Security, tables: set<Table>, bundle: set<Table>, keys: set<Key>, ctx: Option<Tenant>,
                      own: Id -> bool, db: Db, t: Table, where: (Db, Id, Row) -> bool)
    requires Setting(sec, tables, bundle, keys, ctx, own, db) && t in db
    ensures Local(ctx, db, ExecDelete(sec, keys, App, ctx, db, t, where),
      ExecDelete(sec, keys, App, ctx, Slice(ctx, db), t, where))
  {
    TargetsAreLocal(sec, tables, bundle, keys, ctx, own, db, t, DeleteCmd, where);
    DeleteRowsIsLocal(keys, tables, ctx, db, t, Targets(sec, App, ctx, db, t, DeleteCmd, where));
  }

  lemma UpdatedSlice(ctx: Option<Tenant>, db: Db, view: Db, t: Table, ids: set<Id>, change: (Db, Id, Row) -> Row)
    requires t in db && t != ROOT
    requires forall id | id in ids :: id in db[t] && Owns(ctx, t, id, db[t][id])
    requires forall id | id in ids :: Owns(ctx, t, id, change(view, id, db[t][id]))
    ensures Slice(ctx, Updated(db, view, t, ids, change)) == Updated(Slice(ctx, db), view, t, ids, change)
    ensures Rest(ctx, Updated(db, view, t, ids, change)) == Rest(ctx, db)
  {
    assert SliceRows(ctx, t, ChangedRows(db[t], view, ids, change)) ==
      ChangedRows(SliceRows(ctx, t, db[t]), view, ids, change);
    assert RestRows(ctx, t, ChangedRows(db[t], view, ids, change)) == RestRows(ctx, t, db[t]);
    SliceOfReplaced(ctx, db, t, ChangedRows(db[t], view, ids, change));
  }

  /** After an update that keeps the tenant of its targets, no child is torn from its parent. */
  lemma NothingTorn(keys: set<Key>, tables: set<Table>, ctx: Option<Tenant>, db: Db, view: Db, t: Table, ids: set<Id>,
                    change: (Db, Id, Row) -> Row, k: Key)
    requires KeysFit(keys, tables) && ROOT !in tables && Intact(keys, db) && tables <= db.Keys && t in db && t != ROOT
    requires forall id | id in ids :: id in db[t] && Owns(ctx, t, id, db[t][id])
    requires forall id | id in ids :: Owns(ctx, t, id, change(view, id, db[t][id]))
    requires k in keys && k.parent == t
    ensures !Torn(k, Updated(db, view, t, ids, change), ids)
  {
  }

  lemma RowsPassIsOwnership(sec: Security, tables: set<Table>, bundle: set<Table>, ctx: Option<Tenant>, t: Table,
                            rows: map<Id, Row>, ids: set<Id>)
    requires Installed(sec, tables, bundle) && t in tables && ids <= rows.Keys
    ensures RowsPass(sec, App, ctx, t, rows, ids) <==> forall id | id in ids :: Owns(ctx, t, id, rows[id])
  {
    forall id | id in ids
      ensures PassesCheck(sec, App, ctx, t, UpdateCmd, id, rows[id]) <==> Owns(ctx, t, id, rows[id])
      ensures PassesUsing(sec, App, ctx, t, SelectCmd, id, rows[id]) <==> Owns(ctx, t, id, rows[id])
    {
      AppCheck(sec, tables, bundle, ctx, t, UpdateCmd, id, rows[id]);
      AppUsing(sec, tables, bundle, ctx, t, SelectCmd, id, rows[id]);
    }
  }

  lemma KeysHoldIsLocal(keys: set<Key>, tables: set<Table>, ctx: Option<Tenant>, db: Db, view: Db, t: Table,
                        ids: set<Id>, change: (Db, Id, Row) -> Row)
    requires KeysFit(keys, tables) && ROOT !in tables && Intact(keys, db)
      && Intact(keys, Slice(ctx, db)) && tables <= db.Keys && t in tables
    requires forall id | id in ids :: id in db[t] && Owns(ctx, t, id, db[t][id])
    requires forall id | id in ids :: Owns(ctx, t, id, change(view, id, db[t][id]))
    ensures KeysHold(keys, Updated(db, view, t, ids, change), t, ids) <==>
      KeysHold(keys, Updated(Slice(ctx, db), view, t, ids, change), t, ids)
  {
    var d, e := Updated(db, view, t, ids, change), Updated(Slice(ctx, db), view, t, ids, change);
    UpdatedSlice(ctx, db, view, t, ids, change);
    forall k | k in keys && k.parent == t ensures !Torn(k, d, ids) && !Torn(k, e, ids) {
      NothingTorn(keys, tables, ctx, db, view, t, ids, change, k);
      NothingTorn(keys, tables, ctx, Slice(ctx, db), view, t, ids, change, k);
    }
    forall k, id | k in keys && id in ids && k.child == t ensures ChildOk(k, d, d[t][id]) <==> ChildOk(k, e, e[t][id]) {
      ChildOkIsLocal(keys, tables, ctx, d, k, d[t][id]);
    }
  }

  lemma UpdateRowsIsLocal(sec: Security, tables: set<Table>, bundle: set<Table>, keys: set<Key>, ctx: Option<Tenant>,
                          db: Db, view: Db, t: Table, ids: set<Id>, change: (Db, Id, Row) -> Row)
    requires Installed(sec, tables, bundle) && db.Keys == tables + {ROOT} && KeysFit(keys, tables) && Intact(keys, db)
    requires Intact(keys, Slice(ctx, db)) && t in tables
    requires forall id | id in ids :: id in db[t] && Owns(ctx, t, id, db[t][id])
    ensures Local(ctx, db, UpdateRows(sec, keys, App, ctx, db, view, t, ids, change),
      UpdateRows(sec, keys, App, ctx, Slice(ctx, db), view, t, ids, change))
  {
    var d, e := ChangedRows(db[t], view, ids, change), ChangedRows(Slice(ctx, db)[t], view, ids, change);
    assert forall id | id in ids :: id in e && d[id] == e[id] == change(view, id, db[t][id]);
    RowsPassIsOwnership(sec, tables, bundle, ctx, t, d, ids);
    RowsPassIsOwnership(sec, tables, bundle, ctx, t, e, ids);
    if RowsPass(sec, App, ctx, t, d, ids) {
      UpdatedSlice(ctx, db, view, t, ids, change);
      KeysHoldIsLocal(keys, tables, ctx, db, view, t, ids, change);
    }
  }

  lemma NoTargets(sec: Security, keys: set<Key>, ctx: Option<Tenant>, db: Db, view: Db, t: Table,
                  change: (Db, Id, Row) -> Row)
    requires t in db
    ensures UpdateRows(sec, keys, App, ctx, db, view, t, {}, change) == (db, Affected({}))
  {
    assert ChangedRows(db[t], view, {}, change) == db[t];
    assert db[t := db[t]] == db;
  }

  lemma UpdateIsLocal(sec: Security, tables: set<Table>, bundle: set<Table>, keys: set<Key>, ctx: Option<Tenant>,
                      own: Id -> bool, db: Db, t: Table, where: (Db, Id, Row) -> bool, change: (Db, Id, Row) -> Row)
    requires Setting(sec, tables, bundle, keys, ctx, own, db) && t in db
    ensures Local(ctx, db, ExecUpdate(sec, keys, App, ctx, db, t, where, change),
      ExecUpdate(sec, keys, App, ctx, Slice(ctx, db), t, where, change))
  {
    TargetsAreLocal(sec, tables, bundle, keys, ctx, own, db, t, UpdateCmd, where);
    ViewIsLocal(sec, tables, bundle, keys, ctx, own, db);
    SliceSetting(sec, tables, bundle, keys, ctx, own, db);
    var ids, view := Targets(sec, App, ctx, db, t, UpdateCmd, where), View(sec, App, ctx, db);
    if t == ROOT {
      assert ids == {};
      NoTargets(sec, keys, ctx, db, view, t, change);
      NoTargets(sec, keys, ctx, Slice(ctx, db), view, t, change);
    } else {
      UpdateRowsIsLocal(sec, tables, bundle, keys, ctx, db, view, t, ids, change);
    }
  }

  // ---------------------------------------------------------------- one statement

  /** One application statement on the shared database answers as it would on the private slice, does to the
   *  slice what it would do there, and does nothing to any other row, cascades included. */
  lemma StatementIsLocal(sec: Security, tables: set<Table>, bundle: set<Table>, keys: set<Key>, ctx: Option<Tenant>,
                         own: Id -> bool, db: Db, s: Stmt)
    requires Setting(sec, tables, bundle, keys, ctx, own, db) && ChoosesOwnId(s, own)
    ensures Local(ctx, db, Exec(sec, keys, App, ctx, db, s), Exec(sec, keys, App, ctx, Slice(ctx, db), s))
    ensures Setting(sec, tables, bundle, keys, ctx, own, Exec(sec, keys, App, ctx, db, s).0)
  {
    match s {
      case Read => ViewIsLocal(sec, tables, bundle, keys, ctx, own, db);
      case Insert(t, id, row) => if t in db { InsertIsLocal(sec, tables, bundle, keys, ctx, own, db, t, id, row); }
      case Update(t, where, change) =>
        if t in db { UpdateIsLocal(sec, tables, bundle, keys, ctx, own, db, t, where, change); }
      case Delete(t, where) => if t in db { DeleteIsLocal(sec, tables, bundle, keys, ctx, own, db, t, where); }
    }
    SettingKept(sec, tables, bundle, keys, ctx, own, db, s);
  }

  lemma SettingKept(sec: Security, tables: set<Table>, bundle: set<Table>, keys: set<Key>, ctx: Option<Tenant>,
                    own: Id -> bool, db: Db, s: Stmt)
    requires Setting(sec, tables, bundle, keys, ctx, own, db)
    requires Rest(ctx, Exec(sec, keys, App, ctx, db, s).0) == Rest(ctx, db)
    ensures Setting(sec, tables, bundle, keys, ctx, own, Exec(sec, keys, App, ctx, db, s).0)
  {
    ExecKeepsIntact(sec, keys, App, ctx, db, s);
    var after := Exec(sec, keys, App, ctx, db, s).0;
    forall t, id | t in after && id in after[t] && !Owns(ctx, t, id, after[t][id]) ensures !own(id) {
      assert id in Rest(ctx, after)[t];
      assert id in Rest(ctx, db)[t];
    }
  }

  /** Without a tenant in the session nothing is visible and nothing can be changed. */
  lemma NoContextFailsClosed(sec: Security, tables: set<Table>, bundle: set<Table>, keys: set<Key>, own: Id -> bool,
                             db: Db, s: Stmt)
    requires Setting(sec, tables, bundle, keys, None, own, db) && ChoosesOwnId(s, own)
    ensures Exec(sec, keys, App, None, db, s).0 == db
    ensures s.Read? ==>
      forall t | t in Exec(sec, keys, App, None, db, s).1.view :: Exec(sec, keys, App, None, db, s).1.view[t] == map[]
    ensures Exec(sec, keys, App, None, db, s).1.Affected? ==> Exec(sec, keys, App, None, db, s).1.ids == {}
  {
    NoContextChangesNothing(sec, tables, bundle, keys, own, db, s);
    if s.Read? { ViewIsLocal(sec, tables, bundle, keys, None, own, db); }
    if s.Insert? && s.table in db { AppCheck(sec, tables, bundle, None, s.table, InsertCmd, s.id, s.row); }
    if s.Update? && s.table in db {
      TargetsAreLocal(sec, tables, bundle, keys, None, own, db, s.table, UpdateCmd, s.where);
    }
    if s.Delete? && s.table in db {
      TargetsAreLocal(sec, tables, bundle, keys, None, own, db, s.table, DeleteCmd, s.where);
    }
  }

  lemma NoContextChangesNothing(sec: Security, tables: set<Table>, bundle: set<Table>, keys: set<Key>, own: Id -> bool,
                                db: Db, s: Stmt)
    requires Setting(sec, tables, bundle, keys, None, own, db) && ChoosesOwnId(s, own)
    ensures Exec(sec, keys, App, None, db, s).0 == db
  {
    StatementIsLocal(sec, tables, bundle, keys, None, own, db, s);
    RestOfNobody(db);
    RestOfNobody(Exec(sec, keys, App, None, db, s).0);
  }

  /** Without a context every row is somebody else's. */
  lemma RestOfNobody(db: Db)
    ensures Rest(None, db) == db
  {
    assert forall t | t in db :: RestRows(None, t, db[t]) == db[t];
  }

  /** A child row is visible exactly when its parent is. */
  lemma ChildSeenWithParent(sec: Security, tables: set<Table>, bundle: set<Table>, keys: set<Key>, ctx: Option<Tenant>,
                            db: Db, k: Key, c: Id)
    requires Installed(sec, tables, bundle) && KeysFit(keys, tables) && Intact(keys, db) && tables <= db.Keys
    requires k in keys && c in db[k.child]
    ensures ChildOk(k, db, db[k.child][c])
    ensures PassesUsing(sec, App, ctx, k.child, SelectCmd, c, db[k.child][c]) <==>
      PassesUsing(sec, App, ctx, k.parent, SelectCmd, db[k.child][c].ref.value, db[k.parent][db[k.child][c].ref.value])
  {
    assert ChildOk(k, db, db[k.child][c]);
    var p := db[k.child][c].ref.value;
    AppUsing(sec, tables, bundle, ctx, k.child, SelectCmd, c, db[k.child][c]);
    AppUsing(sec, tables, bundle, ctx, k.parent, SelectCmd, p, db[k.parent][p]);
  }

  /** Every row of every tenant, and every row without one, is open to maintenance; identity reads nothing. */
  lemma MaintenanceSeesAll(sec: Security, tables: set<Table>, bundle: set<Table>, ctx: Option<Tenant>, t: Table,
                           cmd: Cmd, id: Id, row: Row)
    requires Installed(sec, tables, bundle) && t in sec.rls
    ensures PassesUsing(sec, Maintenance, ctx, t, cmd, id, row) && PassesCheck(sec, Maintenance, ctx, t, cmd, id, row)
    ensures !PassesUsing(sec, Identity, ctx, t, cmd, id, row)
    ensures PassesCheck(sec, Identity, ctx, t, cmd, id, row) <==> cmd == InsertCmd && (t in bundle || t == ROOT)
  {
    assert (t, MaintenanceKind) in sec.policies;
    IdentityOnlyInserts(sec, tables, bundle, ctx, t, cmd, id, row);
  }

  lemma IdentityOnlyInserts(sec: Security, tables: set<Table>, bundle: set<Table>, ctx: Option<Tenant>, t: Table,
                            cmd: Cmd, id: Id, row: Row)
    requires Installed(sec, tables, bundle) && t in sec.rls
    ensures !PassesUsing(sec, Identity, ctx, t, cmd, id, row)
    ensures PassesCheck(sec, Identity, ctx, t, cmd, id, row) <==> cmd == InsertCmd && (t in bundle || t == ROOT)
  {
    assert t in bundle || t == ROOT ==> (t, IdentityKind) in sec.policies;
    forall k | k in sec.policies ensures HasPolicy(tables, bundle, k.0, k.1) && sec.policies[k] == PolicyOf(k.1) {}
    assert forall k | k in sec.policies && Applies(sec.policies[k], Identity, cmd) :: sec.policies[k].using == None;
  }

  // ---------------------------------------------------------------- the two hypotheses are needed

  /** For an insert the policies and keys accept, the session can tell the shared database from its slice exactly
   *  when the new id is taken by a row it does not own: primary keys are shared by all tenants. */
  lemma CollidingIdIsVisible(sec: Security, tables: set<Table>, bundle: set<Table>, keys: set<Key>, t: Table, id: Id,
                             row: Row, tenant: Tenant, db: Db)
    requires Installed(sec, tables, bundle) && KeysFit(keys, tables) && db.Keys == tables + {ROOT}
    requires t in tables && (App, t, InsertCmd) in sec.grants && row.tenant == Some(tenant)
    requires forall k | k in keys && k.child == t :: ChildOk(k, db, row)
    ensures Exec(sec, keys, App, Some(tenant), db, Insert(t, id, row)).1 ==
      Exec(sec, keys, App, Some(tenant), Slice(Some(tenant), db), Insert(t, id, row)).1
      <==> (id in db[t] ==> Owns(Some(tenant), t, id, db[t][id]))
  {
    AppCheck(sec, tables, bundle, Some(tenant), t, InsertCmd, id, row);
    forall k | k in keys && k.child == t ensures ChildOk(k, Slice(Some(tenant), db), row) {
      ChildOkIsLocal(keys, tables, Some(tenant), db, k, row);
    }
  }

  const RECIPES: Table := Other(1)
  const INGREDIENTS: Table := Other(2)

  /** Every child in `rows` that the cascade takes belongs to the session. */
  ghost predicate TakesOwnRows(keys: set<Key>, ctx: Option<Tenant>, u: Table, rows: map<Id, Row>, t: Table,
                               ids: set<Id>) {
    u != t && Key(u, t, true) in keys ==> forall c | c in rows && Refers(rows[c], ids) :: Owns(ctx, u, c, rows[c])
  }

  predicate Refers(row: Row, ids: set<Id>) { row.ref.Some? && row.ref.value in ids }

  lemma RestIsRows(ctx: Option<Tenant>, a: Db, b: Db)
    requires a.Keys == b.Keys
    ensures Rest(ctx, a) == Rest(ctx, b) <==> forall u | u in a :: RestRows(ctx, u, a[u]) == RestRows(ctx, u, b[u])
  {
    if Rest(ctx, a) == Rest(ctx, b) {
      forall u | u in a ensures RestRows(ctx, u, a[u]) == RestRows(ctx, u, b[u]) {
        assert Rest(ctx, a)[u] == Rest(ctx, b)[u];
      }
    }
  }

  lemma UnreferringRest(ctx: Option<Tenant>, u: Table, rows: map<Id, Row>, ids: set<Id>)
    ensures RestRows(ctx, u, Unreferring(rows, ids)) == RestRows(ctx, u, rows) <==>
            forall c | c in rows && Refers(rows[c], ids) :: Owns(ctx, u, c, rows[c])
  {
    if c :| c in rows && Refers(rows[c], ids) && !Owns(ctx, u, c, rows[c]) {
      assert c in RestRows(ctx, u, rows) && c !in RestRows(ctx, u, Unreferring(rows, ids));
    } else {
      assert RestRows(ctx, u, Unreferring(rows, ids)) == RestRows(ctx, u, rows);
    }
  }

  lemma CascadedRest(keys: set<Key>, ctx: Option<Tenant>, u: Table, rows: map<Id, Row>, t: Table, ids: set<Id>)
    requires u == t ==> forall id | id in ids :: id in rows && Owns(ctx, t, id, rows[id])
    ensures RestRows(ctx, u, CascadedRows(keys, u, rows, t, ids)) == RestRows(ctx, u, rows) <==>
            TakesOwnRows(keys, ctx, u, rows, t, ids)
  {
    if u == t {
      assert RestRows(ctx, t, rows - ids) == RestRows(ctx, t, rows);
    } else if Key(u, t, true) in keys {
      UnreferringRest(ctx, u, rows, ids);
    }
  }

  /** With any keys, a cascade from the session's own rows leaves everybody else's alone exactly when all the children
   *  it takes are the session's; the composite keys are what guarantees that. */
  lemma CascadeIsLocalExactly(keys: set<Key>, ctx: Option<Tenant>, db: Db, t: Table, ids: set<Id>)
    requires t in db && forall id | id in ids :: id in db[t] && Owns(ctx, t, id, db[t][id])
    ensures Rest(ctx, Cascaded(keys, db, t, ids)) == Rest(ctx, db) <==>
            forall u | u in db :: TakesOwnRows(keys, ctx, u, db[u], t, ids)
  {
    var after := Cascaded(keys, db, t, ids);
    RestIsRows(ctx, after, db);
    forall u | u in db
      ensures RestRows(ctx, u, after[u]) == RestRows(ctx, u, db[u]) <==> TakesOwnRows(keys, ctx, u, db[u], t, ids)
    {
      CascadedRest(keys, ctx, u, db[u], t, ids);
    }
  }

  function TwoKitchens(): Db {
    map[RECIPES := map[Name(1) := Row(Some(Name(10)), None, 0)],
        INGREDIENTS := map[Name(2) := Row(Some(Name(20)), Some(Name(1)), 0)]]
  }

  /** With the single-column key alone a cascade crosses tenants: tenant 10 deletes its recipe, and tenant 20 loses its
   *  ingredient. */
  lemma CascadeNeedsCompositeKey(sec: Security, tables: set<Table>, bundle: set<Table>)
    requires Installed(sec, tables, bundle) && RECIPES in tables
    requires (App, RECIPES, DeleteCmd) in sec.grants && (App, RECIPES, SelectCmd) in sec.grants
    ensures
      var keys := {Key(INGREDIENTS, RECIPES, true)};
      var db := TwoKitchens();
      !Intact(keys, db) && Rest(Some(Name(10)),
        Exec(sec, keys, App, Some(Name(10)), db, Delete(RECIPES, (_, _, _) => true)).0) != Rest(Some(Name(10)), db)
  {
    var k := Key(INGREDIENTS, RECIPES, true);
    var keys := {k};
    var db := TwoKitchens();
    assert !ChildOk(k, db, db[k.child][Name(2)]);
    AppUsing(sec, tables, bundle, Some(Name(10)), RECIPES, SelectCmd, Name(1), db[RECIPES][Name(1)]);
    AppUsing(sec, tables, bundle, Some(Name(10)), RECIPES, DeleteCmd, Name(1), db[RECIPES][Name(1)]);
    var where := (_: Db, _: Id, _: Row) => true;
    var ids := Targets(sec, App, Some(Name(10)), db, RECIPES, DeleteCmd, where);
    assert Name(1) in ids;
    assert Name(2) in Rest(Some(Name(10)), db)[INGREDIENTS];
    assert Name(2) !in CascadedRows(keys, INGREDIENTS, db[INGREDIENTS], RECIPES, ids);
    assert Exec(sec, keys, App, Some(Name(10)), db, Delete(RECIPES, where)).0 == Cascaded(keys, db, RECIPES, ids);
    assert Name(2) !in Rest(Some(Name(10)), Cascaded(keys, db, RECIPES, ids))[INGREDIENTS];
  }

  // ---------------------------------------------------------------- whole runs, many tenants

  /** A session's next statement may depend on everything it has been answered so far. */
  type Program = seq<Answer> -> Stmt

  datatype World = World(db: Db, seen: map<Tenant, seq<Answer>>)

  function SeenBy(w: World, t: Tenant): seq<Answer> { if t in w.seen then w.seen[t] else [] }

  function ActAs(sec: Security, keys: set<Key>, programs: Tenant -> Program, t: Tenant, w: World): World {
    var out := Exec(sec, keys, App, Some(t), w.db, programs(t)(SeenBy(w, t)));
    World(out.0, w.seen[t := SeenBy(w, t) + [out.1]])
  }

  /** The shared database under any interleaving of the tenants' sessions. */
  function Shared(sec: Security, keys: set<Key>, programs: Tenant -> Program, schedule: seq<Tenant>, db: Db): World {
    if schedule == [] then World(db, map[])
    else ActAs(sec, keys, programs, schedule[|schedule| - 1],
      Shared(sec, keys, programs, schedule[..|schedule| - 1], db))
  }

  /** One tenant's session alone on a database. */
  function Alone(sec: Security, keys: set<Key>, program: Program, t: Tenant, steps: nat, db: Db): (Db, seq<Answer>) {
    if steps == 0 then (db, [])
    else
      var (before, answers) := Alone(sec, keys, program, t, steps - 1, db);
      var out := Exec(sec, keys, App, Some(t), before, program(answers));
      (out.0, answers + [out.1])
  }

  function Turns(schedule: seq<Tenant>, t: Tenant): nat {
    if schedule == [] then 0
    else Turns(schedule[..|schedule| - 1], t) + (if schedule[|schedule| - 1] == t then 1 else 0)
  }

  /** What one tenant does cannot be seen in another tenant's slice. */
  lemma OthersSliceUntouched(t: Tenant, u: Tenant, a: Db, b: Db)
    requires t != u && Rest(Some(u), a) == Rest(Some(u), b)
    ensures Slice(Some(t), a) == Slice(Some(t), b)
  {
    assert a.Keys == Rest(Some(u), a).Keys == Rest(Some(u), b).Keys == b.Keys;
    forall x | x in a ensures SliceRows(Some(t), x, a[x]) == SliceRows(Some(t), x, b[x]) {
      assert RestRows(Some(u), x, a[x]) == Rest(Some(u), a)[x] == Rest(Some(u), b)[x] == RestRows(Some(u), x, b[x]);
      assert SliceRows(Some(t), x, a[x]) == SliceRows(Some(t), x, RestRows(Some(u), x, a[x]));
      assert SliceRows(Some(t), x, b[x]) == SliceRows(Some(t), x, RestRows(Some(u), x, b[x]));
    }
  }

  ghost predicate IdsApart(own: Tenant -> Id -> bool) {
    forall t, u, id | own(t)(id) && own(u)(id) :: t == u
  }

  ghost predicate AllSettings(sec: Security, tables: set<Table>, bundle: set<Table>, keys: set<Key>,
                              own: Tenant -> Id -> bool, db: Db) {
    forall t :: Setting(sec, tables, bundle, keys, Some(t), own(t), db)
  }

  lemma SettingsKept(sec: Security, tables: set<Table>, bundle: set<Table>, keys: set<Key>, own: Tenant -> Id -> bool,
                     db: Db, u: Tenant, s: Stmt)
    requires IdsApart(own) && AllSettings(sec, tables, bundle, keys, own, db) && ChoosesOwnId(s, own(u))
    ensures AllSettings(sec, tables, bundle, keys, own, Exec(sec, keys, App, Some(u), db, s).0)
  {
    var after := Exec(sec, keys, App, Some(u), db, s).0;
    assert Setting(sec, tables, bundle, keys, Some(u), own(u), db);
    StatementIsLocal(sec, tables, bundle, keys, Some(u), own(u), db, s);
    NewIdsAreOwn(sec, keys, App, Some(u), db, s);
    forall t | t != u ensures Setting(sec, tables, bundle, keys, Some(t), own(t), after) {
      assert Setting(sec, tables, bundle, keys, Some(t), own(t), db);
      OthersSliceUntouched(t, u, db, after);
      forall x, id | x in after && id in after[x] && !Owns(Some(t), x, id, after[x][id]) ensures !own(t)(id) {
        assert id in Slice(Some(t), db)[x] <==> id in Slice(Some(t), after)[x];
      }
    }
  }

  lemma NewIdsAreOwn(sec: Security, keys: set<Key>, role: Role, ctx: Option<Tenant>, db: Db, s: Stmt)
    ensures forall x, id | x in Exec(sec, keys, role, ctx, db, s).0 && id in Exec(sec, keys, role, ctx, db, s).0[x] ::
      x in db && (id in db[x] || (s.Insert? && id == s.id))
  {
  }

  lemma ActsAreLocal(sec: Security, tables: set<Table>, bundle: set<Table>, keys: set<Key>, own: Tenant -> Id -> bool,
                     programs: Tenant -> Program, w: World, u: Tenant, t: Tenant)
    requires IdsApart(own) && AllSettings(sec, tables, bundle, keys, own, w.db)
    requires forall t, h :: ChoosesOwnId(programs(t)(h), own(t))
    ensures AllSettings(sec, tables, bundle, keys, own, ActAs(sec, keys, programs, u, w).db)
    ensures t != u ==> Slice(Some(t), ActAs(sec, keys, programs, u, w).db) == Slice(Some(t), w.db)
    ensures t != u ==> SeenBy(ActAs(sec, keys, programs, u, w), t) == SeenBy(w, t)
    ensures Rest(Some(u), ActAs(sec, keys, programs, u, w).db) == Rest(Some(u), w.db)
    ensures t == u ==>
      var out := Exec(sec, keys, App, Some(t), Slice(Some(t), w.db), programs(t)(SeenBy(w, t)));
      Slice(Some(t), ActAs(sec, keys, programs, u, w).db) == out.0
        && SeenBy(ActAs(sec, keys, programs, u, w), t) == SeenBy(w, t) + [out.1]
  {
    var s := programs(u)(SeenBy(w, u));
    assert Setting(sec, tables, bundle, keys, Some(u), own(u), w.db);
    assert ChoosesOwnId(s, own(u));
    SettingsKept(sec, tables, bundle, keys, own, w.db, u, s);
    StatementIsLocal(sec, tables, bundle, keys, Some(u), own(u), w.db, s);
    if t != u { OthersSliceUntouched(t, u, w.db, Exec(sec, keys, App, Some(u), w.db, s).0); }
  }

  /** So far the tenant has been answered, and its rows are, as if it were alone since `start`. */
  ghost predicate LooksPrivate(sec: Security, keys: set<Key>, programs: Tenant -> Program, t: Tenant, steps: nat,
                               start: Db, w: World)
  {
    Alone(sec, keys, programs(t), t, steps, start) == (Slice(Some(t), w.db), SeenBy(w, t))
  }

  lemma TurnLooksPrivate(sec: Security, tables: set<Table>, bundle: set<Table>, keys: set<Key>,
                         own: Tenant -> Id -> bool, programs: Tenant -> Program, w: World, u: Tenant, t: Tenant,
                         steps: nat, start: Db)
    requires IdsApart(own) && AllSettings(sec, tables, bundle, keys, own, w.db)
    requires forall t, h :: ChoosesOwnId(programs(t)(h), own(t))
    requires LooksPrivate(sec, keys, programs, t, steps, start, w)
    ensures AllSettings(sec, tables, bundle, keys, own, ActAs(sec, keys, programs, u, w).db)
    ensures LooksPrivate(sec, keys, programs, t, if t == u then steps + 1
      else steps, start, ActAs(sec, keys, programs, u, w))
  {
    ActsAreLocal(sec, tables, bundle, keys, own, programs, w, u, t);
    AloneOneMore(sec, keys, programs(t), t, steps, start, Slice(Some(t), w.db), SeenBy(w, t));
  }

  /** Non-interference over whole runs: however the sessions of all tenants are interleaved, each tenant is
   *  answered, statement by statement, as if it were alone on a database holding its own rows only, and its rows
   *  end up as they would there. */
  lemma {:induction false} SharedLooksPrivate(sec: Security, tables: set<Table>, bundle: set<Table>, keys: set<Key>,
                                              own: Tenant -> Id -> bool, programs: Tenant -> Program,
                                              schedule: seq<Tenant>, db: Db, t: Tenant)
    requires IdsApart(own) && AllSettings(sec, tables, bundle, keys, own, db)
    requires forall t, h :: ChoosesOwnId(programs(t)(h), own(t))
    ensures AllSettings(sec, tables, bundle, keys, own, Shared(sec, keys, programs, schedule, db).db)
    ensures LooksPrivate(sec, keys, programs, t, Turns(schedule, t),
      Slice(Some(t), db), Shared(sec, keys, programs, schedule, db))
  {
    if schedule != [] {
      var before, u := schedule[..|schedule| - 1], schedule[|schedule| - 1];
      SharedLooksPrivate(sec, tables, bundle, keys, own, programs, before, db, t);
      TurnLooksPrivate(sec, tables, bundle, keys, own, programs, Shared(sec, keys, programs, before, db), u, t,
                       Turns(before, t), Slice(Some(t), db));
    }
  }

  lemma AloneOneMore(sec: Security, keys: set<Key>, program: Program, t: Tenant, steps: nat, start: Db, now: Db,
                     seen: seq<Answer>)
    requires Alone(sec, keys, program, t, steps, start) == (now, seen)
    ensures Alone(sec, keys, program, t, steps + 1, start) ==
            (Exec(sec, keys, App, Some(t), now, program(seen)).0, seen +
              [Exec(sec, keys, App, Some(t), now, program(seen)).1])
  {
  }

  /** Two databases that agree on a tenant's rows cannot be told apart by that tenant, whatever the others do. */
  lemma NonInterference(sec: Security, tables: set<Table>, bundle: set<Table>, keys: set<Key>,
                        own: Tenant -> Id -> bool, programs: Tenant -> Program, others: Tenant -> Program,
                        one: seq<Tenant>, two: seq<Tenant>, a: Db, b: Db, t: Tenant)
    requires IdsApart(own) && AllSettings(sec, tables, bundle, keys, own, a)
      && AllSettings(sec, tables, bundle, keys, own, b)
    requires forall t, h :: ChoosesOwnId(programs(t)(h), own(t)) && ChoosesOwnId(others(t)(h), own(t))
    requires Slice(Some(t), a) == Slice(Some(t), b) && programs(t) == others(t) && Turns(one, t) == Turns(two, t)
    ensures SeenBy(Shared(sec, keys, programs, one, a), t) == SeenBy(Shared(sec, keys, others, two, b), t)
    ensures Slice(Some(t), Shared(sec, keys, programs, one, a).db) ==
      Slice(Some(t), Shared(sec, keys, others, two, b).db)
  {
    SharedLooksPrivate(sec, tables, bundle, keys, own, programs, one, a, t);
    SharedLooksPrivate(sec, tables, bundle, keys, own, others, two, b, t);
  }

  /** Rows without a tenant, the root table, and the rows of tenants that never act are as they were. */
  lemma {:induction false} BystandersUntouched(sec: Security, tables: set<Table>, bundle: set<Table>, keys: set<Key>,
                                               own: Tenant -> Id -> bool, programs: Tenant -> Program,
                                               schedule: seq<Tenant>, db: Db, x: Table, id: Id)
    requires IdsApart(own) && AllSettings(sec, tables, bundle, keys, own, db)
    requires forall t, h :: ChoosesOwnId(programs(t)(h), own(t))
    requires x in db && id in db[x] && forall t | t in schedule :: !Owns(Some(t), x, id, db[x][id])
    ensures x in Shared(sec, keys, programs, schedule, db).db && id in Shared(sec, keys, programs, schedule, db).db[x]
    ensures Shared(sec, keys, programs, schedule, db).db[x][id] == db[x][id]
  {
    if schedule != [] {
      var before, u := schedule[..|schedule| - 1], schedule[|schedule| - 1];
      BystandersUntouched(sec, tables, bundle, keys, own, programs, before, db, x, id);
      SharedLooksPrivate(sec, tables, bundle, keys, own, programs, before, db, u);
      var w := Shared(sec, keys, programs, before, db);
      ActsAreLocal(sec, tables, bundle, keys, own, programs, w, u, u);
      assert id in Rest(Some(u), w.db)[x] && Rest(Some(u), w.db)[x][id] == db[x][id];
      assert Rest(Some(u), ActAs(sec, keys, programs, u, w).db)[x][id] == db[x][id];
    }
  }
}
