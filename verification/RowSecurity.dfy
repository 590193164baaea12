/** Migrations 0078 and 0082: grants and row-level policies, and what a session under them can do.
 *
 * The evaluator follows PostgreSQL: privileges first; then, on a table with row security, a row passes when
 * some permissive policy for the role and command lets it pass, and is denied by default; a comparison with
 * NULL is not true. The table owner bypasses policies. Foreign-key actions are run by the server and do not
 * consult policies.
 */
module RowSecurity {
  import opened Options

  /** The tenants table, and the rest by number. */
  datatype Table = Tenants | Other(n: nat)

  /** Row ids and tenants are only compared for equality; a tenant is named by the id of its row in the root table. */
  datatype Name = Name(n: nat)
  type Id = Name
  type Tenant = Name

  datatype Role = App | Identity | Maintenance | Owner
  datatype Cmd = SelectCmd | InsertCmd | UpdateCmd | DeleteCmd

  /** The policy predicates: true, `tenant_id = current_setting(...)`, `id = current_setting(...)`. */
  datatype Test = Always | TenantIsContext | IdIsContext

  /** `cmd == None` is FOR ALL. */
  datatype Policy = Policy(cmd: Option<Cmd>, role: Role, using: Option<Test>, check: Option<Test>)

  /** The suffix of a policy's name; with its table it identifies the policy. */
  datatype Kind = TenantKind | MaintenanceKind | SelfKind | IdentityKind

  datatype Security = Security(
    grants: set<(Role, Table, Cmd)>,
    rls: set<Table>,
    policies: map<(Table, Kind), Policy>)

  const ROOT: Table := Tenants

  datatype Row = Row(tenant: Option<Tenant>, ref: Option<Id>, payload: int)
  type Db = map<Table, map<Id, Row>>

  // ---------------------------------------------------------------- policy evaluation

  predicate Holds(test: Test, ctx: Option<Tenant>, id: Id, row: Row) {
    match test
    case Always => true
    case TenantIsContext => ctx.Some? && row.tenant.Some? && row.tenant.value == ctx.value
    case IdIsContext => ctx.Some? && id == ctx.value
  }

  predicate Applies(p: Policy, role: Role, cmd: Cmd) {
    p.role == role && (p.cmd == None || p.cmd == Some(cmd))
  }

  /** May the row be read, or be the target of an UPDATE or DELETE? */
  predicate PassesUsing(sec: Security, role: Role, ctx: Option<Tenant>, t: Table, cmd: Cmd, id: Id, row: Row) {
    || role == Owner
    || t !in sec.rls
    || exists k | k in sec.policies ::
         && k.0 == t && Applies(sec.policies[k], role, cmd)
         && sec.policies[k].using.Some? && Holds(sec.policies[k].using.value, ctx, id, row)
  }

  /** May the row be written? Without WITH CHECK the USING test is checked. */
  predicate PassesCheck(sec: Security, role: Role, ctx: Option<Tenant>, t: Table, cmd: Cmd, id: Id, row: Row) {
    || role == Owner
    || t !in sec.rls
    || exists k | k in sec.policies ::
         && k.0 == t && Applies(sec.policies[k], role, cmd)
         && (if sec.policies[k].check.Some? then Holds(sec.policies[k].check.value, ctx, id, row)
             else sec.policies[k].using.Some? && Holds(sec.policies[k].using.value, ctx, id, row))
  }

  // ---------------------------------------------------------------- statements

  /** A composite foreign key (ref, tenant) -> parent(id, tenant), together with the older key ref -> parent(id)
   *  and the NOT NULL columns that come with it. */
  datatype Key = Key(child: Table, parent: Table, cascade: bool)

  /** Conditions and new values may depend on everything the session can see. */
  datatype Stmt =
    | Read
    | Insert(table: Table, id: Id, row: Row)
    | Update(table: Table, where: (Db, Id, Row) -> bool, change: (Db, Id, Row) -> Row)
    | Delete(table: Table, where: (Db, Id, Row) -> bool)

  datatype Answer = Seen(view: Db) | Affected(ids: set<Id>) | NoTable | Denied | PolicyViolation | ConstraintViolation

  function View(sec: Security, role: Role, ctx: Option<Tenant>, db: Db): Db {
    map t | t in db && (role, t, SelectCmd) in sec.grants ::
      map id | id in db[t] && PassesUsing(sec, role, ctx, t, SelectCmd, id, db[t][id]) :: db[t][id]
  }

  predicate ChildOk(k: Key, db: Db, row: Row) {
    && row.tenant.Some? && row.ref.Some?
    && k.parent in db && row.ref.value in db[k.parent]
    && db[k.parent][row.ref.value].tenant == row.tenant
  }

  function Targets(sec: Security, role: Role, ctx: Option<Tenant>, db: Db, t: Table, cmd: Cmd,
                   where: (Db, Id, Row) -> bool): set<Id>
    requires t in db
  {
    var view := View(sec, role, ctx, db);
    set id | id in db[t]
      && PassesUsing(sec, role, ctx, t, SelectCmd, id, db[t][id])
      && PassesUsing(sec, role, ctx, t, cmd, id, db[t][id])
      && where(view, id, db[t][id])
  }

  function ExecInsert(sec: Security, keys: set<Key>, role: Role, ctx: Option<Tenant>, db: Db, t: Table, id: Id,
                      row: Row): (Db, Answer)
    requires t in db
  {
    if (role, t, InsertCmd) !in sec.grants then (db, Denied)
    else if !PassesCheck(sec, role, ctx, t, InsertCmd, id, row) then (db, PolicyViolation)
    else if id in db[t] || exists k | k in keys :: k.child == t && !ChildOk(k, db, row) then (db, ConstraintViolation)
    else (db[t := db[t][id := row]], Affected({id}))
  }

  function ChangedRows(rows: map<Id, Row>, view: Db, ids: set<Id>, change: (Db, Id, Row) -> Row): map<Id, Row> {
    map id | id in rows :: if id in ids then change(view, id, rows[id]) else rows[id]
  }

  function Updated(db: Db, view: Db, t: Table, ids: set<Id>, change: (Db, Id, Row) -> Row): Db
    requires t in db
  {
    db[t := ChangedRows(db[t], view, ids, change)]
  }

  /** The new versions must pass WITH CHECK, and stay readable to the role that reads them. */
  predicate RowsPass(sec: Security, role: Role, ctx: Option<Tenant>, t: Table, rows: map<Id, Row>, ids: set<Id>)
    requires ids <= rows.Keys
  {
    forall id | id in ids ::
      PassesCheck(sec, role, ctx, t, UpdateCmd, id, rows[id]) && PassesUsing(sec, role, ctx, t, SelectCmd, id, rows[id])
  }

  predicate KeysHold(keys: set<Key>, db: Db, t: Table, ids: set<Id>)
    requires t in db && ids <= db[t].Keys
  {
    && (forall k, id | k in keys && id in ids :: k.child == t ==> ChildOk(k, db, db[t][id]))
    && (forall k | k in keys && k.parent == t && k.child in db :: !Torn(k, db, ids))
  }

  /** The update once its targets are known: checked row by row, then against the foreign keys. */
  function UpdateRows(sec: Security, keys: set<Key>, role: Role, ctx: Option<Tenant>, db: Db, view: Db, t: Table,
                      ids: set<Id>, change: (Db, Id, Row) -> Row): (Db, Answer)
    requires t in db && forall id | id in ids :: id in db[t]
  {
    var after := Updated(db, view, t, ids, change);
    if !RowsPass(sec, role, ctx, t, after[t], ids) then (db, PolicyViolation)
    else if !KeysHold(keys, after, t, ids) then (db, ConstraintViolation)
    else (after, Affected(ids))
  }

  function ExecUpdate(sec: Security, keys: set<Key>, role: Role, ctx: Option<Tenant>, db: Db, t: Table,
                      where: (Db, Id, Row) -> bool, change: (Db, Id, Row) -> Row): (Db, Answer)
    requires t in db
  {
    if (role, t, UpdateCmd) !in sec.grants || (role, t, SelectCmd) !in sec.grants then (db, Denied)
    else UpdateRows(sec, keys, role, ctx, db, View(sec, role, ctx, db),
      t, Targets(sec, role, ctx, db, t, UpdateCmd, where), change)
  }

  /** Some child refers to one of the rows and no longer shares its tenant. */
  predicate Torn(k: Key, db: Db, ids: set<Id>)
    requires k.child in db
  {
    exists c | c in db[k.child] ::
      db[k.child][c].ref.Some? && db[k.child][c].ref.value in ids && !ChildOk(k, db, db[k.child][c])
  }

  predicate Referenced(k: Key, db: Db, ids: set<Id>)
    requires k.child in db
  {
    exists c | c in db[k.child] :: db[k.child][c].ref.Some? && db[k.child][c].ref.value in ids
  }

  function Unreferring(rows: map<Id, Row>, ids: set<Id>): map<Id, Row> {
    map c | c in rows && !(rows[c].ref.Some? && rows[c].ref.value in ids) :: rows[c]
  }

  function CascadedRows(keys: set<Key>, u: Table, rows: map<Id, Row>, t: Table, ids: set<Id>): map<Id, Row> {
    if u == t then rows - ids else if Key(u, t, true) in keys then Unreferring(rows, ids) else rows
  }

  /** ON DELETE CASCADE reaches every referring child, whoever owns it. */
  function Cascaded(keys: set<Key>, db: Db, t: Table, ids: set<Id>): Db {
    map u | u in db :: CascadedRows(keys, u, db[u], t, ids)
  }

  function DeleteRows(keys: set<Key>, db: Db, t: Table, ids: set<Id>): (Db, Answer)
    requires t in db
  {
    if exists k | k in keys && k.parent == t && !k.cascade && k.child in db :: Referenced(k, db, ids)
    then (db, ConstraintViolation)
    else (Cascaded(keys, db, t, ids), Affected(ids))
  }

  function ExecDelete(sec: Security, keys: set<Key>, role: Role, ctx: Option<Tenant>, db: Db, t: Table,
                      where: (Db, Id, Row) -> bool): (Db, Answer)
    requires t in db
  {
    if (role, t, DeleteCmd) !in sec.grants || (role, t, SelectCmd) !in sec.grants then (db, Denied)
    else DeleteRows(keys, db, t, Targets(sec, role, ctx, db, t, DeleteCmd, where))
  }

  function Exec(sec: Security, keys: set<Key>, role: Role, ctx: Option<Tenant>, db: Db, s: Stmt): (Db, Answer) {
    match s
    case Read => (db, Seen(View(sec, role, ctx, db)))
    case Insert(t, id, row) => if t in db then ExecInsert(sec, keys, role, ctx, db, t, id, row) else (db, NoTable)
    case Update(t, where, change) => if t in db then ExecUpdate(sec, keys, role, ctx, db, t, where, change)
      else (db, NoTable)
    case Delete(t, where) => if t in db then ExecDelete(sec, keys, role, ctx, db, t, where) else (db, NoTable)
  }

  /** A statement of some role under some context. */
  datatype Turn = Turn(role: Role, ctx: Option<Tenant>, stmt: Stmt)

  function RunAll(sec: Security, keys: set<Key>, db: Db, turns: seq<Turn>): Db
    decreases |turns|
  {
    if turns == [] then db
    else RunAll(sec, keys, Exec(sec, keys, turns[0].role, turns[0].ctx, db, turns[0].stmt).0, turns[1..])
  }

  // ---------------------------------------------------------------- referential integrity

  ghost predicate KeysFit(keys: set<Key>, tables: set<Table>) {
    && (forall k | k in keys :: k.child in tables && k.parent in tables && k.child != k.parent)
    && (forall k, l | k in keys && l in keys :: k.child != l.parent)
    && (forall k, l | k in keys && l in keys && k.child == l.child :: k == l)
  }

  /** Every child of a composite key has a parent with the same id and tenant. */
  ghost predicate Intact(keys: set<Key>, db: Db) {
    forall k, c | k in keys && k.child in db && c in db[k.child] :: ChildOk(k, db, db[k.child][c])
  }

  lemma DeleteKeepsIntact(keys: set<Key>, db: Db, t: Table, ids: set<Id>)
    requires KeysFit(keys, db.Keys) && Intact(keys, db) && t in db
    ensures Intact(keys, DeleteRows(keys, db, t, ids).0) && DeleteRows(keys, db, t, ids).0.Keys == db.Keys
  {
    var after := DeleteRows(keys, db, t, ids).0;
    if after != db {
      forall k, c | k in keys && c in after[k.child] ensures ChildOk(k, after, after[k.child][c]) {
        assert ChildOk(k, db, db[k.child][c]);
        if k.parent == t && !k.cascade { assert !Referenced(k, db, ids); }
      }
    }
  }

  lemma InsertKeepsIntact(keys: set<Key>, db: Db, t: Table, id: Id, row: Row)
    requires KeysFit(keys, db.Keys) && Intact(keys, db) && t in db && id !in db[t]
    requires forall k | k in keys && k.child == t :: ChildOk(k, db, row)
    ensures Intact(keys, db[t := db[t][id := row]])
  {
  }

  lemma UpdateKeepsIntact(keys: set<Key>, db: Db, after: Db, t: Table, ids: set<Id>)
    requires KeysFit(keys, db.Keys) && Intact(keys, db) && t in db && ids <= db[t].Keys
    requires after.Keys == db.Keys && after[t].Keys == db[t].Keys && KeysHold(keys, after, t, ids)
    requires forall u | u in db && u != t :: after[u] == db[u]
    requires forall id | id in db[t] && id !in ids :: after[t][id] == db[t][id]
    ensures Intact(keys, after)
  {
  }

  lemma ExecInsertKeepsIntact(sec: Security, keys: set<Key>, role: Role, ctx: Option<Tenant>, db: Db, t: Table, id: Id,
                              row: Row)
    requires KeysFit(keys, db.Keys) && Intact(keys, db) && t in db
    ensures Intact(keys, ExecInsert(sec, keys, role, ctx, db, t, id, row).0)
    ensures ExecInsert(sec, keys, role, ctx, db, t, id, row).0.Keys == db.Keys
  {
    if ExecInsert(sec, keys, role, ctx, db, t, id, row).0 != db {
      InsertKeepsIntact(keys, db, t, id, row);
    }
  }

  lemma UpdateRowsKeepsIntact(sec: Security, keys: set<Key>, role: Role, ctx: Option<Tenant>, db: Db, view: Db,
                              t: Table, ids: set<Id>, change: (Db, Id, Row) -> Row)
    requires KeysFit(keys, db.Keys) && Intact(keys, db) && t in db && ids <= db[t].Keys
    ensures Intact(keys, UpdateRows(sec, keys, role, ctx, db, view, t, ids, change).0)
    ensures UpdateRows(sec, keys, role, ctx, db, view, t, ids, change).0.Keys == db.Keys
  {
    var after := UpdateRows(sec, keys, role, ctx, db, view, t, ids, change).0;
    if after != db {
      UpdateKeepsIntact(keys, db, after, t, ids);
    }
  }

  lemma ExecUpdateKeepsIntact(sec: Security, keys: set<Key>, role: Role, ctx: Option<Tenant>, db: Db, t: Table,
                              where: (Db, Id, Row) -> bool, change: (Db, Id, Row) -> Row)
    requires KeysFit(keys, db.Keys) && Intact(keys, db) && t in db
    ensures Intact(keys, ExecUpdate(sec, keys, role, ctx, db, t, where, change).0)
    ensures ExecUpdate(sec, keys, role, ctx, db, t, where, change).0.Keys == db.Keys
  {
    var view, ids := View(sec, role, ctx, db), Targets(sec, role, ctx, db, t, UpdateCmd, where);
    UpdateRowsKeepsIntact(sec, keys, role, ctx, db, view, t, ids, change);
  }

  lemma ExecDeleteKeepsIntact(sec: Security, keys: set<Key>, role: Role, ctx: Option<Tenant>, db: Db, t: Table,
                              where: (Db, Id, Row) -> bool)
    requires KeysFit(keys, db.Keys) && Intact(keys, db) && t in db
    ensures Intact(keys, ExecDelete(sec, keys, role, ctx, db, t, where).0)
    ensures ExecDelete(sec, keys, role, ctx, db, t, where).0.Keys == db.Keys
  {
    DeleteKeepsIntact(keys, db, t, Targets(sec, role, ctx, db, t, DeleteCmd, where));
  }

  /** No statement of any role breaks the composite keys. */
  lemma ExecKeepsIntact(sec: Security, keys: set<Key>, role: Role, ctx: Option<Tenant>, db: Db, s: Stmt)
    requires KeysFit(keys, db.Keys) && Intact(keys, db)
    ensures Intact(keys, Exec(sec, keys, role, ctx, db, s).0)
    ensures Exec(sec, keys, role, ctx, db, s).0.Keys == db.Keys
  {
    match s {
      case Read =>
      case Insert(t, id, row) => if t in db { ExecInsertKeepsIntact(sec, keys, role, ctx, db, t, id, row); }
      case Update(t, where, change) => if t in db { ExecUpdateKeepsIntact(sec, keys, role, ctx, db, t, where, change); }
      case Delete(t, where) => if t in db { ExecDeleteKeepsIntact(sec, keys, role, ctx, db, t, where); }
    }
  }
}
