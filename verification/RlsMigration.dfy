/** Migrations 0078 and 0082 as they run: grants, ENABLE ROW LEVEL SECURITY and CREATE POLICY in loops over the
 *  table lists. The lists are parameters; the policies the loops create are checked against `Installed`. */
module RlsMigration {
  import opened Options
  import opened RowSecurity
  import opened TenantIsolation
  import opened StatementEffects

  predicate NoDuplicates(s: seq<Table>) { forall i, j | 0 <= i < j < |s| :: s[i] != s[j] }

  function Members(s: seq<Table>): set<Table> { set t | t in s }

  predicate Unprotected(policies: map<(Table, Kind), Policy>, t: Table) {
    (t, TenantKind) !in policies && (t, MaintenanceKind) !in policies
  }

  predicate AllUnprotected(policies: map<(Table, Kind), Policy>, tables: seq<Table>) {
    forall t | t in tables :: Unprotected(policies, t)
  }

  predicate RootUnprotected(policies: map<(Table, Kind), Policy>) {
    forall kind | kind in {SelfKind, MaintenanceKind, IdentityKind} :: (ROOT, kind) !in policies
  }

  predicate NoIdentity(policies: map<(Table, Kind), Policy>, tables: seq<Table>) {
    forall t | t in tables && t != ROOT :: (t, IdentityKind) !in policies
  }

  /** The list as the identity loop sees it: the root table is skipped. */
  function OtherTables(tables: seq<Table>): seq<Table> {
    if tables == [] then []
    else
      var last := tables[|tables| - 1];
      OtherTables(tables[..|tables| - 1]) + (if last == ROOT then [] else [last])
  }

  /** None of the policies to be created is there, and none would be created twice. */
  ghost predicate Creatable(policies: map<(Table, Kind), Policy>, tenantTables: seq<Table>,
                            identityTables: seq<Table>) {
    && NoDuplicates(tenantTables) && NoDuplicates(OtherTables(identityTables))
    && forall t, kind | HasPolicy(Members(tenantTables), Members(identityTables), t, kind) :: (t, kind) !in policies
  }

  lemma CreatableInSteps(policies: map<(Table, Kind), Policy>, tenantTables: seq<Table>, identityTables: seq<Table>)
    requires ROOT !in tenantTables
    ensures Creatable(policies, tenantTables, identityTables) <==>
            && (NoDuplicates(tenantTables) && AllUnprotected(policies, tenantTables))
            && RootUnprotected(policies)
            && (NoDuplicates(OtherTables(identityTables)) && NoIdentity(policies, identityTables))
  {
    var a, b := Members(tenantTables), Members(identityTables);
    if forall t, kind | HasPolicy(a, b, t, kind) :: (t, kind) !in policies {
      forall t | t in tenantTables ensures Unprotected(policies, t) {
        assert HasPolicy(a, b, t, TenantKind) && HasPolicy(a, b, t, MaintenanceKind);
      }
      forall kind | kind in {SelfKind, MaintenanceKind, IdentityKind} ensures (ROOT, kind) !in policies {
        assert HasPolicy(a, b, ROOT, kind);
      }
      forall t | t in identityTables && t != ROOT ensures (t, IdentityKind) !in policies {
        assert HasPolicy(a, b, t, IdentityKind);
      }
    }
  }

  lemma OneMoreTable(tables: seq<Table>, i: nat)
    requires i < |tables|
    ensures tables[..i + 1] == tables[..i] + [tables[i]]
    ensures NoDuplicates(tables[..i + 1]) <==> NoDuplicates(tables[..i]) && tables[i] !in tables[..i]
  {
    assert tables[..i + 1] == tables[..i] + [tables[i]];
    assert tables[..i + 1][i] == tables[i];
    assert forall j | 0 <= j < i :: tables[..i + 1][j] == tables[..i][j];
  }

  lemma NoDuplicatesBelow(tables: seq<Table>, i: nat)
    requires i < |tables|
    ensures NoDuplicates(tables) ==> tables[i] !in tables[..i]
  {
  }

  lemma OtherTablesOneMore(tables: seq<Table>, i: nat)
    requires i < |tables|
    ensures OtherTables(tables[..i + 1]) == OtherTables(tables[..i]) + (if tables[i] == ROOT then [] else [tables[i]])
    ensures tables[i] != ROOT ==>
      (NoDuplicates(OtherTables(tables[..i + 1])) <==>
       NoDuplicates(OtherTables(tables[..i])) && tables[i] !in tables[..i])
  {
    assert tables[..i + 1][..i] == tables[..i];
    var before, after := OtherTables(tables[..i]), OtherTables(tables[..i + 1]);
    OtherTablesAreOthers(tables[..i], tables[i]);
    if tables[i] != ROOT {
      assert after[..|before|] == before;
      OneMoreTable(after, |before|);
      assert after[..|before| + 1] == after;
    }
  }

  lemma {:induction false} OtherTablesAreOthers(tables: seq<Table>, t: Table)
    ensures t in OtherTables(tables) <==> t in tables && t != ROOT
  {
    if tables != [] {
      var rest, last := tables[..|tables| - 1], tables[|tables| - 1];
      OtherTablesAreOthers(rest, t);
      assert tables == rest + [last];
    }
  }

  lemma {:induction false} OtherTablesPrefix(tables: seq<Table>, i: nat)
    requires i <= |tables|
    ensures OtherTables(tables[..i]) <= OtherTables(tables)
    decreases |tables|
  {
    if i < |tables| {
      OtherTablesPrefix(tables[..|tables| - 1], i);
      assert tables[..|tables| - 1][..i] == tables[..i];
    } else {
      assert tables[..i] == tables;
    }
  }

  lemma OtherDuplicatesBelow(tables: seq<Table>, i: nat)
    requires i < |tables| && tables[i] != ROOT
    ensures NoDuplicates(OtherTables(tables)) ==> tables[i] !in tables[..i]
  {
    OtherTablesPrefix(tables, i + 1);
    OtherTablesOneMore(tables, i);
    var whole, part := OtherTables(tables), OtherTables(tables[..i + 1]);
    assert forall j | 0 <= j < |part| :: part[j] == whole[j];
  }

  const COMMANDS: set<Cmd> := {SelectCmd, InsertCmd, UpdateCmd, DeleteCmd}

  lemma AllCommands()
    ensures forall cmd: Cmd :: cmd in COMMANDS
  {
    forall cmd: Cmd ensures cmd in COMMANDS {
      match cmd case SelectCmd => case InsertCmd => case UpdateCmd => case DeleteCmd =>
    }
  }

  class Catalog {
    var grants: set<(Role, Table, Cmd)>
    var rls: set<Table>
    var policies: map<(Table, Kind), Policy>

    constructor ()
      ensures grants == {} && rls == {} && policies == map[]
    {
      grants, rls, policies := {}, {}, map[];
    }

    function State(): Security reads this { Security(grants, rls, policies) }

    /** 0078: everything to the application and maintenance roles, the admin tables taken back from the
     *  application where they exist, inserts on the bundle to identity. */
    method GrantRoles(existing: set<Table>, admin: seq<Table>, bundle: set<Table>)
      modifies this`grants
      ensures forall t, cmd :: (App, t, cmd) in grants <==>
        if t in existing then t !in admin else (App, t, cmd) in old(grants)
      ensures forall t, cmd :: (Maintenance, t, cmd) in grants <==>
        t in existing || (Maintenance, t, cmd) in old(grants)
      ensures forall t, cmd :: (Identity, t, cmd) in grants <==>
        (cmd == InsertCmd && t in bundle) || (Identity, t, cmd) in old(grants)
      ensures forall t, cmd :: (Owner, t, cmd) in grants <==> (Owner, t, cmd) in old(grants)
    {
      AllCommands();
      grants := grants + (set t, cmd | t in existing && cmd in COMMANDS :: (App, t, cmd));
      grants := grants + (set t, cmd | t in existing && cmd in COMMANDS :: (Maintenance, t, cmd));
      for i := 0 to |admin|
        invariant forall t, cmd :: (App, t, cmd) in grants <==>
          (if t in existing then t !in admin[..i] else (App, t, cmd) in old(grants))
        invariant forall t, cmd :: (Maintenance, t, cmd) in grants <==>
          t in existing || (Maintenance, t, cmd) in old(grants)
        invariant forall t, cmd, role | role == Identity || role == Owner :: (role, t, cmd) in grants <==>
          (role, t, cmd) in old(grants)
      {
        assert admin[..i + 1] == admin[..i] + [admin[i]];
        if admin[i] in existing {
          grants := grants - (set cmd | cmd in COMMANDS :: (App, admin[i], cmd));
        }
      }
      assert admin[..|admin|] == admin;
      grants := grants + (set t | t in bundle :: (Identity, t, InsertCmd));
    }

    /** CREATE POLICY fails when the table already has a policy of that name. */
    method CreatePolicy(t: Table, kind: Kind, p: Policy) returns (ok: bool)
      modifies this`policies
      ensures ok <==> (t, kind) !in old(policies)
      ensures policies == if ok then old(policies)[(t, kind) := p] else old(policies)
    {
      ok := (t, kind) !in policies;
      if ok { policies := policies[(t, kind) := p]; }
    }

    /** The policies of one tenant table. */
    method Protect(t: Table) returns (ok: bool)
      modifies this`rls, this`policies
      ensures ok <==> (t, TenantKind) !in old(policies) && (t, MaintenanceKind) !in old(policies)
      ensures ok ==> rls == old(rls) + {t}
      ensures ok ==>
        policies == old(policies)[(t, TenantKind) := PolicyOf(TenantKind)]
          [(t, MaintenanceKind) := PolicyOf(MaintenanceKind)]
    {
      rls := rls + {t};
      ok := CreatePolicy(t, TenantKind, Policy(None, App, Some(TenantIsContext), Some(TenantIsContext)));
      if !ok { return; }
      ok := CreatePolicy(t, MaintenanceKind, Policy(None, Maintenance, Some(Always), Some(Always)));
    }

    method ProtectRoot() returns (ok: bool)
      modifies this`rls, this`policies
      ensures ok <==> RootUnprotected(old(policies))
      ensures ok ==> rls == old(rls) + {ROOT}
      ensures ok ==> policies == old(policies)[(ROOT, SelfKind) := PolicyOf(SelfKind)]
        [(ROOT, MaintenanceKind) := PolicyOf(MaintenanceKind)][(ROOT, IdentityKind) := PolicyOf(IdentityKind)]
    {
      rls := rls + {ROOT};
      ok := CreatePolicy(ROOT, SelfKind, Policy(Some(SelectCmd), App, Some(IdIsContext), None));
      if !ok { return; }
      ok := CreatePolicy(ROOT, MaintenanceKind, Policy(None, Maintenance, Some(Always), Some(Always)));
      if !ok { return; }
      ok := CreatePolicy(ROOT, IdentityKind, Policy(Some(InsertCmd), Identity, None, Some(Always)));
    }

    /** Fails exactly when a policy of the list is there already or the list repeats a table. */
    method ProtectTenantTables(tables: seq<Table>) returns (ok: bool)
      modifies this`rls, this`policies
      ensures ok <==> NoDuplicates(tables) && AllUnprotected(old(policies), tables)
      ensures ok ==> rls == old(rls) + Members(tables)
      ensures ok ==> forall t, kind :: (t, kind) in policies <==>
        (t, kind) in old(policies) || (t in tables && (kind == TenantKind || kind == MaintenanceKind))
      ensures ok ==>
        forall k | k in policies :: policies[k] == if k in old(policies) then old(policies)[k] else PolicyOf(k.1)
    {
      for i := 0 to |tables|
        invariant NoDuplicates(tables[..i]) && AllUnprotected(old(policies), tables[..i])
        invariant rls == old(rls) + Members(tables[..i])
        invariant forall t, kind :: (t, kind) in policies <==>
          (t, kind) in old(policies) || (t in tables[..i] && (kind == TenantKind || kind == MaintenanceKind))
        invariant forall k | k in policies ::
          policies[k] == if k in old(policies) then old(policies)[k] else PolicyOf(k.1)
      {
        OneMoreTable(tables, i);
        ok := Protect(tables[i]);
        if !ok {
          NoDuplicatesBelow(tables, i);
          assert tables[i] in tables;
          return;
        }
      }
      assert tables[..|tables|] == tables;
      ok := true;
    }

    /** Fails exactly when such a policy is there already or the list, the root table aside, repeats a table. */
    method AddIdentityPolicies(tables: seq<Table>) returns (ok: bool)
      modifies this`policies
      ensures ok <==> NoDuplicates(OtherTables(tables)) && NoIdentity(old(policies), tables)
      ensures ok ==> forall t, kind :: (t, kind) in policies <==>
        (t, kind) in old(policies) || (kind == IdentityKind && t != ROOT && t in tables)
      ensures ok ==>
        forall k | k in policies :: policies[k] == if k in old(policies) then old(policies)[k] else PolicyOf(k.1)
    {
      for i := 0 to |tables|
        invariant NoDuplicates(OtherTables(tables[..i]))
        invariant NoIdentity(old(policies), tables[..i])
        invariant forall t, kind :: (t, kind) in policies <==>
          (t, kind) in old(policies) || (kind == IdentityKind && t != ROOT && t in tables[..i])
        invariant forall k | k in policies ::
          policies[k] == if k in old(policies) then old(policies)[k] else PolicyOf(k.1)
      {
        assert tables[..i + 1] == tables[..i] + [tables[i]];
        OtherTablesOneMore(tables, i);
        if tables[i] == ROOT { continue; }
        ok := CreatePolicy(tables[i], IdentityKind, Policy(Some(InsertCmd), Identity, None, Some(Always)));
        if !ok {
          OtherDuplicatesBelow(tables, i);
          assert tables[i] in tables;
          return;
        }
      }
      assert tables[..|tables|] == tables;
      ok := true;
    }

    /** The statements of the upgrade; what they leave behind on a failure is rolled back by the caller. */
    method InstallAll(tenantTables: seq<Table>, identityTables: seq<Table>) returns (ok: bool)
      requires ROOT !in tenantTables
      modifies this`rls, this`policies
      ensures ok <==>
        && (NoDuplicates(tenantTables) && AllUnprotected(old(policies), tenantTables))
        && RootUnprotected(old(policies))
        && (NoDuplicates(OtherTables(identityTables)) && NoIdentity(old(policies), identityTables))
      ensures ok ==> rls == old(rls) + Members(tenantTables) + {ROOT}
      ensures ok ==> forall t, kind :: (t, kind) in policies <==>
        (t, kind) in old(policies) || HasPolicy(Members(tenantTables), Members(identityTables), t, kind)
      ensures ok ==>
        forall k | k in policies :: policies[k] == if k in old(policies) then old(policies)[k] else PolicyOf(k.1)
    {
      ok := ProtectTenantTables(tenantTables);
      if !ok { return; }
      assert RootUnprotected(policies) <==> RootUnprotected(old(policies));
      assert NoIdentity(policies, identityTables) <==> NoIdentity(old(policies), identityTables);
      ghost var protected := policies;
      ok := ProtectRoot();
      if !ok { return; }
      assert NoIdentity(policies, identityTables) <==> NoIdentity(protected, identityTables);
      ok := AddIdentityPolicies(identityTables);
    }

    /** 0082 upgrade, one transaction: an error takes all of it back. It fails exactly when one of its policies is there
     *  already or a list repeats a table. On a clean catalog it leaves exactly the policies the isolation theorems are
     *  about. */
    method Upgrade(tenantTables: seq<Table>, identityTables: seq<Table>) returns (ok: bool)
      requires ROOT !in tenantTables
      modifies this`rls, this`policies
      ensures !ok ==> rls == old(rls) && policies == old(policies)
      ensures ok <==> Creatable(old(policies), tenantTables, identityTables)
      ensures ok ==> rls == old(rls) + Members(tenantTables) + {ROOT}
      ensures ok ==> forall t, kind :: (t, kind) in policies <==>
        (t, kind) in old(policies) || HasPolicy(Members(tenantTables), Members(identityTables), t, kind)
      ensures ok && old(policies) == map[] && old(rls) == {} ==>
        Installed(State(), Members(tenantTables), Members(identityTables))
    {
      var committedRls, committedPolicies := rls, policies;
      CreatableInSteps(policies, tenantTables, identityTables);
      ok := InstallAll(tenantTables, identityTables);
      if !ok { rls, policies := committedRls, committedPolicies; }
    }

    method DropIdentityPolicies(tables: seq<Table>)
      modifies this`policies
      ensures policies == map k | k in old(policies) && !(k.1 == IdentityKind && k.0 != ROOT && k.0 in tables) ::
        old(policies)[k]
    {
      var i := |tables|;
      while i > 0
        invariant 0 <= i <= |tables|
        invariant policies == map k | k in old(policies)
          && !(k.1 == IdentityKind && k.0 != ROOT && k.0 in tables[i..]) :: old(policies)[k]
      {
        i := i - 1;
        assert tables[i..] == [tables[i]] + tables[i + 1..];
        if tables[i] == ROOT { continue; }
        policies := policies - {(tables[i], IdentityKind)};
      }
    }

    method UnprotectTenantTables(tables: seq<Table>)
      modifies this`rls, this`policies
      ensures rls == old(rls) - Members(tables)
      ensures policies == map k | k in old(policies)
        && !((k.1 == TenantKind || k.1 == MaintenanceKind) && k.0 in tables) :: old(policies)[k]
    {
      var i := |tables|;
      while i > 0
        invariant 0 <= i <= |tables|
        invariant rls == old(rls) - Members(tables[i..])
        invariant policies == map k | k in old(policies)
          && !((k.1 == TenantKind || k.1 == MaintenanceKind) && k.0 in tables[i..]) :: old(policies)[k]
      {
        i := i - 1;
        assert tables[i..] == [tables[i]] + tables[i + 1..];
        policies := policies - {(tables[i], MaintenanceKind)};
        policies := policies - {(tables[i], TenantKind)};
        rls := rls - {tables[i]};
      }
    }

    /** 0082 downgrade: DROP POLICY IF EXISTS and DISABLE, in the reverse order. It removes what the upgrade
     *  installs and nothing else. */
    method Downgrade(tenantTables: seq<Table>, identityTables: seq<Table>)
      requires ROOT !in tenantTables
      modifies this`rls, this`policies
      ensures rls == old(rls) - Members(tenantTables) - {ROOT}
      ensures policies == map k | k in old(policies)
        && !HasPolicy(Members(tenantTables), Members(identityTables), k.0, k.1) :: old(policies)[k]
      ensures Installed(old(State()), Members(tenantTables), Members(identityTables)) ==> rls == {} && policies == map[]
    {
      DropIdentityPolicies(identityTables);
      policies := policies - {(ROOT, IdentityKind), (ROOT, MaintenanceKind), (ROOT, SelfKind)};
      rls := rls - {ROOT};
      UnprotectTenantTables(tenantTables);
    }
  }

  /** After the grants no application statement, in any run and under any context, sees or changes an admin table, and
   *  every one on it is denied. */
  method AdminTablesAreClosed(existing: set<Table>, admin: seq<Table>, bundle: set<Table>, keys: set<Key>, db: Db,
                              turns: seq<Turn>, t: Table, last: Turn)
    returns (after: Db, out: (Db, Answer))
    requires t in admin && t in existing && t in db && forall k | k in keys :: k.child != t
    requires last.role == App && forall a | a in turns :: a.role == App
    ensures t in after && after[t] == db[t]
    ensures t in out.0 && out.0[t] == db[t]
    ensures out.1.Seen? ==> t !in out.1.view
    ensures !last.stmt.Read? && last.stmt.table == t ==> out.1 == Denied
  {
    var catalog := new Catalog();
    catalog.GrantRoles(existing, admin, bundle);
    var sec := catalog.State();
    assert Closed(sec, keys, App, t);
    ClosedInEveryRun(sec, keys, App, db, turns, t);
    after := RunAll(sec, keys, db, turns);
    ClosedIsUntouched(sec, keys, App, last.ctx, after, last.stmt, t);
    out := Exec(sec, keys, App, last.ctx, after, last.stmt);
  }

  /** A tenant inserts under an id that another tenant's row has, and learns that it is taken: alone it would not be. */
  method TakenIdIsNoticed() returns (shared: Answer, alone: Answer)
    ensures shared == ConstraintViolation && alone == Affected({Name(1)})
  {
    var catalog := new Catalog();
    catalog.GrantRoles({ROOT, RECIPES}, [], {});
    var ok := catalog.Upgrade([RECIPES], []);
    var sec, me, row := catalog.State(), Some(Name(10)), Row(Some(Name(10)), None, 0);
    var db: Db := map[ROOT := map[], RECIPES := map[Name(1) := Row(Some(Name(20)), None, 0)]];
    AppCheck(sec, {RECIPES}, {}, me, RECIPES, InsertCmd, Name(1), row);
    shared := Exec(sec, {}, App, me, db, Insert(RECIPES, Name(1), row)).1;
    alone := Exec(sec, {}, App, me, Slice(me, db), Insert(RECIPES, Name(1), row)).1;
  }
}
