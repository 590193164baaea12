/** `sreda_resolve_external_identity`: version 1 (0078, restored by the downgrade of 0083) and version 2 (0083).
 *
 * A query returns a sequence of rows. The inner query has no ORDER BY, so its rows come in any order; `order` stands
 * for the users in the order in which the planner happens to produce them.
 */
module IdentityResolve {
  import opened Options

  type UserId = nat
  type TenantId = nat

  datatype User = User(tenant: TenantId, tgHash: Option<string>, maxId: Option<string>)
  datatype Tenant = Tenant(approvedAt: Option<int>, deletedAt: Option<int>)
  datatype Db = Db(users: map<UserId, User>, tenants: map<TenantId, Tenant>)

  datatype RowV1 = RowV1(tenant: TenantId, user: UserId, approvedAt: Option<int>, deletedAt: Option<int>)
  datatype RowV2 = RowV2(tenant: Option<TenantId>, user: Option<UserId>,
    approvedAt: Option<int>, deletedAt: Option<int>, matchCount: nat)

  /** SQL equality, which is not true when a side is NULL. */
  predicate SqlEq(a: Option<string>, b: Option<string>) { a.Some? && b.Some? && a == b }

  predicate Matches(u: User, channel: Option<string>, key: Option<string>) {
    || (channel == Some("telegram") && SqlEq(u.tgHash, key))
    || (channel == Some("max") && SqlEq(u.maxId, key))
  }

  /** The users of the join that match. */
  function Found(db: Db, channel: Option<string>, key: Option<string>): set<UserId> {
    set u | u in db.users && db.users[u].tenant in db.tenants && Matches(db.users[u], channel, key)
  }

  ghost predicate Enumerates(order: seq<UserId>, found: set<UserId>) {
    && (forall u :: u in order <==> u in found)
    && (forall i, j | 0 <= i < j < |order| :: order[i] != order[j])
  }

  function Data(db: Db, u: UserId): RowV1
    requires u in db.users && db.users[u].tenant in db.tenants
  {
    var t := db.users[u].tenant;
    RowV1(t, u, db.tenants[t].approvedAt, db.tenants[t].deletedAt)
  }

  /** SELECT ... FROM q WHERE q.n = 1. */
  function V1(db: Db, order: seq<UserId>): seq<RowV1>
    requires forall u | u in order :: u in db.users && db.users[u].tenant in db.tenants
  {
    if |order| == 1 then [Data(db, order[0])] else []
  }

  /** SELECT CASE WHEN q.n = 1 THEN ... END, q.n FROM q LIMIT 1. */
  function V2(db: Db, order: seq<UserId>): seq<RowV2>
    requires forall u | u in order :: u in db.users && db.users[u].tenant in db.tenants
  {
    if |order| == 0 then []
    else
      var d := Data(db, order[0]);
      [RowV2(if |order| == 1 then Some(d.tenant) else None,
             if |order| == 1 then Some(d.user) else None,
             if |order| == 1 then d.approvedAt else None,
             if |order| == 1 then d.deletedAt else None,
             |order|)]
  }

  lemma {:induction false} EnumerationCounts(order: seq<UserId>, found: set<UserId>)
    requires Enumerates(order, found)
    ensures |order| == |found|
    decreases |order|
  {
    if order == [] {
      assert found == {};
    } else {
      var last := order[|order| - 1];
      var rest := order[..|order| - 1];
      forall u ensures u in rest <==> u in found - {last} {
        if u in found && u != last {
          var i :| 0 <= i < |order| && order[i] == u;
          assert rest[i] == u;
        }
      }
      EnumerationCounts(rest, found - {last});
      assert found == (found - {last}) + {last};
    }
  }

  /** The users a key finds: those of an existing tenant whose account on that channel is the key. Another channel, or a
   *  missing one, finds nobody, and a NULL key equals no NULL account. */
  lemma FoundByTheirAccount(db: Db, channel: Option<string>, key: Option<string>, u: UserId)
    ensures u in Found(db, channel, key) <==>
      && u in db.users && db.users[u].tenant in db.tenants && key.Some?
      && ((channel == Some("telegram") && db.users[u].tgHash == key)
        || (channel == Some("max") && db.users[u].maxId == key))
  {
  }

  /** The row carries the user's own tenant, and that tenant's two times. */
  predicate IsOwnRow(db: Db, r: RowV1) {
    && r.user in db.users && r.tenant in db.tenants && r.tenant == db.users[r.user].tenant
    && r.approvedAt == db.tenants[r.tenant].approvedAt && r.deletedAt == db.tenants[r.tenant].deletedAt
  }

  /** No user: nothing. One user: version 1's row with count 1. Several: no identity at all and the count, while
   *  version 1 is indistinguishable from no user. */
  lemma V2RefinesV1(db: Db, channel: Option<string>, key: Option<string>, order: seq<UserId>)
    requires Enumerates(order, Found(db, channel, key))
    ensures var n := |Found(db, channel, key)|;
      && (n == 0 ==> V2(db, order) == [] && V1(db, order) == [])
      && (n == 1 ==> exists r: RowV1 :: V1(db, order) == [r] && r.user in Found(db, channel, key)
                       && IsOwnRow(db, r)
                       && V2(db, order) == [RowV2(Some(r.tenant), Some(r.user), r.approvedAt, r.deletedAt, 1)])
      && (n > 1 ==> V1(db, order) == [] && V2(db, order) == [RowV2(None, None, None, None, n)])
  {
    EnumerationCounts(order, Found(db, channel, key));
    if |order| == 1 {
      assert V1(db, order) == [Data(db, order[0])];
    }
  }

  /** Neither version depends on the order, hence not on the row that LIMIT keeps. */
  lemma AnyOrderWillDo(db: Db, channel: Option<string>, key: Option<string>, a: seq<UserId>, b: seq<UserId>)
    requires Enumerates(a, Found(db, channel, key)) && Enumerates(b, Found(db, channel, key))
    ensures V1(db, a) == V1(db, b) && V2(db, a) == V2(db, b)
  {
    EnumerationCounts(a, Found(db, channel, key));
    EnumerationCounts(b, Found(db, channel, key));
    if |a| == 1 {
      assert a[0] in b && b[0] in a;
    }
  }

  /** An ambiguous key tells the caller how many users share it and nothing else about the database. */
  lemma AmbiguityRevealsOnlyTheCount(d: Db, e: Db, channel: Option<string>, key: Option<string>, a: seq<UserId>,
                                     b: seq<UserId>)
    requires Enumerates(a, Found(d, channel, key)) && Enumerates(b, Found(e, channel, key))
    requires |Found(d, channel, key)| > 1
    ensures V2(d, a) == V2(e, b) <==> |Found(d, channel, key)| == |Found(e, channel, key)|
  {
    EnumerationCounts(a, Found(d, channel, key));
    EnumerationCounts(b, Found(e, channel, key));
  }

  /** The unique index on the hash, over the users that the join keeps. */
  ghost predicate HashUnique(db: Db) {
    forall u, v | u in db.users && v in db.users && db.users[u].tenant in db.tenants && db.users[v].tenant in db.tenants
      && SqlEq(db.users[u].tgHash, db.users[v].tgHash) :: u == v
  }

  /** Telegram keys are never ambiguous exactly when hashes are unique. */
  lemma TelegramIsUnambiguous(db: Db)
    ensures HashUnique(db) <==> forall key :: |Found(db, Some("telegram"), key)| <= 1
  {
    if HashUnique(db) {
      forall key ensures |Found(db, Some("telegram"), key)| <= 1 {
        AtMostOne(Found(db, Some("telegram"), key));
      }
    }
    if forall key :: |Found(db, Some("telegram"), key)| <= 1 {
      forall u, v | u in db.users && v in db.users
        && db.users[u].tenant in db.tenants && db.users[v].tenant in db.tenants
        && SqlEq(db.users[u].tgHash, db.users[v].tgHash)
        ensures u == v
      {
        var found := Found(db, Some("telegram"), db.users[u].tgHash);
        assert |found| <= 1 && u in found && v in found;
        var others := found - {u};
        assert |others| == |found| - 1 && (v in others || v == u);
      }
    }
  }

  lemma AtMostOne(s: set<UserId>)
    requires forall u, v | u in s && v in s :: u == v
    ensures |s| <= 1
  {
    if s != {} {
      var u :| u in s;
      assert s == {u};
    }
  }
}
