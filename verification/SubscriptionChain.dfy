/** Migrations 0041, 0042 and 0063: feature keys and grandfathering on subscriptions, the single-active index, and
 *  the merge of the free plans. Each migration is one transaction; an error takes all of it back.
 *
 * Timestamps are integers. New subscription ids are random in the source; here they are above all existing ones.
 */
module SubscriptionChain {
  import opened Options

  type TenantId = nat
  type SubId = nat
  type ItemId = nat
  /** The identifiers the migrations name: plan_sreda_free, plan_housewife_grandfathered and plan_housewife_base. */
  datatype PlanId = FreeId | GrandfatheredId | BaseId | OtherId(n: nat)

  /** sreda_free and housewife_grandfathered. */
  datatype PlanKey = FreeKey | GrandfatheredKey | OtherKey(n: nat)

  /** housewife_assistant, and the rest. */
  datatype Feature = Housewife | OtherFeature(n: nat)

  datatype Plan = Plan(key: PlanKey, feature: Option<Feature>, isActive: bool, isPublic: bool)

  datatype Sub = Sub(tenant: TenantId, plan: PlanId, feature: Option<Feature>, active: bool, grandfathered: Option<int>)

  /** tenants maps a tenant to whether it is approved; items are the order items that refer to a plan. */
  datatype Db = Db(
    tenants: map<TenantId, bool>, plans: map<PlanId, Plan>, subs: map<SubId, Sub>, items: map<ItemId, PlanId>)

  datatype Outcome = Done | DataError | ConstraintError | Duplicates | IndexExists

  ghost predicate KeysUnique(plans: map<PlanId, Plan>) {
    forall p, q | p in plans && q in plans && plans[p].key == plans[q].key :: p == q
  }

  /** Foreign keys and the unique plan key. */
  ghost predicate Intact(db: Db) {
    && (forall s | s in db.subs :: db.subs[s].plan in db.plans && db.subs[s].tenant in db.tenants)
    && (forall i | i in db.items :: db.items[i] in db.plans)
    && KeysUnique(db.plans)
  }

  predicate SameSlot(a: Sub, b: Sub) {
    a.active && b.active && a.tenant == b.tenant && a.feature.Some? && a.feature == b.feature
  }

  /** At most one active subscription per tenant and feature: what the 0042 index enforces. */
  predicate SingleActive(subs: map<SubId, Sub>) {
    forall i, j | i in subs && j in subs && SameSlot(subs[i], subs[j]) :: i == j
  }

  predicate Fits(plans: map<PlanId, Plan>, s: Sub) { s.plan in plans && s.feature == plans[s.plan].feature }

  ghost predicate FeaturesMatch(db: Db) {
    forall s | s in db.subs :: Fits(db.plans, db.subs[s])
  }

  predicate IsHousewife(s: Sub, t: TenantId) { s.tenant == t && s.active && s.feature == Some(Housewife) }

  predicate HasHousewife(subs: map<SubId, Sub>, t: TenantId) {
    exists s | s in subs :: IsHousewife(subs[s], t)
  }

  ghost predicate Entitled(subs: map<SubId, Sub>, t: TenantId) {
    exists s | s in subs :: IsHousewife(subs[s], t) && subs[s].grandfathered.Some?
  }

  predicate Approved(db: Db, t: TenantId) { t in db.tenants && db.tenants[t] }

  /** Every row of `a` is in `b` as it was. */
  ghost predicate Extends<K, V>(a: map<K, V>, b: map<K, V>) {
    forall k | k in a :: k in b && b[k] == a[k]
  }

  // ---------------------------------------------------------------- 0041, steps 5, 8 and 9

  function WithFeatures(db: Db): map<SubId, Sub> {
    map s | s in db.subs ::
      if db.subs[s].feature == None && db.subs[s].plan in db.plans
        then db.subs[s].(feature := db.plans[db.subs[s].plan].feature)
      else db.subs[s]
  }

  predicate MissesFeature(subs: map<SubId, Sub>) {
    exists s | s in subs :: subs[s].feature == None
  }

  predicate Due(s: Sub, tenants: map<TenantId, bool>) {
    s.tenant in tenants && tenants[s.tenant] && IsHousewife(s, s.tenant) && s.grandfathered == None
  }

  function WithGrandfathers(subs: map<SubId, Sub>, tenants: map<TenantId, bool>, now: int): map<SubId, Sub> {
    map s | s in subs :: if Due(subs[s], tenants) then subs[s].(grandfathered := Some(now)) else subs[s]
  }

  predicate HasKey(plans: map<PlanId, Plan>, key: PlanKey) {
    exists p | p in plans :: plans[p].key == key
  }

  /** INSERT ... ON CONFLICT (plan_key) DO NOTHING; a conflict on the primary key is still an error. */
  function InsertPlan(plans: map<PlanId, Plan>, id: PlanId, plan: Plan): Option<map<PlanId, Plan>> {
    if HasKey(plans, plan.key) then Some(plans)
    else if id in plans then None
    else Some(plans[id := plan])
  }

  lemma InsertPlanKeeps(plans: map<PlanId, Plan>, id: PlanId, plan: Plan)
    requires KeysUnique(plans) && InsertPlan(plans, id, plan).Some?
    ensures var after := InsertPlan(plans, id, plan).value;
      KeysUnique(after) && HasKey(after, plan.key) && Extends(plans, after)
    ensures forall p | p in InsertPlan(plans, id, plan).value && p !in plans ::
      InsertPlan(plans, id, plan).value[p] == plan
  {
    var after := InsertPlan(plans, id, plan).value;
    if !HasKey(plans, plan.key) {
      assert id in after && after[id].key == plan.key;
    }
  }

  function Free(): Plan { Plan(FreeKey, Some(Housewife), true, true) }
  function Grandfathered(): Plan { Plan(GrandfatheredKey, Some(Housewife), true, false) }

  /** A plan id is taken under another key, so that one of the two inserts fails. */
  predicate PlanIdTaken(plans: map<PlanId, Plan>) {
    || (FreeId in plans && !HasKey(plans, FreeKey))
    || (GrandfatheredId in plans && !HasKey(plans, GrandfatheredKey))
  }

  function TwoPlans(plans: map<PlanId, Plan>): Option<map<PlanId, Plan>> {
    match InsertPlan(plans, FreeId, Free())
    case None => None
    case Some(one) => InsertPlan(one, GrandfatheredId, Grandfathered())
  }

  lemma TwoPlansKeeps(plans: map<PlanId, Plan>)
    requires KeysUnique(plans)
    ensures TwoPlans(plans) == None <==> PlanIdTaken(plans)
    ensures TwoPlans(plans).Some? ==> var after := TwoPlans(plans).value; KeysUnique(after) && Extends(plans, after)
    ensures TwoPlans(plans).Some? ==>
      HasKey(TwoPlans(plans).value, GrandfatheredKey) && HasKey(TwoPlans(plans).value, FreeKey)
    ensures TwoPlans(plans).Some? ==>
      var after := TwoPlans(plans).value; forall p | p in after && p !in plans :: after[p] in {Free(), Grandfathered()}
  {
    var first := InsertPlan(plans, FreeId, Free());
    if first.Some? {
      var one := first.value;
      InsertPlanKeeps(plans, FreeId, Free());
      assert HasKey(one, GrandfatheredKey) == HasKey(plans, GrandfatheredKey) by {
        if HasKey(plans, GrandfatheredKey) {
          var p :| p in plans && plans[p].key == GrandfatheredKey;
          assert p in one && one[p].key == GrandfatheredKey;
        }
      }
      assert GrandfatheredId in one <==> GrandfatheredId in plans;
      if InsertPlan(one, GrandfatheredId, Grandfathered()).Some? {
        InsertPlanKeeps(one, GrandfatheredId, Grandfathered());
        var two := InsertPlan(one, GrandfatheredId, Grandfathered()).value;
        var p :| p in one && one[p].key == FreeKey;
        assert p in two && two[p].key == FreeKey;
      }
    }
  }

  // ---------------------------------------------------------------- 0041, step 10

  /** A subscription that step 10 adds to `db`. */
  ghost predicate Granted(db: Db, s: Sub, now: int) {
    && Approved(db, s.tenant) && !HasHousewife(db.subs, s.tenant)
    && IsHousewife(s, s.tenant) && s.grandfathered == Some(now)
    && s.plan in db.plans && db.plans[s.plan].key == GrandfatheredKey
  }

  /** `subs` is what step 10 makes of `db` once every tenant outside `missing` has been served. */
  ghost predicate Served(db: Db, subs: map<SubId, Sub>, missing: set<TenantId>, now: int) {
    && Extends(db.subs, subs)
    && (forall s | s in subs && s !in db.subs :: Granted(db, subs[s], now) && subs[s].tenant !in missing)
    && (forall i, j | i in subs && j in subs && i !in db.subs && j !in db.subs && subs[i].tenant == subs[j].tenant ::
      i == j)
    && (forall t | Approved(db, t) && t !in missing && !HasHousewife(db.subs, t) :: Entitled(subs, t))
  }

  lemma ServeOne(db: Db, subs: map<SubId, Sub>, missing: set<TenantId>, now: int, id: SubId, s: Sub)
    requires Served(db, subs, missing, now) && id !in subs && id !in db.subs
    requires Granted(db, s, now) && s.tenant in missing
    ensures Served(db, subs[id := s], missing - {s.tenant}, now)
  {
  }

  /** Granting gives no tenant a second active subscription of a feature, keeps references, and leaves every approved
   *  tenant entitled when the active subscriptions of approved tenants had been marked before. */
  lemma GrantsAreSound(db: Db, subs: map<SubId, Sub>, now: int)
    requires Intact(db) && Served(db, subs, {}, now)
    ensures Intact(db.(subs := subs))
    ensures forall i, j | i in subs && j in subs && SameSlot(subs[i], subs[j]) ::
      i == j || (i in db.subs && j in db.subs)
    ensures (forall s | s in db.subs :: !Due(db.subs[s], db.tenants)) ==>
      forall t | Approved(db, t) :: Entitled(subs, t)
  {
  }

  /** The database between steps 9 and 10. */
  function Marked(db: Db, now: int): Db
    requires TwoPlans(db.plans).Some?
  {
    db.(subs := WithGrandfathers(WithFeatures(db), db.tenants, now), plans := TwoPlans(db.plans).value)
  }

  lemma MarkedRows(subs: map<SubId, Sub>, tenants: map<TenantId, bool>, now: int)
    ensures var m := WithGrandfathers(subs, tenants, now); forall s | s in m :: !Due(m[s], tenants)
    ensures SingleActive(subs) <==> SingleActive(WithGrandfathers(subs, tenants, now))
  {
    var m := WithGrandfathers(subs, tenants, now);
    assert subs.Keys == m.Keys;
    assert forall i, j | i in subs && j in subs :: SameSlot(subs[i], subs[j]) <==> SameSlot(m[i], m[j]);
  }

  lemma MarkedIntact(db: Db, now: int)
    requires Intact(db) && TwoPlans(db.plans).Some?
    ensures Intact(Marked(db, now)) && HasKey(Marked(db, now).plans, GrandfatheredKey)
  {
    TwoPlansKeeps(db.plans);
    var subs, plans := Marked(db, now).subs, TwoPlans(db.plans).value;
    forall s | s in subs ensures subs[s].plan in plans && subs[s].tenant in db.tenants { assert s in db.subs; }
  }

  lemma MarkedIsSound(db: Db, now: int)
    requires Intact(db) && TwoPlans(db.plans).Some?
    ensures Intact(Marked(db, now)) && HasKey(Marked(db, now).plans, GrandfatheredKey)
    ensures forall s | s in Marked(db, now).subs :: !Due(Marked(db, now).subs[s], db.tenants)
    ensures SingleActive(WithFeatures(db)) <==> SingleActive(Marked(db, now).subs)
  {
    MarkedIntact(db, now);
    MarkedRows(WithFeatures(db), db.tenants, now);
  }

  // ---------------------------------------------------------------- what the migrations promise of rows

  /** Steps 5 and 9 of 0041 on one row, given its plan's feature and whether its tenant is approved: an empty feature
   *  key becomes the plan's, and an unflagged active housewife subscription of an approved tenant gains the flag. */
  predicate MarksRow(before: Sub, feature: Option<Feature>, approved: bool, now: int, after: Sub) {
    && after.tenant == before.tenant && after.plan == before.plan && after.active == before.active
    && after.feature == (if before.feature == None then feature else before.feature)
    && after.grandfathered ==
      (if approved && before.active && after.feature == Some(Housewife) && before.grandfathered == None then Some(now)
       else before.grandfathered)
  }

  ghost predicate MarksRows(before: Db, subs: map<SubId, Sub>, now: int)
    requires Intact(before)
  {
    forall s | s in before.subs ::
      var row := before.subs[s];
      s in subs && MarksRow(row, before.plans[row.plan].feature, before.tenants[row.tenant], now, subs[s])
  }

  /** Step 8: nothing but the two plans is added, each under its own id and only where its key was free. */
  ghost predicate AddsTwoPlans(before: map<PlanId, Plan>, after: map<PlanId, Plan>) {
    && (forall p | p in before :: p in after && after[p] == before[p])
    && (forall p | p in after && p !in before ::
      || (p == FreeId && after[p] == Plan(FreeKey, Some(Housewife), true, true))
      || (p == GrandfatheredId && after[p] == Plan(GrandfatheredKey, Some(Housewife), true, false)))
    && (exists p :: p in after && after[p].key == FreeKey)
    && (exists p :: p in after && after[p].key == GrandfatheredKey)
  }

  /** Step 10: every new row is an active, flagged housewife subscription of an approved tenant that had none, on the
   *  grandfathered plan, and no tenant has two of them. */
  ghost predicate GrantsRows(before: Db, after: Db, now: int) {
    && (forall s | s in after.subs && s !in before.subs ::
      var row := after.subs[s];
      && row == Sub(row.tenant, row.plan, Some(Housewife), true, Some(now))
      && row.plan in after.plans && after.plans[row.plan].key == GrandfatheredKey
      && row.tenant in before.tenants && before.tenants[row.tenant]
      && (forall i | i in after.subs && i != s && after.subs[i].tenant == row.tenant ::
        !(after.subs[i].active && after.subs[i].feature == Some(Housewife))))
  }

  /** Steps 5 to 8 leave a subscription without a feature key. */
  predicate LacksFeature(db: Db) {
    exists s :: s in db.subs && db.subs[s].feature == None
      && (db.subs[s].plan in db.plans ==> db.plans[db.subs[s].plan].feature == None)
  }

  /** Two active subscriptions of one tenant share a feature key; `only` narrows it to one feature. */
  predicate TwoActive(subs: map<SubId, Sub>, only: Option<Feature>) {
    exists i, j :: i in subs && j in subs && i != j && subs[i].active && subs[j].active
      && subs[i].tenant == subs[j].tenant && subs[i].feature == subs[j].feature
      && subs[i].feature != None && (only == None || subs[i].feature == only)
  }

  /** A subscription is active on the base plan, and there is no free plan to move it to. */
  predicate LacksFreePlan(db: Db) {
    FreeId !in db.plans && exists s :: s in db.subs && db.subs[s].active && db.subs[s].plan == BaseId
  }

  lemma MarkedRowsAre(start: Db, now: int)
    requires Intact(start) && TwoPlans(start.plans).Some?
    ensures MarksRows(start, Marked(start, now).subs, now)
  {
  }

  lemma LackingIs(db: Db)
    ensures MissesFeature(WithFeatures(db)) <==> LacksFeature(db)
  {
    var filled := WithFeatures(db);
    if s :| s in filled && filled[s].feature == None { assert s in db.subs; }
    if LacksFeature(db) {
      var s :| s in db.subs && db.subs[s].feature == None
        && (db.subs[s].plan in db.plans ==> db.plans[db.subs[s].plan].feature == None);
      assert s in filled && filled[s].feature == None;
    }
  }

  lemma TwoPlansAdded(plans: map<PlanId, Plan>)
    requires KeysUnique(plans) && TwoPlans(plans).Some?
    ensures AddsTwoPlans(plans, TwoPlans(plans).value)
  {
    TwoPlansKeeps(plans);
    var after := TwoPlans(plans).value;
    var p :| p in after && after[p].key == FreeKey;
    var q :| q in after && after[q].key == GrandfatheredKey;
  }

  lemma GrantedRowsAre(start: Db, after: Db, now: int)
    requires TwoPlans(start.plans).Some? && after == Marked(start, now).(subs := after.subs)
    requires Served(Marked(start, now), after.subs, {}, now)
    ensures GrantsRows(start, after, now)
  {
    var marked := Marked(start, now);
    assert marked.subs.Keys == start.subs.Keys;
    forall s, i | s in after.subs && s !in start.subs && i in after.subs && i != s
      && after.subs[i].tenant == after.subs[s].tenant
      ensures !(after.subs[i].active && after.subs[i].feature == Some(Housewife))
    {
      assert Granted(marked, after.subs[s], now);
      if i in marked.subs { assert !IsHousewife(marked.subs[i], after.subs[s].tenant); }
    }
  }

  lemma TwoActiveIs(subs: map<SubId, Sub>)
    ensures TwoActive(subs, None) <==> !SingleActive(subs)
  {
  }

  class Billing {
    var db: Db
    var indexed: bool

    constructor (db: Db)
      ensures this.db == db && !indexed
    {
      this.db, indexed := db, false;
    }

    ghost predicate Valid() reads this { Intact(db) && (indexed ==> SingleActive(db.subs)) }

    /** Step 10: one grandfathered subscription for every approved tenant that has no active one, in any order. */
    method GrantMissing(now: int, firstId: SubId)
      requires forall s | s in db.subs :: s < firstId
      requires HasKey(db.plans, GrandfatheredKey)
      modifies this`db
      ensures db == old(db).(subs := db.subs) && Served(old(db), db.subs, {}, now)
    {
      var missing := set t | t in db.tenants && db.tenants[t] && !HasHousewife(db.subs, t);
      var p :| p in db.plans && db.plans[p].key == GrandfatheredKey;
      var next := firstId;
      while missing != {}
        invariant next >= firstId && forall s | s in db.subs :: s < next
        invariant forall t | t in missing :: Approved(old(db), t) && !HasHousewife(old(db).subs, t)
        invariant db == old(db).(subs := db.subs) && Served(old(db), db.subs, missing, now)
        decreases |missing|
      {
        var t :| t in missing;
        var sub := Sub(t, p, Some(Housewife), true, Some(now));
        ServeOne(old(db), db.subs, missing, now, next, sub);
        db := db.(subs := db.subs[next := sub]);
        missing := missing - {t};
        next := next + 1;
      }
    }

    /** 0041. Refused exactly for a subscription that is left without a feature key or a plan id taken under another
     *  key; otherwise it is steps 5, 8 and 9 and then the missing grants. */
    method Upgrade0041(now: int, firstId: SubId) returns (r: Outcome)
      requires Intact(db) && (forall s | s in db.subs :: s < firstId)
      modifies this`db
      ensures r == DataError <==> LacksFeature(old(db))
      ensures r == ConstraintError <==> !LacksFeature(old(db)) && PlanIdTaken(old(db).plans)
      ensures r == Done || ((r == DataError || r == ConstraintError) && db == old(db))
      ensures r == Done ==> TwoPlans(old(db).plans).Some? && db == Marked(old(db), now).(subs := db.subs)
      ensures r == Done ==> Intact(db) && Served(Marked(old(db), now), db.subs, {}, now)
      ensures r == Done ==> db.tenants == old(db).tenants && db.items == old(db).items
      ensures r == Done ==> AddsTwoPlans(old(db).plans, db.plans)
      ensures r == Done ==> MarksRows(old(db), db.subs, now) && GrantsRows(old(db), db, now)
      ensures r == Done ==> forall t | t in db.tenants && db.tenants[t] :: Entitled(db.subs, t)
    {
      LackingIs(db);
      if MissesFeature(WithFeatures(db)) { return DataError; }
      TwoPlansKeeps(db.plans);
      var plans := TwoPlans(db.plans);
      if plans == None { return ConstraintError; }
      MarkedIsSound(db, now);
      db := db.(subs := WithGrandfathers(WithFeatures(db), db.tenants, now), plans := plans.value);
      GrantMissing(now, firstId);
      GrantsAreSound(Marked(old(db), now), db.subs, now);
      TwoPlansAdded(old(db).plans);
      MarkedRowsAre(old(db), now);
      GrantedRowsAre(old(db), db, now);
      return Done;
    }

    /** 0042: refused exactly while two active subscriptions share tenant and feature, or when the index is there. */
    method Upgrade0042() returns (r: Outcome)
      requires Valid() && !MissesFeature(db.subs)
      modifies this`indexed
      ensures Valid()
      ensures r == Duplicates <==> TwoActive(db.subs, None)
      ensures r == IndexExists <==> old(indexed)
      ensures r == Done || ((r == Duplicates || r == IndexExists) && indexed == old(indexed))
      ensures r == Done ==> indexed
    {
      TwoActiveIs(db.subs);
      if !SingleActive(db.subs) { return Duplicates; }
      if indexed { return IndexExists; }
      indexed := true;
      return Done;
    }

    /** DELETE at zero references, otherwise the plan is retired. */
    method DropPlanIfUnreferenced(p: PlanId)
      modifies this`db
      ensures db == Dropped(old(db), p)
      ensures Intact(old(db)) ==> Intact(db)
      ensures p in db.plans <==> p in old(db).plans && Referenced(db.subs, db.items, p)
      ensures p in db.plans ==> !db.plans[p].isActive && !db.plans[p].isPublic
      ensures forall q | q != p :: q in db.plans <==> q in old(db).plans
      ensures forall q | q in db.plans ::
        db.plans[q] == old(db).plans[q]
          || (q == p && db.plans[q] == old(db).plans[q].(isActive := false, isPublic := false))
    {
      if Intact(db) { DroppedKeeps(db, p); }
      if !Referenced(db.subs, db.items, p) {
        db := db.(plans := db.plans - {p});
      } else if p in db.plans {
        db := db.(plans := db.plans[p := Retired(db.plans[p])]);
      }
    }

    /** 0063. Under the 0042 index its abort is unreachable. */
    method Upgrade0063(now: int) returns (r: Outcome)
      requires Valid()
      modifies this`db
      ensures Valid()
      ensures r == Duplicates <==> TwoActive(old(db).subs, Some(Housewife))
      ensures old(indexed) ==> r != Duplicates
      ensures r == ConstraintError <==> !TwoActive(old(db).subs, Some(Housewife)) && LacksFreePlan(old(db))
      ensures r == Done || ((r == Duplicates || r == ConstraintError) && db == old(db))
      ensures r == Done ==> Merges(old(db), db, now)
    {
      IndexForbidsDuplicates(db.subs);
      r := if TwoActive(db.subs, Some(Housewife)) then Duplicates
           else if LacksFreePlan(db) then ConstraintError else Done;
      if r == Done { MovePlans(now); }
    }

    /** The UPDATE and the two drops. */
    method MovePlans(now: int)
      requires Intact(db) && !LacksFreePlan(db)
      modifies this`db
      ensures Merges(old(db), db, now)
      ensures Intact(db) && (SingleActive(old(db).subs) ==> SingleActive(db.subs))
    {
      MergeIsSound(db, now);
      db := db.(subs := Merged(db.subs, now));
      DropPlanIfUnreferenced(BaseId);
      DropPlanIfUnreferenced(GrandfatheredId);
    }
  }

  /** 0041, 0042 and 0063 in order. A completed chain leaves every approved tenant entitled under the index, and it is
   *  refused as ambiguous exactly for a duplicate that was there before. */
  method RunChain(billing: Billing, now: int, later: int, firstId: SubId) returns (r: Outcome)
    requires billing.Valid() && !billing.indexed && (forall s | s in billing.db.subs :: s < firstId)
    modifies billing
    ensures billing.Valid()
    ensures r == Done ==>
      billing.indexed && billing.db.tenants == old(billing.db).tenants && billing.db.items == old(billing.db).items
    ensures r == Done ==> forall t | Approved(billing.db, t) :: Entitled(billing.db.subs, t)
    ensures r == Done ==> NothingLost(old(billing.db).subs, billing.db.subs)
    ensures r == Duplicates <==> RefusedAsDuplicate(old(billing.db))
    ensures r == Done ==> TwoPlans(old(billing.db).plans).Some?
    ensures r == Done && SetFeaturesFit(old(billing.db)) ==>
      (FeaturesMatch(billing.db) <==> ChainKeepsFeatures(old(billing.db)))
  {
    ghost var start := billing.db;
    LackingIs(start);
    TwoActiveIs(WithFeatures(start));
    r := billing.Upgrade0041(now, firstId);
    if r != Done { return; }
    ghost var mid := billing.db;
    ChainAfter0041(start, mid, now);
    if SetFeaturesFit(start) { ChainFeatures(start, mid.subs, now, later); }
    TwoActiveIs(mid.subs);
    r := billing.Upgrade0042();
    if r != Done { return; }
    r := billing.Upgrade0063(later);
    if r != Done { return; }
    MergesDecides(mid, billing.db, later);
    MergedRows(mid.subs, later);
    LostComposes(start.subs, mid.subs, billing.db.subs);
  }

  predicate RefusedAsDuplicate(db: Db) {
    !LacksFeature(db) && !PlanIdTaken(db.plans) && TwoActive(WithFeatures(db), None)
  }

  lemma MarkedLosesNothing(start: Db, now: int)
    requires TwoPlans(start.plans).Some?
    ensures NothingLost(start.subs, Marked(start, now).subs)
  {
  }

  lemma ChainAfter0041(start: Db, mid: Db, now: int)
    requires Intact(start) && TwoPlans(start.plans).Some? && !MissesFeature(WithFeatures(start))
    requires mid == Marked(start, now).(subs := mid.subs) && Served(Marked(start, now), mid.subs, {}, now)
    ensures mid.tenants == start.tenants && mid.items == start.items && !MissesFeature(mid.subs)
    ensures SingleActive(WithFeatures(start)) <==> SingleActive(mid.subs)
    ensures NothingLost(start.subs, mid.subs)
  {
    MarkedLosesNothing(start, now);
    NewRowsHaveFeatures(start, mid.subs, now);
    NoNewDuplicates(start, mid.subs, now);
  }

  lemma NoNewDuplicates(start: Db, subs: map<SubId, Sub>, now: int)
    requires Intact(start) && TwoPlans(start.plans).Some? && Served(Marked(start, now), subs, {}, now)
    ensures SingleActive(WithFeatures(start)) <==> SingleActive(subs)
  {
    MarkedIsSound(start, now);
    GrantsAreSound(Marked(start, now), subs, now);
    var marked := Marked(start, now).subs;
    if SingleActive(marked) {
      forall i, j | i in subs && j in subs && SameSlot(subs[i], subs[j]) ensures i == j {
        if i in marked && j in marked { assert SameSlot(marked[i], marked[j]); }
      }
    }
  }

  lemma LostComposes(a: map<SubId, Sub>, b: map<SubId, Sub>, c: map<SubId, Sub>)
    requires NothingLost(a, b) && NothingLost(b, c)
    ensures NothingLost(a, c)
  {
  }

  lemma NewRowsHaveFeatures(start: Db, subs: map<SubId, Sub>, now: int)
    requires TwoPlans(start.plans).Some? && !MissesFeature(WithFeatures(start))
      && Served(Marked(start, now), subs, {}, now)
    ensures !MissesFeature(subs)
  {
  }

  /** What a chain may not do to a subscription: move it to another tenant, stop it, or forget its grandfathering. */
  predicate Lost(before: Sub, after: Sub) {
    before.tenant != after.tenant || before.active != after.active
    || (before.grandfathered.Some? && after.grandfathered != before.grandfathered)
    || (before.feature.Some? && after.feature != before.feature)
  }

  predicate NothingLost(before: map<SubId, Sub>, after: map<SubId, Sub>) {
    forall s | s in before :: s in after && !Lost(before[s], after[s])
  }

  /** The plan that step 10 grants, if it was there before, belongs to the housewife feature. ON CONFLICT keeps it as
   *  it is. */
  predicate GrantsHousewife(plans: map<PlanId, Plan>) {
    forall p | p in plans && plans[p].key == GrandfatheredKey :: plans[p].feature == Some(Housewife)
  }

  /** Feature keys that were set before agree with their plans. The column is new, so on a first run none is set. */
  predicate SetFeaturesFit(db: Db) {
    forall s | s in db.subs && db.subs[s].feature.Some? :: Fits(db.plans, db.subs[s])
  }

  lemma MarkedFits(start: Db, now: int)
    requires Intact(start) && TwoPlans(start.plans).Some?
    ensures FeaturesMatch(Marked(start, now)) <==> SetFeaturesFit(start)
  {
    TwoPlansKeeps(start.plans);
    var marked := Marked(start, now);
    forall s | s in start.subs
      ensures Fits(marked.plans, marked.subs[s]) <==> start.subs[s].feature == None || Fits(start.plans, start.subs[s])
    {
      assert start.subs[s].plan in start.plans;
    }
    assert marked.subs.Keys == start.subs.Keys;
  }

  lemma GrantFits(start: Db, now: int, s: Sub)
    requires Intact(start) && TwoPlans(start.plans).Some? && Granted(Marked(start, now), s, now)
    ensures Fits(TwoPlans(start.plans).value, s) <==> GrantsHousewife(start.plans)
    ensures HasKey(start.plans, GrandfatheredKey) ==> s.plan in start.plans
  {
    TwoPlansKeeps(start.plans);
    var plans := TwoPlans(start.plans).value;
    assert s.plan !in start.plans ==> plans[s.plan] in {Free(), Grandfathered()};
    if p :| p in start.plans && start.plans[p].key == GrandfatheredKey {
      assert p in plans && plans[p].key == plans[s.plan].key;
    }
  }

  /** An approved tenant without a subscription, and a grandfathered plan of another feature. */
  function GrantElsewhere(): Db {
    Db(map[1 := true], map[OtherId(0) := Plan(GrandfatheredKey, Some(OtherFeature(0)), true, false)], map[], map[])
  }

  /** A database on which 0041 runs through and leaves a feature key that is not its plan's. */
  method GrantCanBreakFeatures(now: int) returns (r: Outcome, after: Db)
    ensures r == Done && Intact(after) && !FeaturesMatch(after)
  {
    var start := GrantElsewhere();
    var billing := new Billing(start);
    assert !HasKey(start.plans, FreeKey) && start.plans[OtherId(0)].key == GrandfatheredKey;
    r := billing.Upgrade0041(now, 0);
    after := billing.db;
    assert 1 in start.tenants && start.tenants[1] && !HasHousewife(WithFeatures(start), 1);
    FeaturesMatchAfter0041(start, after.subs, now);
  }

  predicate GrantsNeeded(db: Db) {
    exists t | t in db.tenants :: db.tenants[t] && !HasHousewife(WithFeatures(db), t)
  }

  lemma NewRowsWhenNeeded(start: Db, subs: map<SubId, Sub>, now: int)
    requires TwoPlans(start.plans).Some? && Served(Marked(start, now), subs, {}, now)
    ensures GrantsNeeded(start) <==> exists s | s in subs :: s !in start.subs
  {
    var marked := Marked(start, now);
    forall t ensures HasHousewife(marked.subs, t) <==> HasHousewife(WithFeatures(start), t) {
      MarkingKeepsHousewives(WithFeatures(start), start.tenants, now, t);
    }
    if t :| t in start.tenants && start.tenants[t] && !HasHousewife(WithFeatures(start), t) {
      assert Approved(marked, t) && Entitled(subs, t);
      var s :| s in subs && IsHousewife(subs[s], t);
      assert s !in marked.subs;
    }
    if s :| s in subs && s !in start.subs {
      assert Granted(marked, subs[s], now);
    }
  }

  lemma MarkingKeepsHousewives(subs: map<SubId, Sub>, tenants: map<TenantId, bool>, now: int, t: TenantId)
    ensures HasHousewife(WithGrandfathers(subs, tenants, now), t) <==> HasHousewife(subs, t)
  {
    var m := WithGrandfathers(subs, tenants, now);
    assert m.Keys == subs.Keys && forall s | s in subs :: IsHousewife(m[s], t) <==> IsHousewife(subs[s], t);
  }

  /** After 0041 every feature key equals its plan's exactly when those already set did, and either nothing was granted
   *  or the granted plan is a housewife plan. */
  lemma FeaturesMatchAfter0041(start: Db, subs: map<SubId, Sub>, now: int)
    requires Intact(start) && TwoPlans(start.plans).Some? && Served(Marked(start, now), subs, {}, now)
    ensures FeaturesMatch(Marked(start, now).(subs := subs)) <==>
            SetFeaturesFit(start) && (!GrantsNeeded(start) || GrantsHousewife(start.plans))
  {
    var marked := Marked(start, now);
    MarkedFits(start, now);
    assert forall s | s in marked.subs :: subs[s] == marked.subs[s];
    forall s | s in subs && s !in start.subs ensures Fits(marked.plans, subs[s]) <==> GrantsHousewife(start.plans) {
      GrantFits(start, now, subs[s]);
    }
    NewRowsWhenNeeded(start, subs, now);
  }

  /** A pending tenant's subscriptions gain the feature key of their plan, and nothing else. */
  lemma PendingUntouched(start: Db, subs: map<SubId, Sub>, now: int, t: TenantId)
    requires TwoPlans(start.plans).Some? && Served(Marked(start, now), subs, {}, now)
    requires !Approved(start, t)
    ensures forall s | s in subs && subs[s].tenant == t :: s in start.subs && subs[s] == WithFeatures(start)[s]
    ensures forall s | s in start.subs && start.subs[s].tenant == t :: s in subs && subs[s] == WithFeatures(start)[s]
  {
  }

  // ---------------------------------------------------------------- 0063

  predicate Movable(s: Sub) { s.plan == BaseId && s.active }

  function Merged(subs: map<SubId, Sub>, now: int): map<SubId, Sub> {
    map s | s in subs :: Moved(subs[s], now)
  }

  function Moved(s: Sub, now: int): Sub {
    if Movable(s) then s.(plan := FreeId, grandfathered := if s.grandfathered.Some? then s.grandfathered else Some(now))
    else s
  }

  predicate Referenced(subs: map<SubId, Sub>, items: map<ItemId, PlanId>, p: PlanId) {
    (exists s | s in subs :: subs[s].plan == p) || exists i | i in items :: items[i] == p
  }

  function Retired(p: Plan): Plan { p.(isActive := false, isPublic := false) }

  /** The plans after `_drop_plan_if_unreferenced`, given whether the plan was referenced. */
  function Without(plans: map<PlanId, Plan>, p: PlanId, referenced: bool): map<PlanId, Plan> {
    if !referenced then plans - {p}
    else if p in plans then plans[p := Retired(plans[p])]
    else plans
  }

  function Dropped(db: Db, p: PlanId): Db {
    db.(plans := Without(db.plans, p, Referenced(db.subs, db.items, p)))
  }

  function After0063(db: Db, now: int): Db {
    Dropped(Dropped(db.(subs := Merged(db.subs, now)), BaseId), GrandfatheredId)
  }

  lemma WithoutKeeps(plans: map<PlanId, Plan>, p: PlanId, referenced: bool)
    ensures KeysUnique(plans) ==> KeysUnique(Without(plans, p, referenced))
    ensures forall q | q in plans && (q != p || referenced) :: q in Without(plans, p, referenced)
  {
  }

  lemma WithoutAgain(plans: map<PlanId, Plan>, p: PlanId, a: bool, q: PlanId, b: bool)
    requires p != q
    ensures var w := Without(Without(plans, p, a), q, b); Without(w, p, a) == w && Without(w, q, b) == w
  {
  }

  lemma DroppedKeeps(db: Db, p: PlanId)
    requires Intact(db)
    ensures Intact(Dropped(db, p))
  {
    WithoutKeeps(db.plans, p, Referenced(db.subs, db.items, p));
  }

  lemma MovedKeepsIntact(db: Db, now: int)
    requires Intact(db) && !LacksFreePlan(db)
    ensures Intact(db.(subs := Merged(db.subs, now)))
  {
  }

  lemma MergeKeepsIntact(db: Db, now: int)
    requires Intact(db) && !LacksFreePlan(db)
    ensures Intact(After0063(db, now))
  {
    var m := db.(subs := Merged(db.subs, now));
    MovedKeepsIntact(db, now);
    DroppedKeeps(m, BaseId);
    DroppedKeeps(Dropped(m, BaseId), GrandfatheredId);
  }

  lemma IndexForbidsDuplicates(subs: map<SubId, Sub>)
    ensures SingleActive(subs) ==> !TwoActive(subs, Some(Housewife))
  {
  }

  /** The UPDATE of 0063 row by row: what was active on the base plan is on the free plan, flagged by then at the
   *  latest, and everything else is exactly as it was. */
  predicate MergesRows(before: map<SubId, Sub>, after: map<SubId, Sub>, now: int) {
    && after.Keys == before.Keys
    && (forall s | s in before && before[s].active && before[s].plan == BaseId && before[s].grandfathered == None ::
      after[s] == Sub(before[s].tenant, FreeId, before[s].feature, true, Some(now)))
    && (forall s | s in before && before[s].active && before[s].plan == BaseId && before[s].grandfathered.Some? ::
      after[s] == Sub(before[s].tenant, FreeId, before[s].feature, true, before[s].grandfathered))
    && (forall s | s in before && !(before[s].active && before[s].plan == BaseId) :: after[s] == before[s])
  }

  /** The two drops, given the database after them: the base and the grandfathered plan stay, retired, exactly if
   *  something still refers to them, and every other plan is as it was. */
  predicate MergesPlans(before: map<PlanId, Plan>, after: Db) {
    && (forall p | p in before && p != BaseId && p != GrandfatheredId ::
      p in after.plans && after.plans[p] == before[p])
    && (forall p | p in after.plans :: p in before)
    && (forall p | p in before && (p == BaseId || p == GrandfatheredId) :: p in after.plans <==>
      (exists s | s in after.subs :: after.subs[s].plan == p) || (exists i | i in after.items :: after.items[i] == p))
    && (forall p | p in after.plans && (p == BaseId || p == GrandfatheredId) ::
      after.plans[p] == Plan(before[p].key, before[p].feature, false, false))
  }

  predicate Merges(before: Db, after: Db, now: int) {
    && after.tenants == before.tenants && after.items == before.items
    && MergesRows(before.subs, after.subs, now) && MergesPlans(before.plans, after)
  }

  lemma MergedPlans(db: Db, now: int)
    ensures MergesPlans(db.plans, After0063(db, now))
  {
  }

  /** The merge keeps the index, loses no grandfathering and no entitlement. */
  lemma MergedRows(subs: map<SubId, Sub>, now: int)
    ensures SingleActive(Merged(subs, now)) <==> SingleActive(subs)
    ensures MergesRows(subs, Merged(subs, now), now)
    ensures NothingLost(subs, Merged(subs, now))
    ensures forall t | Entitled(subs, t) :: Entitled(Merged(subs, now), t)
  {
    var m := Merged(subs, now);
    assert m.Keys == subs.Keys;
    assert forall i, j | i in subs && j in subs :: SameSlot(subs[i], subs[j]) <==> SameSlot(m[i], m[j]);
    forall t | Entitled(subs, t) ensures Entitled(m, t) {
      var s :| s in subs && IsHousewife(subs[s], t) && subs[s].grandfathered.Some?;
      assert s in m && IsHousewife(m[s], t);
    }
  }

  /** What 0063 promises leaves one result. */
  lemma MergesDecides(before: Db, after: Db, now: int)
    requires Merges(before, after, now)
    ensures after == After0063(before, now) && after.subs == Merged(before.subs, now)
  {
    RowsDecided(before.subs, after.subs, now);
    MergedPlans(before, now);
    PlansDecided(before.plans, after, After0063(before, now));
  }

  lemma RowsDecided(before: map<SubId, Sub>, after: map<SubId, Sub>, now: int)
    requires MergesRows(before, after, now)
    ensures after == Merged(before, now)
  {
    forall s | s in before ensures after[s] == Moved(before[s], now) { }
  }

  lemma PlansDecided(plans: map<PlanId, Plan>, a: Db, b: Db)
    requires MergesPlans(plans, a) && MergesPlans(plans, b) && a.subs == b.subs && a.items == b.items
    ensures a.plans == b.plans
  {
    forall p ensures p in a.plans <==> p in b.plans { }
    forall p | p in a.plans ensures a.plans[p] == b.plans[p] { assert p in plans; }
  }

  lemma MergeIsSound(db: Db, now: int)
    requires Intact(db) && !LacksFreePlan(db)
    ensures var after := After0063(db, now);
      && Intact(after) && (SingleActive(db.subs) ==> SingleActive(after.subs))
      && Merges(db, after, now)
  {
    MergeKeepsIntact(db, now);
    MergedRows(db.subs, now);
    MergedPlans(db, now);
  }

  lemma MergedAgain(subs: map<SubId, Sub>, now: int, later: int)
    ensures Merged(Merged(subs, now), later) == Merged(subs, now)
    ensures forall s | s in Merged(subs, now) :: !Movable(Merged(subs, now)[s])
  {
  }

  /** A second run changes nothing, and neither does it fail. */
  lemma MergeIsIdempotent(db: Db, now: int, later: int)
    ensures !LacksFreePlan(After0063(db, now)) && After0063(After0063(db, now), later) == After0063(db, now)
  {
    var m := Merged(db.subs, now);
    MergedAgain(db.subs, now, later);
    WithoutAgain(db.plans, BaseId, Referenced(m, db.items, BaseId),
      GrandfatheredId, Referenced(m, db.items, GrandfatheredId));
  }

  lemma WithoutKeepsFeatures(plans: map<PlanId, Plan>, p: PlanId, referenced: bool, s: Sub)
    requires s.plan != p || referenced
    ensures Fits(Without(plans, p, referenced), s) <==> Fits(plans, s)
  {
  }

  /** The two drops decide nothing about the features of plans in use. */
  lemma DropsKeepFeatures(db: Db)
    ensures FeaturesMatch(Dropped(Dropped(db, BaseId), GrandfatheredId)) <==> FeaturesMatch(db)
  {
    var once := Dropped(db, BaseId);
    forall s | s in db.subs
      ensures Fits(Dropped(once, GrandfatheredId).plans, db.subs[s]) <==> Fits(db.plans, db.subs[s])
    {
      WithoutKeepsFeatures(db.plans, BaseId, Referenced(db.subs, db.items, BaseId), db.subs[s]);
      WithoutKeepsFeatures(once.plans, GrandfatheredId, Referenced(db.subs, db.items, GrandfatheredId), db.subs[s]);
    }
  }

  predicate SameFeature(plans: map<PlanId, Plan>, p: PlanId, q: PlanId) {
    p in plans && q in plans && plans[p].feature == plans[q].feature
  }

  /** At the end of 0063 feature keys match plans exactly when nothing was moved or both plans have the same feature. */
  lemma MergeKeepsFeatures(db: Db, now: int)
    requires Intact(db) && FeaturesMatch(db)
    ensures FeaturesMatch(After0063(db, now)) <==>
            (forall s | s in db.subs :: !Movable(db.subs[s])) || SameFeature(db.plans, FreeId, BaseId)
  {
    var moved := db.(subs := Merged(db.subs, now));
    DropsKeepFeatures(moved);
    forall s | s in db.subs
      ensures Fits(db.plans, moved.subs[s]) <==> !Movable(db.subs[s]) || SameFeature(db.plans, FreeId, BaseId)
    {
      assert Fits(db.plans, db.subs[s]);
    }
    assert moved.subs.Keys == db.subs.Keys;
  }

  /** Where a subscription on plan `p` ends up, if it is active. */
  function Target(p: PlanId): PlanId { if p == BaseId then FreeId else p }

  predicate GrantLands(plans: map<PlanId, Plan>) {
    forall p | p in plans && plans[p].key == GrandfatheredKey ::
      Target(p) in plans && plans[Target(p)].feature == Some(Housewife)
  }

  /** What decides, before the chain, whether feature keys match plans at its end: subscriptions that will be moved go
   *  to a plan of the same feature, and a plan that will be granted ends up at the housewife feature. */
  predicate ChainKeepsFeatures(start: Db)
    requires TwoPlans(start.plans).Some?
  {
    var plans := TwoPlans(start.plans).value;
    && ((forall s | s in start.subs :: !Movable(start.subs[s])) || SameFeature(plans, FreeId, BaseId))
    && (!GrantsNeeded(start) || GrantLands(plans))
  }

  lemma OldRowFits(plans: map<PlanId, Plan>, s: Sub, later: int)
    requires Fits(plans, s)
    ensures Fits(plans, Moved(s, later)) <==> !Movable(s) || SameFeature(plans, FreeId, BaseId)
  {
  }

  lemma GrantedRowFits(plans: map<PlanId, Plan>, s: Sub, later: int)
    requires KeysUnique(plans) && s.plan in plans && plans[s.plan].key == GrandfatheredKey
    requires s.active && s.feature == Some(Housewife)
    ensures Fits(plans, Moved(s, later)) <==> GrantLands(plans)
  {
    assert forall p | p in plans && plans[p].key == GrandfatheredKey :: p == s.plan;
  }

  /** Old rows fit when they stay or the plans agree, new rows fit when grants land: all of them together. */
  lemma AllRowsFit(plans: map<PlanId, Plan>, olds: map<SubId, Sub>, rows: map<SubId, Sub>, agree: bool, land: bool)
    requires forall s | s in olds :: s in rows && (Fits(plans, rows[s]) <==> !Movable(olds[s]) || agree)
    requires forall s | s in rows && s !in olds :: Fits(plans, rows[s]) <==> land
    ensures (forall s | s in rows :: Fits(plans, rows[s])) <==>
            ((forall s | s in olds :: !Movable(olds[s])) || agree) && ((forall s | s in rows :: s in olds) || land)
  {
  }

  lemma OldRowsFit(start: Db, subs: map<SubId, Sub>, now: int, later: int)
    requires Intact(start) && TwoPlans(start.plans).Some? && SetFeaturesFit(start)
    requires Extends(Marked(start, now).subs, subs)
    ensures var plans, rows := TwoPlans(start.plans).value, Merged(subs, later);
      forall s | s in start.subs ::
        s in rows && (Fits(plans, rows[s]) <==> !Movable(start.subs[s]) || SameFeature(plans, FreeId, BaseId))
  {
    var marked := Marked(start, now);
    MarkedFits(start, now);
    forall s | s in start.subs
      ensures s in subs && Movable(subs[s]) == Movable(start.subs[s])
      ensures Fits(marked.plans, Moved(subs[s], later)) <==>
        !Movable(subs[s]) || SameFeature(marked.plans, FreeId, BaseId)
    {
      assert s in marked.subs && Fits(marked.plans, marked.subs[s]);
      OldRowFits(marked.plans, subs[s], later);
    }
  }

  lemma NewRowsFit(start: Db, subs: map<SubId, Sub>, now: int, later: int)
    requires Intact(start) && TwoPlans(start.plans).Some? && Served(Marked(start, now), subs, {}, now)
    ensures var plans, rows := TwoPlans(start.plans).value, Merged(subs, later);
      forall s | s in rows && s !in start.subs :: Fits(plans, rows[s]) <==> GrantLands(plans)
  {
    TwoPlansKeeps(start.plans);
    forall s | s in subs && s !in start.subs
      ensures Fits(TwoPlans(start.plans).value, Moved(subs[s], later)) <==> GrantLands(TwoPlans(start.plans).value)
    {
      assert Granted(Marked(start, now), subs[s], now);
      GrantedRowFits(TwoPlans(start.plans).value, subs[s], later);
    }
  }

  lemma ChainFeatures(start: Db, subs: map<SubId, Sub>, now: int, later: int)
    requires Intact(start) && TwoPlans(start.plans).Some? && SetFeaturesFit(start)
    requires Served(Marked(start, now), subs, {}, now)
    ensures FeaturesMatch(After0063(Marked(start, now).(subs := subs), later)) <==> ChainKeepsFeatures(start)
  {
    var plans, rows := TwoPlans(start.plans).value, Merged(subs, later);
    DropsKeepFeatures(Marked(start, now).(subs := rows));
    NewRowsWhenNeeded(start, subs, now);
    OldRowsFit(start, subs, now, later);
    NewRowsFit(start, subs, now, later);
    AllRowsFit(plans, start.subs, rows, SameFeature(plans, FreeId, BaseId), GrantLands(plans));
  }

  /** A database on which it fails: the free plan belongs to another feature. */
  lemma MergeCanBreakFeatures(now: int)
    ensures var db := FreeElsewhere();
      Intact(db) && FeaturesMatch(db) && SingleActive(db.subs)
        && !LacksFreePlan(db) && !FeaturesMatch(After0063(db, now))
  {
    var db := FreeElsewhere();
    assert Movable(db.subs[0]);
    FreeElsewhereIsIntact();
    MergeKeepsFeatures(db, now);
  }

  lemma FreeElsewhereIsIntact()
    ensures Intact(FreeElsewhere()) && FeaturesMatch(FreeElsewhere())
  {
  }

  function FreeElsewhere(): Db {
    Db(map[1 := true],
       map[BaseId := Plan(OtherKey(0), Some(Housewife), true, true),
         FreeId := Plan(FreeKey, Some(OtherFeature(0)), true, true)],
       map[0 := Sub(1, BaseId, Some(Housewife), true, None)], map[])
  }
}
