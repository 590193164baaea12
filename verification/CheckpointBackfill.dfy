/** Migration 0081: tenants of the checkpoint rows, recovered through the trace table.
 *
 * The key derivation is an arbitrary function of the secret and the base. Where the source relies on two bases
 * never deriving the same key, that is a hypothesis about the bases in the trace.
 */
module CheckpointBackfill {
  import opened Options

  type Tenant = nat
  type Base = nat
  type Durable = nat
  type RowId = nat

  datatype Trace = Trace(tenant: Option<Tenant>, base: Option<Base>)
  datatype Row = Row(thread: Durable, tenant: Option<Tenant>)
  type Table = map<RowId, Row>

  datatype Error = MissingSecret | Collision(bases: set<Base>)
  datatype Result<T> = Ok(value: T) | Err(error: Error)

  /** The trace names `t` for `b`; rows with a NULL on either side name nothing. */
  ghost predicate Names(trace: seq<Trace>, b: Base, t: Tenant) {
    Trace(Some(t), Some(b)) in trace
  }

  ghost predicate Ambiguous(trace: seq<Trace>, b: Base) {
    exists t, u :: Names(trace, b, t) && Names(trace, b, u) && t != u
  }

  /** Grouping the trace by base: refused with exactly the ambiguous bases, otherwise exactly the relation the
   *  trace states. */
  method CollectTenantByBase(trace: seq<Trace>) returns (r: Result<map<Base, Tenant>>)
    ensures r.Err? <==> exists b :: Ambiguous(trace, b)
    ensures r.Err? ==> r.error.Collision? && forall b :: b in r.error.bases <==> Ambiguous(trace, b)
    ensures r.Ok? ==> forall b, t :: Names(trace, b, t) <==> b in r.value && r.value[b] == t
  {
    var byBase: map<Base, set<Tenant>> := map[];
    for n := 0 to |trace|
      invariant forall b, t :: Names(trace[..n], b, t) <==> b in byBase && t in byBase[b]
      invariant forall b | b in byBase :: byBase[b] != {}
    {
      assert trace[..n + 1] == trace[..n] + [trace[n]];
      assert forall b, t :: Names(trace[..n + 1], b, t) <==>
        Names(trace[..n], b, t) || trace[n] == Trace(Some(t), Some(b));
      if trace[n].tenant.Some? && trace[n].base.Some? {
        var b, t := trace[n].base.value, trace[n].tenant.value;
        byBase := byBase[b := (if b in byBase then byBase[b] else {}) + {t}];
      }
    }
    assert trace[..|trace|] == trace;
    forall b | b in byBase
      ensures |byBase[b]| > 1 <==> Ambiguous(trace, b)
    {
      TwoMembers(byBase[b]);
      if Ambiguous(trace, b) {
        var t, u :| Names(trace, b, t) && Names(trace, b, u) && t != u;
        assert t in byBase[b] && u in byBase[b];
      }
      if |byBase[b]| > 1 {
        var t, u :| t in byBase[b] && u in byBase[b] && t != u;
        assert Names(trace, b, t) && Names(trace, b, u);
      }
    }
    var collisions := set b | b in byBase && |byBase[b]| > 1;
    forall b ensures b in collisions <==> Ambiguous(trace, b) {
    }
    if collisions != {} {
      var b :| b in collisions;
      assert Ambiguous(trace, b);
      return Err(Collision(collisions));
    }
    forall b | b in byBase ensures exists t :: byBase[b] == {t} {
      TwoMembers(byBase[b]);
      var t :| t in byBase[b];
      assert byBase[b] == {t};
    }
    r := Ok(map b | b in byBase :: Only(byBase[b]));
  }

  function Only(s: set<Tenant>): (t: Tenant)
    requires exists t :: s == {t}
    ensures s == {t}
  {
    var t :| s == {t};
    t
  }

  lemma TwoMembers(s: set<Tenant>)
    ensures |s| > 1 <==> exists t, u :: t in s && u in s && t != u
  {
    if t, u :| t in s && u in s && t != u {
      assert {t, u} <= s;
      assert s == {t, u} + (s - {t, u});
    }
    if |s| > 1 {
      var t :| t in s;
      assert |s - {t}| > 0;
      var u :| u in s - {t};
    }
  }

  // ---------------------------------------------------------------- the update loop against one join

  /** `after` is `before` joined with the bases in `done`: a NULL row whose key belongs to one of them gets that
   *  base's tenant, and no other row changes. */
  ghost predicate Joined(before: Table, after: Table, tenantOf: map<Base, Tenant>, done: set<Base>,
                         key: Base -> Durable)
    requires done <= tenantOf.Keys
  {
    && after.Keys == before.Keys
    && forall k | k in before ::
      && after[k].thread == before[k].thread
      && (before[k].tenant.Some? ==> after[k] == before[k])
      && (before[k].tenant == None ==>
           && (forall b | b in done && key(b) == before[k].thread :: after[k].tenant == Some(tenantOf[b]))
           && ((forall b | b in done :: key(b) != before[k].thread) ==> after[k].tenant == None))
  }

  ghost predicate InjectiveOn(bases: set<Base>, key: Base -> Durable) {
    forall b, c | b in bases && c in bases && key(b) == key(c) :: b == c
  }

  /** The join leaves nothing open. */
  lemma JoinIsAFunction(before: Table, x: Table, y: Table, tenantOf: map<Base, Tenant>, key: Base -> Durable)
    requires Joined(before, x, tenantOf, tenantOf.Keys, key) && Joined(before, y, tenantOf, tenantOf.Keys, key)
    ensures x == y
  {
  }

  /** Running the backfill on its own result changes nothing. */
  lemma JoinIsIdempotent(before: Table, after: Table, again: Table, tenantOf: map<Base, Tenant>, key: Base -> Durable)
    requires Joined(before, after, tenantOf, tenantOf.Keys, key) && Joined(after, again, tenantOf, tenantOf.Keys, key)
    ensures again == after
  {
  }

  function PointUpdate(t: Table, d: Durable, tenant: Tenant): Table {
    map k | k in t :: if t[k].thread == d && t[k].tenant == None then t[k].(tenant := Some(tenant)) else t[k]
  }

  lemma PointUpdateExtends(before: Table, t: Table, tenantOf: map<Base, Tenant>, done: set<Base>, b: Base,
                           key: Base -> Durable)
    requires InjectiveOn(tenantOf.Keys, key) && done <= tenantOf.Keys && b in tenantOf && b !in done
    requires Joined(before, t, tenantOf, done, key)
    ensures Joined(before, PointUpdate(t, key(b), tenantOf[b]), tenantOf, done + {b}, key)
  {
  }

  class Checkpoints {
    var checkpoint: Table
    var writes: Table

    constructor (checkpoint: Table, writes: Table)
      ensures this.checkpoint == checkpoint && this.writes == writes
    {
      this.checkpoint, this.writes := checkpoint, writes;
    }

    /** The data step of `upgrade`. The bases are taken in an arbitrary order; both tables end as one join with
     *  the relation the trace states, or nothing is written at all. */
    method Backfill(secret: Option<string>, trace: seq<Trace>, durable: (string, Base) -> Durable)
      returns (r: Result<map<Base, Tenant>>)
      modifies this
      ensures r.Err? <==> secret == None || secret == Some("") || exists b :: Ambiguous(trace, b)
      ensures r.Err? ==> (r.error.MissingSecret? <==> secret == None || secret == Some(""))
      ensures r.Err? && r.error.Collision? ==> forall b :: b in r.error.bases <==> Ambiguous(trace, b)
      ensures r.Err? ==> checkpoint == old(checkpoint) && writes == old(writes)
      ensures r.Ok? ==> forall b, t :: Names(trace, b, t) <==> b in r.value && r.value[b] == t
      ensures r.Ok? && InjectiveOn(r.value.Keys, b => durable(secret.value, b)) ==>
        Joined(old(checkpoint), checkpoint, r.value, r.value.Keys, b => durable(secret.value, b)) &&
        Joined(old(writes), writes, r.value, r.value.Keys, b => durable(secret.value, b))
    {
      if secret == None || secret == Some("") { return Err(MissingSecret); }
      r := CollectTenantByBase(trace);
      if r.Err? { return; }
      var tenantOf := r.value;
      var key := (b: Base) => durable(secret.value, b);
      var remaining := tenantOf.Keys;
      while remaining != {}
        invariant remaining <= tenantOf.Keys
        invariant InjectiveOn(tenantOf.Keys, key) ==>
          Joined(old(checkpoint), checkpoint, tenantOf, tenantOf.Keys - remaining, key)
        invariant InjectiveOn(tenantOf.Keys, key) ==>
          Joined(old(writes), writes, tenantOf, tenantOf.Keys - remaining, key)
        decreases |remaining|
      {
        var b :| b in remaining;
        if InjectiveOn(tenantOf.Keys, key) {
          PointUpdateExtends(old(checkpoint), checkpoint, tenantOf, tenantOf.Keys - remaining, b, key);
          PointUpdateExtends(old(writes), writes, tenantOf, tenantOf.Keys - remaining, b, key);
        }
        assert tenantOf.Keys - (remaining - {b}) == tenantOf.Keys - remaining + {b};
        checkpoint := PointUpdate(checkpoint, key(b), tenantOf[b]);
        writes := PointUpdate(writes, key(b), tenantOf[b]);
        remaining := remaining - {b};
      }
      assert tenantOf.Keys - remaining == tenantOf.Keys;
    }
  }
}
