/** The shadow report: `compute` audits recorded turns against the policy each one started with, `exit_status` turns
 *  the counters into the gate's answer.
 *
 * Rows are taken after JSON decoding, with `observed` true where it is absent. The tool catalogue is a parameter.
 */
module ShadowAudit {
  import opened Options

  datatype Call = Call(name: string, kind: string, observed: bool)

  datatype Policy =
    | Absent
    | Malformed
    | Policy(webOnly: bool, allowed: Option<set<string>>)

  datatype Row = Row(createdAt: Option<int>, calls: seq<Call>, policy: Policy)

  datatype Catalogue = Catalogue(webOnly: set<string>, writers: set<string>, domains: string -> set<string>)

  /** A Counter, kept as its increments in order; the count of a key is how often it occurs. */
  type Counter = seq<string>

  datatype Window = NoWindow | Window(first: int, last: int)

  datatype Agg = Agg(
    total: nat, withPolicy: nat, policyNull: nat, webMismatch: nat, writeMismatch: nat, tools: Counter,
    window: Window)

  function Empty(): Agg { Agg(0, 0, 0, 0, 0, [], NoWindow) }

  // ---------------------------------------------------------------- what the audit is for

  predicate Executed(c: Call) { c.kind == "ok" && c.observed }

  /** The policy of a turn allows the call. */
  predicate InScope(cat: Catalogue, p: Policy, name: string)
    requires p.Policy?
  {
    if p.webOnly then name in cat.webOnly
    else p.allowed == None || name !in cat.writers || cat.domains(name) <= p.allowed.value
  }

  /** An executed, observed call that the policy does not allow: under a web-only policy any tool outside the web tools,
   *  otherwise a writing tool with a domain outside the allowed ones, if those are given. */
  predicate Strays(cat: Catalogue, p: Policy, c: Call)
    requires p.Policy?
  {
    && c.kind == "ok" && c.observed
    && (p.webOnly ==> c.name !in cat.webOnly)
    && (!p.webOnly ==>
          p.allowed.Some? && c.name in cat.writers && exists d :: d in cat.domains(c.name) && d !in p.allowed.value)
  }

  predicate Broken(cat: Catalogue, r: Row) {
    r.policy.Policy? && exists i :: 0 <= i < |r.calls| && Strays(cat, r.policy, r.calls[i])
  }

  // ---------------------------------------------------------------- the counters

  function Hull(a: Window, b: Window): Window {
    if a.NoWindow? then b
    else if b.NoWindow? then a
    else Window(if a.first <= b.first then a.first else b.first, if a.last >= b.last then a.last else b.last)
  }

  function Moment(createdAt: Option<int>): Window {
    if createdAt == None then NoWindow else Window(createdAt.value, createdAt.value)
  }

  function Combine(a: Agg, b: Agg): Agg {
    Agg(a.total + b.total, a.withPolicy + b.withPolicy, a.policyNull + b.policyNull, a.webMismatch + b.webMismatch,
        a.writeMismatch + b.writeMismatch, a.tools + b.tools, Hull(a.window, b.window))
  }

  /** The names of the executed calls outside the policy among the first `n`, in order. */
  function Bad(cat: Catalogue, p: Policy, calls: seq<Call>, n: nat): seq<string>
    requires p.Policy? && n <= |calls|
  {
    if n == 0 then []
    else
      Bad(cat, p, calls, n - 1)
      + if Executed(calls[n - 1]) && !InScope(cat, p, calls[n - 1].name) then [calls[n - 1].name] else []
  }

  /** What one row adds. */
  function Single(cat: Catalogue, r: Row): Agg {
    var base := Empty().(total := 1, window := Moment(r.createdAt));
    if !r.policy.Policy? then base.(policyNull := 1)
    else
      var bad := Bad(cat, r.policy, r.calls, |r.calls|);
      base.(withPolicy := 1, tools := bad,
        webMismatch := if r.policy.webOnly && bad != [] then 1 else 0,
        writeMismatch := if !r.policy.webOnly && bad != [] then 1 else 0)
  }

  /** What the rows of `rows[..n]` add up to. */
  function AuditTo(cat: Catalogue, rows: seq<Row>, n: nat): Agg
    requires n <= |rows|
  {
    if n == 0 then Empty() else Combine(AuditTo(cat, rows, n - 1), Single(cat, rows[n - 1]))
  }

  function Audit(cat: Catalogue, rows: seq<Row>): Agg { AuditTo(cat, rows, |rows|) }

  function Mismatches(a: Agg): nat { a.webMismatch + a.writeMismatch }

  function ExitStatus(a: Agg): int {
    if a.withPolicy == 0 then 1
    else if Mismatches(a) > 0 then 1
    else 0
  }

  // ---------------------------------------------------------------- the loop

  method CollectBad(cat: Catalogue, p: Policy, calls: seq<Call>) returns (bad: seq<string>)
    requires p.Policy?
    ensures bad == Bad(cat, p, calls, |calls|)
  {
    bad := [];
    for i := 0 to |calls|
      invariant bad == Bad(cat, p, calls, i)
    {
      if Executed(calls[i]) {
        if p.webOnly {
          if calls[i].name !in cat.webOnly { bad := bad + [calls[i].name]; }
        } else if p.allowed != None {
          if calls[i].name in cat.writers
            && !(cat.domains(calls[i].name) <= p.allowed.value) { bad := bad + [calls[i].name]; }
        }
      }
    }
  }

  method AddWindow(window: Window, createdAt: Option<int>) returns (w: Window)
    ensures w == Hull(window, Moment(createdAt))
  {
    w := window;
    if createdAt != None {
      var at := createdAt.value;
      var first := if window.Window? && window.first < at then window.first else at;
      var last := if window.Window? && window.last > at then window.last else at;
      w := Window(first, last);
    }
  }

  /** One iteration of the row loop. */
  method AddRow(cat: Catalogue, agg: Agg, r: Row) returns (a: Agg)
    ensures a == Combine(agg, Single(cat, r))
  {
    var window := AddWindow(agg.window, r.createdAt);
    a := agg.(total := agg.total + 1, window := window);
    if !r.policy.Policy? {
      a := a.(policyNull := a.policyNull + 1);
      return;
    }
    a := a.(withPolicy := a.withPolicy + 1);
    var bad := CollectBad(cat, r.policy, r.calls);
    if bad != [] {
      if r.policy.webOnly {
        a := a.(webMismatch := a.webMismatch + 1);
      } else {
        a := a.(writeMismatch := a.writeMismatch + 1);
      }
      a := a.(tools := a.tools + bad);
    }
  }

  method Compute(cat: Catalogue, rows: seq<Row>) returns (agg: Agg)
    ensures agg == Audit(cat, rows)
  {
    agg := Empty();
    for i := 0 to |rows|
      invariant agg == AuditTo(cat, rows, i)
    {
      agg := AddRow(cat, agg, rows[i]);
    }
  }

  // ---------------------------------------------------------------- properties

  lemma StrayIs(cat: Catalogue, p: Policy, c: Call)
    requires p.Policy?
    ensures Strays(cat, p, c) <==> Executed(c) && !InScope(cat, p, c.name)
  {
  }

  lemma {:induction false} BadAreTheStrays(cat: Catalogue, p: Policy, calls: seq<Call>, n: nat)
    requires p.Policy? && n <= |calls|
    ensures Bad(cat, p, calls, n) == [] <==> forall i | 0 <= i < n :: !Strays(cat, p, calls[i])
    decreases n
  {
    if n > 0 {
      BadAreTheStrays(cat, p, calls, n - 1);
      StrayIs(cat, p, calls[n - 1]);
    }
  }

  function StraysOf(cat: Catalogue, p: Policy, calls: seq<Call>, n: nat, name: string): set<nat>
    requires p.Policy? && n <= |calls|
  {
    set i: nat | i < n && Strays(cat, p, calls[i]) && calls[i].name == name
  }

  function Count(names: Counter, name: string): nat { multiset(names)[name] }

  lemma CountsAdd(a: Counter, b: Counter, name: string)
    ensures Count(a + b, name) == Count(a, name) + Count(b, name)
  {
    assert multiset(a + b) == multiset(a) + multiset(b);
  }

  lemma OneMoreCall(cat: Catalogue, p: Policy, calls: seq<Call>, n: nat, name: string)
    requires p.Policy? && 0 < n <= |calls|
    ensures |StraysOf(cat, p, calls, n, name)| == |StraysOf(cat, p, calls, n - 1, name)|
      + if Strays(cat, p, calls[n - 1]) && calls[n - 1].name == name then 1 else 0
  {
    var before, now := StraysOf(cat, p, calls, n - 1, name), StraysOf(cat, p, calls, n, name);
    assert now == if Strays(cat, p, calls[n - 1]) && calls[n - 1].name == name then before + {n - 1} else before;
  }

  /** A tool is named once for each of its straying calls. */
  lemma {:induction false} ToolsAreTheStrays(cat: Catalogue, p: Policy, calls: seq<Call>, n: nat, name: string)
    requires p.Policy? && n <= |calls|
    ensures Count(Bad(cat, p, calls, n), name) == |StraysOf(cat, p, calls, n, name)|
    decreases n
  {
    if n > 0 {
      ToolsAreTheStrays(cat, p, calls, n - 1, name);
      StrayIs(cat, p, calls[n - 1]);
      OneMoreCall(cat, p, calls, n, name);
      CountsAdd(Bad(cat, p, calls, n - 1), if Strays(cat, p, calls[n - 1]) then [calls[n - 1].name] else [], name);
    }
  }

  /** What a row adds to the counters. */
  lemma SingleMeans(cat: Catalogue, r: Row)
    ensures var s := Single(cat, r);
      && s.total == 1 && s.policyNull == (if r.policy.Policy? then 0 else 1) && s.withPolicy == 1 - s.policyNull
      && s.webMismatch == (if Broken(cat, r) && r.policy.webOnly then 1 else 0)
      && s.writeMismatch == (if Broken(cat, r) && !r.policy.webOnly then 1 else 0)
  {
    if r.policy.Policy? { BadAreTheStrays(cat, r.policy, r.calls, |r.calls|); }
  }

  /** The number of the first `n` rows that `p` selects. */
  function Number(rows: seq<Row>, p: Row -> bool, n: nat): nat
    requires n <= |rows|
  {
    |set i | 0 <= i < n && p(rows[i])|
  }

  lemma OneMore(rows: seq<Row>, p: Row -> bool, n: nat)
    requires 0 < n <= |rows|
    ensures Number(rows, p, n) == Number(rows, p, n - 1) + if p(rows[n - 1]) then 1 else 0
  {
    var before := set i | 0 <= i < n - 1 && p(rows[i]);
    var now := set i | 0 <= i < n && p(rows[i]);
    assert now == if p(rows[n - 1]) then before + {n - 1} else before;
  }

  function HasPolicy(): Row -> bool { (r: Row) => r.policy.Policy? }
  function Unpoliced(): Row -> bool { (r: Row) => !r.policy.Policy? }
  function BreaksWeb(cat: Catalogue): Row -> bool { (r: Row) => Broken(cat, r) && r.policy.webOnly }
  function BreaksWrite(cat: Catalogue): Row -> bool { (r: Row) => Broken(cat, r) && !r.policy.webOnly }

  predicate CountersMean(cat: Catalogue, rows: seq<Row>, n: nat)
    requires n <= |rows|
  {
    var a := AuditTo(cat, rows, n);
    && a.total == n
    && a.withPolicy == Number(rows, HasPolicy(), n)
    && a.policyNull == Number(rows, Unpoliced(), n)
    && a.webMismatch == Number(rows, BreaksWeb(cat), n)
    && a.writeMismatch == Number(rows, BreaksWrite(cat), n)
  }

  lemma {:induction false} CountersAreExactTo(cat: Catalogue, rows: seq<Row>, n: nat)
    requires n <= |rows|
    ensures CountersMean(cat, rows, n)
    decreases n
  {
    if n > 0 {
      CountersAreExactTo(cat, rows, n - 1);
      SingleMeans(cat, rows[n - 1]);
      OneMore(rows, HasPolicy(), n);
      OneMore(rows, Unpoliced(), n);
      OneMore(rows, BreaksWeb(cat), n);
      OneMore(rows, BreaksWrite(cat), n);
    }
  }

  /** Each counter is the number of rows it is named for: the rows with a policy, those without a readable one, and the
   *  broken rows under a web-only policy and under any other. */
  lemma CountersAreExact(cat: Catalogue, rows: seq<Row>)
    ensures var a := Audit(cat, rows);
      && a.total == |rows|
      && a.withPolicy == |set i | 0 <= i < |rows| && rows[i].policy.Policy?|
      && a.policyNull == |set i | 0 <= i < |rows| && !rows[i].policy.Policy?|
      && a.webMismatch == |set i | 0 <= i < |rows| && Broken(cat, rows[i]) && rows[i].policy.webOnly|
      && a.writeMismatch == |set i | 0 <= i < |rows| && Broken(cat, rows[i]) && !rows[i].policy.webOnly|
  {
    var n := |rows|;
    CountersAreExactTo(cat, rows, n);
    assert (set i | 0 <= i < n && HasPolicy()(rows[i])) == set i | 0 <= i < n && rows[i].policy.Policy?;
    assert (set i | 0 <= i < n && Unpoliced()(rows[i])) == set i | 0 <= i < n && !rows[i].policy.Policy?;
    assert (set i | 0 <= i < n && BreaksWeb(cat)(rows[i])) ==
      set i | 0 <= i < n && Broken(cat, rows[i]) && rows[i].policy.webOnly;
    assert (set i | 0 <= i < n && BreaksWrite(cat)(rows[i])) ==
      set i | 0 <= i < n && Broken(cat, rows[i]) && !rows[i].policy.webOnly;
  }

  /** Over rows the names add up. */
  lemma ToolsAddUp(cat: Catalogue, rows: seq<Row>, n: nat, name: string)
    requires 0 < n <= |rows|
    ensures var r := rows[n - 1];
      Count(AuditTo(cat, rows, n).tools, name) == Count(AuditTo(cat, rows, n - 1).tools, name)
        + if r.policy.Policy? then |StraysOf(cat, r.policy, r.calls, |r.calls|, name)| else 0
  {
    var r := rows[n - 1];
    CountsAdd(AuditTo(cat, rows, n - 1).tools, Single(cat, r).tools, name);
    if r.policy.Policy? { ToolsAreTheStrays(cat, r.policy, r.calls, |r.calls|, name); }
  }

  predicate IsMoment(rows: seq<Row>, n: nat, at: int)
    requires n <= |rows|
  {
    exists i :: 0 <= i < n && rows[i].createdAt == Some(at)
  }

  /** `w` runs from the first to the last of the times at which `at` holds, if it holds anywhere. */
  ghost predicate Spans(w: Window, at: int -> bool) {
    match w
    case NoWindow => forall t :: !at(t)
    case Window(first, last) => at(first) && at(last) && forall t | at(t) :: first <= t <= last
  }

  lemma HullSpans(w: Window, before: int -> bool, createdAt: Option<int>, after: int -> bool)
    requires Spans(w, before) && forall t :: after(t) <==> before(t) || createdAt == Some(t)
    ensures Spans(Hull(w, Moment(createdAt)), after)
  {
  }

  /** The window runs from the first to the last time of a row that has one. */
  lemma {:induction false} WindowIsExact(cat: Catalogue, rows: seq<Row>, n: nat)
    requires n <= |rows|
    ensures Spans(AuditTo(cat, rows, n).window, at => IsMoment(rows, n, at))
    decreases n
  {
    if n > 0 {
      WindowIsExact(cat, rows, n - 1);
      forall at ensures IsMoment(rows, n, at) <==> IsMoment(rows, n - 1, at) || rows[n - 1].createdAt == Some(at) {
      }
      HullSpans(AuditTo(cat, rows, n - 1).window, at => IsMoment(rows, n - 1, at), rows[n - 1].createdAt,
        at => IsMoment(rows, n, at));
    }
  }

  /** The counters split the rows. */
  lemma {:induction false} CountersPartition(cat: Catalogue, rows: seq<Row>, n: nat)
    requires n <= |rows|
    ensures var a := AuditTo(cat, rows, n); a.total == n == a.withPolicy + a.policyNull && Mismatches(a) <= a.withPolicy
    decreases n
  {
    if n > 0 {
      CountersPartition(cat, rows, n - 1);
      SingleMeans(cat, rows[n - 1]);
    }
  }

  /** The gate opens exactly when the shadow ran and no call of a turn with a policy strayed. */
  lemma ExitZeroIsExact(cat: Catalogue, rows: seq<Row>)
    ensures ExitStatus(Audit(cat, rows)) == 0 <==>
      ((exists i :: 0 <= i < |rows| && rows[i].policy.Policy?) && forall i | 0 <= i < |rows| :: !Broken(cat, rows[i]))
    ensures ExitStatus(Audit(cat, rows)) == 0 || ExitStatus(Audit(cat, rows)) == 1
  {
    CountersAreExact(cat, rows);
    var n := |rows|;
    var policed := set i | 0 <= i < n && rows[i].policy.Policy?;
    var web := set i | 0 <= i < n && Broken(cat, rows[i]) && rows[i].policy.webOnly;
    var write := set i | 0 <= i < n && Broken(cat, rows[i]) && !rows[i].policy.webOnly;
    if i :| 0 <= i < n && rows[i].policy.Policy? { assert i in policed; }
    if i :| 0 <= i < n && Broken(cat, rows[i]) { assert i in web || i in write; }
  }

  lemma CombineAssociates(a: Agg, b: Agg, c: Agg)
    ensures Combine(Combine(a, b), c) == Combine(a, Combine(b, c)) && Combine(a, Empty()) == a
  {
  }

  lemma {:induction false} AuditPrefix(cat: Catalogue, a: seq<Row>, b: seq<Row>, n: nat)
    requires n <= |a|
    ensures AuditTo(cat, a + b, n) == AuditTo(cat, a, n)
    decreases n
  {
    if n > 0 { AuditPrefix(cat, a, b, n - 1); }
  }

  lemma {:induction false} AuditBoth(cat: Catalogue, a: seq<Row>, b: seq<Row>, n: nat)
    requires n <= |b|
    ensures AuditTo(cat, a + b, |a| + n) == Combine(Audit(cat, a), AuditTo(cat, b, n))
    decreases n
  {
    if n == 0 {
      AuditPrefix(cat, a, b, |a|);
      CombineAssociates(Audit(cat, a), Empty(), Empty());
    } else {
      AuditBoth(cat, a, b, n - 1);
      CombineAssociates(Audit(cat, a), AuditTo(cat, b, n - 1), Single(cat, b[n - 1]));
      assert (a + b)[|a| + n - 1] == b[n - 1];
    }
  }

  /** Two windows audited apart combine to the audit of both. */
  lemma AuditConcat(cat: Catalogue, a: seq<Row>, b: seq<Row>)
    ensures Audit(cat, a + b) == Combine(Audit(cat, a), Audit(cat, b))
  {
    AuditBoth(cat, a, b, |b|);
  }
}
