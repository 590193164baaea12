/** The onboarding smoke as a protocol: its runs mark and destroy a synthetic tenant on the production database
 *  while real messages may arrive for the same tenant id.
 *
 * The state is one tenant row, its inbound messages, and the locks. A real insert holds KEY SHARE on the tenant
 * row from its INSERT to its end; `FOR UPDATE` waits for those and keeps new ones out. Every step below is one
 * statement or one commit, and any steps can interleave. An action that has to wait, or that the current program
 * counter does not offer, changes nothing.
 */
module SmokeProtocol {
  import opened Options

  type RunId = nat
  type MessageId = nat
  type TxId = nat

  /** A tenant's name, as far as the protocol looks at it: the marker SMOKE-SYNTH-DELETE-OK, or anything else. */
  datatype Name = Marker | Named(n: nat)

  /** `external_update_id IS NULL OR external_update_id NOT LIKE '-%'` */
  predicate Foreign(update: Option<string>) {
    update == None || !("-" <= update.value)
  }

  /** Telegram's own ids never start with a minus sign, and the runs' always do. */
  lemma WhoseMessage(update: Option<string>)
    ensures Foreign(update) <==> update == None || update.value == "" || update.value[0] != '-'
  {
  }

  datatype Message = Message(id: MessageId, update: Option<string>)

  datatype Pc =
    | Start          // before the advisory lock
    | Ready          // holds it; looks for an existing tenant
    | Onboarding     // sends /start
    | Marking        // opens the marking transaction
    | MarkLocked     // holds the row lock, proof not yet read
    | MarkProved     // proof read under the lock
    | Turning        // runs the first turn
    | Cleaning       // opens the cleanup transaction
    | CleanLocked
    | CleanProved
    | Exited(code: int)

  /** `first` is the cleanup of a previous run's leftovers, before onboarding. */
  datatype Run = Run(pc: Pc, first: bool, onboardOk: bool)

  datatype State = State(
    tenant: Option<Name>,
    inbound: map<MessageId, Option<string>>,
    inflight: map<TxId, Message>,
    rowLock: Option<RunId>,
    advisory: Option<RunId>,
    runs: map<RunId, Run>)

  datatype Action =
    // the rest of the world
    | RealCreate(name: Name)
    | RealRename(name: Name)
    | RealInsert(tx: TxId, message: Message)
    | RealCommit(tx: TxId)
    | RealRollback(tx: TxId)
    // a smoke run
    | TryLock(run: RunId)
    | Preflight(run: RunId)
    | SendStart(run: RunId, name: Name, message: Message, created: bool, ok: bool, raised: bool)
    | MarkLock(run: RunId)
    | MarkProve(run: RunId)
    | MarkCommit(run: RunId)
    | Turn(run: RunId, name: Name, message: Message, sent: bool, ok: bool, assessable: bool)
    | CleanLock(run: RunId, signupLeft: bool)
    | CleanProve(run: RunId)
    | CleanCommit(run: RunId, kept: set<MessageId>, keyedLeft: bool, signupLeft: bool)
    | Crash(run: RunId, code: int)

  predicate HasForeign(s: State) { exists m | m in s.inbound :: Foreign(s.inbound[m]) }

  predicate At(s: State, r: RunId, pc: Pc) { r in s.runs && s.runs[r].pc == pc }

  predicate Active(pc: Pc) { pc != Start && !pc.Exited? }

  predicate HoldsRow(pc: Pc) { pc == MarkLocked || pc == MarkProved || pc == CleanLocked || pc == CleanProved }

  /** The row lock is granted once nobody holds KEY SHARE or the row lock itself. */
  predicate RowFree(s: State) { s.tenant.Some? && s.rowLock == None && s.inflight == map[] }

  function Goto(s: State, r: RunId, pc: Pc): State
    requires r in s.runs
  {
    s.(runs := s.runs[r := s.runs[r].(pc := pc)])
  }

  /** Leaving, by any exit: the transaction ends, and `finally` gives the advisory lock back. */
  function Exit(s: State, r: RunId, code: int): State
    requires r in s.runs
  {
    Goto(s, r, Exited(code)).(
      advisory := if s.advisory == Some(r) then None else s.advisory,
      rowLock := if s.rowLock == Some(r) then None else s.rowLock)
  }

  function Unlock(s: State, r: RunId): State {
    s.(rowLock := if s.rowLock == Some(r) then None else s.rowLock)
  }

  /** The end of a cleanup transaction: on to onboarding, or to the exit code the flags give. */
  function Cleaned(s: State, r: RunId, cleaned: bool): State
    requires r in s.runs
  {
    if s.runs[r].first then
      if cleaned then Unlock(s, r).(runs := s.runs[r := s.runs[r].(pc := Onboarding, first := false)])
      else Exit(s, r, 2)
    else Exit(s, r, if !s.runs[r].onboardOk then 1 else if !cleaned then 2 else 0)
  }

  /** The application inserts a message of the run's own, creating the tenant if it is new. */
  function SendOwn(s: State, name: Name, m: Message): State {
    s.(tenant := if s.tenant == None then Some(name) else s.tenant, inbound := s.inbound[m.id := m.update])
  }

  predicate CanSend(s: State, m: Message) {
    s.rowLock == None && !Foreign(m.update) && m.id !in s.inbound && forall t | t in s.inflight ::
      s.inflight[t].id != m.id
  }

  function Step(s: State, a: Action): State {
    match a
    case RealCreate(name) => if s.tenant == None then s.(tenant := Some(name)) else s
    case RealRename(name) => if RowFree(s) then s.(tenant := Some(name)) else s
    case RealInsert(tx, m) =>
      if s.tenant.Some? && s.rowLock == None && tx !in s.inflight && Foreign(m.update)
        && m.id !in s.inbound && (forall t | t in s.inflight :: s.inflight[t].id != m.id)
      then s.(inflight := s.inflight[tx := m]) else s
    case RealCommit(tx) =>
      if tx in s.inflight
      then s.(inflight := s.inflight - {tx}, inbound := s.inbound[s.inflight[tx].id := s.inflight[tx].update]) else s
    case RealRollback(tx) => s.(inflight := s.inflight - {tx})

    case TryLock(r) =>
      if r !in s.runs || s.runs[r].pc != Start then s
      else if s.advisory.Some? then Goto(s, r, Exited(2))
      else Goto(s, r, Ready).(advisory := Some(r))
    case Preflight(r) =>
      if !At(s, r, Ready) then s
      else if s.tenant == None then Goto(s, r, Onboarding)
      else if s.tenant.value != Marker then Exit(s, r, 2)
      else s.(runs := s.runs[r := s.runs[r].(pc := Cleaning, first := true)])
    case SendStart(r, name, m, created, ok, raised) =>
      if !At(s, r, Onboarding) || !CanSend(s, m) then s
      else
        var sent := if created then SendOwn(s, name, m) else s;
        var next := if raised then Cleaning else if created then Marking else Turning;
        sent.(runs := s.runs[r := s.runs[r].(pc := next, onboardOk := s.runs[r].onboardOk && created && ok && !raised)])
    case MarkLock(r) =>
      if !At(s, r, Marking) then s
      else if s.tenant == None then Exit(s, r, 2)
      else if RowFree(s) then Goto(s, r, MarkLocked).(rowLock := Some(r)) else s
    case MarkProve(r) =>
      if !At(s, r, MarkLocked) then s
      else if HasForeign(s) then Exit(s, r, 2) else Goto(s, r, MarkProved)
    case MarkCommit(r) =>
      if !At(s, r, MarkProved) then s
      else Goto(s, r, Turning).(tenant := Some(Marker), rowLock := None)
    case Turn(r, name, m, sent, ok, assessable) =>
      if !At(s, r, Turning) || !CanSend(s, m) then s
      else
        var next := if sent then SendOwn(s, name, m) else s;
        if !assessable then Exit(next, r, 2)
        else next.(runs := s.runs[r := s.runs[r].(pc := Cleaning, onboardOk := s.runs[r].onboardOk && ok)])
    case CleanLock(r, signupLeft) =>
      if !At(s, r, Cleaning) then s
      else if s.tenant == None then Cleaned(s, r, !signupLeft)
      else if RowFree(s) then Goto(s, r, CleanLocked).(rowLock := Some(r)) else s
    case CleanProve(r) =>
      if !At(s, r, CleanLocked) then s
      else if s.tenant != Some(Marker) || HasForeign(s) then Cleaned(s, r, false)
      else Goto(s, r, CleanProved)
    case CleanCommit(r, kept, keyedLeft, signupLeft) =>
      if !At(s, r, CleanProved) then s
      else
        var left := map m | m in s.inbound && m in kept :: s.inbound[m];
        var gone := left == map[] && !keyedLeft && s.tenant == Some(Marker);
        Cleaned(s.(inbound := left, tenant := if gone then None else s.tenant), r, gone && !signupLeft)
    case Crash(r, code) => if r in s.runs && Active(s.runs[r].pc) then Exit(s, r, if code == 1 then 1 else 2) else s
  }

  function After(s: State, actions: seq<Action>): State
    decreases |actions|
  {
    if actions == [] then s else After(Step(s, actions[0]), actions[1..])
  }

  // ---------------------------------------------------------------- what every step keeps

  ghost predicate RunOk(s: State, r: RunId)
    requires r in s.runs
  {
    var pc := s.runs[r].pc;
    && (Active(pc) <==> s.advisory == Some(r))
    && (HoldsRow(pc) <==> s.rowLock == Some(r))
    && (pc == MarkProved || pc == CleanProved ==> !HasForeign(s))
    && (pc == CleanProved ==> s.tenant == Some(Marker))
    && (s.runs[r].first ==> pc.Exited? || pc == Cleaning || pc == CleanLocked || pc == CleanProved)
  }

  ghost predicate Safe(s: State) {
    && (forall r | r in s.runs :: RunOk(s, r))
    && (s.advisory.Some? ==> s.advisory.value in s.runs)
    && (s.rowLock.Some? ==> s.rowLock.value in s.runs && s.tenant.Some? && s.inflight == map[])
    && (s.inflight != map[] ==> s.tenant.Some?)
    && (s.inbound != map[] ==> s.tenant.Some?)
    && (forall t | t in s.inflight :: s.inflight[t].id !in s.inbound && Foreign(s.inflight[t].update))
    && (forall t, u | t in s.inflight && u in s.inflight && s.inflight[t].id == s.inflight[u].id :: t == u)
  }

  /** The start: any tenant, any messages, no run begun. */
  ghost predicate Initial(s: State) {
    && s.inflight == map[] && s.rowLock == None && s.advisory == None
    && (s.inbound != map[] ==> s.tenant.Some?)
    && forall r | r in s.runs :: s.runs[r] == Run(Start, false, true)
  }

  lemma InitialIsSafe(s: State)
    requires Initial(s)
    ensures Safe(s)
  {
  }

  lemma RealStepKeepsSafe(s: State, a: Action)
    requires Safe(s) && (a.RealCreate? || a.RealRename? || a.RealInsert? || a.RealCommit? || a.RealRollback?)
    ensures Safe(Step(s, a))
  {
  }

  lemma TryLockKeepsSafe(s: State, a: Action)
    requires Safe(s) && a.TryLock?
    ensures Safe(Step(s, a))
  {
  }

  lemma PreflightKeepsSafe(s: State, a: Action)
    requires Safe(s) && a.Preflight?
    ensures Safe(Step(s, a))
  {
  }

  lemma MarkLockKeepsSafe(s: State, a: Action)
    requires Safe(s) && a.MarkLock?
    ensures Safe(Step(s, a))
  {
  }

  lemma CleanLockKeepsSafe(s: State, a: Action)
    requires Safe(s) && a.CleanLock?
    ensures Safe(Step(s, a))
  {
  }

  lemma SendStartKeepsSafe(s: State, a: Action)
    requires Safe(s) && a.SendStart?
    ensures Safe(Step(s, a))
  {
  }

  lemma TurnKeepsSafe(s: State, a: Action)
    requires Safe(s) && a.Turn?
    ensures Safe(Step(s, a))
  {
  }

  lemma MarkProveKeepsSafe(s: State, a: Action)
    requires Safe(s) && a.MarkProve?
    ensures Safe(Step(s, a))
  {
  }

  lemma MarkCommitKeepsSafe(s: State, a: Action)
    requires Safe(s) && a.MarkCommit?
    ensures Safe(Step(s, a))
  {
  }

  lemma CrashKeepsSafe(s: State, a: Action)
    requires Safe(s) && a.Crash?
    ensures Safe(Step(s, a))
  {
  }

  lemma CleanProveKeepsSafe(s: State, a: Action)
    requires Safe(s) && a.CleanProve?
    ensures Safe(Step(s, a))
  {
  }

  lemma CleanCommitKeepsSafe(s: State, a: Action)
    requires Safe(s) && a.CleanCommit?
    ensures Safe(Step(s, a))
  {
  }

  lemma StepKeepsSafe(s: State, a: Action)
    requires Safe(s)
    ensures Safe(Step(s, a))
  {
    if a.RealCreate? || a.RealRename? || a.RealInsert? || a.RealCommit? || a.RealRollback? { RealStepKeepsSafe(s, a); }
    else if a.TryLock? { TryLockKeepsSafe(s, a); }
    else if a.Preflight? { PreflightKeepsSafe(s, a); }
    else if a.MarkLock? { MarkLockKeepsSafe(s, a); }
    else if a.CleanLock? { CleanLockKeepsSafe(s, a); }
    else if a.SendStart? { SendStartKeepsSafe(s, a); }
    else if a.Turn? { TurnKeepsSafe(s, a); }
    else if a.MarkProve? { MarkProveKeepsSafe(s, a); }
    else if a.MarkCommit? { MarkCommitKeepsSafe(s, a); }
    else if a.Crash? { CrashKeepsSafe(s, a); }
    else if a.CleanProve? { CleanProveKeepsSafe(s, a); }
    else { CleanCommitKeepsSafe(s, a); }
  }

  /** No step deletes or alters a committed real message. */
  lemma StepKeepsForeign(s: State, a: Action, m: MessageId)
    requires Safe(s) && m in s.inbound && Foreign(s.inbound[m])
    ensures m in Step(s, a).inbound && Step(s, a).inbound[m] == s.inbound[m]
  {
  }

  /** A tenant with a committed real message is never renamed or deleted by a smoke run. */
  lemma StepKeepsForeignTenant(s: State, a: Action)
    requires Safe(s) && HasForeign(s) && !a.RealCreate? && !a.RealRename?
    ensures Step(s, a).tenant == s.tenant
  {
  }

  lemma {:induction false} RunKeepsSafe(s: State, actions: seq<Action>)
    requires Safe(s)
    ensures Safe(After(s, actions))
    decreases |actions|
  {
    if actions != [] {
      StepKeepsSafe(s, actions[0]);
      RunKeepsSafe(Step(s, actions[0]), actions[1..]);
    }
  }

  /** The invariant holds in every state that any interleaving reaches, from any start. */
  lemma ReachableIsSafe(start: State, actions: seq<Action>)
    requires Initial(start)
    ensures Safe(After(start, actions))
  {
    InitialIsSafe(start);
    RunKeepsSafe(start, actions);
  }

  lemma {:induction false} ForeignSurvives(s: State, actions: seq<Action>, m: MessageId)
    requires Safe(s) && m in s.inbound && Foreign(s.inbound[m])
    ensures m in After(s, actions).inbound && After(s, actions).inbound[m] == s.inbound[m]
    decreases |actions|
  {
    if actions != [] {
      StepKeepsSafe(s, actions[0]);
      StepKeepsForeign(s, actions[0], m);
      ForeignSurvives(Step(s, actions[0]), actions[1..], m);
    }
  }

  /** Destroy safety over whole runs: in every interleaving of any number of smoke runs with real traffic, from
   *  any start, a real message that is committed at some point is there, unchanged, ever after, and so is its
   *  tenant. */
  lemma RealMessagesSurvive(start: State, before: seq<Action>, more: seq<Action>, m: MessageId)
    requires Initial(start) && m in After(start, before).inbound && Foreign(After(start, before).inbound[m])
    ensures var s, t := After(start, before), After(After(start, before), more);
      m in t.inbound && t.inbound[m] == s.inbound[m] && t.tenant.Some?
  {
    ReachableIsSafe(start, before);
    ForeignSurvives(After(start, before), more, m);
    RunKeepsSafe(After(start, before), more);
  }

  lemma {:induction false} NameSurvives(s: State, actions: seq<Action>, m: MessageId)
    requires Safe(s) && m in s.inbound && Foreign(s.inbound[m])
    requires forall a | a in actions :: !a.RealCreate? && !a.RealRename?
    ensures After(s, actions).tenant == s.tenant
    decreases |actions|
  {
    if actions != [] {
      assert actions[0] in actions && forall a | a in actions[1..] :: a in actions;
      StepKeepsSafe(s, actions[0]);
      StepKeepsForeign(s, actions[0], m);
      StepKeepsForeignTenant(s, actions[0]);
      NameSurvives(Step(s, actions[0]), actions[1..], m);
    }
  }

  /** From the moment a tenant has a committed real message, no number of smoke runs renames or deletes it. */
  lemma RealTenantKeepsItsName(start: State, before: seq<Action>, more: seq<Action>)
    requires Initial(start) && HasForeign(After(start, before))
    requires forall a | a in more :: !a.RealCreate? && !a.RealRename?
    ensures After(After(start, before), more).tenant == After(start, before).tenant
  {
    ReachableIsSafe(start, before);
    var m :| m in After(start, before).inbound && Foreign(After(start, before).inbound[m]);
    NameSurvives(After(start, before), more, m);
  }

  lemma StepKeepsInsert(s: State, a: Action, tx: TxId)
    requires Safe(s) && tx in s.inflight && a != RealCommit(tx) && a != RealRollback(tx)
    ensures tx in Step(s, a).inflight && Step(s, a).inflight[tx] == s.inflight[tx]
  {
  }

  lemma {:induction false} InsertSurvives(s: State, actions: seq<Action>, tx: TxId)
    requires Safe(s) && tx in s.inflight
    requires forall a | a in actions :: a != RealCommit(tx) && a != RealRollback(tx)
    ensures tx in After(s, actions).inflight && After(s, actions).inflight[tx] == s.inflight[tx]
    decreases |actions|
  {
    if actions != [] {
      StepKeepsSafe(s, actions[0]);
      assert actions[0] in actions && forall a | a in actions[1..] :: a in actions;
      StepKeepsInsert(s, actions[0], tx);
      InsertSurvives(Step(s, actions[0]), actions[1..], tx);
    }
  }

  /** A real insert that has begun is never stranded: its tenant stays until it ends, and its commit lands. */
  lemma RealInsertsLand(start: State, before: seq<Action>, more: seq<Action>, tx: TxId)
    requires Initial(start) && tx in After(start, before).inflight
    requires forall a | a in more :: a != RealCommit(tx) && a != RealRollback(tx)
    ensures var s, t := After(start, before), After(After(start, before), more);
      var message := s.inflight[tx];
      && t.tenant.Some? && tx in t.inflight
      && message.id in Step(t, RealCommit(tx)).inbound && Step(t, RealCommit(tx)).inbound[message.id] == message.update
  {
    ReachableIsSafe(start, before);
    InsertSurvives(After(start, before), more, tx);
    RunKeepsSafe(After(start, before), more);
  }

  /** The advisory lock: in every interleaving, of two runs at most one is at work. */
  lemma OneRunAtATime(start: State, actions: seq<Action>, r: RunId, q: RunId)
    requires Initial(start)
    ensures var s := After(start, actions);
      r in s.runs && q in s.runs && Active(s.runs[r].pc) && Active(s.runs[q].pc) ==> r == q
  {
    ReachableIsSafe(start, actions);
  }

  predicate EndsARun(a: Action) { a.TryLock? || a.Preflight? || a.MarkLock? || a.MarkProve? || a.Turn? || a.Crash? }

  lemma EarlyExitsAreFailures(s: State, a: Action, r: RunId)
    requires !At(s, r, Exited(0)) && EndsARun(a)
    ensures !At(Step(s, a), r, Exited(0))
  {
  }

  lemma OthersDoNotExit(s: State, a: Action, r: RunId)
    requires !At(s, r, Exited(0)) && !EndsARun(a) && !a.CleanLock? && !a.CleanProve? && !a.CleanCommit?
    ensures !At(Step(s, a), r, Exited(0))
  {
  }

  lemma LookingExitsZero(s: State, a: Action, r: RunId)
    requires Safe(s) && !At(s, r, Exited(0)) && At(Step(s, a), r, Exited(0)) && (a.CleanLock? || a.CleanProve?)
    ensures Step(s, a).tenant == None && Step(s, a).inbound == map[] && s.runs[r].onboardOk
  {
  }

  lemma DeletingExitsZero(s: State, a: Action, r: RunId)
    requires Safe(s) && !At(s, r, Exited(0)) && At(Step(s, a), r, Exited(0)) && a.CleanCommit?
    ensures Step(s, a).tenant == None && Step(s, a).inbound == map[] && s.runs[r].onboardOk
  {
  }

  /** Exit code 0 is honest: when a run reaches it, in any interleaving, its onboarding has passed and at that moment
   *  the tenant and all its messages are gone. */
  lemma ExitZeroIsHonest(start: State, actions: seq<Action>, a: Action, r: RunId)
    requires Initial(start) && !At(After(start, actions), r, Exited(0))
      && At(Step(After(start, actions), a), r, Exited(0))
    ensures var s, t := After(start, actions), Step(After(start, actions), a);
      t.tenant == None && t.inbound == map[] && r in s.runs && s.runs[r].onboardOk
  {
    ReachableIsSafe(start, actions);
    var s := After(start, actions);
    if a.CleanLock? || a.CleanProve? {
      LookingExitsZero(s, a, r);
    } else if a.CleanCommit? {
      DeletingExitsZero(s, a, r);
    } else if EndsARun(a) {
      EarlyExitsAreFailures(s, a, r);
    } else {
      OthersDoNotExit(s, a, r);
    }
  }

  lemma RefusalTouchesNothing(s: State, r: RunId)
    requires Safe(s) && (At(s, r, MarkLocked) || At(s, r, CleanLocked)) && HasForeign(s)
    ensures Refused(s, Step(s, if At(s, r, MarkLocked) then MarkProve(r) else CleanProve(r)), r)
  {
  }

  /** The run has ended with a failure and without touching a row. */
  predicate Refused(s: State, t: State, r: RunId) {
    && t.tenant == s.tenant && t.inbound == s.inbound && t.inflight == s.inflight && t.rowLock == None
    && r in t.runs && t.runs[r].pc.Exited? && t.runs[r].pc.code != 0
  }

  /** In every interleaving a run that finds real activity under its lock leaves rows and names alone, and fails. */
  lemma ProofRefusalTouchesNothing(start: State, actions: seq<Action>, r: RunId)
    requires Initial(start) && HasForeign(After(start, actions))
    requires At(After(start, actions), r, MarkLocked) || At(After(start, actions), r, CleanLocked)
    ensures var s := After(start, actions);
      Refused(s, Step(s, if At(s, r, MarkLocked) then MarkProve(r) else CleanProve(r)), r)
  {
    ReachableIsSafe(start, actions);
    RefusalTouchesNothing(After(start, actions), r);
  }

  // ---------------------------------------------------------------- the preflight

  /** With no tenant the run goes on to onboarding, with a leftover of an earlier run to its cleanup; with any other
   *  tenant it ends with code 2. It changes no row either way. */
  lemma PreflightDecides(s: State, r: RunId)
    requires At(s, r, Ready)
    ensures var t := Step(s, Preflight(r));
      && t.tenant == s.tenant && t.inbound == s.inbound && t.inflight == s.inflight
      && (s.tenant == None ==> At(t, r, Onboarding))
      && (s.tenant == Some(Marker) ==> At(t, r, Cleaning) && t.runs[r].first)
      && (s.tenant != None && s.tenant != Some(Marker) ==> At(t, r, Exited(2)) && t.advisory != Some(r))
  {
  }

  lemma OthersLeaveReady(s: State, a: Action, r: RunId)
    requires At(s, r, Ready) && !a.Preflight? && !a.Crash?
    ensures At(Step(s, a), r, Ready)
  {
  }

  /** Whatever happens, a run gets past its preflight only with no tenant or a marked one; otherwise it is still there,
   *  or has ended with a failure. */
  lemma LeavingReady(s: State, a: Action, r: RunId)
    requires At(s, r, Ready)
    ensures var t := Step(s, a);
      && r in t.runs
      && (t.runs[r].pc == Ready || s.tenant == None || s.tenant == Some(Marker) || t.runs[r].pc.Exited?)
      && (t.runs[r].pc.Exited? ==> t.runs[r].pc.code == 1 || t.runs[r].pc.code == 2)
  {
    if !a.Preflight? && !a.Crash? { OthersLeaveReady(s, a, r); }
  }

  /** There is a tenant that no run has marked, and no run is past its preflight. */
  ghost predicate OutsideTenant(s: State) {
    && s.tenant.Some? && s.tenant != Some(Marker)
    && forall r | r in s.runs :: s.runs[r].pc == Start || s.runs[r].pc == Ready || s.runs[r].pc.Exited?
  }

  lemma StepKeepsOutsideTenant(s: State, a: Action)
    requires OutsideTenant(s) && a != RealRename(Marker)
    ensures OutsideTenant(Step(s, a)) && (!a.RealRename? ==> Step(s, a).tenant == s.tenant)
    ensures forall m | m in s.inbound :: m in Step(s, a).inbound
    ensures forall r | At(s, r, Ready) && !At(Step(s, a), r, Ready) ::
      r in Step(s, a).runs && Step(s, a).runs[r].pc != Exited(0)
  {
  }

  /** A tenant that is there before the runs look, with messages or without, is left alone by any number of them in any
   *  interleaving: it keeps its name and its messages, and none of them gets past its preflight. */
  lemma {:induction false} OutsideTenantIsLeftAlone(s: State, actions: seq<Action>)
    requires OutsideTenant(s) && forall a | a in actions :: !a.RealRename?
    ensures OutsideTenant(After(s, actions)) && After(s, actions).tenant == s.tenant
    ensures forall m | m in s.inbound :: m in After(s, actions).inbound
    decreases |actions|
  {
    if actions != [] {
      assert actions[0] in actions && forall a | a in actions[1..] :: a in actions;
      StepKeepsOutsideTenant(s, actions[0]);
      OutsideTenantIsLeftAlone(Step(s, actions[0]), actions[1..]);
    }
  }

  // ---------------------------------------------------------------- what the steps do

  /** Real traffic is stopped by the row lock and by nothing else: an insert begins whenever its tenant is there and not
   *  locked and its ids are new, and a commit stores its message. */
  lemma RealTrafficPasses(s: State, tx: TxId, m: Message, name: Name)
    requires s.tenant.Some? && tx !in s.inflight && Foreign(m.update)
    requires m.id !in s.inbound && forall t | t in s.inflight :: s.inflight[t].id != m.id
    ensures Step(s, RealInsert(tx, m)) == if s.rowLock == None then s.(inflight := s.inflight[tx := m]) else s
    ensures s.rowLock == None && s.inflight == map[] ==> Step(s, RealRename(name)) == s.(tenant := Some(name))
  {
  }

  /** A second run is refused with code 2 while one is at work. */
  lemma SecondRunIsRefused(s: State, r: RunId)
    requires At(s, r, Start)
    ensures var t := Step(s, TryLock(r));
      if s.advisory.Some? then At(t, r, Exited(2)) && t.advisory == s.advisory
        else At(t, r, Ready) && t.advisory == Some(r)
  {
  }

  /** The row lock is granted exactly when no insert is under way and nobody else has it; until then the run waits. */
  lemma LockWaits(s: State, r: RunId)
    requires (At(s, r, Marking) || At(s, r, Cleaning)) && s.tenant.Some?
    ensures var t := Step(s, if At(s, r, Marking) then MarkLock(r) else CleanLock(r, false));
      if s.rowLock == None && s.inflight == map[]
      then t.rowLock == Some(r) && t.tenant == s.tenant && t.inbound == s.inbound
           && (At(t, r, MarkLocked) || At(t, r, CleanLocked))
      else t == s
  {
  }

  /** A /start that raised goes to the cleanup as a failure, one that created no tenant skips the marking as a failure,
   *  and only a created tenant has the run's message and is to be marked. */
  lemma OnboardingDecides(s: State, r: RunId, name: Name, m: Message, created: bool, ok: bool, raised: bool)
    requires At(s, r, Onboarding) && CanSend(s, m)
    ensures var t := Step(s, SendStart(r, name, m, created, ok, raised));
      && At(t, r, if raised then Cleaning else if created then Marking else Turning)
      && t.runs[r].onboardOk == (s.runs[r].onboardOk && created && ok && !raised)
      && t.inbound == (if created then s.inbound[m.id := m.update] else s.inbound)
      && t.tenant == (if created && s.tenant == None then Some(name) else s.tenant)
  {
  }

  /** A first turn that cannot be assessed ends the run with code 2; any other leads to the cleanup, good or bad. */
  lemma TurnDecides(s: State, r: RunId, name: Name, m: Message, sent: bool, ok: bool, assessable: bool)
    requires At(s, r, Turning) && CanSend(s, m)
    ensures var t := Step(s, Turn(r, name, m, sent, ok, assessable));
      && t.inbound == (if sent then s.inbound[m.id := m.update] else s.inbound)
      && (if assessable
          then At(t, r, Cleaning) && t.runs[r].onboardOk == (s.runs[r].onboardOk && ok) && t.advisory == s.advisory
          else At(t, r, Exited(2)) && t.advisory != Some(r))
  {
  }

  /** A tenant that has vanished, or has a real message, is not marked: the run ends with code 2. */
  lemma MarkingIsRefused(s: State, r: RunId)
    ensures At(s, r, Marking) && s.tenant == None ==> At(Step(s, MarkLock(r)), r, Exited(2))
    ensures At(s, r, MarkLocked) && HasForeign(s) ==> At(Step(s, MarkProve(r)), r, Exited(2))
    ensures At(s, r, MarkLocked) && !HasForeign(s) ==> At(Step(s, MarkProve(r)), r, MarkProved)
  {
  }

  /** The cleanup of leftovers goes on to onboarding exactly when the tenant and the signup traces are gone, and ends
   *  the run with code 2 otherwise. */
  lemma LeftoversMustGo(s: State, a: Action, r: RunId)
    requires r in s.runs && s.runs[r].first && !s.runs[r].pc.Exited? && s.runs[r].pc != Onboarding
    requires (a.CleanLock? || a.CleanCommit?) && a.run == r && (a.CleanCommit? ==> s.tenant == Some(Marker))
    requires var pc := Step(s, a).runs[r].pc; pc.Exited? || pc == Onboarding
    ensures var t := Step(s, a);
      if t.tenant == None && !a.signupLeft then At(t, r, Onboarding) && !t.runs[r].first else At(t, r, Exited(2))
  {
  }

  /** With the proof read, marking gives the tenant the marker and releases it. */
  lemma MarkingMarks(s: State, r: RunId)
    requires At(s, r, MarkProved)
    ensures var t := Step(s, MarkCommit(r));
      t.tenant == Some(Marker) && t.rowLock == None && t.inbound == s.inbound && At(t, r, Turning)
  {
  }

  /** With the proof read, cleanup leaves exactly the messages its deletes could not take, and takes the tenant exactly
   *  when neither they nor other keyed rows are left. */
  lemma CleanupTakes(s: State, r: RunId, kept: set<MessageId>, keyedLeft: bool, signupLeft: bool)
    requires At(s, r, CleanProved) && s.tenant == Some(Marker)
    ensures var t := Step(s, CleanCommit(r, kept, keyedLeft, signupLeft));
      && (forall m :: m in t.inbound <==> m in s.inbound && m in kept)
      && (forall m | m in t.inbound :: t.inbound[m] == s.inbound[m])
      && t.tenant == if (forall m | m in s.inbound :: m !in kept) && !keyedLeft then None else Some(Marker)
  {
    var left := map m | m in s.inbound && m in kept :: s.inbound[m];
    assert left == map[] <==> forall m | m in s.inbound :: m !in kept by {
      if m :| m in s.inbound && m in kept { assert m in left; }
    }
  }

  /** A run that ends by its cleanup says 1 exactly when the onboarding had failed, 2 exactly when it passed and
   *  something is left. */
  lemma CleanupDecidesTheCode(s: State, a: Action, r: RunId)
    requires r in s.runs && !s.runs[r].first && (a.CleanLock? || a.CleanProve? || a.CleanCommit?) && a.run == r
    requires !s.runs[r].pc.Exited? && Step(s, a).runs[r].pc.Exited? && (a.CleanCommit? ==> s.tenant == Some(Marker))
    ensures Step(s, a).runs[r].pc.code in {0, 1, 2}
    ensures Step(s, a).runs[r].pc.code == 1 <==> !s.runs[r].onboardOk
    ensures s.runs[r].onboardOk && Step(s, a).tenant.Some? ==> Step(s, a).runs[r].pc.code == 2
    ensures s.runs[r].onboardOk && a.CleanLock? ==> (Step(s, a).runs[r].pc.code == 2 <==> a.signupLeft)
    ensures s.runs[r].onboardOk && a.CleanCommit? ==>
      (Step(s, a).runs[r].pc.code == 2 <==> a.signupLeft || Step(s, a).tenant.Some?)
  {
  }

  // ---------------------------------------------------------------- exit code 0 is earned

  predicate Started(done: seq<Action>, r: RunId) {
    exists i :: 0 <= i < |done| && done[i].SendStart? && done[i].run == r
      && done[i].created && done[i].ok && !done[i].raised
  }

  predicate Turned(done: seq<Action>, r: RunId) {
    exists i :: 0 <= i < |done| && done[i].Turn? && done[i].run == r && done[i].ok && done[i].assessable
  }

  predicate PastStart(run: Run) {
    || run.pc == Marking || run.pc == MarkLocked || run.pc == MarkProved || run.pc == Turning || PastTurn(run)
  }

  predicate PastTurn(run: Run) {
    || (!run.first && (run.pc == Cleaning || run.pc == CleanLocked || run.pc == CleanProved)) || run.pc == Exited(0)
  }

  ghost predicate Earned(done: seq<Action>, s: State, r: RunId) {
    r in s.runs ==>
      && (s.runs[r].pc == Exited(0) ==> s.runs[r].onboardOk)
      && (s.runs[r].onboardOk && PastStart(s.runs[r]) ==> Started(done, r))
      && (s.runs[r].onboardOk && PastTurn(s.runs[r]) ==> Turned(done, r))
  }

  lemma MoreIsEarned(done: seq<Action>, s: State, a: Action, r: RunId)
    requires Earned(done, s, r)
    ensures Earned(done + [a], s, r)
  {
    assert forall i | 0 <= i < |done| :: (done + [a])[i] == done[i];
  }

  lemma SendStartEarns(done: seq<Action>, s: State, a: Action, r: RunId)
    requires Earned(done, s, r) && a.SendStart? && a in done
    ensures Earned(done, Step(s, a), r)
  {
  }

  lemma TurnEarns(done: seq<Action>, s: State, a: Action, r: RunId)
    requires Earned(done, s, r) && a.Turn? && a in done
    ensures Earned(done, Step(s, a), r)
  {
  }

  lemma CleaningEarns(done: seq<Action>, s: State, a: Action, r: RunId)
    requires Earned(done, s, r) && (a.CleanLock? || a.CleanProve? || a.CleanCommit?)
    ensures Earned(done, Step(s, a), r)
  {
  }

  lemma BeginningEarns(done: seq<Action>, s: State, a: Action, r: RunId)
    requires Earned(done, s, r)
      && (a.TryLock? || a.Preflight? || a.MarkLock? || a.MarkProve? || a.MarkCommit? || a.Crash?)
    ensures Earned(done, Step(s, a), r)
  {
  }

  lemma StepEarns(done: seq<Action>, s: State, a: Action, r: RunId)
    requires Earned(done, s, r)
    ensures Earned(done + [a], Step(s, a), r)
  {
    MoreIsEarned(done, s, a, r);
    assert (done + [a])[|done|] == a;
    if a.SendStart? { SendStartEarns(done + [a], s, a, r); }
    else if a.Turn? { TurnEarns(done + [a], s, a, r); }
    else if a.CleanLock? || a.CleanProve? || a.CleanCommit? { CleaningEarns(done + [a], s, a, r); }
    else if a.TryLock? || a.Preflight? || a.MarkLock? || a.MarkProve? || a.MarkCommit? || a.Crash? {
      BeginningEarns(done + [a], s, a, r);
    }
  }

  lemma {:induction false} RunEarns(s: State, done: seq<Action>, more: seq<Action>, r: RunId)
    requires Earned(done, s, r)
    ensures Earned(done + more, After(s, more), r)
    decreases |more|
  {
    if more == [] {
      assert done + more == done;
    } else {
      StepEarns(done, s, more[0], r);
      RunEarns(Step(s, more[0]), done + [more[0]], more[1..], r);
      assert done + more == done + [more[0]] + more[1..];
    }
  }

  /** In every interleaving a run that has ended with code 0 had its /start create the tenant with the right
   *  subscription and a first turn that could be assessed and was good. */
  lemma ExitZeroIsEarned(start: State, actions: seq<Action>, r: RunId)
    requires Initial(start) && At(After(start, actions), r, Exited(0))
    ensures Started(actions, r) && Turned(actions, r)
  {
    RunEarns(start, [], actions, r);
    assert [] + actions == actions;
  }

  lemma {:induction false} AfterSplits(s: State, a: seq<Action>, b: seq<Action>)
    ensures After(s, a + b) == After(After(s, a), b)
    decreases |a|
  {
    if a == [] {
      assert a + b == b;
    } else {
      AfterSplits(Step(s, a[0]), a[1..], b);
      assert (a + b)[0] == a[0] && (a + b)[1..] == a[1..] + b;
    }
  }

  lemma AfterTwo(s: State, a: Action, b: Action)
    ensures After(s, [a, b]) == Step(Step(s, a), b)
  {
    assert [a, b][1..] == [b] && [b][1..] == [];
    assert After(s, [a, b]) == After(Step(s, a), [b]) == After(Step(Step(s, a), b), []);
  }

  /** One run, alone, with these messages stored. */
  function Alone(tenant: Option<Name>, inbound: map<MessageId, Option<string>>, r: RunId, pc: Pc, locked: bool): State {
    State(tenant, inbound, map[], if locked then Some(r) else None, if Active(pc) then Some(r) else None,
          map[r := Run(pc, false, true)])
  }

  lemma GoodRunBegins(r: RunId)
    ensures After(Alone(None, map[], r, Start, false), [TryLock(r), Preflight(r)]) ==
      Alone(None, map[], r, Onboarding, false)
  {
    AfterTwo(Alone(None, map[], r, Start, false), TryLock(r), Preflight(r));
  }

  lemma GoodRunOnboards(r: RunId, name: Name, hello: Message)
    requires !Foreign(hello.update)
    ensures After(Alone(None, map[], r, Onboarding, false), [SendStart(r, name, hello, true, true, false), MarkLock(r)])
            == Alone(Some(name), map[hello.id := hello.update], r, MarkLocked, true)
  {
    var sent := Step(Alone(None, map[], r, Onboarding, false), SendStart(r, name, hello, true, true, false));
    assert sent == Alone(Some(name), map[hello.id := hello.update], r, Marking, false);
    AfterTwo(Alone(None, map[], r, Onboarding, false), SendStart(r, name, hello, true, true, false), MarkLock(r));
  }

  lemma GoodRunMarks(r: RunId, name: Name, hello: Message)
    requires !Foreign(hello.update)
    ensures After(Alone(Some(name), map[hello.id := hello.update], r, MarkLocked, true), [MarkProve(r), MarkCommit(r)])
            == Alone(Some(Marker), map[hello.id := hello.update], r, Turning, false)
  {
    AfterTwo(Alone(Some(name), map[hello.id := hello.update], r, MarkLocked, true), MarkProve(r), MarkCommit(r));
  }

  lemma GoodTurn(r: RunId, name: Name, inbound: map<MessageId, Option<string>>, turn: Message)
    requires !Foreign(turn.update) && turn.id !in inbound
    ensures Step(Alone(Some(Marker), inbound, r, Turning, false), Turn(r, name, turn, true, true, true)) ==
      Alone(Some(Marker), inbound[turn.id := turn.update], r, Cleaning, false)
  {
  }

  lemma GoodLock(r: RunId, inbound: map<MessageId, Option<string>>)
    ensures Step(Alone(Some(Marker), inbound, r, Cleaning, false), CleanLock(r, false)) ==
      Alone(Some(Marker), inbound, r, CleanLocked, true)
  {
  }

  lemma GoodRunTurns(r: RunId, name: Name, hello: Message, turn: Message)
    requires !Foreign(turn.update) && hello.id != turn.id
    ensures After(Alone(Some(Marker), map[hello.id := hello.update], r, Turning, false),
                  [Turn(r, name, turn, true, true, true), CleanLock(r, false)])
            == Alone(Some(Marker), map[hello.id := hello.update, turn.id := turn.update], r, CleanLocked, true)
  {
    var s := Alone(Some(Marker), map[hello.id := hello.update], r, Turning, false);
    var both := map[hello.id := hello.update, turn.id := turn.update];
    assert both == map[hello.id := hello.update][turn.id := turn.update];
    GoodTurn(r, name, map[hello.id := hello.update], turn);
    GoodLock(r, both);
    AfterTwo(s, Turn(r, name, turn, true, true, true), CleanLock(r, false));
  }

  lemma GoodRunCleans(r: RunId, inbound: map<MessageId, Option<string>>)
    requires forall m | m in inbound :: !Foreign(inbound[m])
    ensures After(Alone(Some(Marker), inbound, r, CleanLocked, true), [CleanProve(r), CleanCommit(r, {}, false, false)])
            == Alone(None, map[], r, Exited(0), false)
  {
    AfterTwo(Alone(Some(Marker), inbound, r, CleanLocked, true), CleanProve(r), CleanCommit(r, {}, false, false));
  }

  /** An undisturbed run whose steps succeed: its start and its marking, its turn and its cleanup. */
  function ToTheMark(r: RunId, name: Name, hello: Message): seq<Action> {
    [TryLock(r), Preflight(r)] +
      ([SendStart(r, name, hello, true, true, false), MarkLock(r)] + [MarkProve(r), MarkCommit(r)])
  }

  function ToTheEnd(r: RunId, name: Name, turn: Message): seq<Action> {
    [Turn(r, name, turn, true, true, true), CleanLock(r, false)] + [CleanProve(r), CleanCommit(r, {}, false, false)]
  }

  /** From no tenant such a run marks its own tenant, and ends with code 0, the tenant and its messages gone. */
  lemma GoodRunEndsWell(r: RunId, name: Name, hello: Message, turn: Message)
    requires !Foreign(hello.update) && !Foreign(turn.update) && hello.id != turn.id
    ensures var start := Alone(None, map[], r, Start, false);
      && After(start, ToTheMark(r, name, hello)) ==
        Alone(Some(Marker), map[hello.id := hello.update], r, Turning, false)
      && After(start, ToTheMark(r, name, hello) + ToTheEnd(r, name, turn)) == Alone(None, map[], r, Exited(0), false)
  {
    var start := Alone(None, map[], r, Start, false);
    var send, mark := [SendStart(r, name, hello, true, true, false), MarkLock(r)], [MarkProve(r), MarkCommit(r)];
    GoodRunBegins(r);
    GoodRunOnboards(r, name, hello);
    GoodRunMarks(r, name, hello);
    AfterSplits(start, [TryLock(r), Preflight(r)], send + mark);
    AfterSplits(Alone(None, map[], r, Onboarding, false), send, mark);
    GoodRunTurns(r, name, hello, turn);
    GoodRunCleans(r, map[hello.id := hello.update, turn.id := turn.update]);
    AfterSplits(start, ToTheMark(r, name, hello), ToTheEnd(r, name, turn));
    AfterSplits(Alone(Some(Marker), map[hello.id := hello.update], r, Turning, false),
                [Turn(r, name, turn, true, true, true), CleanLock(r, false)],
                  [CleanProve(r), CleanCommit(r, {}, false, false)]);
  }
}
