/** The per-thread message queue: claims with leases, heartbeats, and marks fenced by the attempt number.
 *
 * Every operation is one short transaction; claims exclude each other by an advisory lock, and a claim holds the row
 * lock on its candidate, so the operations are atomic steps. A worker that crashes, stalls or falls behind is one that
 * takes no step, or takes it late with an old token; heartbeats and marks come with arbitrary tokens. One clock, which
 * never runs backwards, gives every step its time; a job carries the time at which its sender began to enqueue it,
 * which may lie before the commit.
 */
module MessageQueue {
  import opened Options

  type WorkerId = nat
  type Time = int

  datatype JobId = JobId(n: nat)
  datatype Thread = Thread(n: nat)

  /** channel and external_update_id */
  datatype Key = Key(channel: nat, update: nat)

  datatype Status = Pending | Processing | Done | DeadLetter

  datatype Job = Job(
    thread: Thread,
    key: Key,
    enqueuedAt: Time,
    status: Status,
    startedAt: Option<Time>,
    finishedAt: Option<Time>,
    worker: Option<WorkerId>,
    attempt: nat,
    lease: Option<Time>)

  type Jobs = map<JobId, Job>

  datatype State = State(clock: Time, jobs: Jobs)

  const LEASE_DURATION: nat := 300
  const MAX_ATTEMPTS: nat := 3

  // ---------------------------------------------------------------- the statements

  function NewJob(thread: Thread, key: Key, at: Time): Job {
    Job(thread, key, at, Pending, None, None, None, 0, None)
  }

  predicate KeyTaken(jobs: Jobs, key: Key) { exists i | i in jobs :: jobs[i].key == key }

  predicate Expired(j: Job, now: Time) { j.status == Processing && j.lease.Some? && j.lease.value < now }

  predicate Live(j: Job, now: Time) { j.status == Processing && j.lease.Some? && j.lease.value >= now }

  /** No other job of the thread is being processed under a live lease. */
  predicate ThreadFree(jobs: Jobs, id: JobId, now: Time)
    requires id in jobs
  {
    forall o | o in jobs && o != id :: !(jobs[o].thread == jobs[id].thread && Live(jobs[o], now))
  }

  predicate Claimable(jobs: Jobs, id: JobId, now: Time) {
    id in jobs && (jobs[id].status == Pending || Expired(jobs[id], now)) && ThreadFree(jobs, id, now)
  }

  /** ORDER BY enqueued_at LIMIT 1: any claimable job with the least time. */
  predicate Next(jobs: Jobs, id: JobId, now: Time) {
    Claimable(jobs, id, now) && forall o | o in jobs && Claimable(jobs, o, now) ::
      jobs[id].enqueuedAt <= jobs[o].enqueuedAt
  }

  function Claimed(j: Job, worker: WorkerId, now: Time): Job {
    j.(status := Processing, startedAt := if j.startedAt.Some? then j.startedAt else Some(now), worker := Some(worker),
       attempt := j.attempt + 1, lease := Some(now + LEASE_DURATION))
  }

  /** WHERE worker_id = ... AND attempt = ... AND status = 'processing'. */
  predicate Holds(jobs: Jobs, id: JobId, worker: WorkerId, attempt: nat) {
    id in jobs && jobs[id].worker == Some(worker) && jobs[id].attempt == attempt && jobs[id].status == Processing
  }

  function Finished(j: Job, now: Time): Job {
    j.(status := Done, finishedAt := Some(now), lease := None)
  }

  function Failed(j: Job, attempt: nat, now: Time): Job {
    if attempt < MAX_ATTEMPTS then
      j.(status := Pending, startedAt := None, finishedAt := None, lease := None, worker := None)
    else j.(status := DeadLetter, finishedAt := Some(now), lease := None)
  }

  datatype Action =
    | Tick(to: Time)
    | Enqueue(id: JobId, thread: Thread, key: Key, at: Time)
    | Claim(id: JobId, worker: WorkerId)
    | Extend(id: JobId, worker: WorkerId, attempt: nat)
    | MarkDone(id: JobId, worker: WorkerId, attempt: nat)
    | MarkFailed(id: JobId, worker: WorkerId, attempt: nat)

  function Step(s: State, a: Action): State {
    match a
    case Tick(to) => if to >= s.clock then s.(clock := to) else s
    case Enqueue(id, thread, key, at) =>
      if id in s.jobs || KeyTaken(s.jobs, key) then s else s.(jobs := s.jobs[id := NewJob(thread, key, at)])
    case Claim(id, worker) =>
      if Next(s.jobs, id, s.clock) then s.(jobs := s.jobs[id := Claimed(s.jobs[id], worker, s.clock)]) else s
    case Extend(id, worker, attempt) =>
      if Holds(s.jobs, id, worker, attempt)
      then s.(jobs := s.jobs[id := s.jobs[id].(lease := Some(s.clock + LEASE_DURATION))]) else s
    case MarkDone(id, worker, attempt) =>
      if Holds(s.jobs, id, worker, attempt) then s.(jobs := s.jobs[id := Finished(s.jobs[id], s.clock)]) else s
    case MarkFailed(id, worker, attempt) =>
      if Holds(s.jobs, id, worker, attempt) then s.(jobs := s.jobs[id := Failed(s.jobs[id], attempt, s.clock)]) else s
  }

  function After(s: State, actions: seq<Action>): State
    decreases |actions|
  {
    if actions == [] then s else After(Step(s, actions[0]), actions[1..])
  }

  // ---------------------------------------------------------------- what every step keeps

  /** The CHECK constraint on status and times; a pending job has no worker, and one under way has been claimed. */
  predicate JobOk(j: Job) {
    match j.status
    case Pending => j.startedAt == None && j.finishedAt == None && j.lease == None && j.worker == None
    case Processing => j.startedAt.Some? && j.finishedAt == None && j.lease.Some? && j.worker.Some? && j.attempt > 0
    case Done => j.finishedAt.Some? && j.attempt > 0
    case DeadLetter => j.finishedAt.Some? && j.attempt >= MAX_ATTEMPTS
  }

  ghost predicate JobsOk(jobs: Jobs) { forall i | i in jobs :: JobOk(jobs[i]) }

  ghost predicate KeysUnique(jobs: Jobs) {
    forall i, k | i in jobs && k in jobs && jobs[i].key == jobs[k].key :: i == k
  }

  ghost predicate Valid(s: State) { JobsOk(s.jobs) && KeysUnique(s.jobs) }

  lemma StepKeepsJobsOk(s: State, a: Action)
    requires JobsOk(s.jobs)
    ensures JobsOk(Step(s, a).jobs)
  {
  }

  lemma StepKeepsKeys(s: State, a: Action)
    requires KeysUnique(s.jobs)
    ensures KeysUnique(Step(s, a).jobs)
  {
  }

  lemma StepKeepsValid(s: State, a: Action)
    requires Valid(s)
    ensures Valid(Step(s, a))
  {
    StepKeepsJobsOk(s, a);
    StepKeepsKeys(s, a);
  }

  /** In every run from an empty queue no statement violates the constraints of the table. */
  lemma {:induction false} RunKeepsValid(s: State, actions: seq<Action>)
    requires Valid(s)
    ensures Valid(After(s, actions))
    decreases |actions|
  {
    if actions != [] {
      StepKeepsValid(s, actions[0]);
      RunKeepsValid(Step(s, actions[0]), actions[1..]);
    }
  }

  // ---------------------------------------------------------------- fencing

  predicate Token(a: Action, id: JobId, attempt: nat) {
    (a.Extend? || a.MarkDone? || a.MarkFailed?) && a.id == id && a.attempt == attempt
  }

  /** The attempt is over: it has been marked, or the job has been claimed again. */
  predicate Spent(s: State, id: JobId, attempt: nat) {
    id in s.jobs && (s.jobs[id].attempt > attempt || (s.jobs[id].attempt == attempt && s.jobs[id].status != Processing))
  }

  lemma StepKeepsSpent(s: State, a: Action, id: JobId, attempt: nat)
    requires Spent(s, id, attempt)
    ensures Spent(Step(s, a), id, attempt)
    ensures Token(a, id, attempt) ==> Step(s, a) == s
  {
  }

  /** Fencing over whole runs: once an attempt is over, no heartbeat and no mark of it ever takes effect again,
   *  whatever happens in between. */
  lemma {:induction false} SpentForever(s: State, actions: seq<Action>, id: JobId, attempt: nat, late: Action)
    requires Spent(s, id, attempt) && Token(late, id, attempt)
    ensures Spent(After(s, actions), id, attempt)
    ensures Step(After(s, actions), late) == After(s, actions)
    decreases |actions|
  {
    if actions == [] {
      StepKeepsSpent(s, late, id, attempt);
    } else {
      StepKeepsSpent(s, actions[0], id, attempt);
      SpentForever(Step(s, actions[0]), actions[1..], id, attempt, late);
    }
  }

  /** What ends an attempt: a mark that lands, and a claim of the job after it. Nothing else does. */
  lemma AttemptEnds(s: State, a: Action, id: JobId, attempt: nat)
    requires id in s.jobs && s.jobs[id].attempt == attempt && s.jobs[id].status == Processing
    ensures Spent(Step(s, a), id, attempt) <==>
            Step(s, a) != s && ((Token(a, id, attempt) && !a.Extend?) || (a.Claim? && a.id == id))
  {
  }

  /** So a job is finished at most once, and a finished one is as it was ever after. */
  lemma {:induction false} TerminalForever(s: State, actions: seq<Action>, id: JobId)
    requires id in s.jobs && (s.jobs[id].status == Done || s.jobs[id].status == DeadLetter)
    ensures id in After(s, actions).jobs && After(s, actions).jobs[id] == s.jobs[id]
    decreases |actions|
  {
    if actions != [] {
      TerminalForever(Step(s, actions[0]), actions[1..], id);
    }
  }

  // ---------------------------------------------------------------- order within a thread

  predicate Open(j: Job) { j.status == Pending || j.status == Processing }

  /** A claim takes the oldest open job of its thread: whatever was enqueued before it is finished. */
  lemma ClaimFollowsTheOrder(s: State, id: JobId, o: JobId)
    requires Valid(s) && Next(s.jobs, id, s.clock)
    requires o in s.jobs && s.jobs[o].thread == s.jobs[id].thread && s.jobs[o].enqueuedAt < s.jobs[id].enqueuedAt
    ensures !Open(s.jobs[o])
  {
    if Open(s.jobs[o]) && !Live(s.jobs[o], s.clock) {
      assert ThreadFree(s.jobs, o, s.clock);
      assert Claimable(s.jobs, o, s.clock);
    }
  }

  /** Pending or under way, in a thread without a lease that still runs. */
  predicate Waits(s: State, id: JobId) {
    id in s.jobs && (s.jobs[id].status == Pending || s.jobs[id].status == Processing)
    && forall o | o in s.jobs && s.jobs[o].thread == s.jobs[id].thread && s.jobs[o].status == Processing ::
      s.jobs[o].lease.Some? && s.jobs[o].lease.value < s.clock
  }

  /** What a claim takes: a job that waits, and none that waits was enqueued before it. */
  lemma NextHasWaitedLongest(s: State, id: JobId)
    requires Valid(s)
    ensures Next(s.jobs, id, s.clock) <==>
      Waits(s, id) && forall o | Waits(s, o) :: s.jobs[id].enqueuedAt <= s.jobs[o].enqueuedAt
  {
    forall o ensures Claimable(s.jobs, o, s.clock) <==> Waits(s, o) {
      WaitingIs(s, o);
    }
  }

  lemma WaitingIs(s: State, id: JobId)
    requires Valid(s)
    ensures Claimable(s.jobs, id, s.clock) <==> Waits(s, id)
  {
    if id in s.jobs {
      assert JobOk(s.jobs[id]);
      forall o | o in s.jobs ensures JobOk(s.jobs[o]) { }
    }
  }

  /** There is something to claim exactly when a thread has an open job and no live one. */
  lemma ClaimFindsWork(s: State)
    requires Valid(s)
    ensures (exists id :: Next(s.jobs, id, s.clock)) <==> exists id :: Waits(s, id)
  {
    if id :| Waits(s, id) {
      WaitingIs(s, id);
      var candidates := set o | o in s.jobs && Claimable(s.jobs, o, s.clock);
      var first := Oldest(s.jobs, candidates, id);
      assert Next(s.jobs, first, s.clock);
    }
    if id :| Next(s.jobs, id, s.clock) {
      WaitingIs(s, id);
    }
  }

  lemma {:induction false} Oldest(jobs: Jobs, among: set<JobId>, some: JobId) returns (first: JobId)
    requires some in among && forall i | i in among :: i in jobs
    ensures first in among && forall i | i in among :: jobs[first].enqueuedAt <= jobs[i].enqueuedAt
    decreases |among|
  {
    var rest := among - {some};
    if rest == {} {
      first := some;
    } else {
      var other :| other in rest;
      var best := Oldest(jobs, rest, other);
      first := if jobs[some].enqueuedAt <= jobs[best].enqueuedAt then some else best;
    }
  }

  // ---------------------------------------------------------------- one live lease per thread

  ghost predicate Exclusive(s: State) {
    forall i, k | i in s.jobs && k in s.jobs :: BothLive(s, i, k) ==> i == k
  }

  predicate BothLive(s: State, i: JobId, k: JobId)
    requires i in s.jobs && k in s.jobs
  {
    s.jobs[i].thread == s.jobs[k].thread && Live(s.jobs[i], s.clock) && Live(s.jobs[k], s.clock)
  }

  /** A heartbeat that comes after its lease ran out, while another job of the thread has a live one. The statement
   *  asks for the attempt, not for the lease. */
  predicate Revives(s: State, a: Action) {
    a.Extend? && Holds(s.jobs, a.id, a.worker, a.attempt)
      && !Live(s.jobs[a.id], s.clock) && !ThreadFree(s.jobs, a.id, s.clock)
  }

  /** Such a heartbeat, and nothing else, puts a thread under two leases. */
  lemma StepKeepsExclusive(s: State, a: Action)
    requires Valid(s) && Exclusive(s)
    ensures Exclusive(Step(s, a)) <==> !Revives(s, a)
  {
    var t := Step(s, a);
    if Revives(s, a) {
      var o :| o in s.jobs && o != a.id && s.jobs[o].thread == s.jobs[a.id].thread && Live(s.jobs[o], s.clock);
      assert BothLive(t, a.id, o);
    } else {
      forall i, k | i in t.jobs && k in t.jobs && BothLive(t, i, k) ensures i == k {
        if i in s.jobs && k in s.jobs { assert BothLive(s, i, k) ==> i == k; }
      }
    }
  }

  ghost predicate AlwaysExclusive(s: State, actions: seq<Action>)
    decreases |actions|
  {
    Exclusive(s) && (actions != [] ==> AlwaysExclusive(Step(s, actions[0]), actions[1..]))
  }

  predicate NeverRevives(s: State, actions: seq<Action>)
    decreases |actions|
  {
    actions != [] ==> !Revives(s, actions[0]) && NeverRevives(Step(s, actions[0]), actions[1..])
  }

  /** In every run, every thread is under at most one live lease throughout exactly when no such heartbeat occurs. */
  lemma {:induction false} OneLeasePerThread(s: State, actions: seq<Action>)
    requires Valid(s) && Exclusive(s)
    ensures AlwaysExclusive(s, actions) <==> NeverRevives(s, actions)
    decreases |actions|
  {
    if actions != [] {
      StepKeepsValid(s, actions[0]);
      StepKeepsExclusive(s, actions[0]);
      if Exclusive(Step(s, actions[0])) { OneLeasePerThread(Step(s, actions[0]), actions[1..]); }
    }
  }

  function Empty(now: Time): State { State(now, map[]) }

  const OLDER: JobId := JobId(0)
  const NEWER: JobId := JobId(1)

  /** A run from the empty queue that does it. The older message commits after the newer one was claimed; when the
   *  newer one's lease has run out the older one is claimed, and then the late heartbeat arrives. */
  function Overtaken(): seq<Action> {
    [Enqueue(NEWER, Thread(0), Key(0, 1), 2), Claim(NEWER, 0), Enqueue(OLDER, Thread(0), Key(0, 0), 1)]
  }

  function LateHeartbeat(): seq<Action> { [Tick(400), Claim(OLDER, 0), Extend(NEWER, 0, 1)] }

  lemma TwoLeasesOnOneThread()
    ensures !Exclusive(After(Empty(2), Overtaken() + LateHeartbeat()))
  {
    AfterSplits(Empty(2), Overtaken(), LateHeartbeat());
    OlderWaits();
    HeartbeatRevives();
  }

  function Waiting(): State {
    State(2, map[NEWER := Claimed(NewJob(Thread(0), Key(0, 1), 2), 0, 2), OLDER := NewJob(Thread(0), Key(0, 0), 1)])
  }

  lemma OlderWaits()
    ensures After(Empty(2), Overtaken()) == Waiting()
  {
    var a := Overtaken();
    var s1 := Step(Empty(2), a[0]);
    assert Next(s1.jobs, NEWER, 2);
    var s2 := Step(s1, a[1]);
    Unfold(Empty(2), a);
    Unfold(s1, a[1..]);
    Unfold(s2, a[1..][1..]);
    assert Step(s2, a[2]).jobs == Waiting().jobs;
  }

  lemma HeartbeatRevives()
    ensures !Exclusive(After(Waiting(), LateHeartbeat()))
  {
    var a := LateHeartbeat();
    var s1 := Step(Waiting(), a[0]);
    assert ThreadFree(s1.jobs, OLDER, 400) && Next(s1.jobs, OLDER, 400);
    var s2 := Step(s1, a[1]);
    var s3 := Step(s2, a[2]);
    assert BothLive(s3, OLDER, NEWER);
    Unfold(Waiting(), a);
    Unfold(s1, a[1..]);
    Unfold(s2, a[1..][1..]);
  }

  lemma {:induction false} AfterSplits(s: State, a: seq<Action>, b: seq<Action>)
    ensures After(s, a + b) == After(After(s, a), b)
    decreases |a|
  {
    if a == [] {
      assert a + b == b;
    } else {
      AfterSplits(Step(s, a[0]), a[1..], b);
      assert (a + b)[0] == a[0] && (a + b)[1..] == a[1..] + b;
    }
  }

  lemma Unfold(s: State, actions: seq<Action>)
    requires actions != []
    ensures After(s, actions) == After(Step(s, actions[0]), actions[1..])
  {
  }

  // ---------------------------------------------------------------- attempts

  /** Only a failure that is reported counts against the limit: a job is dead-lettered by a landing mark of an attempt
   *  at or above it and by nothing else. */
  lemma DeadLetterNeedsAMark(s: State, a: Action, id: JobId)
    requires id in s.jobs && s.jobs[id].status != DeadLetter
    ensures Step(s, a).jobs[id].status == DeadLetter <==>
            a.MarkFailed? && a.id == id && Holds(s.jobs, id, a.worker, a.attempt) && a.attempt >= MAX_ATTEMPTS
  {
  }

  /** A job is done by a landing mark of its current attempt and by nothing else. */
  lemma DoneNeedsAMark(s: State, a: Action, id: JobId)
    requires id in s.jobs && s.jobs[id].status != Done
    ensures Step(s, a).jobs[id].status == Done <==> a.MarkDone? && a.id == id && Holds(s.jobs, id, a.worker, a.attempt)
  {
  }

  /** What a message is never changes: its thread, its key and when it was enqueued. */
  lemma MessagesStay(s: State, a: Action, id: JobId)
    requires id in s.jobs
    ensures id in Step(s, a).jobs
    ensures var was, now := s.jobs[id], Step(s, a).jobs[id];
      now.thread == was.thread && now.key == was.key && now.enqueuedAt == was.enqueuedAt && now.attempt >= was.attempt
  {
  }

  /** A failure below the limit puts the job back: open, without lease and worker, at the same attempt, and claimable
   *  from then on whenever no other job of its thread has a live lease. */
  lemma FailedIsRetried(s: State, id: JobId, worker: WorkerId, attempt: nat, now: Time)
    requires Holds(s.jobs, id, worker, attempt) && attempt < 3
    ensures var t := Step(s, MarkFailed(id, worker, attempt));
      && t.jobs[id].status == Pending && t.jobs[id].lease == None && t.jobs[id].worker == None
      && t.jobs[id].startedAt == None && t.jobs[id].finishedAt == None && t.jobs[id].attempt == attempt
      && (Claimable(t.jobs, id, now) <==>
            forall o | o in t.jobs && o != id && t.jobs[o].thread == t.jobs[id].thread :: !Live(t.jobs[o], now))
  {
  }

  ghost predicate PendingBelowLimit(jobs: Jobs) {
    forall i | i in jobs && jobs[i].status == Pending :: jobs[i].attempt < MAX_ATTEMPTS
  }

  ghost predicate WithinLimit(jobs: Jobs) { forall i | i in jobs :: jobs[i].attempt <= MAX_ATTEMPTS }

  /** A job whose last attempt neither reported nor kept its lease is claimed once more. The statement asks for the
   *  lease, not for the number of attempts. */
  predicate TakesOverLast(s: State, a: Action) {
    a.Claim? && Next(s.jobs, a.id, s.clock) && Expired(s.jobs[a.id], s.clock) && s.jobs[a.id].attempt == MAX_ATTEMPTS
  }

  lemma StepKeepsPendingBelow(s: State, a: Action)
    requires PendingBelowLimit(s.jobs)
    ensures PendingBelowLimit(Step(s, a).jobs)
  {
  }

  /** Such a claim, and nothing else, takes a job past the limit. */
  lemma StepKeepsLimit(s: State, a: Action)
    requires PendingBelowLimit(s.jobs) && WithinLimit(s.jobs)
    ensures WithinLimit(Step(s, a).jobs) <==> !TakesOverLast(s, a)
  {
    if TakesOverLast(s, a) {
      assert Step(s, a).jobs[a.id].attempt == MAX_ATTEMPTS + 1;
    }
  }

  ghost predicate AlwaysWithinLimit(s: State, actions: seq<Action>)
    decreases |actions|
  {
    WithinLimit(s.jobs) && (actions != [] ==> AlwaysWithinLimit(Step(s, actions[0]), actions[1..]))
  }

  predicate NeverTakesOverLast(s: State, actions: seq<Action>)
    decreases |actions|
  {
    actions != [] ==> !TakesOverLast(s, actions[0]) && NeverTakesOverLast(Step(s, actions[0]), actions[1..])
  }

  /** In every run no job is ever attempted more often than the limit exactly when no such claim occurs, that is, when
   *  every last attempt is reported before its lease runs out and another claim comes. */
  lemma {:induction false} AttemptLimit(s: State, actions: seq<Action>)
    requires PendingBelowLimit(s.jobs) && WithinLimit(s.jobs)
    ensures AlwaysWithinLimit(s, actions) <==> NeverTakesOverLast(s, actions)
    decreases |actions|
  {
    if actions != [] {
      var next := Step(s, actions[0]);
      StepKeepsPendingBelow(s, actions[0]);
      StepKeepsLimit(s, actions[0]);
      if WithinLimit(next.jobs) { AttemptLimit(next, actions[1..]); }
    }
  }

  /** A message that takes its worker down each time is claimed again and again, beyond any number of attempts. */
  function CrashLoop(id: JobId, from: Time, n: nat): seq<Action>
    decreases n
  {
    if n == 0 then []
    else
      var expired := from + LEASE_DURATION + 1;
      [Claim(id, 0), Tick(expired)] + CrashLoop(id, expired, n - 1)
  }

  lemma {:induction false} CrashLoopNeverEnds(s: State, id: JobId, n: nat)
    requires id in s.jobs && s.jobs.Keys == {id} && (s.jobs[id].status == Pending || Expired(s.jobs[id], s.clock))
    ensures var t := After(s, CrashLoop(id, s.clock, n));
      id in t.jobs && t.jobs[id].attempt == s.jobs[id].attempt + n && Open(t.jobs[id])
    decreases n
  {
    if n > 0 {
      var rest := CrashLoop(id, s.clock + LEASE_DURATION + 1, n - 1);
      var run := CrashLoop(id, s.clock, n);
      assert Next(s.jobs, id, s.clock);
      var claimed := Step(s, Claim(id, 0));
      var later := Step(claimed, Tick(s.clock + LEASE_DURATION + 1));
      assert run[0] == Claim(id, 0) && run[1..][0] == Tick(s.clock + LEASE_DURATION + 1) && run[1..][1..] == rest;
      Unfold(s, run);
      Unfold(claimed, run[1..]);
      CrashLoopNeverEnds(later, id, n - 1);
    }
  }

  /** From the empty queue: one message, four crashes, and the limit is passed. */
  lemma FourCrashesPassTheLimit()
    ensures !WithinLimit(After(Empty(0), [Enqueue(OLDER, Thread(0), Key(0, 0), 0)] + CrashLoop(OLDER, 0, 4)).jobs)
  {
    var first := [Enqueue(OLDER, Thread(0), Key(0, 0), 0)];
    Unfold(Empty(0), first);
    AfterSplits(Empty(0), first, CrashLoop(OLDER, 0, 4));
    CrashLoopNeverEnds(After(Empty(0), first), OLDER, 4);
  }

  // ---------------------------------------------------------------- the operations

  class Queue {
    var state: State

    constructor (now: Time)
      ensures state == Empty(now) && Valid(state) && Exclusive(state)
    {
      state := Empty(now);
    }

    /** Returns the job that has the key already, if any; such a message is not stored again. */
    method EnqueueMessage(id: JobId, thread: Thread, key: Key, at: Time) returns (existing: Option<JobId>)
      requires Valid(state) && id !in state.jobs
      modifies this
      ensures Valid(state) && state == Step(old(state), Enqueue(id, thread, key, at))
      ensures existing.Some? <==> KeyTaken(old(state).jobs, key)
      ensures existing == None ==> id in state.jobs
      ensures existing == None ==> state.jobs[id] == Job(thread, key, at, Pending, None, None, None, 0, None)
      ensures forall o | o in old(state).jobs :: o in state.jobs && state.jobs[o] == old(state).jobs[o]
      ensures existing.Some? ==>
        existing.value in state.jobs && state.jobs[existing.value].key == key && state == old(state)
    {
      if i :| i in state.jobs && state.jobs[i].key == key { return Some(i); }
      state := state.(jobs := state.jobs[id := NewJob(thread, key, at)]);
      return None;
    }

    /** Finds a job exactly when some thread has an open job and no live one, and takes the oldest. */
    method ClaimNextJob(worker: WorkerId) returns (claimed: Option<JobId>)
      requires Valid(state)
      modifies this
      ensures Valid(state)
      ensures claimed.Some? <==> exists id :: Waits(old(state), id)
      ensures claimed == None ==> state == old(state)
      ensures claimed.Some? ==> Next(old(state).jobs, claimed.value, old(state).clock)
      ensures claimed.Some? ==> state == Step(old(state), Claim(claimed.value, worker))
      ensures claimed.Some? ==>
        var was, now := old(state).jobs[claimed.value], state.clock;
        state.jobs[claimed.value] == was.(status := Processing, worker := Some(worker), attempt := was.attempt + 1,
          lease := Some(now + 300), startedAt := if was.startedAt.Some? then was.startedAt else Some(now))
      ensures claimed.Some? ==> Holds(state.jobs, claimed.value, worker, state.jobs[claimed.value].attempt)
      ensures Exclusive(old(state)) ==> Exclusive(state)
    {
      claimed := SelectNext();
      if claimed.Some? {
        var id := claimed.value;
        StepKeepsValid(state, Claim(id, worker));
        if Exclusive(state) { StepKeepsExclusive(state, Claim(id, worker)); }
        state := state.(jobs := state.jobs[id := Claimed(state.jobs[id], worker, state.clock)]);
      }
    }

    /** The SELECT inside the claim. */
    method SelectNext() returns (found: Option<JobId>)
      requires Valid(state)
      ensures found.Some? <==> exists id :: Waits(state, id)
      ensures found.Some? ==> Next(state.jobs, found.value, state.clock)
    {
      ClaimFindsWork(state);
      var candidates := set i | i in state.jobs && Claimable(state.jobs, i, state.clock);
      assert forall id | Next(state.jobs, id, state.clock) :: id in candidates;
      if candidates == {} { return None; }
      var first := OldestOf(candidates);
      WaitingIs(state, first);
      return Some(first);
    }

    method OldestOf(among: set<JobId>) returns (first: JobId)
      requires among != {} && forall i | i in among :: i in state.jobs
      ensures first in among && forall i | i in among :: state.jobs[first].enqueuedAt <= state.jobs[i].enqueuedAt
    {
      first :| first in among;
      var rest := among - {first};
      while rest != {}
        invariant rest <= among && first in among
        invariant forall i | i in among && i !in rest :: state.jobs[first].enqueuedAt <= state.jobs[i].enqueuedAt
        decreases |rest|
      {
        var i :| i in rest;
        if state.jobs[i].enqueuedAt < state.jobs[first].enqueuedAt { first := i; }
        rest := rest - {i};
      }
    }

    /** The answer says whether the token is still good; with a bad one nothing changes. */
    method ExtendLease(id: JobId, worker: WorkerId, attempt: nat) returns (ok: bool)
      requires Valid(state)
      modifies this
      ensures Valid(state) && state == Step(old(state), Extend(id, worker, attempt))
      ensures ok <==> Holds(old(state).jobs, id, worker, attempt)
      ensures ok ==> state.jobs[id] == old(state).jobs[id].(lease := Some(state.clock + 300))
      ensures !ok ==> state == old(state)
      ensures Exclusive(old(state)) ==> (Exclusive(state) <==> !Revives(old(state), Extend(id, worker, attempt)))
    {
      StepKeepsValid(state, Extend(id, worker, attempt));
      if Exclusive(state) { StepKeepsExclusive(state, Extend(id, worker, attempt)); }
      ok := Holds(state.jobs, id, worker, attempt);
      if ok { state := state.(jobs := state.jobs[id := state.jobs[id].(lease := Some(state.clock + LEASE_DURATION))]); }
    }

    method MarkJobDone(id: JobId, worker: WorkerId, attempt: nat) returns (ok: bool)
      requires Valid(state)
      modifies this
      ensures Valid(state) && state == Step(old(state), MarkDone(id, worker, attempt))
      ensures ok <==> Holds(old(state).jobs, id, worker, attempt)
      ensures ok ==> Spent(state, id, attempt) && state.jobs[id].attempt == attempt
      ensures ok ==>
        state.jobs[id].status == Done && state.jobs[id].finishedAt == Some(state.clock) && state.jobs[id].lease == None
      ensures !ok ==> state == old(state)
    {
      StepKeepsValid(state, MarkDone(id, worker, attempt));
      ok := Holds(state.jobs, id, worker, attempt);
      if ok { state := state.(jobs := state.jobs[id := Finished(state.jobs[id], state.clock)]); }
    }

    method MarkJobFailed(id: JobId, worker: WorkerId, attempt: nat) returns (ok: bool)
      requires Valid(state)
      modifies this
      ensures Valid(state) && state == Step(old(state), MarkFailed(id, worker, attempt))
      ensures ok <==> Holds(old(state).jobs, id, worker, attempt)
      ensures ok ==> Spent(state, id, attempt) && state.jobs[id].attempt == attempt && state.jobs[id].lease == None
      ensures ok && attempt < 3 ==>
        && state.jobs[id].status == Pending && state.jobs[id].worker == None
        && state.jobs[id].startedAt == None && state.jobs[id].finishedAt == None
      ensures ok && attempt >= 3 ==>
        state.jobs[id].status == DeadLetter && state.jobs[id].finishedAt == Some(state.clock)
      ensures !ok ==> state == old(state)
    {
      StepKeepsValid(state, MarkFailed(id, worker, attempt));
      ok := Holds(state.jobs, id, worker, attempt);
      if ok {
        var j := state.jobs[id];
        if attempt < MAX_ATTEMPTS {
          j := j.(status := Pending, startedAt := None, finishedAt := None, lease := None, worker := None);
        } else {
          j := j.(status := DeadLetter, finishedAt := Some(state.clock), lease := None);
        }
        state := state.(jobs := state.jobs[id := j]);
      }
    }
  }
}
