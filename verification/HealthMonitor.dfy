/** The alert loop of the health monitor: one state per probe, kept across runs, with a cooldown.
 *
 * Times are microseconds. The saved time of an alert is read back from text, and may not parse. Probe results
 * are arbitrary; sending is a record of what was sent.
 */
module HealthMonitor {
  import opened Options

  datatype Severity = Fine | Warning | Critical

  datatype Stamp = At(time: int) | Unreadable

  /** Probe names are compared, messages are only stored. */
  datatype Name = Name(n: nat)
  datatype Text = Text(n: nat)

  datatype ProbeState = ProbeState(status: Severity, since: int, lastAlert: Option<Stamp>, message: Text)

  datatype Result = Result(name: Name, status: Severity, message: Text)

  datatype Alert = Alert(at: int, name: Name, status: Severity)

  const COOLDOWN: int := 15 * 60 * 1_000_000

  type States = map<Name, ProbeState>

  datatype Event = Event(now: int, result: Result)

  // ---------------------------------------------------------------- one result

  function StatusOf(prev: Option<ProbeState>): Severity { if prev.Some? then prev.value.status else Fine }

  function LastAlert(prev: Option<ProbeState>): Option<Stamp> { if prev.Some? then prev.value.lastAlert else None }

  /** Only a new alert is subject to the cooldown, never a recovery; an unreadable time does not suppress. */
  predicate Suppressed(prev: Option<ProbeState>, e: Event) {
    e.result.status != Fine && LastAlert(prev).Some? && LastAlert(prev).value.At?
      && e.now - LastAlert(prev).value.time < COOLDOWN
  }

  function NextState(prev: Option<ProbeState>, e: Event): ProbeState {
    if e.result.status != StatusOf(prev) then
      ProbeState(e.result.status, e.now,
                 if !Suppressed(prev, e) && e.result.status != Fine then Some(At(e.now)) else LastAlert(prev),
                 e.result.message)
    else if prev.Some? then prev.value.(message := e.result.message)
    else ProbeState(e.result.status, e.now, None, e.result.message)
  }

  function Sends(prev: Option<ProbeState>, e: Event): seq<Alert> {
    if e.result.status != StatusOf(prev) && !Suppressed(prev, e) then [Alert(e.now, e.result.name, e.result.status)]
      else []
  }

  /** The saved time of the last alert can be read and is later than `time`. */
  predicate AlertedAfter(prev: Option<ProbeState>, time: int) {
    match prev
    case Some(ProbeState(_, _, Some(At(last)), _)) => last > time
    case _ => false
  }

  /** One result: the state takes over its status and message, and dates from the change. At most one alert is sent,
   *  with the new status: none exactly if the status stays or an alert of the last 15 minutes is on record and this is
   *  no recovery. The record changes exactly when a new alert is sent. */
  lemma OneResult(prev: Option<ProbeState>, e: Event)
    ensures var status := if prev.Some? then prev.value.status else Fine;
      && (Sends(prev, e) == [] || Sends(prev, e) == [Alert(e.now, e.result.name, e.result.status)])
      && (Sends(prev, e) == [] <==>
            e.result.status == status || (e.result.status != Fine && AlertedAfter(prev, e.now - 900_000_000)))
    ensures var next := NextState(prev, e);
      && next.status == e.result.status && next.message == e.result.message
      && next.since == (if prev.Some? && prev.value.status == e.result.status then prev.value.since else e.now)
      && next.lastAlert ==
        (if Sends(prev, e) != [] && e.result.status != Fine then Some(At(e.now))
         else if prev.Some? then prev.value.lastAlert else None)
  {
  }

  // ---------------------------------------------------------------- whole runs

  function Get(states: States, name: Name): Option<ProbeState> { if name in states then Some(states[name]) else None }

  function After(states: States, events: seq<Event>): States {
    if events == [] then states
    else
      Next(After(states, events[..|events| - 1]), events[|events| - 1])
  }

  function Next(states: States, e: Event): States {
    states[e.result.name := NextState(Get(states, e.result.name), e)]
  }

  function AlertsOf(states: States, events: seq<Event>): seq<Alert> {
    if events == [] then []
    else
      var init, e := events[..|events| - 1], events[|events| - 1];
      AlertsOf(states, init) + Sends(Get(After(states, init), e.result.name), e)
  }

  function Tick(now: int, results: seq<Result>): seq<Event> {
    seq(|results|, i requires 0 <= i < |results| => Event(now, results[i]))
  }

  lemma AfterOneMore(states: States, events: seq<Event>, e: Event)
    ensures After(states, events + [e]) == Next(After(states, events), e)
    ensures AlertsOf(states, events + [e]) ==
      AlertsOf(states, events) + Sends(Get(After(states, events), e.result.name), e)
  {
  }

  lemma {:induction false} StatesCompose(states: States, a: seq<Event>, b: seq<Event>)
    ensures After(states, a + b) == After(After(states, a), b)
  {
    if b == [] {
      assert a + b == a;
    } else {
      assert (a + b)[..|a + b| - 1] == a + b[..|b| - 1];
      StatesCompose(states, a, b[..|b| - 1]);
    }
  }

  /** Runs one after the other, with the state saved in between, are one long run. */
  lemma {:induction false} RunsCompose(states: States, a: seq<Event>, b: seq<Event>)
    ensures After(states, a + b) == After(After(states, a), b)
    ensures AlertsOf(states, a + b) == AlertsOf(states, a) + AlertsOf(After(states, a), b)
  {
    StatesCompose(states, a, b);
    if b == [] {
      assert a + b == a;
    } else {
      var init, e := b[..|b| - 1], b[|b| - 1];
      assert (a + b)[..|a + b| - 1] == a + init;
      StatesCompose(states, a, init);
      RunsCompose(states, a, init);
      AppendRegroups(AlertsOf(states, a), AlertsOf(After(states, a), init), Sends(Get(After(states, a +
        init), e.result.name), e));
    }
  }

  lemma AppendRegroups(a: seq<Alert>, b: seq<Alert>, c: seq<Alert>)
    ensures (a + b) + c == a + (b + c)
  {
  }

  class Monitor {
    var state: States
    var sent: seq<Alert>

    constructor (state: States)
      ensures this.state == state && sent == []
    {
      this.state, sent := state, [];
    }

    /** One iteration: the alert, and the state that remembers it. */
    method Handle(now: int, result: Result)
      modifies this
      ensures state == old(state)[result.name := NextState(Get(old(state), result.name), Event(now, result))]
      ensures sent == old(sent) + Sends(Get(old(state), result.name), Event(now, result))
    {
      var prev := Get(state, result.name);
      var prevStatus := if prev.Some? then prev.value.status else Fine;
      if result.status != prevStatus {
        var shouldAlert := true;
        if result.status != Fine && prev.Some? && prev.value.lastAlert.Some? {
          match prev.value.lastAlert.value
          case At(last) => if now - last < COOLDOWN { shouldAlert := false; }
          case Unreadable =>
        }
        var lastAlert := if prev.Some? then prev.value.lastAlert else None;
        if shouldAlert {
          sent := sent + [Alert(now, result.name, result.status)];
          if result.status != Fine { lastAlert := Some(At(now)); }
        }
        state := state[result.name := ProbeState(result.status, now, lastAlert, result.message)];
      } else if prev.Some? {
        state := state[result.name := prev.value.(message := result.message)];
      } else {
        state := state[result.name := ProbeState(result.status, now, None, result.message)];
      }
    }

    /** One run of `main` on the results its probes returned, in their order. */
    method RunProbes(now: int, results: seq<Result>)
      modifies this
      ensures state == After(old(state), Tick(now, results))
      ensures sent == old(sent) + AlertsOf(old(state), Tick(now, results))
    {
      for i := 0 to |results|
        invariant state == After(old(state), Tick(now, results[..i]))
        invariant sent == old(sent) + AlertsOf(old(state), Tick(now, results[..i]))
      {
        AfterOneMore(old(state), Tick(now, results[..i]), Event(now, results[i]));
        assert Tick(now, results[..i + 1]) == Tick(now, results[..i]) + [Event(now, results[i])];
        Handle(now, results[i]);
      }
      assert results[..|results|] == results;
    }
  }

  // ---------------------------------------------------------------- probes do not affect each other

  function EventsOf(events: seq<Event>, name: Name): seq<Event> {
    if events == [] then []
    else
      var last := events[|events| - 1];
      EventsOf(events[..|events| - 1], name) + (if last.result.name == name then [last] else [])
  }

  function AlertsFor(alerts: seq<Alert>, name: Name): seq<Alert> {
    if alerts == [] then []
    else
      var last := alerts[|alerts| - 1];
      AlertsFor(alerts[..|alerts| - 1], name) + (if last.name == name then [last] else [])
  }

  lemma AlertsForAppend(alerts: seq<Alert>, more: seq<Alert>, name: Name)
    requires |more| <= 1
    ensures AlertsFor(alerts + more, name) ==
      AlertsFor(alerts, name) + (if |more| == 1 && more[0].name == name then more else [])
  {
    if more == [] {
      assert alerts + more == alerts;
    } else {
      assert (alerts + more)[..|alerts + more| - 1] == alerts;
    }
  }

  lemma {:induction false} StatesAreIndependent(states: States, events: seq<Event>, name: Name)
    ensures Get(After(states, events), name) == Get(After(states, EventsOf(events, name)), name)
  {
    if events != [] {
      var init, e := events[..|events| - 1], events[|events| - 1];
      StatesAreIndependent(states, init, name);
      if e.result.name == name {
        AfterOneMore(states, EventsOf(init, name), e);
      } else {
        assert EventsOf(events, name) == EventsOf(init, name);
      }
    }
  }

  /** A probe's state and alerts are those of a monitor that is given this probe's results only. */
  lemma {:induction false} ProbesAreIndependent(states: States, events: seq<Event>, name: Name)
    ensures Get(After(states, events), name) == Get(After(states, EventsOf(events, name)), name)
    ensures AlertsFor(AlertsOf(states, events), name) == AlertsOf(states, EventsOf(events, name))
  {
    StatesAreIndependent(states, events, name);
    if events != [] {
      var init, e := events[..|events| - 1], events[|events| - 1];
      ProbesAreIndependent(states, init, name);
      AlertsForAppend(AlertsOf(states, init), Sends(Get(After(states, init), e.result.name), e), name);
      if e.result.name == name {
        AfterOneMore(states, EventsOf(init, name), e);
      } else {
        assert EventsOf(events, name) == EventsOf(init, name);
      }
    }
  }

  // ---------------------------------------------------------------- the rate of alerts

  /** The times at which the run raised an alert for the probe; recoveries do not count. */
  function Raised(states: States, events: seq<Event>, name: Name): seq<int> {
    if events == [] then []
    else
      var init, e := events[..|events| - 1], events[|events| - 1];
      Raised(states, init, name) +
      (if e.result.name == name && e.result.status != Fine && Sends(Get(After(states, init), name), e) != []
        then [e.now] else [])
  }

  ghost predicate ClockForward(events: seq<Event>) {
    forall i, j | 0 <= i < j < |events| :: events[i].now <= events[j].now
  }

  /** The saved state is intact: the time of the last alert, if any, reads back and lies in the past. */
  ghost predicate Intact(states: States, name: Name, events: seq<Event>) {
    name in states && states[name].lastAlert.Some? ==>
      states[name].lastAlert.value.At? && forall i | 0 <= i < |events| ::
        states[name].lastAlert.value.time <= events[i].now
  }

  /** After a run the saved time is the time of the last alert raised, or still the one it started with. */
  lemma {:induction false} StateRemembersLastAlert(states: States, events: seq<Event>, name: Name)
    ensures var raised := Raised(states, events, name);
      LastAlert(Get(After(states, events), name)) ==
        if raised == [] then LastAlert(Get(states, name)) else Some(At(raised[|raised| - 1]))
  {
    if events != [] {
      StateRemembersLastAlert(states, events[..|events| - 1], name);
    }
  }

  ghost predicate Spaced(times: seq<int>) {
    forall i, j | 0 <= i <= j < |times| :: times[j] - times[i] >= (j - i) * COOLDOWN
  }

  lemma SpacedOneMore(times: seq<int>, t: int)
    requires Spaced(times) && (times != [] ==> t - times[|times| - 1] >= COOLDOWN)
    ensures Spaced(times + [t])
  {
  }

  /** Two alerts of one probe are at least the cooldown apart, however many runs lie between; so k alerts after
   *  another take k cooldowns. */
  lemma {:induction false} AlertsAreSpaced(states: States, events: seq<Event>, name: Name)
    requires ClockForward(events) && Intact(states, name, events)
    ensures Spaced(Raised(states, events, name))
  {
    if events != [] {
      var init, e := events[..|events| - 1], events[|events| - 1];
      AlertsAreSpaced(states, init, name);
      StateRemembersLastAlert(states, init, name);
      var before := Raised(states, init, name);
      if |Raised(states, events, name)| > |before| { SpacedOneMore(before, e.now); }
    }
  }

  /** Any window of W microseconds holds at most one alert of a probe and another for every 15 minutes. */
  lemma AlertsPerWindow(states: States, events: seq<Event>, name: Name, i: nat, j: nat, window: nat)
    requires ClockForward(events) && Intact(states, name, events)
    requires i <= j < |Raised(states, events, name)|
    requires Raised(states, events, name)[j] - Raised(states, events, name)[i] <= window
    ensures j - i + 1 <= window / 900_000_000 + 1
  {
    AlertsAreSpaced(states, events, name);
    assert (j - i) * COOLDOWN <= window;
  }

  /** An alert of the event's probe, of this run or of the saved state, lies less than the cooldown back. */
  ghost predicate Recent(states: States, events: seq<Event>, e: Event) {
    var name := e.result.name;
    || (exists t | t in Raised(states, events, name) :: e.now - t < COOLDOWN)
    || (Raised(states, events, name) == [] && LastAlert(Get(states, name)).Some?
        && LastAlert(Get(states, name)).value.At? && e.now - LastAlert(Get(states, name)).value.time < COOLDOWN)
  }

  /** A change for the worse is alerted exactly when no alert of that probe is recent. */
  lemma TransitionAlertedUnlessRecent(states: States, events: seq<Event>, e: Event)
    requires Intact(states, e.result.name, events)
    requires e.result.status != Fine && e.result.status != StatusOf(Get(After(states, events), e.result.name))
    requires ClockForward(events + [e])
    ensures Sends(Get(After(states, events), e.result.name), e) == [] <==> Recent(states, events, e)
  {
    var name := e.result.name;
    var raised := Raised(states, events, name);
    StateRemembersLastAlert(states, events, name);
    ClockForwardInit(events, e);
    AlertsAreSpaced(states, events, name);
    if raised != [] { LastIsGreatest(raised); }
  }

  lemma ClockForwardInit(events: seq<Event>, e: Event)
    requires ClockForward(events + [e])
    ensures ClockForward(events)
  {
    forall i, j | 0 <= i < j < |events| ensures events[i].now <= events[j].now {
      assert (events + [e])[i] == events[i] && (events + [e])[j] == events[j];
    }
  }

  lemma LastIsGreatest(times: seq<int>)
    requires Spaced(times) && times != []
    ensures times[|times| - 1] in times && forall t | t in times :: t <= times[|times| - 1]
  {
  }

  /** A return to normal always sends exactly one recovery. */
  lemma RecoveryIsAlwaysSent(states: States, events: seq<Event>, e: Event)
    ensures e.result.status == Fine && StatusOf(Get(After(states, events), e.result.name)) != Fine ==>
      AlertsOf(states, events + [e]) == AlertsOf(states, events) + [Alert(e.now, e.result.name, Fine)]
  {
  }

  /** While a probe keeps reporting the status it is known to have, nothing is sent. */
  lemma {:induction false} SameStatusStaysSilent(states: States, more: seq<Event>, name: Name)
    requires name in states && KeepsStatus(more, name, states[name].status)
    requires forall i | 0 <= i < |more| :: more[i].result.name == name
    ensures AlertsOf(states, more) == []
    ensures name in After(states, more) && After(states, more)[name].status == states[name].status
  {
    if more != [] {
      SameStatusStaysSilent(states, more[..|more| - 1], name);
    }
  }

  ghost predicate KeepsStatus(more: seq<Event>, name: Name, status: Severity) {
    forall i | 0 <= i < |more| :: more[i].result.name == name ==> more[i].result.status == status
  }

  lemma {:induction false} EventsOfAppend(a: seq<Event>, b: seq<Event>, name: Name)
    ensures EventsOf(a + b, name) == EventsOf(a, name) + EventsOf(b, name)
    decreases |b|
  {
    if b == [] {
      assert a + b == a;
    } else {
      assert (a + b)[..|a + b| - 1] == a + b[..|b| - 1];
      EventsOfAppend(a, b[..|b| - 1], name);
    }
  }

  lemma {:induction false} EventsOfKeepStatus(more: seq<Event>, name: Name, status: Severity)
    requires KeepsStatus(more, name, status)
    ensures KeepsStatus(EventsOf(more, name), name, status)
    ensures forall i | 0 <= i < |EventsOf(more, name)| :: EventsOf(more, name)[i].result.name == name
  {
    if more != [] {
      EventsOfKeepStatus(more[..|more| - 1], name, status);
    }
  }

  /** All that is ever sent for such a change is what is sent at once. */
  lemma OnlyTheChangeIsSent(states: States, mine: seq<Event>, e: Event, later: seq<Event>)
    requires KeepsStatus(later, e.result.name, e.result.status)
    requires forall i | 0 <= i < |later| :: later[i].result.name == e.result.name
    ensures AlertsOf(states, mine + [e] + later) ==
      AlertsOf(states, mine) + Sends(Get(After(states, mine), e.result.name), e)
  {
    RunsCompose(states, mine + [e], later);
    AfterOneMore(states, mine, e);
    SameStatusStaysSilent(After(states, mine + [e]), later, e.result.name);
  }

  lemma EventsOfThree(events: seq<Event>, e: Event, more: seq<Event>)
    ensures EventsOf(events + [e] + more, e.result.name) ==
            EventsOf(events, e.result.name) + [e] + EventsOf(more, e.result.name)
  {
    EventsOfAppend(events + [e], more, e.result.name);
    EventsOfAppend(events, [e], e.result.name);
    assert EventsOf([e], e.result.name) == [e];
  }

  /** An outage that begins with `e` and lasts through `more`, whatever other probes report meanwhile, is never alerted
   *  exactly when an alert of that probe was recent when it began: a suppressed change is forgotten, however long the
   *  outage lasts past the cooldown. */
  lemma LastingOutageIsSilentWhenRecent(states: States, events: seq<Event>, e: Event, more: seq<Event>)
    requires Intact(states, e.result.name, events) && ClockForward(events + [e])
    requires e.result.status != Fine && e.result.status != StatusOf(Get(After(states, events), e.result.name))
    requires KeepsStatus(more, e.result.name, e.result.status)
    ensures Recent(states, events, e) <==>
            AlertsFor(AlertsOf(states, events + [e] + more), e.result.name) ==
            AlertsFor(AlertsOf(states, events), e.result.name)
  {
    AlertsOfAnOutage(states, events, e, more);
    TransitionAlertedUnlessRecent(states, events, e);
  }

  lemma AlertsOfAnOutage(states: States, events: seq<Event>, e: Event, more: seq<Event>)
    requires KeepsStatus(more, e.result.name, e.result.status)
    ensures AlertsFor(AlertsOf(states, events + [e] + more), e.result.name) ==
            AlertsFor(AlertsOf(states, events), e.result.name) + Sends(Get(After(states, events), e.result.name), e)
  {
    var name := e.result.name;
    ProbesAreIndependent(states, events, name);
    ProbesAreIndependent(states, events + [e] + more, name);
    EventsOfThree(events, e, more);
    EventsOfKeepStatus(more, name, e.result.status);
    OnlyTheChangeIsSent(states, EventsOf(events, name), e, EventsOf(more, name));
  }

  function Report(now: int, status: Severity): Event { Event(now, Result(Name(0), status, Text(0))) }

  /** A warning, a moment of calm, and then an outage that is never reported, however often it is seen. */
  lemma OutageAfterAWarningIsSilent(more: seq<Event>)
    requires KeepsStatus(more, Name(0), Critical)
    ensures var before := [Report(0, Warning), Report(1, Fine)];
      AlertsFor(AlertsOf(map[], before + [Report(2, Critical)] + more), Name(0)) == [
        Alert(0, Name(0), Warning), Alert(1, Name(0), Fine)]
  {
    var first, before := [Report(0, Warning)], [Report(0, Warning), Report(1, Fine)];
    AfterOneMore(map[], [], Report(0, Warning));
    AfterOneMore(map[], first, Report(1, Fine));
    assert [] + [Report(0, Warning)] == first && first + [Report(1, Fine)] == before;
    assert AlertsOf(map[], first) == [Alert(0, Name(0), Warning)];
    assert AlertsOf(map[], before) == [Alert(0, Name(0), Warning), Alert(1, Name(0), Fine)];
    assert Suppressed(Get(After(map[], before), Name(0)), Report(2, Critical));
    AlertsOfAnOutage(map[], before, Report(2, Critical), more);
    AlertsForAppend([], [Alert(0, Name(0), Warning)], Name(0));
    AlertsForAppend([Alert(0, Name(0), Warning)], [Alert(1, Name(0), Fine)], Name(0));
    assert AlertsOf(map[], before) == ([] + [Alert(0, Name(0), Warning)]) + [Alert(1, Name(0), Fine)];
  }
}
