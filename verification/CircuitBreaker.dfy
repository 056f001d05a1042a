/** The circuit breaker in front of the emotion engine: closed, open or half-open, driven by calls
    that overlap. A call admitted in one state can complete in another. The clock is read before the
    mutex is taken when a call comes in, and under the mutex when the circuit opens. */
module CircuitBreaker {
  datatype Mode = Closed | Open | HalfOpen

  datatype Config = Config(threshold: int, openTimeout: int)

  const DEFAULT_OPEN_TIMEOUT := 2000

  datatype Breaker = Breaker(mode: Mode, failed: int, openedUntil: int, probing: bool)

  /** What the constructor makes of the configuration it is given. */
  function Normalized(cfg: Config): (r: Config)
    ensures r.threshold >= 1 && r.openTimeout > 0
    ensures r.threshold == cfg.threshold || (cfg.threshold < 1 && r.threshold == 1)
    ensures r.openTimeout == cfg.openTimeout || (cfg.openTimeout <= 0 && r.openTimeout == 2000)
  {
    Config(if cfg.threshold < 1 then 1 else cfg.threshold,
           if cfg.openTimeout <= 0 then DEFAULT_OPEN_TIMEOUT else cfg.openTimeout)
  }

  /** beforeCall: the breaker afterwards, and whether the call may go on. */
  function Admit(b: Breaker, reading: int): (Breaker, bool) {
    match b.mode
    case Closed => (b, true)
    case HalfOpen => if b.probing then (b, false) else (b.(probing := true), true)
    case Open =>
      if reading < b.openedUntil then (b, false)
      else (b.(mode := HalfOpen, probing := true), true)
  }

  function Opened(cfg: Config, b: Breaker, now: int): Breaker {
    b.(mode := Open, openedUntil := now + cfg.openTimeout, failed := cfg.threshold)
  }

  function OnSuccess(b: Breaker): Breaker {
    if b.mode.HalfOpen? then b.(failed := 0, probing := false, mode := Closed) else b.(failed := 0)
  }

  function OnFailure(cfg: Config, b: Breaker, now: int): Breaker {
    match b.mode
    case HalfOpen => Opened(cfg, b.(probing := false), now)
    case Open => Opened(cfg, b, now)
    case Closed =>
      var counted := b.(failed := b.failed + 1);
      if counted.failed >= cfg.threshold then Opened(cfg, counted, now) else counted
  }

  // ---------------------------------------------------------------- The object

  datatype CallResult = Rejected | Succeeded | Failed

  class CircuitBreakerClient {
    const config: Config
    var state: Mode
    var consecutiveFailed: int
    var openedUntil: int
    var halfOpenInFlight: bool

    ghost function View(): Breaker
      reads this
    {
      Breaker(state, consecutiveFailed, openedUntil, halfOpenInFlight)
    }

    constructor (cfg: Config)
      ensures config == Normalized(cfg)
      ensures View() == Breaker(Closed, 0, 0, false)
    {
      config := Normalized(cfg);
      state, consecutiveFailed, openedUntil, halfOpenInFlight := Closed, 0, 0, false;
    }

    method BeforeCall(reading: int) returns (admitted: bool)
      modifies this
      ensures (View(), admitted) == Admit(old(View()), reading)
      ensures admitted <==> old(state) == Closed || (old(state) == Open && reading >= old(openedUntil))
                            || (old(state) == HalfOpen && !old(halfOpenInFlight))
      ensures admitted && old(state) != Closed ==> state == HalfOpen && halfOpenInFlight
      ensures !admitted || old(state) == Closed ==> View() == old(View())
      ensures consecutiveFailed == old(consecutiveFailed) && openedUntil == old(openedUntil)
    {
      if state == Open {
        if reading < openedUntil {
          return false;
        }
        state := HalfOpen;
        halfOpenInFlight := false;
      }
      if state == HalfOpen {
        if halfOpenInFlight {
          return false;
        }
        halfOpenInFlight := true;
      }
      return true;
    }

    method AfterSuccess()
      modifies this
      ensures View() == OnSuccess(old(View()))
      ensures consecutiveFailed == 0 && openedUntil == old(openedUntil)
      ensures state == (if old(state) == HalfOpen then Closed else old(state))
      ensures halfOpenInFlight == (old(state) != HalfOpen && old(halfOpenInFlight))
    {
      consecutiveFailed := 0;
      if state == HalfOpen {
        halfOpenInFlight := false;
        state := Closed;
      }
    }

    method AfterFailure(now: int)
      modifies this
      ensures View() == OnFailure(config, old(View()), now)
      ensures halfOpenInFlight == (old(state) != HalfOpen && old(halfOpenInFlight))
      ensures old(state) == Closed && old(consecutiveFailed) + 1 < config.threshold ==>
                state == Closed && consecutiveFailed == old(consecutiveFailed) + 1 && openedUntil == old(openedUntil)
      ensures old(state) != Closed || old(consecutiveFailed) + 1 >= config.threshold ==>
                state == Open && consecutiveFailed == config.threshold && openedUntil == now + config.openTimeout
    {
      match state {
        case HalfOpen =>
          halfOpenInFlight := false;
          OpenCircuit(now);
        case Open =>
          OpenCircuit(now);
        case Closed =>
          consecutiveFailed := consecutiveFailed + 1;
          if consecutiveFailed >= config.threshold {
            OpenCircuit(now);
          }
      }
    }

    /** One guarded call: `outcome` is what the engine answers if it is asked, `now` the time it does. */
    method Execute(reading: int, outcome: bool, now: int) returns (r: CallResult)
      modifies this
      ensures r == if !Admit(old(View()), reading).1 then Rejected else if outcome then Succeeded else Failed
      ensures var b := Admit(old(View()), reading).0;
        View() == match r case Rejected => b case Succeeded => OnSuccess(b) case Failed => OnFailure(config, b, now)
    {
      var admitted := BeforeCall(reading);
      if !admitted {
        return Rejected;
      }
      if outcome {
        AfterSuccess();
        return Succeeded;
      }
      AfterFailure(now);
      return Failed;
    }

    method OpenCircuit(now: int)
      modifies this
      ensures View() == Opened(config, old(View()), now)
      ensures state == Open && openedUntil == now + config.openTimeout && consecutiveFailed == config.threshold
      ensures halfOpenInFlight == old(halfOpenInFlight)
    {
      state := Open;
      openedUntil := now + config.openTimeout;
      consecutiveFailed := config.threshold;
    }
  }

  // ---------------------------------------------------------------- Overlapping calls

  type CallId = nat

  datatype Event = Admission(at: int, probe: bool) | Opening(at: int) | Recovery(at: int)

  datatype System = System(
    clock: int,
    breaker: Breaker,
    readings: map<CallId, int>,   // calls that have read the clock and wait for the mutex
    running: set<CallId>,         // admitted calls that have not completed
    probe: CallId,                // history: the last call admitted from the open state
    log: seq<bool>,               // history: outcomes, in order of completion
    events: seq<Event>)           // history: what the breaker did and when

  datatype Step =
    | Tick(elapsed: nat)
    | ReadClock(id: CallId)
    | Enter(id: CallId)
    | Complete(id: CallId, ok: bool)

  predicate Enabled(s: System, step: Step) {
    match step
    case Tick(_) => true
    case ReadClock(id) => id !in s.readings && id !in s.running
    case Enter(id) => id in s.readings && id !in s.running
    case Complete(id, _) => id in s.running
  }

  function Apply(cfg: Config, s: System, step: Step): System
    requires Enabled(s, step)
  {
    match step
    case Tick(elapsed) => s.(clock := s.clock + elapsed)
    case ReadClock(id) => s.(readings := s.readings[id := s.clock])
    case Enter(id) =>
      var (b, admitted) := Admit(s.breaker, s.readings[id]);
      var s1 := s.(breaker := b, readings := s.readings - {id});
      if !admitted then s1
      else
        s1.(running := s.running + {id},
            probe := if b.mode.HalfOpen? then id else s.probe,
            events := s.events + [Admission(s.clock, b.mode.HalfOpen?)])
    case Complete(id, ok) =>
      var b := if ok then OnSuccess(s.breaker) else OnFailure(cfg, s.breaker, s.clock);
      var news := if !ok && b.mode.Open? then [Opening(s.clock)]
                  else if ok && s.breaker.mode.HalfOpen? then [Recovery(s.clock)]
                  else [];
      s.(breaker := b, running := s.running - {id}, log := s.log + [ok], events := s.events + news)
  }

  predicate Init(s: System) {
    && s.clock >= 0 && s.breaker == Breaker(Closed, 0, 0, false)
    && s.readings == map[] && s.running == {} && s.log == [] && s.events == []
  }

  ghost predicate Execution(cfg: Config, states: seq<System>, steps: seq<Step>) {
    && cfg == Normalized(cfg)
    && |states| == |steps| + 1
    && Init(states[0])
    && forall i :: 0 <= i < |steps| ==> Enabled(states[i], steps[i]) && states[i + 1] == Apply(cfg, states[i], steps[i])
  }

  // ---------------------------------------------------------------- What is stated

  /** How many failures the log ends with. */
  function TrailingFailures(log: seq<bool>): nat {
    if log == [] || log[|log| - 1] then 0 else 1 + TrailingFailures(log[..|log| - 1])
  }

  /** The mode as an observer of the events would tell it: the last event that is not an ordinary
      admission decides. */
  function ModeFrom(events: seq<Event>): Mode {
    if events == [] then Closed
    else
      match events[|events| - 1]
      case Opening(_) => Open
      case Recovery(_) => Closed
      case Admission(_, probe) => if probe then HalfOpen else ModeFrom(events[..|events| - 1])
  }

  ghost predicate IsTurn(e: Event) { e.Opening? || e.Recovery? }

  ghost predicate Probe(e: Event) { e.Admission? && e.probe }

  ghost predicate TurnBetween(events: seq<Event>, i: int, j: int)
    requires 0 <= i && j <= |events|
  {
    exists k :: i < k < j && IsTurn(events[k])
  }

  // ---------------------------------------------------------------- Invariants

  /** State invariant under stale completions. */
  ghost predicate StateInv(cfg: Config, s: System) {
    && (s.breaker.mode.HalfOpen? <==> s.breaker.probing)
    && (s.breaker.mode.HalfOpen? ==> s.probe in s.running)
    && (s.breaker.mode.Closed? ==> s.breaker.failed == TrailingFailures(s.log) < cfg.threshold)
  }

  ghost predicate ClockInv(cfg: Config, s: System) {
    && (!s.breaker.mode.Open? ==> s.breaker.openedUntil <= s.clock)
    && s.breaker.openedUntil <= s.clock + cfg.openTimeout
    && (forall id :: id in s.readings ==> s.readings[id] <= s.clock)
  }

  /** Times never run backwards, an opening reserves its whole timeout, and no admission falls in it. */
  ghost predicate EventsTimed(cfg: Config, events: seq<Event>, clock: int, openedUntil: int) {
    && (forall i :: 0 <= i < |events| ==> events[i].at <= clock)
    && (forall i, j :: 0 <= i < j < |events| ==> events[i].at <= events[j].at)
    && (forall i :: 0 <= i < |events| && events[i].Opening? ==> events[i].at + cfg.openTimeout <= openedUntil)
    && (forall i, j :: 0 <= i < j < |events| && events[i].Opening? && events[j].Admission?
          ==> events[i].at + cfg.openTimeout <= events[j].at)
  }

  /** After a probe nothing is admitted until the circuit opens again or recovers. */
  ghost predicate ProbesAlone(events: seq<Event>) {
    && (forall i, j :: 0 <= i < j < |events| && Probe(events[i]) && events[j].Admission? ==> TurnBetween(events, i, j))
    && (!ModeFrom(events).HalfOpen? ==> forall i :: 0 <= i < |events| && Probe(events[i]) ==>
         TurnBetween(events, i, |events|))
  }

  ghost predicate Inv(cfg: Config, s: System) {
    && StateInv(cfg, s) && ClockInv(cfg, s)
    && s.breaker.mode == ModeFrom(s.events)
    && EventsTimed(cfg, s.events, s.clock, s.breaker.openedUntil) && ProbesAlone(s.events)
  }

  lemma TrailingNext(log: seq<bool>, ok: bool)
    ensures TrailingFailures(log + [ok]) == if ok then 0 else 1 + TrailingFailures(log)
  {
    assert (log + [ok])[..|log|] == log;
  }

  lemma StateInvComplete(cfg: Config, s: System, id: CallId, ok: bool)
    requires cfg.threshold >= 1 && StateInv(cfg, s) && id in s.running
    ensures StateInv(cfg, Apply(cfg, s, Complete(id, ok)))
  {
    TrailingNext(s.log, ok);
  }

  lemma StateInvStep(cfg: Config, s: System, step: Step)
    requires cfg.threshold >= 1 && StateInv(cfg, s) && Enabled(s, step)
    ensures StateInv(cfg, Apply(cfg, s, step))
  {
    if step.Complete? {
      StateInvComplete(cfg, s, step.id, step.ok);
    }
  }

  lemma ClockInvStep(cfg: Config, s: System, step: Step)
    requires cfg.openTimeout > 0 && ClockInv(cfg, s) && Enabled(s, step)
    ensures ClockInv(cfg, Apply(cfg, s, step))
    ensures s.breaker.openedUntil <= Apply(cfg, s, step).breaker.openedUntil
  {
  }

  ghost predicate News(cfg: Config, s: System, s': System, e: Event) {
    && s'.events == s.events + [e] && e.at == s.clock == s'.clock
    && (e.Opening? ==> s'.breaker.mode.Open? && e.at + cfg.openTimeout <= s'.breaker.openedUntil)
    && (e.Recovery? ==> s'.breaker.mode.Closed?)
    && (e.Admission? ==> !s.breaker.mode.HalfOpen? && s.breaker.openedUntil <= e.at
                         && s'.breaker.mode == (if e.probe then HalfOpen else Closed)
                         && (!e.probe ==> s.breaker.mode.Closed?))
  }

  /** One event at most; it tells the mode; an opening sets the timeout; an admission is not early
      and, unless it is itself the start of a visit to half-open, finds the circuit closed. */
  lemma StepNews(cfg: Config, s: System, step: Step)
    requires StateInv(cfg, s) && ClockInv(cfg, s) && s.breaker.mode == ModeFrom(s.events) && Enabled(s, step)
    ensures var s' := Apply(cfg, s, step);
      (s'.events == s.events && s'.breaker.mode == s.breaker.mode) || exists e :: News(cfg, s, s', e)
  {
    var s' := Apply(cfg, s, step);
    if s'.events != s.events {
      var e := s'.events[|s.events|];
      assert s'.events == s.events + [e];
      assert News(cfg, s, s', e);
    }
  }

  lemma EventsTimedStep(cfg: Config, events: seq<Event>, clock: int, until: int, e: Event, clock': int, until': int)
    requires cfg.openTimeout > 0 && EventsTimed(cfg, events, clock, until) && clock <= e.at <= clock' && until <= until'
    requires e.Opening? ==> e.at + cfg.openTimeout <= until'
    requires e.Admission? ==> until <= e.at
    ensures EventsTimed(cfg, events + [e], clock', until')
  {
  }

  lemma ProbesAloneStep(events: seq<Event>, e: Event)
    requires ProbesAlone(events)
    requires e.Admission? ==> !ModeFrom(events).HalfOpen?
    ensures ProbesAlone(events + [e])
  {
    var events' := events + [e];
    assert events'[..|events|] == events;
    forall i, j | 0 <= i < j < |events'| && Probe(events'[i]) && events'[j].Admission?
      ensures TurnBetween(events', i, j)
    {
      TurnStays(events, e, i, j);
    }
    if !ModeFrom(events').HalfOpen? {
      forall i | 0 <= i < |events'| && Probe(events'[i]) ensures TurnBetween(events', i, |events'|) {
        if IsTurn(e) {
          assert IsTurn(events'[|events|]);
        } else {
          TurnStays(events, e, i, |events|);
        }
      }
    }
  }

  lemma TurnStays(events: seq<Event>, e: Event, i: int, j: int)
    requires 0 <= i && j <= |events| && TurnBetween(events, i, j)
    ensures TurnBetween(events + [e], i, j)
  {
    var k :| i < k < j && IsTurn(events[k]);
    assert IsTurn((events + [e])[k]);
  }

  lemma InvStep(cfg: Config, s: System, step: Step)
    requires cfg == Normalized(cfg) && Inv(cfg, s) && Enabled(s, step)
    ensures Inv(cfg, Apply(cfg, s, step))
  {
    var s' := Apply(cfg, s, step);
    StateInvStep(cfg, s, step);
    ClockInvStep(cfg, s, step);
    StepNews(cfg, s, step);
    if e :| News(cfg, s, s', e) {
      NewsKeeps(cfg, s, s', e);
    } else {
      ClockOnly(cfg, s, step);
    }
  }

  /** The history invariants after an event. */
  lemma NewsKeeps(cfg: Config, s: System, s': System, e: Event)
    requires cfg.openTimeout > 0 && News(cfg, s, s', e) && s.breaker.openedUntil <= s'.breaker.openedUntil
    requires s.breaker.mode == ModeFrom(s.events) && ProbesAlone(s.events)
    requires EventsTimed(cfg, s.events, s.clock, s.breaker.openedUntil)
    ensures s'.breaker.mode == ModeFrom(s'.events) && ProbesAlone(s'.events)
    ensures EventsTimed(cfg, s'.events, s'.clock, s'.breaker.openedUntil)
  {
    assert s'.events[..|s.events|] == s.events;
    EventsTimedStep(cfg, s.events, s.clock, s.breaker.openedUntil, e, s'.clock, s'.breaker.openedUntil);
    ProbesAloneStep(s.events, e);
  }

  /** Without an event at most the clock and the timeout move, forward. */
  lemma ClockOnly(cfg: Config, s: System, step: Step)
    requires Enabled(s, step) && EventsTimed(cfg, s.events, s.clock, s.breaker.openedUntil)
    requires s.breaker.openedUntil <= Apply(cfg, s, step).breaker.openedUntil && Apply(cfg, s, step).events == s.events
    ensures var s' := Apply(cfg, s, step); EventsTimed(cfg, s'.events, s'.clock, s'.breaker.openedUntil)
  {
    var s' := Apply(cfg, s, step);
    assert s.clock <= s'.clock;
  }

  lemma {:induction false} InvHolds(cfg: Config, states: seq<System>, steps: seq<Step>, n: nat)
    requires Execution(cfg, states, steps) && n < |states|
    ensures Inv(cfg, states[n])
  {
    if n > 0 {
      InvHolds(cfg, states, steps, n - 1);
      InvStep(cfg, states[n - 1], steps[n - 1]);
    }
  }

  // ---------------------------------------------------------------- Theorems

  /** In every reachable state: half-open exactly while a probe is marked in flight, and then the
      probe is an admitted call that has not completed; closed means that the failure count is the
      number of failures the completion log ends with, below the threshold; and the mode is the one
      that the events tell. */
  lemma BreakerInvariant(cfg: Config, states: seq<System>, steps: seq<Step>, n: nat)
    requires Execution(cfg, states, steps) && n < |states|
    ensures var s := states[n];
      && (s.breaker.mode.HalfOpen? <==> s.breaker.probing)
      && (s.breaker.mode.HalfOpen? ==> s.probe in s.running)
      && (s.breaker.mode.Closed? ==> s.breaker.failed == TrailingFailures(s.log) < cfg.threshold)
      && s.breaker.mode == ModeFrom(s.events)
  {
    InvHolds(cfg, states, steps, n);
  }

  /** A closed circuit opens on a failure exactly when that failure completes a run of `threshold`. */
  lemma OpensExactlyAtThreshold(cfg: Config, states: seq<System>, steps: seq<Step>, n: nat)
    requires Execution(cfg, states, steps) && n < |steps|
    requires states[n].breaker.mode.Closed? && steps[n].Complete? && !steps[n].ok
    ensures states[n + 1].breaker.mode.Open? <==> TrailingFailures(states[n + 1].log) == cfg.threshold
    ensures states[n + 1].breaker.mode.Open? || states[n + 1].breaker.mode.Closed?
  {
    InvHolds(cfg, states, steps, n);
    assert (states[n].log + [false])[..|states[n].log|] == states[n].log;
  }

  /** Half-open cannot last unless every admitted call hangs: there is one, and whichever completes
      first, however it ends and however stale it is, ends the visit. */
  lemma HalfOpenEnds(cfg: Config, states: seq<System>, steps: seq<Step>, n: nat)
    requires Execution(cfg, states, steps) && n < |states| && states[n].breaker.mode.HalfOpen?
    ensures states[n].running != {}
    ensures forall id, ok :: id in states[n].running ==>
              Apply(cfg, states[n], Complete(id, ok)).breaker.mode == (if ok then Closed else Open)
  {
    InvHolds(cfg, states, steps, n);
  }

  /** No call is admitted within the timeout after an opening, at any later time of the run. */
  lemma NoEarlyAdmission(cfg: Config, states: seq<System>, steps: seq<Step>, n: nat, i: nat, j: nat)
    requires Execution(cfg, states, steps) && n < |states| && i < j < |states[n].events|
    requires states[n].events[i].Opening? && states[n].events[j].Admission?
    ensures states[n].events[j].at >= states[n].events[i].at + cfg.openTimeout
  {
    InvHolds(cfg, states, steps, n);
  }

  /** Opening k is the last one. */
  ghost predicate LastOpening(events: seq<Event>, k: int) {
    0 <= k < |events| && events[k].Opening? && forall j :: k < j < |events| ==> !events[j].Opening?
  }

  /** An open circuit is open until a whole timeout after the last opening. */
  ghost predicate OpenTimed(cfg: Config, s: System) {
    s.breaker.mode.Open? ==>
      exists k :: LastOpening(s.events, k) && s.breaker.openedUntil == s.events[k].at + cfg.openTimeout
  }

  lemma OpenTimedStep(cfg: Config, s: System, step: Step)
    requires OpenTimed(cfg, s) && Enabled(s, step)
    ensures OpenTimed(cfg, Apply(cfg, s, step))
  {
    var s' := Apply(cfg, s, step);
    if s'.breaker.mode.Open? && s'.events != s.events {
      assert LastOpening(s'.events, |s.events|);
    }
  }

  lemma {:induction false} OpenTimedHolds(cfg: Config, states: seq<System>, steps: seq<Step>, n: nat)
    requires Execution(cfg, states, steps) && n < |states|
    ensures OpenTimed(cfg, states[n])
  {
    if n > 0 {
      OpenTimedHolds(cfg, states, steps, n - 1);
      OpenTimedStep(cfg, states[n - 1], steps[n - 1]);
    }
  }

  /** Exactly when a call is let through, told from the events and the time it read: always while the circuit is
      closed; as a probe once it has been open for the timeout since it last opened; never while it is
      half-open. A call that is not let through changes nothing. */
  lemma AdmittedExactly(cfg: Config, states: seq<System>, steps: seq<Step>, n: nat)
    requires Execution(cfg, states, steps) && n < |steps| && steps[n].Enter?
    ensures var s, s', id := states[n], states[n + 1], steps[n].id;
      && (id in s'.running ==>
            ModeFrom(s.events) != HalfOpen && s'.events == s.events + [Admission(s.clock, ModeFrom(s.events) == Open)])
      && (id !in s'.running ==> s'.events == s.events && s'.breaker == s.breaker && s'.running == s.running)
      && (ModeFrom(s.events) == Closed ==> id in s'.running)
      && (ModeFrom(s.events) == Open ==> exists k :: LastOpening(s.events, k))
      && (forall k :: ModeFrom(s.events) == Open && LastOpening(s.events, k) ==>
            (id in s'.running <==> s.readings[id] >= s.events[k].at + cfg.openTimeout))
  {
    InvHolds(cfg, states, steps, n);
    OpenTimedHolds(cfg, states, steps, n);
    var s := states[n];
    forall j, k | LastOpening(s.events, j) && LastOpening(s.events, k) ensures j == k {
      assert !(j < k) && !(k < j);
    }
  }

  /** A visit to half-open admits its probe and nobody else: before the next admission the circuit
      has opened again or recovered. */
  lemma OneAdmissionPerVisit(cfg: Config, states: seq<System>, steps: seq<Step>, n: nat, i: nat, j: nat)
    requires Execution(cfg, states, steps) && n < |states| && i < j < |states[n].events|
    requires Probe(states[n].events[i]) && states[n].events[j].Admission?
    ensures TurnBetween(states[n].events, i, j)
  {
    InvHolds(cfg, states, steps, n);
  }

  /** Two probes with no recovery between them are at least a timeout apart. */
  lemma ProbesApart(cfg: Config, states: seq<System>, steps: seq<Step>, n: nat, i: nat, j: nat)
    requires Execution(cfg, states, steps) && n < |states| && i < j < |states[n].events|
    requires Probe(states[n].events[i]) && Probe(states[n].events[j])
    requires forall k :: i < k < j ==> !states[n].events[k].Recovery?
    ensures states[n].events[j].at >= states[n].events[i].at + cfg.openTimeout
  {
    var events := states[n].events;
    OneAdmissionPerVisit(cfg, states, steps, n, i, j);
    var k :| i < k < j && IsTurn(events[k]);
    InvHolds(cfg, states, steps, n);
    assert events[i].at <= events[k].at;
    NoEarlyAdmission(cfg, states, steps, n, k, j);
  }

  lemma {:induction false} OpenedUntilNeverDecreases(cfg: Config, states: seq<System>, steps: seq<Step>, m: nat, n: nat)
    requires Execution(cfg, states, steps) && m <= n < |states|
    ensures states[m].breaker.openedUntil <= states[n].breaker.openedUntil
    decreases n - m
  {
    if m < n {
      OpenedUntilNeverDecreases(cfg, states, steps, m, n - 1);
      InvHolds(cfg, states, steps, n - 1);
      ClockInvStep(cfg, states[n - 1], steps[n - 1]);
    }
  }
}
