/** The cache client's lock operations as the code runs them: a token map changed in place, and
    Redis commands repeated under the retry policy.

    Each operation is proved to be a sequence of steps of the machine of `AgentLock`, whatever the clock,
    Redis and the other runs do before, between and after its attempts, and it returns these steps. As
    long as they keep to the lease times and write promptly, so does the execution they prolong, and what
    is proved of such executions holds after the call. Where nobody interferes, the outcome is stated
    outright. */
module AgentLockClient {
  import opened Wrappers
  import opened AgentLock

  const DEFAULT_LOCK_TTL := 2000

  /** What becomes of one attempt at a command, and whether the caller's context ends with it. */
  datatype Delivery =
    | Answered
    | ReplyLost(giveUp: bool)
    | NeverExecuted(giveUp: bool)
  {
    predicate GivesUp() { !Answered? && giveUp }
  }

  /** Some attempt reaches Redis. */
  predicate EverExecuted(deliveries: seq<Delivery>) {
    exists i :: 0 <= i < |deliveries| && !deliveries[i].NeverExecuted?
  }

  // ---------------------------------------------------------------- Sequences of steps

  /** Steps of the machine and the states they pass through. */
  datatype Trace = Trace(states: seq<State>, steps: seq<Step>)

  /** The steps of h lead from s to s'. */
  ghost predicate Leads(w: World, s: State, h: Trace, s': State) {
    && |h.states| == |h.steps| + 1 && h.states[0] == s && h.states[|h.steps|] == s'
    && forall i :: 0 <= i < |h.steps| ==> IsStep(w, h.states[i], h.steps[i], h.states[i + 1])
  }

  predicate IsStep(w: World, s: State, step: Step, s': State) {
    Enabled(s, step) && s' == Apply(w, s, step)
  }

  lemma LeadsNowhere(w: World, s: State) returns (h: Trace)
    ensures Leads(w, s, h, s) && h.steps == []
  {
    h := Trace([s], []);
  }

  lemma LeadsOn(w: World, s: State, h: Trace, mid: State, step: Step) returns (h': Trace)
    requires Leads(w, s, h, mid) && Enabled(mid, step)
    ensures Leads(w, s, h', Apply(w, mid, step)) && h'.steps == h.steps + [step]
  {
    h' := Trace(h.states + [Apply(w, mid, step)], h.steps + [step]);
  }

  // ---------------------------------------------------------------- Calls in executions

  /** No section outlives its lease and no write its section, all along. */
  ghost predicate Orderly(states: seq<State>, steps: seq<Step>)
    requires |states| == |steps| + 1
  {
    && (forall i :: 0 <= i < |states| ==> Timely(states[i]))
    && (forall i :: 0 <= i < |steps| ==> Prompt(states[i], steps[i]))
  }

  /** The steps of a call prolong an execution, and keep it orderly if they are. */
  lemma StaysInMachine(w: World, states: seq<State>, steps: seq<Step>, h: Trace, s': State)
    requires Execution(w, states, steps) && Leads(w, states[|steps|], h, s')
    ensures var states', steps' := states + h.states[1..], steps + h.steps;
      && Execution(w, states', steps') && states'[|steps'|] == s'
      && (Orderly(states, steps) && Orderly(h.states, h.steps) ==> Orderly(states', steps'))
  {
    var states', steps' := states + h.states[1..], steps + h.steps;
    assert forall i :: |steps| <= i < |states'| ==> states'[i] == h.states[i - |steps|];
    forall i | 0 <= i < |steps'|
      ensures Enabled(states'[i], steps'[i]) && states'[i + 1] == Apply(w, states'[i], steps'[i])
    {
      if i >= |steps| {
        assert IsStep(w, h.states[i - |steps|], h.steps[i - |steps|], h.states[i - |steps| + 1]);
      }
    }
  }

  /** So after a call at most one run is inside, the stored state is what the writing runs produce one after
      the other in the order they got the lock, and a run about to write for the first time starts from it. */
  lemma SerialAfterCall(w: World, states: seq<State>, steps: seq<Step>, h: Trace, s': State)
    requires Execution(w, states, steps) && Leads(w, states[|steps|], h, s')
    requires Orderly(states, steps) && Orderly(h.states, h.steps)
    ensures MutualExclusion(s')
    ensures Current(w, s') == Serial(w, Current(w, states[0]), Writers(s'.order, s'.wrote))
    ensures forall r | r in s'.runs && s'.runs[r].Inside? && s'.runs[r].work.Saving? ::
              r !in s'.wrote ==> s'.runs[r].work.base == Current(w, s')
  {
    StaysInMachine(w, states, steps, h, s');
    var states', steps' := states + h.states[1..], steps + h.steps;
    Serialisable(w, states', steps', |steps'|);
  }

  // ---------------------------------------------------------------- The others

  predicate OfRun(step: Step, r: RunId) {
    (step.Acquire? || step.Work? || step.Release?) && step.r == r
  }

  /** Time, Redis and the other runs go on: those of the steps that can be taken and are not of run r. */
  function Others(w: World, s: State, r: RunId, steps: seq<Step>): State
    decreases |steps|
  {
    if steps == [] then s
    else
      var before := Others(w, s, r, steps[..|steps| - 1]);
      var step := steps[|steps| - 1];
      if Enabled(before, step) && !OfRun(step, r) then Apply(w, before, step) else before
  }

  /** They lead on, and leave the run where it is. */
  lemma {:induction false} OthersLead(w: World, start: State, h: Trace, s: State, r: RunId, steps: seq<Step>)
    returns (h': Trace)
    requires Leads(w, start, h, s) && r in s.runs
    ensures Leads(w, start, h', Others(w, s, r, steps))
    ensures r in Others(w, s, r, steps).runs && Others(w, s, r, steps).runs[r] == s.runs[r]
    decreases |steps|
  {
    h' := h;
    if steps != [] {
      var front, step := steps[..|steps| - 1], steps[|steps| - 1];
      h' := OthersLead(w, start, h, s, r, front);
      var before := Others(w, s, r, front);
      if Enabled(before, step) && !OfRun(step, r) {
        h' := LeadsOn(w, start, h', before, step);
        OtherStepKeeps(w, before, r, step);
      }
    }
  }

  lemma OtherStepKeeps(w: World, s: State, r: RunId, step: Step)
    requires Enabled(s, step) && !OfRun(step, r) && r in s.runs
    ensures r in Apply(w, s, step).runs && Apply(w, s, step).runs[r] == s.runs[r]
  {
  }

  /** Nobody interferes. */
  ghost predicate Quiet(meanwhile: nat -> seq<Step>) {
    forall n :: meanwhile(n) == []
  }

  // ---------------------------------------------------------------- Server and client

  /** The lock keys of one Redis server. */
  class LockServer {
    var locks: map<string, Lease>
    var now: int

    function Key(agent: string): Option<Lease>
      reads this
    {
      if agent in locks then Some(locks[agent]) else None
    }

    constructor (now: int)
      ensures locks == map[] && this.now == now
    {
      locks := map[];
      this.now := now;
    }

    method Put(agent: string, key: Option<Lease>)
      modifies this
      ensures now == old(now) && Key(agent) == key && locks - {agent} == old(locks) - {agent}
    {
      locks := if key.Some? then locks[agent := key.value] else locks - {agent};
    }
  }

  /** Whose operation on which agent: run r, in the world of the machine. */
  datatype Caller = Caller(w: World, r: RunId, agent: string) {
    function Client(): ClientId { w.clientOf(r) }
  }

  class CacheClient {
    var lockTokens: map<string, Token>

    constructor ()
      ensures lockTokens == map[]
    {
      lockTokens := map[];
    }

    /** The machine's view of the agent's key, the clock and the noted token. */
    ghost predicate Agrees(redis: LockServer, p: Caller, s: State)
      reads this, redis
    {
      && redis.Key(p.agent) == s.key && redis.now == s.now
      && (p.agent in lockTokens <==> p.Client() in s.tokens)
      && (p.agent in lockTokens ==> lockTokens[p.agent] == s.tokens[p.Client()])
    }

    method Meanwhile(redis: LockServer, p: Caller, s: State, steps: seq<Step>) returns (s': State)
      requires Agrees(redis, p, s)
      modifies this, redis
      ensures s' == Others(p.w, s, p.r, steps) && Agrees(redis, p, s')
      ensures redis.locks - {p.agent} == old(redis.locks) - {p.agent}
      ensures lockTokens - {p.agent} == old(lockTokens) - {p.agent}
      ensures steps == [] ==> redis.now == old(redis.now) && lockTokens == old(lockTokens)
    {
      s' := Others(p.w, s, p.r, steps);
      redis.Put(p.agent, s'.key);
      redis.now := s'.now;
      lockTokens := if p.Client() in s'.tokens then lockTokens[p.agent := s'.tokens[p.Client()]]
                    else lockTokens - {p.agent};
    }

    /** Takes the lock, tells that it is held by someone, or fails. In each case the call was a sequence of
        steps of the machine, the token is noted exactly if the answer is yes, and nothing of other
        agents is touched. */
    method AcquireAgentLock(redis: LockServer, p: Caller, ttl: int, s: State,
                            cancelled: bool, deliveries: seq<Delivery>, meanwhile: nat -> seq<Step>)
      returns (r: Result<bool, string>, s': State, ghost h': Trace)
      requires Agrees(redis, p, s) && p.r in s.runs && s.runs[p.r].Waiting?
      requires |deliveries| == ATTEMPTS && p.w.ttl == if ttl > 0 then ttl else 2000
      modifies this, redis
      ensures Agrees(redis, p, s') && Leads(p.w, s, h', s')
      ensures redis.locks - {p.agent} == old(redis.locks) - {p.agent}
      ensures lockTokens - {p.agent} == old(lockTokens) - {p.agent}
      ensures p.r in s'.runs && AfterAcquire(r, Token(p.r, s.runs[p.r].drawn), s'.runs[p.r])
      ensures r == Success(true) ==> p.agent in lockTokens && lockTokens[p.agent] == Token(p.r, s.runs[p.r].drawn)
      ensures Quiet(meanwhile) ==> redis.now == old(redis.now) && (r != Success(true) ==> lockTokens == old(lockTokens))
      ensures Quiet(meanwhile) && !cancelled && Persistent(deliveries) ==>
                AcquiredAlone(old(redis.Key(p.agent)), redis.now, Token(p.r, s.runs[p.r].drawn),
                              if ttl > 0 then ttl else 2000, deliveries, r, redis.Key(p.agent))
      ensures Quiet(meanwhile) && r == Success(true) ==>
                redis.Key(p.agent)
                == Some(Lease(Token(p.r, s.runs[p.r].drawn), redis.now + if ttl > 0 then ttl else 2000))
      ensures Quiet(meanwhile) && !cancelled && deliveries[0].GivesUp() ==>
                r.Failure?
                && redis.Key(p.agent) ==
                   if deliveries[0].NeverExecuted? || Live(old(redis.Key(p.agent)), redis.now).Some?
                   then old(redis.Key(p.agent))
                   else Some(Lease(Token(p.r, s.runs[p.r].drawn), redis.now + if ttl > 0 then ttl else 2000))
      ensures cancelled ==>
                r.Failure? && redis.locks == old(redis.locks) && redis.now == old(redis.now)
                && lockTokens == old(lockTokens) && h'.steps == [Acquire(p.r, Cancel)]
    {
      h' := LeadsNowhere(p.w, s);
      if cancelled {
        s', h' := Advance(p, s, h', s, Acquire(p.r, Cancel));
        return Failure("context cancelled"), s', h';
      }
      var lease := if ttl <= 0 then DEFAULT_LOCK_TTL else ttl;
      var token := Token(p.r, s.runs[p.r].drawn);
      s', h' := Advance(p, s, h', s, Acquire(p.r, Send));
      var ok;
      ok, s', h' := RetrySetNx(redis, p, s, h', s', token, lease, deliveries, meanwhile);
      if ok == Some(true) {
        s', h' := Note(redis, p, s, h', s', token, meanwhile(2 * ATTEMPTS));
      }
      r := Outcome(ok);
    }

    /** The attempts, up to the first that is answered. */
    method RetrySetNx(redis: LockServer, p: Caller, ghost start: State, ghost h: Trace, s: State, token: Token,
                      lease: int, deliveries: seq<Delivery>, meanwhile: nat -> seq<Step>)
      returns (ok: Option<bool>, s': State, ghost h': Trace)
      requires Agrees(redis, p, s) && Leads(p.w, start, h, s) && lease == p.w.ttl > 0 && |deliveries| == ATTEMPTS
      requires p.r in s.runs && s.runs[p.r] == Calling(token, 1, None, 0)
      modifies this, redis
      ensures Agrees(redis, p, s') && Leads(p.w, start, h', s')
      ensures redis.locks - {p.agent} == old(redis.locks) - {p.agent}
      ensures lockTokens - {p.agent} == old(lockTokens) - {p.agent}
      ensures p.r in s'.runs && Trying(s'.runs[p.r], token, ATTEMPTS, ok, true)
      ensures Quiet(meanwhile) ==> redis.now == old(redis.now) && lockTokens == old(lockTokens)
      ensures Quiet(meanwhile) && Persistent(deliveries) ==>
                AcquiredAlone(old(redis.Key(p.agent)), redis.now, token, lease, deliveries, Outcome(ok),
                              redis.Key(p.agent))
      ensures Quiet(meanwhile) && ok == Some(true) ==> redis.Key(p.agent) == Some(Lease(token, redis.now + lease))
      ensures Quiet(meanwhile) && deliveries[0].GivesUp() ==>
                ok.None? && redis.Key(p.agent)
                            == AfterSetNx(old(redis.Key(p.agent)), token, redis.now, lease, deliveries[0])
    {
      var attempt, givenUp := 0, false;
      ok, s', h' := None, s, h;
      while attempt < ATTEMPTS && ok.None? && !givenUp
        invariant 0 <= attempt <= ATTEMPTS && Agrees(redis, p, s') && Leads(p.w, start, h', s')
        invariant redis.locks - {p.agent} == old(redis.locks) - {p.agent}
        invariant lockTokens - {p.agent} == old(lockTokens) - {p.agent}
        invariant p.r in s'.runs && Trying(s'.runs[p.r], token, attempt, ok, givenUp)
        invariant Persistent(deliveries) ==> !givenUp
        invariant attempt == 0 ==> ok.None? && !givenUp
        invariant deliveries[0].GivesUp() && attempt > 0 ==> attempt == 1 && givenUp && ok.None?
        invariant Quiet(meanwhile) && deliveries[0].GivesUp() && attempt > 0 ==>
                    redis.Key(p.agent) == AfterSetNx(old(redis.Key(p.agent)), token, redis.now, lease, deliveries[0])
        invariant Quiet(meanwhile) ==>
                    && redis.now == old(redis.now) && lockTokens == old(lockTokens)
                    && TriedAlone(old(redis.Key(p.agent)), redis.now, token, lease, deliveries[..attempt], ok,
                                  redis.Key(p.agent))
      {
        var d := deliveries[attempt];
        ghost var before := redis.Key(p.agent);
        ok, s', h' := TrySetNx(redis, p, start, h', s', token, lease, d, meanwhile(2 * attempt),
                               meanwhile(2 * attempt + 1));
        givenUp := d.GivesUp();
        if Quiet(meanwhile) {
          TriedOnce(old(redis.Key(p.agent)), redis.now, token, lease, deliveries, attempt, before, ok,
                    redis.Key(p.agent));
        }
        attempt := attempt + 1;
      }
      if Quiet(meanwhile) && ok == Some(true) {
        TriedYes(old(redis.Key(p.agent)), redis.now, token, lease, deliveries[..attempt], redis.Key(p.agent));
      }
      if Quiet(meanwhile) && Persistent(deliveries) {
        TriedAll(old(redis.Key(p.agent)), redis.now, token, lease, deliveries, attempt, ok, redis.Key(p.agent));
      }
    }

    /** The token is noted under the client's mutex. */
    method Note(redis: LockServer, p: Caller, ghost start: State, ghost h: Trace, s: State, token: Token,
                before: seq<Step>)
      returns (s': State, ghost h': Trace)
      requires Agrees(redis, p, s) && Leads(p.w, start, h, s)
      requires p.r in s.runs && s.runs[p.r].Locked? && s.runs[p.r].token == token
      modifies this, redis
      ensures Agrees(redis, p, s') && Leads(p.w, start, h', s')
      ensures redis.locks - {p.agent} == old(redis.locks) - {p.agent}
      ensures lockTokens - {p.agent} == old(lockTokens) - {p.agent}
      ensures p.r in s'.runs && s'.runs[p.r].Inside? && s'.runs[p.r].token == token && s'.runs[p.r].work.Loading?
      ensures p.agent in lockTokens && lockTokens[p.agent] == token
      ensures before == [] ==> redis.now == old(redis.now) && redis.Key(p.agent) == old(redis.Key(p.agent))
    {
      h' := OthersLead(p.w, start, h, s, p.r, before);
      s' := Meanwhile(redis, p, s, before);
      lockTokens := lockTokens[p.agent := token];
      s', h' := Advance(p, start, h', s', Work(p.r, NoteToken));
    }

    /** One attempt at SETNX. */
    method TrySetNx(redis: LockServer, p: Caller, ghost start: State, ghost h: Trace, s: State, token: Token,
                    lease: int, delivery: Delivery, before: seq<Step>, after: seq<Step>)
      returns (ok: Option<bool>, s': State, ghost h': Trace)
      requires Agrees(redis, p, s) && Leads(p.w, start, h, s) && lease == p.w.ttl
      requires p.r in s.runs && s.runs[p.r].Calling? && s.runs[p.r].token == token && s.runs[p.r].reply.None?
      modifies this, redis
      ensures Agrees(redis, p, s') && Leads(p.w, start, h', s')
      ensures redis.locks - {p.agent} == old(redis.locks) - {p.agent}
      ensures lockTokens - {p.agent} == old(lockTokens) - {p.agent}
      ensures ok.Some? <==> delivery.Answered?
      ensures p.r in s'.runs && AfterAttempt(s.runs[p.r], ok, delivery, s'.runs[p.r])
      ensures before == [] && after == [] ==>
                && redis.now == old(redis.now) && lockTokens == old(lockTokens)
                && redis.Key(p.agent) == AfterSetNx(old(redis.Key(p.agent)), token, redis.now, lease, delivery)
                && (ok.Some? ==> (ok.value <==> Live(old(redis.Key(p.agent)), redis.now).None?))
    {
      h' := OthersLead(p.w, start, h, s, p.r, before);
      s' := Meanwhile(redis, p, s, before);
      if !delivery.NeverExecuted? {
        s', h' := Execute(redis, p, start, h', s', token, lease, after);
      }
      ok, s', h' := HearBack(p, start, h', s', delivery);
    }

    /** Redis executes the command, and the others go on before the answer is there. */
    method Execute(redis: LockServer, p: Caller, ghost start: State, ghost h: Trace, s: State, token: Token, lease: int,
                   after: seq<Step>)
      returns (s': State, ghost h': Trace)
      requires Agrees(redis, p, s) && Leads(p.w, start, h, s) && lease == p.w.ttl
      requires p.r in s.runs && s.runs[p.r].Calling? && s.runs[p.r].token == token && s.runs[p.r].reply.None?
      modifies this, redis
      ensures Agrees(redis, p, s') && Leads(p.w, start, h', s')
      ensures redis.locks - {p.agent} == old(redis.locks) - {p.agent}
      ensures lockTokens - {p.agent} == old(lockTokens) - {p.agent}
      ensures p.r in s'.runs && s'.runs[p.r].Calling? && s'.runs[p.r].token == token && s'.runs[p.r].reply.Some?
      ensures s'.runs[p.r].attempt == s.runs[p.r].attempt
      ensures after == [] ==>
                && redis.now == old(redis.now) && lockTokens == old(lockTokens)
                && (redis.Key(p.agent), s'.runs[p.r].reply.value)
                   == SetNx(old(redis.Key(p.agent)), token, redis.now, lease)
    {
      var free;
      free, s', h' := SetNxOnServer(redis, p, start, h, s, token, lease);
      h' := OthersLead(p.w, start, h', s', p.r, after);
      s' := Meanwhile(redis, p, s', after);
    }

    /** Redis executes the command. */
    method SetNxOnServer(redis: LockServer, p: Caller, ghost start: State, ghost h: Trace, s: State, token: Token,
                         lease: int)
      returns (free: bool, s': State, ghost h': Trace)
      requires Agrees(redis, p, s) && Leads(p.w, start, h, s) && lease == p.w.ttl
      requires p.r in s.runs && s.runs[p.r].Calling? && s.runs[p.r].token == token && s.runs[p.r].reply.None?
      modifies redis
      ensures Agrees(redis, p, s') && Leads(p.w, start, h', s')
      ensures redis.now == old(redis.now) && redis.locks - {p.agent} == old(redis.locks) - {p.agent}
      ensures (redis.Key(p.agent), free) == SetNx(old(redis.Key(p.agent)), token, redis.now, lease)
      ensures p.r in s'.runs
      ensures s'.runs[p.r] == s.runs[p.r].(reply := Some(free), deadline := redis.now + lease)
    {
      var answer := SetNx(redis.Key(p.agent), token, redis.now, lease);
      free := answer.1;
      redis.Put(p.agent, answer.0);
      h' := LeadsOn(p.w, start, h, s, Acquire(p.r, Exec));
      s' := Apply(p.w, s, Acquire(p.r, Exec));
    }

    method ConsumeLockToken(agent: string) returns (token: Option<Token>)
      modifies this
      ensures token == if agent in old(lockTokens) then Some(old(lockTokens)[agent]) else None
      ensures lockTokens == old(lockTokens) - {agent}
    {
      token := if agent in lockTokens then Some(lockTokens[agent]) else None;
      lockTokens := lockTokens - {agent};
    }

    /** Within the lease times the token noted for a run that is inside is its own, so that is the one its
        release takes. */
    lemma OwnTokenIsNoted(redis: LockServer, p: Caller, states: seq<State>, steps: seq<Step>)
      requires Execution(p.w, states, steps) && forall i :: 0 <= i < |states| ==> Timely(states[i])
      requires var s := states[|steps|]; Agrees(redis, p, s) && p.r in s.runs && s.runs[p.r].Inside?
      ensures p.agent in lockTokens && lockTokens[p.agent].run == p.r
      ensures lockTokens[p.agent] == states[|steps|].runs[p.r].token
    {
      LockInvHolds(p.w, states, steps, |steps|);
    }

    /** Takes the noted token, whosever it is, out of the map and has Redis delete the key if it holds that
        token. The call is a sequence of steps of the machine. Without interference the key goes away just when
        the script was executed at least once and the key was live and held that very token. */
    method ReleaseAgentLock(redis: LockServer, p: Caller, s: State, deliveries: seq<Delivery>,
                            meanwhile: nat -> seq<Step>)
      returns (r: Result<(), string>, s': State, ghost h': Trace)
      requires Agrees(redis, p, s) && p.r in s.runs && s.runs[p.r].Inside? && s.runs[p.r].work.Closing?
      requires |deliveries| == ATTEMPTS
      modifies this, redis
      ensures Agrees(redis, p, s') && Leads(p.w, s, h', s')
      ensures redis.locks - {p.agent} == old(redis.locks) - {p.agent}
      ensures lockTokens - {p.agent} == old(lockTokens) - {p.agent}
      ensures p.r in s'.runs && s'.runs[p.r].Past() && (r.Success? ==> s'.runs[p.r] == Finished)
      ensures Quiet(meanwhile) ==> redis.now == old(redis.now) && lockTokens == old(lockTokens) - {p.agent}
      ensures Quiet(meanwhile) && Persistent(deliveries) ==>
                && (r.Failure? <==> p.agent in old(lockTokens) && Answered !in deliveries)
                && redis.Key(p.agent) ==
                     if p.agent in old(lockTokens) && EverExecuted(deliveries)
                        && Live(old(redis.Key(p.agent)), redis.now).Some?
                        && old(redis.Key(p.agent)).value.token == old(lockTokens)[p.agent]
                     then None
                     else old(redis.Key(p.agent))
      ensures Quiet(meanwhile) && deliveries[0].GivesUp() && p.agent in old(lockTokens) ==>
                r.Failure?
                && redis.Key(p.agent) ==
                     if !deliveries[0].NeverExecuted? && Live(old(redis.Key(p.agent)), redis.now).Some?
                        && old(redis.Key(p.agent)).value.token == old(lockTokens)[p.agent]
                     then None
                     else old(redis.Key(p.agent))
    {
      h' := LeadsNowhere(p.w, s);
      s', h' := Advance(p, s, h', s, Release(p.r, Consume));
      var token := ConsumeLockToken(p.agent);
      if token.None? {
        return Success(()), s', h';
      }
      r, s', h' := RetryDelete(redis, p, s, h', s', token.value, deliveries, meanwhile);
    }

    method RetryDelete(redis: LockServer, p: Caller, ghost start: State, ghost h: Trace, s: State, token: Token,
                       deliveries: seq<Delivery>, meanwhile: nat -> seq<Step>)
      returns (r: Result<(), string>, s': State, ghost h': Trace)
      requires Agrees(redis, p, s) && Leads(p.w, start, h, s) && |deliveries| == ATTEMPTS
      requires p.r in s.runs && s.runs[p.r] == Deleting(token, 1)
      modifies this, redis
      ensures Agrees(redis, p, s') && Leads(p.w, start, h', s')
      ensures redis.locks - {p.agent} == old(redis.locks) - {p.agent}
      ensures lockTokens - {p.agent} == old(lockTokens) - {p.agent}
      ensures p.r in s'.runs && s'.runs[p.r].Past() && (r.Success? ==> s'.runs[p.r] == Finished)
      ensures Quiet(meanwhile) ==> redis.now == old(redis.now) && lockTokens == old(lockTokens)
      ensures Quiet(meanwhile) && Persistent(deliveries) ==>
                DeletedAlone(old(redis.Key(p.agent)), redis.now, token, deliveries, r.Success?, redis.Key(p.agent))
      ensures Quiet(meanwhile) && deliveries[0].GivesUp() ==>
                r.Failure? && redis.Key(p.agent)
                              == AfterDelete(old(redis.Key(p.agent)), token, redis.now, deliveries[0])
    {
      var attempt, givenUp, done := 0, false, false;
      s', h' := s, h;
      while attempt < ATTEMPTS && !done && !givenUp
        invariant 0 <= attempt <= ATTEMPTS && Agrees(redis, p, s') && Leads(p.w, start, h', s')
        invariant redis.locks - {p.agent} == old(redis.locks) - {p.agent}
        invariant lockTokens - {p.agent} == old(lockTokens) - {p.agent}
        invariant p.r in s'.runs && s'.runs[p.r].Past() && (done ==> s'.runs[p.r] == Finished)
        invariant attempt < ATTEMPTS && !done && !givenUp ==> s'.runs[p.r] == Deleting(token, attempt + 1)
        invariant Persistent(deliveries) ==> !givenUp
        invariant attempt == 0 ==> !done && !givenUp
        invariant deliveries[0].GivesUp() && attempt > 0 ==> attempt == 1 && givenUp && !done
        invariant Quiet(meanwhile) && deliveries[0].GivesUp() && attempt > 0 ==>
                    redis.Key(p.agent) == AfterDelete(old(redis.Key(p.agent)), token, redis.now, deliveries[0])
        invariant Quiet(meanwhile) ==>
                    && redis.now == old(redis.now) && lockTokens == old(lockTokens)
                    && DeletedAlone(old(redis.Key(p.agent)), redis.now, token, deliveries[..attempt], done,
                                    redis.Key(p.agent))
      {
        var d := deliveries[attempt];
        ghost var before := redis.Key(p.agent);
        s', h' := TryDelete(redis, p, start, h', s', token, d, meanwhile(attempt));
        if Quiet(meanwhile) {
          DeletedOnce(old(redis.Key(p.agent)), redis.now, token, deliveries, attempt, before, redis.Key(p.agent));
        }
        done, givenUp := d.Answered?, d.GivesUp();
        attempt := attempt + 1;
      }
      if Quiet(meanwhile) && Persistent(deliveries) {
        DeletedAll(old(redis.Key(p.agent)), redis.now, token, deliveries, attempt, done, redis.Key(p.agent));
      }
      r := if done then Success(()) else Failure("no answer");
    }

    /** One attempt at the release script. */
    method TryDelete(redis: LockServer, p: Caller, ghost start: State, ghost h: Trace, s: State, token: Token,
                     delivery: Delivery, before: seq<Step>)
      returns (s': State, ghost h': Trace)
      requires Agrees(redis, p, s) && Leads(p.w, start, h, s)
      requires p.r in s.runs && s.runs[p.r].Deleting? && s.runs[p.r].consumed == token
      modifies this, redis
      ensures Agrees(redis, p, s') && Leads(p.w, start, h', s')
      ensures redis.locks - {p.agent} == old(redis.locks) - {p.agent}
      ensures lockTokens - {p.agent} == old(lockTokens) - {p.agent}
      ensures p.r in s'.runs && s'.runs[p.r] == if delivery.Answered? || s.runs[p.r].tries >= ATTEMPTS then Finished
                                                else Deleting(token, s.runs[p.r].tries + 1)
      ensures before == [] ==>
                && redis.now == old(redis.now) && lockTokens == old(lockTokens)
                && redis.Key(p.agent) == AfterDelete(old(redis.Key(p.agent)), token, redis.now, delivery)
    {
      h' := OthersLead(p.w, start, h, s, p.r, before);
      s' := Meanwhile(redis, p, s, before);
      if !delivery.NeverExecuted? {
        redis.Put(p.agent, CompareAndDelete(redis.Key(p.agent), token, redis.now));
      }
      s', h' := Advance(p, start, h', s',
                    Release(p.r, if delivery.Answered? then ExecDelete else DeleteLost(delivery.ReplyLost?)));
    }
  }

  /** The caller gets the answer, or an error. */
  method HearBack(p: Caller, ghost start: State, ghost h: Trace, s: State, delivery: Delivery)
    returns (ok: Option<bool>, s': State, ghost h': Trace)
    requires Leads(p.w, start, h, s) && p.r in s.runs && s.runs[p.r].Calling?
    requires delivery.NeverExecuted? <==> s.runs[p.r].reply.None?
    ensures Leads(p.w, start, h', s') && s'.key == s.key && s'.now == s.now && s'.tokens == s.tokens
    ensures ok == if delivery.Answered? then s.runs[p.r].reply else None
    ensures p.r in s'.runs && AfterAttempt(s.runs[p.r], ok, delivery, s'.runs[p.r])
  {
    var step := Acquire(p.r, if delivery.Answered? then Reply else Lost(delivery.giveUp));
    ok := if delivery.Answered? then s.runs[p.r].reply else None;
    h' := LeadsOn(p.w, start, h, s, step);
    s' := Apply(p.w, s, step);
  }

  /** The run takes a step of its own. */
  method Advance(p: Caller, ghost start: State, ghost h: Trace, s: State, step: Step)
    returns (s': State, ghost h': Trace)
    requires Leads(p.w, start, h, s) && Enabled(s, step)
    ensures s' == Apply(p.w, s, step) && Leads(p.w, start, h', s') && h'.steps == h.steps + [step]
  {
    h' := LeadsOn(p.w, start, h, s, step);
    s' := Apply(p.w, s, step);
  }

  function Outcome(ok: Option<bool>): Result<bool, string> {
    if ok.Some? then Success(ok.value) else Failure("no answer")
  }

  /** Where a call leaves its run: inside with its own token, waiting to ask again, or finished. */
  ghost predicate AfterAcquire(r: Result<bool, string>, token: Token, pc: Pc) {
    match r
    case Success(true) => pc.Inside? && pc.token == token && pc.work.Loading?
    case Success(false) => pc == Waiting(token.serial + 1)
    case Failure(_) => pc == Finished
  }

  /** The run after some attempts. */
  ghost predicate Trying(pc: Pc, token: Token, attempt: nat, ok: Option<bool>, givenUp: bool) {
    if ok.Some? then if ok.value then pc.Locked? && pc.token == token else pc == Waiting(token.serial + 1)
    else if givenUp || attempt >= ATTEMPTS then pc == Finished
    else pc == Calling(token, attempt + 1, None, 0)
  }

  // ---------------------------------------------------------------- Without interference

  predicate Persistent(deliveries: seq<Delivery>) {
    forall d :: d in deliveries ==> d.Answered? || !d.giveUp
  }

  /** A lease is taken, and told, only if the key was free and an attempt that found it free was
      answered. If the first attempt took the key but its reply was lost, the retry finds the key
      held by its own token: the caller is told no, and the lease stays until it runs out. */
  ghost predicate AcquiredAlone(key: Option<Lease>, now: int, token: Token, lease: int, deliveries: seq<Delivery>,
                                r: Result<bool, string>, key': Option<Lease>)
    requires |deliveries| == ATTEMPTS
  {
    && (r == Success(true) <==>
          && Live(key, now).None?
          && (deliveries[0].Answered? || (deliveries[0].NeverExecuted? && deliveries[1].Answered?)))
    && (r.Failure? <==> Answered !in deliveries)
    && (r == Success(false) ==> Live(key', now).Some?)
    && key' == if Live(key, now).None? && EverExecuted(deliveries) then Some(Lease(token, now + lease)) else key
  }

  /** The same for the attempts made so far. */
  ghost predicate TriedAlone(key: Option<Lease>, now: int, token: Token, lease: int, tried: seq<Delivery>,
                             ok: Option<bool>, key': Option<Lease>)
  {
    && (ok.Some? <==> Answered in tried) && (tried != [] ==> Answered !in tried[..|tried| - 1])
    && (ok.Some? ==> tried != [] && (ok.value <==> Live(key, now).None? && !EverExecuted(tried[..|tried| - 1])))
    && key' == if Live(key, now).None? && EverExecuted(tried) then Some(Lease(token, now + lease)) else key
  }

  lemma TriedOnce(key: Option<Lease>, now: int, token: Token, lease: int, deliveries: seq<Delivery>, n: nat,
                  before: Option<Lease>, ok: Option<bool>, key': Option<Lease>)
    requires n < |deliveries| && lease > 0 && TriedAlone(key, now, token, lease, deliveries[..n], None, before)
    requires key' == AfterSetNx(before, token, now, lease, deliveries[n])
    requires ok.Some? <==> deliveries[n].Answered?
    requires ok.Some? ==> (ok.value <==> Live(before, now).None?)
    ensures TriedAlone(key, now, token, lease, deliveries[..n + 1], ok, key')
  {
    var tried := deliveries[..n + 1];
    assert tried == deliveries[..n] + [deliveries[n]] && tried[..n] == deliveries[..n];
    assert tried[n] == deliveries[n];
  }

  lemma TriedYes(key: Option<Lease>, now: int, token: Token, lease: int, tried: seq<Delivery>, key': Option<Lease>)
    requires TriedAlone(key, now, token, lease, tried, Some(true), key')
    ensures key' == Some(Lease(token, now + lease))
  {
    var i :| 0 <= i < |tried| && tried[i] == Answered;
    assert !tried[i].NeverExecuted?;
  }

  lemma TriedAll(key: Option<Lease>, now: int, token: Token, lease: int, deliveries: seq<Delivery>, n: nat,
                 ok: Option<bool>, key': Option<Lease>)
    requires n <= |deliveries| == ATTEMPTS && lease > 0 && (ok.None? ==> n == ATTEMPTS)
    requires TriedAlone(key, now, token, lease, deliveries[..n], ok, key')
    ensures AcquiredAlone(key, now, token, lease, deliveries, Outcome(ok), key')
  {
    assert deliveries == deliveries[..n] + deliveries[n..];
    assert forall i :: 0 <= i < n ==> deliveries[..n][i] == deliveries[i];
  }

  /** Where an attempt at SETNX leaves its run. */
  ghost predicate AfterAttempt(pc: Pc, ok: Option<bool>, delivery: Delivery, pc': Pc)
    requires pc.Calling? && (ok.Some? <==> delivery.Answered?)
  {
    if ok.Some? then if ok.value then pc'.Locked? && pc'.token == pc.token else pc' == Waiting(pc.token.serial + 1)
    else if delivery.giveUp || pc.attempt >= ATTEMPTS then pc' == Finished
    else pc' == Calling(pc.token, pc.attempt + 1, None, 0)
  }

  function AfterSetNx(key: Option<Lease>, token: Token, now: int, lease: int, delivery: Delivery): Option<Lease> {
    if delivery.NeverExecuted? then key else SetNx(key, token, now, lease).0
  }

  function AfterDelete(key: Option<Lease>, token: Token, now: int, delivery: Delivery): Option<Lease> {
    if delivery.NeverExecuted? then key else CompareAndDelete(key, token, now)
  }

  /** However often it is executed, the script deletes at most the key that held the token. */
  ghost predicate DeletedAlone(key: Option<Lease>, now: int, token: Token, tried: seq<Delivery>,
                               done: bool, key': Option<Lease>)
  {
    && (done <==> Answered in tried)
    && key' == if EverExecuted(tried) then CompareAndDelete(key, token, now) else key
  }

  lemma DeletedOnce(key: Option<Lease>, now: int, token: Token, deliveries: seq<Delivery>, n: nat,
                    before: Option<Lease>, key': Option<Lease>)
    requires n < |deliveries| && DeletedAlone(key, now, token, deliveries[..n], false, before)
    requires key' == AfterDelete(before, token, now, deliveries[n])
    ensures DeletedAlone(key, now, token, deliveries[..n + 1], deliveries[n].Answered?, key')
  {
    var tried := deliveries[..n + 1];
    assert tried == deliveries[..n] + [deliveries[n]] && tried[n] == deliveries[n];
  }

  lemma DeletedAll(key: Option<Lease>, now: int, token: Token, deliveries: seq<Delivery>, n: nat,
                   done: bool, key': Option<Lease>)
    requires n <= |deliveries| && (done || n == |deliveries|)
    requires DeletedAlone(key, now, token, deliveries[..n], done, key')
    ensures DeletedAlone(key, now, token, deliveries, done, key')
  {
    assert deliveries == deliveries[..n] + deliveries[n..];
    assert forall i :: 0 <= i < n ==> deliveries[..n][i] == deliveries[i];
  }
}
