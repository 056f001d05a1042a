/** The per-agent lock and the read-modify-write of the agent state that it protects.

    Many processes ("clients") run many pipeline executions ("runs") for one agent. A run takes a
    lease on one Redis key with SETNX and a random token, notes the token in a map shared by all the
    runs of its process, reads the agent state, writes a new one, and finally takes a token out of
    that map and asks Redis to delete the key if it still holds that token.

    Every Redis command and every mutex-guarded body is one atomic step. A command can be executed
    and its reply lost, can never be executed, or can be executed after its caller gave up on it. */
module AgentLock {
  import opened Wrappers
  import opened FiniteSets

  type RunId = nat
  type ClientId = nat

  /** Stands for the sixteen random bytes drawn for one acquisition: no two draws coincide, so a token
      can be written down as the run that drew it and how many tokens that run had drawn before. */
  datatype Token = Token(run: RunId, serial: nat)

  datatype AgentState = AgentState(emotion: seq<real>, fsmState: string, updatedAtMs: int)

  /** Attempts made by the retry policy of the cache client. */
  const ATTEMPTS: nat := 2

  datatype Lease = Lease(token: Token, expiresAt: int)

  // ---------------------------------------------------------------- Redis commands

  /** A key whose lease has run out is absent. */
  function Live(key: Option<Lease>, now: int): Option<Lease> {
    if key.Some? && now < key.value.expiresAt then key else None
  }

  function SetNx(key: Option<Lease>, token: Token, now: int, ttl: int): (Option<Lease>, bool) {
    if Live(key, now).Some? then (key, false) else (Some(Lease(token, now + ttl)), true)
  }

  /** The release script: GET, compare, DEL. */
  function CompareAndDelete(key: Option<Lease>, token: Token, now: int): Option<Lease> {
    if Live(key, now).Some? && key.value.token == token then None else key
  }

  // ---------------------------------------------------------------- The step machine

  /** What does not change during an execution: which process each run belongs to, what each run
      makes of the agent state it reads, the state used when none is stored, and the lease time. */
  datatype World = World(clientOf: RunId -> ClientId, effect: (RunId, AgentState) -> AgentState, default: AgentState,
                         ttl: int)

  /** Progress inside the critical section. */
  datatype Work =
    | Loading
    | Saving(base: AgentState, attempt: nat)
    | Closing

  datatype Pc =
    | Waiting(drawn: nat)
    | Calling(token: Token, attempt: nat, reply: Option<bool>, deadline: int)
    | Locked(token: Token, deadline: int)
    | Inside(token: Token, deadline: int, work: Work)
    | Deleting(consumed: Token, tries: nat)
    | Finished
  {
    /** The run still acts under a token it created. */
    predicate UsesToken() { Calling? || Locked? || Inside? }

    /** The run's SETNX was executed and answered true. */
    predicate HasLease() { (Calling? && reply == Some(true)) || Locked? || Inside? }

    /** The run has been told that it holds the lock and has not released it. */
    predicate Entered() { Locked? || Inside? }

    /** The run will not ask for the lock again. */
    predicate Past() { Deleting? || Finished? }
  }

  datatype State = State(
    now: int,
    key: Option<Lease>,
    stored: Option<AgentState>,
    tokens: map<ClientId, Token>,
    runs: map<RunId, Pc>,
    lateSets: set<Token>,                    // SETNX commands given up on, not yet executed
    lateDeletes: set<(ClientId, Token)>,     // release scripts given up on, not yet executed
    lateSaves: set<(RunId, AgentState)>,     // state writes given up on, not yet executed
    order: seq<RunId>,                       // history: runs in the order they got the lock
    wrote: set<RunId>)                       // history: runs whose state write was executed

  datatype AcquireStep =
    | Begin
    | Cancel
    | Send
    | Exec
    | Reply
    | Lost(giveUp: bool)

  datatype WorkStep =
    | NoteToken
    | Load
    | Fail
    | Save(executed: bool, acknowledged: bool)

  datatype ReleaseStep =
    | Consume
    | ExecDelete
    | DeleteLost(deleted: bool)

  datatype Step =
    | Tick(elapsed: nat)
    | LateSetNx(token: Token)
    | LateDelete(c: ClientId, token: Token)
    | LateSave(writer: RunId, state: AgentState)
    | Acquire(r: RunId, acquire: AcquireStep)
    | Work(r: RunId, work: WorkStep)
    | Release(r: RunId, release: ReleaseStep)

  predicate Enabled(s: State, step: Step) {
    match step
    case Tick(_) => true
    case LateSetNx(token) => token in s.lateSets
    case LateDelete(c, token) => (c, token) in s.lateDeletes
    case LateSave(writer, state) => (writer, state) in s.lateSaves
    case Acquire(r, Begin) => r !in s.runs
    case Acquire(r, a) => r in s.runs && AcquireEnabled(s.runs[r], a)
    case Work(r, a) => r in s.runs && WorkEnabled(s.runs[r], a)
    case Release(r, a) => r in s.runs && ReleaseEnabled(s.runs[r], a)
  }

  predicate AcquireEnabled(pc: Pc, step: AcquireStep) {
    match step
    case Begin => false
    case Cancel => pc.Waiting?
    case Send => pc.Waiting?
    case Exec => pc.Calling? && pc.reply.None?
    case Reply => pc.Calling? && pc.reply.Some?
    case Lost(_) => pc.Calling?
  }

  predicate WorkEnabled(pc: Pc, step: WorkStep) {
    match step
    case NoteToken => pc.Locked?
    case Load => pc.Inside? && pc.work.Loading?
    case Fail => pc.Inside?
    case Save(_, _) => pc.Inside? && pc.work.Saving?
  }

  predicate ReleaseEnabled(pc: Pc, step: ReleaseStep) {
    match step
    case Consume => pc.Inside? && pc.work.Closing?
    case ExecDelete => pc.Deleting?
    case DeleteLost(_) => pc.Deleting?
  }

  function Current(w: World, s: State): AgentState {
    s.stored.GetOr(w.default)
  }

  function Apply(w: World, s: State, step: Step): State
    requires Enabled(s, step)
  {
    match step
    case Tick(elapsed) => s.(now := s.now + elapsed)
    case LateSetNx(token) => s.(key := SetNx(s.key, token, s.now, w.ttl).0)
    case LateDelete(c, token) => s.(key := CompareAndDelete(s.key, token, s.now))
    case LateSave(writer, state) => s.(stored := Some(state), wrote := s.wrote + {writer})
    case Acquire(r, Begin) => s.(runs := s.runs[r := Waiting(0)])
    case Acquire(r, a) => ApplyAcquire(w, s, r, a)
    case Work(r, a) => ApplyWork(w, s, r, a)
    case Release(r, a) => ApplyRelease(w, s, r, a)
  }

  function ApplyAcquire(w: World, s: State, r: RunId, step: AcquireStep): State
    requires r in s.runs && AcquireEnabled(s.runs[r], step)
  {
    var pc := s.runs[r];
    match step
    case Cancel => s.(runs := s.runs[r := Finished])
    case Send => s.(runs := s.runs[r := Calling(Token(r, pc.drawn), 1, None, 0)])
    case Exec =>
      var (key, ok) := SetNx(s.key, pc.token, s.now, w.ttl);
      s.(key := key, runs := s.runs[r := Calling(pc.token, pc.attempt, Some(ok), s.now + w.ttl)])
    case Reply =>
      if pc.reply.value
      then s.(runs := s.runs[r := Locked(pc.token, pc.deadline)], order := s.order + [r])
      else s.(runs := s.runs[r := Waiting(pc.token.serial + 1)])
    case Lost(giveUp) =>
      var late := if pc.reply.None? then s.lateSets + {pc.token} else s.lateSets;
      var next := if giveUp || pc.attempt >= ATTEMPTS then Finished
                  else Calling(pc.token, pc.attempt + 1, None, 0);
      s.(lateSets := late, runs := s.runs[r := next])
  }

  function ApplyWork(w: World, s: State, r: RunId, step: WorkStep): State
    requires r in s.runs && WorkEnabled(s.runs[r], step)
  {
    var pc := s.runs[r];
    match step
    case NoteToken =>
      s.(tokens := s.tokens[w.clientOf(r) := pc.token],
         runs := s.runs[r := Inside(pc.token, pc.deadline, Loading)])
    case Load => s.(runs := s.runs[r := pc.(work := Saving(Current(w, s), 1))])
    case Fail => s.(runs := s.runs[r := pc.(work := Closing)])
    case Save(executed, acknowledged) =>
      var next := if (executed && acknowledged) || pc.work.attempt >= ATTEMPTS then Closing
                  else Saving(pc.work.base, pc.work.attempt + 1);
      var s1 := s.(runs := s.runs[r := pc.(work := next)]);
      if executed
      then s1.(stored := Some(w.effect(r, pc.work.base)), wrote := s.wrote + {r})
      else s1.(lateSaves := s.lateSaves + {(r, w.effect(r, pc.work.base))})
  }

  function ApplyRelease(w: World, s: State, r: RunId, step: ReleaseStep): State
    requires r in s.runs && ReleaseEnabled(s.runs[r], step)
  {
    var pc, c := s.runs[r], w.clientOf(r);
    match step
    case Consume =>
      if c in s.tokens
      then s.(tokens := s.tokens - {c}, runs := s.runs[r := Deleting(s.tokens[c], 1)])
      else s.(runs := s.runs[r := Finished])
    case ExecDelete =>
      s.(key := CompareAndDelete(s.key, pc.consumed, s.now), runs := s.runs[r := Finished])
    case DeleteLost(deleted) =>
      var next := if pc.tries >= ATTEMPTS then Finished else Deleting(pc.consumed, pc.tries + 1);
      var s1 := s.(runs := s.runs[r := next]);
      if deleted
      then s1.(key := CompareAndDelete(s.key, pc.consumed, s.now))
      else s1.(lateDeletes := s.lateDeletes + {(c, pc.consumed)})
  }

  predicate Init(s: State) {
    && s.key.None? && s.tokens == map[] && s.runs == map[]
    && s.lateSets == {} && s.lateDeletes == {} && s.lateSaves == {} && s.order == [] && s.wrote == {}
  }

  /** A whole execution: states[0] --steps[0]--> states[1] --steps[1]--> ... */
  ghost predicate Execution(w: World, states: seq<State>, steps: seq<Step>) {
    && |states| == |steps| + 1
    && Init(states[0])
    && forall i :: 0 <= i < |steps| ==> Enabled(states[i], steps[i]) && states[i + 1] == Apply(w, states[i], steps[i])
  }

  /** The environment assumption on the lease time: nobody is in the section past its deadline. */
  ghost predicate Timely(s: State) {
    forall r :: r in s.runs && s.runs[r].Entered() ==> s.now < s.runs[r].deadline
  }

  /** The other one: a state write that Redis executes late is executed while its run is still inside. */
  ghost predicate Prompt(s: State, step: Step) {
    step.LateSave? ==> step.writer in s.runs && s.runs[step.writer].Inside?
  }

  // ---------------------------------------------------------------- What is proved

  ghost predicate MutualExclusion(s: State) {
    forall q, r :: q in s.runs && r in s.runs && s.runs[q].Entered() && s.runs[r].Entered() ==> q == r
  }

  /** The runs of `order` whose write took effect, in that order. */
  function Writers(order: seq<RunId>, wrote: set<RunId>): seq<RunId> {
    if order == [] then []
    else
      var last := order[|order| - 1];
      var front := Writers(order[..|order| - 1], wrote);
      if last in wrote then front + [last] else front
  }

  /** One run after the other, each starting from what the one before it left. */
  function Serial(w: World, start: AgentState, runs: seq<RunId>): AgentState {
    if runs == [] then start
    else w.effect(runs[|runs| - 1], Serial(w, start, runs[..|runs| - 1]))
  }

  // ---------------------------------------------------------------- Invariants

  ghost predicate TokensOwned(s: State) {
    forall r :: r in s.runs && s.runs[r].UsesToken() ==> s.runs[r].token.run == r
  }

  /** A lease that has not run out is in the key. */
  ghost predicate LeasesHeld(s: State) {
    forall r :: r in s.runs && s.runs[r].HasLease() && s.now < s.runs[r].deadline
      ==> s.key == Some(Lease(s.runs[r].token, s.runs[r].deadline))
  }

  ghost predicate TokensNoted(w: World, s: State) {
    forall r :: r in s.runs && s.runs[r].Inside? ==>
        w.clientOf(r) in s.tokens && s.tokens[w.clientOf(r)] == s.runs[r].token
  }

  /** A token that a release script carries was drawn by a run that is past its critical section. */
  ghost predicate Spent(s: State, t: Token) {
    t.run in s.runs && s.runs[t.run].Past()
  }

  ghost predicate ReleasesSpent(s: State) {
    && (forall r :: r in s.runs && s.runs[r].Deleting? ==> Spent(s, s.runs[r].consumed))
    && (forall c, t :: (c, t) in s.lateDeletes ==> Spent(s, t))
  }

  /** A run is listed once, when it gets the lock, and whoever is inside is the last one listed. */
  ghost predicate Ordered(s: State) {
    && (forall r :: r in s.order ==> r in s.runs && !s.runs[r].Waiting? && !s.runs[r].Calling?)
    && (forall r :: r in s.runs && s.runs[r].Entered() ==> |s.order| > 0 && s.order[|s.order| - 1] == r)
  }

  ghost predicate WritesListed(s: State) {
    && (forall r :: r in s.wrote ==> r in s.order)
    && (forall r :: r in s.runs && (s.runs[r].Locked? || (s.runs[r].Inside? && s.runs[r].work.Loading?)) ==>
         r !in s.wrote)
  }

  ghost predicate OrderKept(s: State) {
    Ordered(s) && Distinct(s.order) && WritesListed(s)
  }

  ghost predicate StateSerial(w: World, start: AgentState, s: State) {
    && Current(w, s) == Serial(w, start, Writers(s.order, s.wrote))
    && (forall r :: r in s.runs && s.runs[r].Inside? && s.runs[r].work.Saving? ==>
          if r in s.wrote then Current(w, s) == w.effect(r, s.runs[r].work.base)
          else Current(w, s) == s.runs[r].work.base)
  }

  /** A write that is still out belongs to a run that has read its state, and as long as that run is
      inside, executing it would give what the run writes. */
  ghost predicate LateSerial(w: World, s: State) {
    forall r, v :: (r, v) in s.lateSaves ==>
      && r in s.runs
      && (s.runs[r].Past() || (s.runs[r].Inside? && !s.runs[r].work.Loading?))
      && (s.runs[r].Inside? ==> v == if r in s.wrote then Current(w, s) else w.effect(r, Current(w, s)))
  }

  ghost predicate Inv(w: World, start: AgentState, s: State) {
    LockInv(w, s) && OrderKept(s) && StateSerial(w, start, s) && LateSerial(w, s)
  }

  lemma EnteredAlone(s: State)
    requires TokensOwned(s) && LeasesHeld(s) && Timely(s)
    ensures MutualExclusion(s)
  {
  }

  ghost predicate LockInv(w: World, s: State) {
    TokensOwned(s) && LeasesHeld(s) && TokensNoted(w, s) && ReleasesSpent(s)
  }

  lemma LeasesHeldAcquire(w: World, s: State, r: RunId, a: AcquireStep)
    requires LockInv(w, s) && r in s.runs && AcquireEnabled(s.runs[r], a)
    ensures var s' := ApplyAcquire(w, s, r, a); LeasesHeld(s')
  {
  }

  lemma LeasesHeldWork(w: World, s: State, r: RunId, a: WorkStep)
    requires LockInv(w, s) && r in s.runs && WorkEnabled(s.runs[r], a)
    ensures var s' := ApplyWork(w, s, r, a); LeasesHeld(s')
  {
  }

  lemma LeasesHeldRelease(w: World, s: State, r: RunId, a: ReleaseStep)
    requires LockInv(w, s) && r in s.runs && ReleaseEnabled(s.runs[r], a)
    ensures var s' := ApplyRelease(w, s, r, a); LeasesHeld(s')
  {
  }

  lemma LeasesHeldStep(w: World, s: State, step: Step)
    requires LockInv(w, s) && Enabled(s, step)
    ensures var s' := Apply(w, s, step); LeasesHeld(s')
  {
    match step
    case Acquire(r, a) => if a != Begin { LeasesHeldAcquire(w, s, r, a); }
    case Work(r, a) => LeasesHeldWork(w, s, r, a);
    case Release(r, a) => LeasesHeldRelease(w, s, r, a);
    case _ =>
  }

  lemma ReleasesSpentAcquire(w: World, s: State, r: RunId, a: AcquireStep)
    requires LockInv(w, s) && r in s.runs && AcquireEnabled(s.runs[r], a)
    ensures var s' := ApplyAcquire(w, s, r, a); TokensOwned(s') && ReleasesSpent(s')
  {
  }

  lemma ReleasesSpentWork(w: World, s: State, r: RunId, a: WorkStep)
    requires LockInv(w, s) && r in s.runs && WorkEnabled(s.runs[r], a)
    ensures var s' := ApplyWork(w, s, r, a); TokensOwned(s') && ReleasesSpent(s')
  {
  }

  lemma ReleasesSpentRelease(w: World, s: State, r: RunId, a: ReleaseStep)
    requires LockInv(w, s) && r in s.runs && ReleaseEnabled(s.runs[r], a)
    ensures var s' := ApplyRelease(w, s, r, a); TokensOwned(s') && ReleasesSpent(s')
  {
    var s' := ApplyRelease(w, s, r, a);
    forall t | Spent(s, t) ensures Spent(s', t) {
    }
  }

  lemma ReleasesSpentStep(w: World, s: State, step: Step)
    requires LockInv(w, s) && Enabled(s, step)
    ensures var s' := Apply(w, s, step); TokensOwned(s') && ReleasesSpent(s')
  {
    match step
    case Acquire(r, a) => if a != Begin { ReleasesSpentAcquire(w, s, r, a); }
    case Work(r, a) => ReleasesSpentWork(w, s, r, a);
    case Release(r, a) => ReleasesSpentRelease(w, s, r, a);
    case _ =>
  }

  lemma TokensNotedStep(w: World, s: State, step: Step)
    requires TokensNoted(w, s) && MutualExclusion(s) && Enabled(s, step)
    ensures TokensNoted(w, Apply(w, s, step))
  {
  }

  lemma OrderedAcquire(w: World, s: State, r: RunId, a: AcquireStep)
    requires Ordered(s) && Distinct(s.order) && r in s.runs && AcquireEnabled(s.runs[r], a)
    requires MutualExclusion(ApplyAcquire(w, s, r, a))
    ensures var s' := ApplyAcquire(w, s, r, a); Ordered(s') && Distinct(s'.order)
  {
    if a.Reply? && s.runs[r].reply.value {
      assert ApplyAcquire(w, s, r, a).runs[r].Entered();
    }
  }

  lemma OrderedWork(w: World, s: State, r: RunId, a: WorkStep)
    requires Ordered(s) && Distinct(s.order) && r in s.runs && WorkEnabled(s.runs[r], a)
    ensures var s' := ApplyWork(w, s, r, a); Ordered(s') && Distinct(s'.order)
  {
  }

  lemma OrderedRelease(w: World, s: State, r: RunId, a: ReleaseStep)
    requires Ordered(s) && Distinct(s.order) && r in s.runs && ReleaseEnabled(s.runs[r], a)
    ensures var s' := ApplyRelease(w, s, r, a); Ordered(s') && Distinct(s'.order)
  {
  }

  lemma OrderedStep(w: World, s: State, step: Step)
    requires Ordered(s) && Distinct(s.order) && Enabled(s, step) && MutualExclusion(Apply(w, s, step))
    ensures Ordered(Apply(w, s, step)) && Distinct(Apply(w, s, step).order)
  {
    match step
    case Acquire(r, a) => if a != Begin { OrderedAcquire(w, s, r, a); }
    case Work(r, a) => OrderedWork(w, s, r, a);
    case Release(r, a) => OrderedRelease(w, s, r, a);
    case _ =>
  }

  lemma WritesListedAcquire(w: World, s: State, r: RunId, a: AcquireStep)
    requires Ordered(s) && WritesListed(s) && r in s.runs && AcquireEnabled(s.runs[r], a)
    ensures WritesListed(ApplyAcquire(w, s, r, a))
  {
  }

  lemma WritesListedWork(w: World, s: State, r: RunId, a: WorkStep)
    requires Ordered(s) && WritesListed(s) && r in s.runs && WorkEnabled(s.runs[r], a)
    ensures WritesListed(ApplyWork(w, s, r, a))
  {
  }

  lemma WritesListedStep(w: World, s: State, step: Step)
    requires Ordered(s) && WritesListed(s) && LateSerial(w, s) && Enabled(s, step) && Prompt(s, step)
    ensures WritesListed(Apply(w, s, step))
  {
    match step
    case Acquire(r, a) => if a != Begin { WritesListedAcquire(w, s, r, a); }
    case Work(r, a) => WritesListedWork(w, s, r, a);
    case LateSave(r, v) => assert s.runs[r].Entered();
    case _ =>
  }

  /** A run that has not written does not count; the first write of the last run comes last. */
  lemma {:induction false} WritersOfLast(order: seq<RunId>, wrote: set<RunId>, r: RunId)
    requires r !in order
    ensures Writers(order, wrote + {r}) == Writers(order, wrote)
    ensures r !in wrote ==> Writers(order + [r], wrote) == Writers(order, wrote)
    ensures Writers(order + [r], wrote + {r}) == Writers(order, wrote) + [r]
  {
    assert (order + [r])[..|order|] == order;
    if order != [] {
      WritersOfLast(order[..|order| - 1], wrote, r);
    }
  }

  lemma SerialOfLast(w: World, start: AgentState, runs: seq<RunId>, r: RunId)
    ensures Serial(w, start, runs + [r]) == w.effect(r, Serial(w, start, runs))
  {
    assert (runs + [r])[..|runs|] == runs;
  }

  /** A write of the run inside is, in the serial order, the last one. */
  lemma SaveIsSerial(w: World, start: AgentState, s: State, r: RunId, v: AgentState)
    requires OrderKept(s) && StateSerial(w, start, s) && r in s.runs && s.runs[r].Inside?
    requires v == if r in s.wrote then Current(w, s) else w.effect(r, Current(w, s))
    ensures v == Serial(w, start, Writers(s.order, s.wrote + {r}))
  {
    assert s.runs[r].Entered();
    var front := s.order[..|s.order| - 1];
    assert s.order == front + [r];
    if r in s.wrote {
      assert s.wrote + {r} == s.wrote;
    } else {
      assert r !in front by {
        assert forall i :: 0 <= i < |front| ==> front[i] == s.order[i] != s.order[|front|];
      }
      WritersOfLast(front, s.wrote, r);
      SerialOfLast(w, start, Writers(front, s.wrote), r);
    }
  }

  lemma StateSerialWork(w: World, start: AgentState, s: State, r: RunId, a: WorkStep)
    requires MutualExclusion(s) && OrderKept(s) && StateSerial(w, start, s) && r in s.runs && WorkEnabled(s.runs[r], a)
    ensures StateSerial(w, start, ApplyWork(w, s, r, a))
  {
    if a.Save? && a.executed {
      SaveIsSerial(w, start, s, r, w.effect(r, s.runs[r].work.base));
    }
  }

  /** Only the work steps touch the stored state or what a run has read. */
  lemma StateSerialElsewhere(w: World, start: AgentState, s: State, s': State)
    requires StateSerial(w, start, s) && s'.stored == s.stored && s'.wrote == s.wrote
    requires forall r :: r in s'.runs && s'.runs[r].Inside? ==> r in s.runs && s.runs[r] == s'.runs[r]
    requires Writers(s'.order, s'.wrote) == Writers(s.order, s.wrote)
    ensures StateSerial(w, start, s')
  {
  }

  lemma StateSerialLate(w: World, start: AgentState, s: State, r: RunId, v: AgentState)
    requires MutualExclusion(s) && OrderKept(s) && StateSerial(w, start, s) && LateSerial(w, s)
    requires (r, v) in s.lateSaves && s.runs[r].Inside?
    ensures StateSerial(w, start, Apply(w, s, LateSave(r, v)))
  {
    SaveIsSerial(w, start, s, r, v);
    if r in s.wrote {
      assert s.wrote + {r} == s.wrote;
    }
  }

  lemma StateSerialAcquire(w: World, start: AgentState, s: State, r: RunId, a: AcquireStep)
    requires OrderKept(s) && StateSerial(w, start, s) && r in s.runs && AcquireEnabled(s.runs[r], a)
    ensures StateSerial(w, start, ApplyAcquire(w, s, r, a))
  {
    if a.Reply? && s.runs[r].reply.value {
      WritersOfLast(s.order, s.wrote, r);
    }
    StateSerialElsewhere(w, start, s, ApplyAcquire(w, s, r, a));
  }

  lemma StateSerialRelease(w: World, start: AgentState, s: State, r: RunId, a: ReleaseStep)
    requires StateSerial(w, start, s) && r in s.runs && ReleaseEnabled(s.runs[r], a)
    ensures StateSerial(w, start, ApplyRelease(w, s, r, a))
  {
    StateSerialElsewhere(w, start, s, ApplyRelease(w, s, r, a));
  }

  lemma StateSerialStep(w: World, start: AgentState, s: State, step: Step)
    requires MutualExclusion(s) && OrderKept(s) && StateSerial(w, start, s) && LateSerial(w, s)
    requires Enabled(s, step) && Prompt(s, step)
    ensures StateSerial(w, start, Apply(w, s, step))
  {
    match step
    case Acquire(r, a) => if a != Begin { StateSerialAcquire(w, start, s, r, a); }
    case Work(r, a) => StateSerialWork(w, start, s, r, a);
    case Release(r, a) => StateSerialRelease(w, start, s, r, a);
    case LateSave(r, v) => StateSerialLate(w, start, s, r, v);
    case _ =>
  }

  lemma LateSerialWork(w: World, start: AgentState, s: State, r: RunId, a: WorkStep)
    requires MutualExclusion(s) && StateSerial(w, start, s) && LateSerial(w, s) && r in s.runs
             && WorkEnabled(s.runs[r], a)
    ensures LateSerial(w, ApplyWork(w, s, r, a))
  {
  }

  lemma LateSerialLate(w: World, s: State, r: RunId, v: AgentState)
    requires MutualExclusion(s) && LateSerial(w, s) && (r, v) in s.lateSaves && s.runs[r].Inside?
    ensures LateSerial(w, Apply(w, s, LateSave(r, v)))
  {
  }

  /** Steps that neither write nor give up a write, and let runs only move on. */
  lemma LateSerialElsewhere(w: World, s: State, s': State)
    requires LateSerial(w, s) && s'.lateSaves == s.lateSaves && s'.stored == s.stored && s'.wrote == s.wrote
    requires forall r :: r in s.runs && (s.runs[r].Past() || s.runs[r].Inside?) ==>
               r in s'.runs && (s'.runs[r] == s.runs[r] || s'.runs[r].Past())
    ensures LateSerial(w, s')
  {
  }

  lemma LateSerialAcquire(w: World, s: State, r: RunId, a: AcquireStep)
    requires LateSerial(w, s) && r in s.runs && AcquireEnabled(s.runs[r], a)
    ensures LateSerial(w, ApplyAcquire(w, s, r, a))
  {
    LateSerialElsewhere(w, s, ApplyAcquire(w, s, r, a));
  }

  lemma LateSerialRelease(w: World, s: State, r: RunId, a: ReleaseStep)
    requires LateSerial(w, s) && r in s.runs && ReleaseEnabled(s.runs[r], a)
    ensures LateSerial(w, ApplyRelease(w, s, r, a))
  {
    LateSerialElsewhere(w, s, ApplyRelease(w, s, r, a));
  }

  lemma LateSerialStep(w: World, start: AgentState, s: State, step: Step)
    requires MutualExclusion(s) && StateSerial(w, start, s) && LateSerial(w, s) && Enabled(s, step) && Prompt(s, step)
    ensures LateSerial(w, Apply(w, s, step))
  {
    match step
    case Acquire(r, a) => if a != Begin { LateSerialAcquire(w, s, r, a); }
    case Work(r, a) => LateSerialWork(w, start, s, r, a);
    case Release(r, a) => LateSerialRelease(w, s, r, a);
    case LateSave(r, v) => LateSerialLate(w, s, r, v);
    case _ =>
  }

  lemma LockInvStep(w: World, s: State, step: Step)
    requires LockInv(w, s) && Timely(s) && Enabled(s, step)
    ensures LockInv(w, Apply(w, s, step))
  {
    EnteredAlone(s);
    LeasesHeldStep(w, s, step);
    ReleasesSpentStep(w, s, step);
    TokensNotedStep(w, s, step);
  }

  lemma {:induction false} LockInvHolds(w: World, states: seq<State>, steps: seq<Step>, n: nat)
    requires Execution(w, states, steps) && n < |states|
    requires forall i :: 0 <= i <= n ==> Timely(states[i])
    ensures LockInv(w, states[n])
  {
    if n > 0 {
      LockInvHolds(w, states, steps, n - 1);
      LockInvStep(w, states[n - 1], steps[n - 1]);
    }
  }

  lemma InvStep(w: World, start: AgentState, s: State, step: Step)
    requires Inv(w, start, s) && Timely(s) && Enabled(s, step) && Prompt(s, step) && Timely(Apply(w, s, step))
    ensures Inv(w, start, Apply(w, s, step))
  {
    EnteredAlone(s);
    LockInvStep(w, s, step);
    EnteredAlone(Apply(w, s, step));
    OrderedStep(w, s, step);
    WritesListedStep(w, s, step);
    StateSerialStep(w, start, s, step);
    LateSerialStep(w, start, s, step);
  }

  lemma {:induction false} InvHolds(w: World, states: seq<State>, steps: seq<Step>, n: nat)
    requires Execution(w, states, steps) && n < |states|
    requires (forall i :: 0 <= i <= n ==> Timely(states[i])) && (forall i :: 0 <= i < n ==> Prompt(states[i], steps[i]))
    ensures Inv(w, Current(w, states[0]), states[n])
  {
    if n > 0 {
      InvHolds(w, states, steps, n - 1);
      InvStep(w, Current(w, states[0]), states[n - 1], steps[n - 1]);
    }
  }

  // ---------------------------------------------------------------- Theorems

  /** Serialisability. If no critical section outlives its lease, and no state write its critical
      section, then, whatever the interleaving, the expiries, the lost and the late commands: at most one
      run is inside, the stored state is
      what the writing runs produce one after the other in the order they got the lock, and a run
      about to write for the first time starts from the state stored at that moment. */
  lemma Serialisable(w: World, states: seq<State>, steps: seq<Step>, n: nat)
    requires Execution(w, states, steps) && n < |states|
    requires (forall i :: 0 <= i <= n ==> Timely(states[i])) && (forall i :: 0 <= i < n ==> Prompt(states[i], steps[i]))
    ensures MutualExclusion(states[n])
    ensures Current(w, states[n])
         == Serial(w, Current(w, states[0]), Writers(states[n].order, states[n].wrote))
    ensures forall r | r in states[n].runs && states[n].runs[r].Inside? && states[n].runs[r].work.Saving? ::
              r !in states[n].wrote ==> states[n].runs[r].work.base == Current(w, states[n])
  {
    InvHolds(w, states, steps, n);
    EnteredAlone(states[n]);
  }

  /** Within the lease times a release always takes the run's own token out of the shared map. */
  lemma ReleaseTakesOwnToken(w: World, states: seq<State>, steps: seq<Step>, n: nat)
    requires Execution(w, states, steps) && n < |steps| && steps[n].Release? && steps[n].release.Consume?
    requires forall i :: 0 <= i <= n ==> Timely(states[i])
    ensures states[n + 1].runs[steps[n].r] == Deleting(states[n].runs[steps[n].r].token, 1)
    ensures states[n].runs[steps[n].r].token.run == steps[n].r
  {
    LockInvHolds(w, states, steps, n);
  }

  /** What a process holds or sends in a release is a token that one of its own runs drew. */
  ghost predicate ClientTokens(w: World, s: State) {
    && TokensOwned(s)
    && (forall c :: c in s.tokens ==> w.clientOf(s.tokens[c].run) == c)
    && (forall r :: r in s.runs && s.runs[r].Deleting? ==> w.clientOf(s.runs[r].consumed.run) == w.clientOf(r))
    && (forall c, t :: (c, t) in s.lateDeletes ==> w.clientOf(t.run) == c)
  }

  lemma ClientTokensWork(w: World, s: State, r: RunId, a: WorkStep)
    requires ClientTokens(w, s) && r in s.runs && WorkEnabled(s.runs[r], a)
    ensures ClientTokens(w, ApplyWork(w, s, r, a))
  {
  }

  lemma ClientTokensRelease(w: World, s: State, r: RunId, a: ReleaseStep)
    requires ClientTokens(w, s) && r in s.runs && ReleaseEnabled(s.runs[r], a)
    ensures ClientTokens(w, ApplyRelease(w, s, r, a))
  {
  }

  lemma ClientTokensStep(w: World, s: State, step: Step)
    requires ClientTokens(w, s) && Enabled(s, step)
    ensures ClientTokens(w, Apply(w, s, step))
  {
    match step
    case Work(r, a) => ClientTokensWork(w, s, r, a);
    case Release(r, a) => ClientTokensRelease(w, s, r, a);
    case _ =>
  }

  lemma {:induction false} ClientTokensHold(w: World, states: seq<State>, steps: seq<Step>, n: nat)
    requires Execution(w, states, steps) && n < |states|
    ensures ClientTokens(w, states[n])
  {
    if n > 0 {
      ClientTokensHold(w, states, steps, n - 1);
      ClientTokensStep(w, states[n - 1], steps[n - 1]);
    }
  }

  /** The process on whose behalf a step runs the release script, if it does. */
  function Releaser(w: World, step: Step): Option<ClientId> {
    match step
    case Release(r, ExecDelete) => Some(w.clientOf(r))
    case Release(r, DeleteLost(true)) => Some(w.clientOf(r))
    case LateDelete(c, _) => Some(c)
    case _ => None
  }

  /** Lock ownership, with no assumption on time: a live lease is only ever taken away by a release
      of the process one of whose runs drew its token; no other step replaces or removes it. */
  lemma OnlyOwnProcessReleases(w: World, states: seq<State>, steps: seq<Step>, n: nat)
    requires Execution(w, states, steps) && n < |steps|
    requires Live(states[n].key, states[n].now).Some?
    requires states[n + 1].key != states[n].key
    ensures states[n + 1].key == None
    ensures Releaser(w, steps[n]) == Some(w.clientOf(states[n].key.value.token.run))
  {
    ClientTokensHold(w, states, steps, n);
  }
}
