/** The distributed lock: a lease on one Redis key, taken by a process that already holds its own
  * in-process lock, renewed every ten seconds and checked by token on renewal and release.
  *
  * Times are milliseconds. Redis executes commands atomically; a command's effect and its reply are
  * separate steps, and a reply may never come. */
module LeaseLock {
  import opened Wrappers
  import MemoryLock

  type Process = nat
  type Thread = nat
  type Token = nat

  const KEY: MemoryLock.Key := "lock"

  const LEASE: int := 30_000
  const RENEW_PERIOD: int := 10_000
  const CALL_TIMEOUT: int := 5_000
  /** The longest first reply the timing theorem allows for. */
  const REPLY_DELAY: int := 15_000

  datatype Lease = Lease(token: Token, expires: int)

  /** The renewal goroutine: waiting for its tick, or with a call under way. */
  datatype Renewal =
    | Idle(nextTick: int)
    | Sent(start: int, nextTick: int)
    | Landed(start: int, nextTick: int, renewed: bool)

  datatype Phase =
    | Trying                                    // between attempts to set the key
    | Granted(since: int)                       // Redis set the key; the reply is under way
    | Active(cancelled: bool, renewal: Renewal) // AcquireLock has returned
    | Closing                                   // given up or released; the local lock is still to go

  /** One operation: a goroutine inside AcquireLock, or between it and the end of its release. */
  datatype Op = Op(token: Token, phase: Phase)

  type OpId = (Process, Thread)

  datatype State = State(
    now: int,
    redis: Option<Lease>,
    used: set<Token>,
    local: map<Process, MemoryLock.State>,
    ops: map<OpId, Op>
  )

  datatype Step =
    | Local(p: Process, m: MemoryLock.Step)  // a step of the process's own lock
    | Begin(o: OpId, token: Token)           // the local lock is held: draw a token
    | SetNX(o: OpId)
    | SetNXLost(o: OpId)                     // the key is set but the reply is an error
    | Reply(o: OpId)
    | Abort(o: OpId)                         // the context ended, or a call failed
    | Tick(o: OpId)
    | Land(o: OpId)                          // Redis runs the renewal script
    | Answer(o: OpId, failed: bool)
    | TimeOut(o: OpId)                       // no answer within the call's timeout
    | Release(o: OpId, lands: bool)          // the release script, run or lost
    | Late(token: Token, release: bool)      // a timed-out script runs after all
    | LateSet(token: Token)                  // a timed-out SetNX of a closed operation runs after all
    | Advance(d: nat)

  // ---------------------------------------------------------------------------
  // Redis
  // ---------------------------------------------------------------------------

  predicate Live(s: State) {
    s.redis.Some? && s.now <= s.redis.value.expires
  }

  /** `get key == token`, on a key that has not expired. */
  predicate Owns(s: State, token: Token) {
    Live(s) && s.redis.value.token == token
  }

  function SetIfAbsent(s: State, token: Token): State {
    if Live(s) then s else s.(redis := Some(Lease(token, s.now + LEASE)))
  }

  function RenewScript(s: State, token: Token): State {
    if Owns(s, token) then s.(redis := Some(Lease(token, s.now + LEASE))) else s
  }

  function ReleaseScript(s: State, token: Token): State {
    if Owns(s, token) then s.(redis := None) else s
  }

  // ---------------------------------------------------------------------------
  // Steps
  // ---------------------------------------------------------------------------

  predicate Closed(s: State, token: Token) {
    token in s.used && forall o | o in s.ops && s.ops[o].token == token :: s.ops[o].phase.Closing?
  }

  predicate Enabled(s: State, step: Step) {
    match step
    case Local(p, m) =>
      && p in s.local && MemoryLock.Enabled(s.local[p], m)
      && (m.Release? && (p, m.t) in s.ops ==> s.ops[(p, m.t)].phase.Closing?)
    case Begin(o, token) =>
      && o !in s.ops && token !in s.used
      && o.0 in s.local && o.1 in s.local[o.0].threads
      && s.local[o.0].threads[o.1].key == KEY && s.local[o.0].threads[o.1].phase == MemoryLock.Holding
    case SetNX(o) => o in s.ops && s.ops[o].phase.Trying?
    case SetNXLost(o) => o in s.ops && s.ops[o].phase.Trying?
    case Reply(o) => o in s.ops && s.ops[o].phase.Granted?
    case Abort(o) => o in s.ops && s.ops[o].phase.Trying?
    case Tick(o) =>
      o in s.ops && s.ops[o].phase.Active? && s.ops[o].phase.renewal.Idle? && s.now >= s.ops[o].phase.renewal.nextTick
    case Land(o) => o in s.ops && s.ops[o].phase.Active? && s.ops[o].phase.renewal.Sent?
    case Answer(o, _) => o in s.ops && s.ops[o].phase.Active? && s.ops[o].phase.renewal.Landed?
    case TimeOut(o) => o in s.ops && s.ops[o].phase.Active? && !s.ops[o].phase.renewal.Idle?
    case Release(o, _) => o in s.ops && s.ops[o].phase.Active? && s.ops[o].phase.renewal.Idle?
    case Late(token, release) => if release then Closed(s, token) else token in s.used
    case LateSet(token) => Closed(s, token)
    case Advance(_) => true
  }

  function WithPhase(s: State, o: OpId, phase: Phase): State
    requires o in s.ops
  {
    s.(ops := s.ops[o := s.ops[o].(phase := phase)])
  }

  function Apply(s: State, step: Step): State
    requires Enabled(s, step)
  {
    match step
    case Local(p, m) =>
      s.(local := s.local[p := MemoryLock.Apply(s.local[p], m)],
         ops := if m.Send? then s.ops - {(p, m.t)} else s.ops)
    case Begin(o, token) => s.(used := s.used + {token}, ops := s.ops[o := Op(token, Trying)])
    case SetNX(o) =>
      var token := s.ops[o].token;
      if Live(s) then s else WithPhase(SetIfAbsent(s, token), o, Granted(s.now))
    case SetNXLost(o) => WithPhase(SetIfAbsent(s, s.ops[o].token), o, Closing)
    case Reply(o) => WithPhase(s, o, Active(false, Idle(s.now + RENEW_PERIOD)))
    case Abort(o) => WithPhase(s, o, Closing)
    case Tick(o) =>
      var Active(c, Idle(next)) := s.ops[o].phase;
      WithPhase(s, o, Active(c, Sent(s.now, next + RENEW_PERIOD)))
    case Land(o) =>
      var Active(c, Sent(start, next)) := s.ops[o].phase;
      var token := s.ops[o].token;
      WithPhase(RenewScript(s, token), o, Active(c, Landed(start, next, Owns(s, token))))
    case Answer(o, failed) =>
      var Active(c, Landed(_, next, renewed)) := s.ops[o].phase;
      WithPhase(s, o, Active(c || failed || !renewed, Idle(next)))
    case TimeOut(o) =>
      WithPhase(s, o, Active(true, Idle(s.ops[o].phase.renewal.nextTick)))
    case Release(o, lands) =>
      var token := s.ops[o].token;
      WithPhase(if lands then ReleaseScript(s, token) else s, o, Closing)
    case Late(token, release) => if release then ReleaseScript(s, token) else RenewScript(s, token)
    case LateSet(token) => SetIfAbsent(s, token)
    case Advance(d) => s.(now := s.now + d)
  }

  // ---------------------------------------------------------------------------
  // What every run keeps
  // ---------------------------------------------------------------------------

  ghost predicate Inv(s: State) {
    && (forall p | p in s.local :: MemoryLock.Inv(s.local[p]))
    && (forall o | o in s.ops :: Seated(s, o))
    && TokensUnique(s)
  }

  /** The operation sits on its process's local lock. */
  predicate Seated(s: State, o: OpId) {
    && o.0 in s.local && o.1 in s.local[o.0].threads
    && s.local[o.0].threads[o.1].key == KEY
    && MemoryLock.HasToken(s.local[o.0].threads[o.1].phase)
  }

  /** Tokens are never reused, and no lease reaches further than a full one from now. */
  ghost predicate TokensUnique(s: State) {
    && (forall o | o in s.ops :: s.ops[o].token in s.used)
    && (forall a, b | a in s.ops && b in s.ops && s.ops[a].token == s.ops[b].token :: a == b)
    && (s.redis.Some? ==> s.redis.value.token in s.used && s.redis.value.expires <= s.now + LEASE)
  }

  lemma LocalKeepsSeats(s: State, step: Step)
    requires step.Local? && Enabled(s, step) && forall o | o in s.ops :: Seated(s, o)
    ensures forall o | o in Apply(s, step).ops :: Seated(Apply(s, step), o)
  {
  }

  /** Only local steps touch the processes' own locks, and only Begin adds an operation. */
  lemma StepKeepsSeats(s: State, step: Step)
    requires !step.Local? && Enabled(s, step) && forall o | o in s.ops :: Seated(s, o)
    ensures Apply(s, step).local == s.local
    ensures forall o | o in Apply(s, step).ops :: Seated(Apply(s, step), o)
  {
    hide MemoryLock.Apply, MemoryLock.Enabled;
    var s' := Apply(s, step);
    assert s'.local == s.local;
    forall o | o in s'.ops
      ensures Seated(s', o)
    {
      assert o in s.ops || (step.Begin? && step.o == o);
    }
  }

  lemma StepKeepsTokens(s: State, step: Step)
    requires TokensUnique(s) && Enabled(s, step)
    ensures TokensUnique(Apply(s, step))
  {
    hide MemoryLock.Apply, MemoryLock.Enabled;
  }

  lemma StepKeepsInv(s: State, step: Step)
    requires Inv(s) && Enabled(s, step)
    ensures Inv(Apply(s, step))
  {
    StepKeepsTokens(s, step);
    hide Seated, TokensUnique, MemoryLock.Inv, MemoryLock.Apply, MemoryLock.Enabled;
    if step.Local? {
      LocalKeepsSeats(s, step);
      MemoryLock.StepKeepsInv(s.local[step.p], step.m);
    } else {
      StepKeepsSeats(s, step);
    }
  }

  ghost predicate Initial(s: State) {
    s.redis == None && s.ops == map[] && forall p | p in s.local :: s.local[p] == MemoryLock.INITIAL
  }

  ghost predicate IsRun(trace: seq<State>, steps: seq<Step>) {
    && |trace| == |steps| + 1
    && Initial(trace[0])
    && forall i | 0 <= i < |steps| :: Enabled(trace[i], steps[i]) && trace[i + 1] == Apply(trace[i], steps[i])
  }

  lemma {:induction false} RunKeepsInv(trace: seq<State>, steps: seq<Step>, i: nat)
    requires IsRun(trace, steps) && i < |trace|
    ensures Inv(trace[i])
    decreases i
  {
    if i == 0 {
      MemoryLock.InitialInv();
    } else {
      hide Inv;
      RunKeepsInv(trace, steps, i - 1);
      StepKeepsInv(trace[i - 1], steps[i - 1]);
    }
  }

  /** Even after its lease has lapsed, a process has at most one operation between acquiring and
    * releasing. */
  lemma OneOperationPerProcess(trace: seq<State>, steps: seq<Step>, i: nat, a: OpId, b: OpId)
    requires IsRun(trace, steps) && i < |trace|
    requires a in trace[i].ops && b in trace[i].ops && a.0 == b.0
    ensures a == b
  {
    RunKeepsInv(trace, steps, i);
    var s := trace[i];
    hide MemoryLock.Inv;
    MemoryLock.InvIsExclusive(s.local[a.0]);
  }

  /** Whose lease a step can change: its own operation's, or a closed operation's. */
  ghost predicate Acts(s: State, step: Step, token: Token) {
    match step
    case Late(t, _) => t == token
    case LateSet(t) => t == token
    case Begin(_, t) => t == token
    case Local(_, _) => false
    case Advance(_) => false
    case _ => step.o in s.ops && s.ops[step.o].token == token
  }

  /** A live lease changes only by steps of the operation whose token it carries: a stale holder's
    * renewal or release, and any attempt to take the lock, leaves another's lease as it is. */
  lemma LeaseIsOnlyItsOwners(s: State, step: Step)
    requires Enabled(s, step) && Live(s)
    requires !Acts(s, step, s.redis.value.token)
    ensures Apply(s, step).redis == s.redis
  {
  }

  // ---------------------------------------------------------------------------
  // Exclusion across processes
  // ---------------------------------------------------------------------------

  /** In the critical section as far as Redis knows: granted, or running on the grant. */
  predicate Holds(s: State, o: OpId) {
    o in s.ops && (s.ops[o].phase.Granted? || s.ops[o].phase.Active?)
  }

  ghost predicate EveryHolderOwns(s: State) {
    forall o | Holds(s, o) :: Owns(s, s.ops[o].token)
  }

  /** Time never passes the expiry of a lease that is still held. */
  ghost predicate NoExpiryWhileHeld(s: State, step: Step) {
    step.Advance? ==> forall o | Holds(s, o) && Owns(s, s.ops[o].token) :: s.now + step.d <= s.redis.value.expires
  }

  /** The operation whose own step it is. */
  ghost predicate IsStepOf(step: Step, o: OpId) {
    !step.Local? && !step.Late? && !step.LateSet? && !step.Advance? && step.o == o
  }

  /** Steps of others, and late scripts, leave an operation's own record alone. */
  lemma OthersLeaveRecord(s: State, step: Step, o: OpId)
    requires Enabled(s, step) && !IsStepOf(step, o) && o in Apply(s, step).ops
    ensures o in s.ops && Apply(s, step).ops[o] == s.ops[o]
    ensures !step.Advance? ==> Apply(s, step).now == s.now
  {
    hide MemoryLock.Apply, MemoryLock.Enabled;
  }

  lemma OtherStepKeepsOwnership(s: State, step: Step, o: OpId)
    requires TokensUnique(s) && Enabled(s, step) && NoExpiryWhileHeld(s, step)
    requires Holds(s, o) && Owns(s, s.ops[o].token) && !IsStepOf(step, o)
    ensures Owns(Apply(s, step), s.ops[o].token)
  {
    hide MemoryLock.Apply, MemoryLock.Enabled;
    if !Acts(s, step, s.ops[o].token) {
      LeaseIsOnlyItsOwners(s, step);
    }
  }

  lemma OwnStepKeepsOwnership(s: State, step: Step, o: OpId)
    requires Enabled(s, step) && IsStepOf(step, o) && Holds(Apply(s, step), o)
    requires Holds(s, o) ==> Owns(s, s.ops[o].token)
    ensures Owns(Apply(s, step), Apply(s, step).ops[o].token)
  {
  }

  lemma StepKeepsOwnership(s: State, step: Step)
    requires TokensUnique(s) && Enabled(s, step) && EveryHolderOwns(s) && NoExpiryWhileHeld(s, step)
    ensures EveryHolderOwns(Apply(s, step))
  {
    var s' := Apply(s, step);
    forall o | Holds(s', o)
      ensures Owns(s', s'.ops[o].token)
    {
      hide Apply, Enabled, TokensUnique, Owns;
      if IsStepOf(step, o) {
        OwnStepKeepsOwnership(s, step, o);
      } else {
        OthersLeaveRecord(s, step, o);
        OtherStepKeepsOwnership(s, step, o);
      }
    }
  }

  lemma {:induction false} RunKeepsOwnership(trace: seq<State>, steps: seq<Step>, i: nat)
    requires IsRun(trace, steps) && i < |trace|
    requires forall j | 0 <= j < |steps| :: NoExpiryWhileHeld(trace[j], steps[j])
    ensures EveryHolderOwns(trace[i])
    decreases i
  {
    hide TokensUnique, Seated;
    if i > 0 {
      RunKeepsInv(trace, steps, i - 1);
      RunKeepsOwnership(trace, steps, i - 1);
      hide EveryHolderOwns;
      StepKeepsOwnership(trace[i - 1], steps[i - 1]);
    }
  }

  /** If no lease expires while it is held, at most one operation holds the lock across all processes. */
  lemma OneHolderWithoutExpiry(trace: seq<State>, steps: seq<Step>, i: nat, a: OpId, b: OpId)
    requires IsRun(trace, steps) && i < |trace|
    requires forall j | 0 <= j < |steps| :: NoExpiryWhileHeld(trace[j], steps[j])
    requires Holds(trace[i], a) && Holds(trace[i], b)
    ensures a == b
  {
    RunKeepsInv(trace, steps, i);
    RunKeepsOwnership(trace, steps, i);
  }

  // A run in which the hypothesis fails, and with it exclusion

  ghost predicate EndsIn(trace: seq<State>, s: State) {
    trace != [] && trace[|trace| - 1] == s
  }

  ghost predicate Reachable(s: State) {
    exists trace, steps :: IsRun(trace, steps) && EndsIn(trace, s)
  }

  lemma StepReaches(s: State, step: Step)
    requires Reachable(s) && Enabled(s, step)
    ensures Reachable(Apply(s, step))
  {
    hide Enabled, Apply, Initial;
    var trace, steps :| IsRun(trace, steps) && EndsIn(trace, s);
    var s' := Apply(s, step);
    assert IsRun(trace + [s'], steps + [step]);
    assert EndsIn(trace + [s'], s');
  }

  /** A process's own lock, free and then held by its thread 0. */
  const WAITED := MemoryLock.State(
    map[KEY := 0], map[0 := MemoryLock.Lock(1, 1)], map[0 := MemoryLock.User(KEY, 0, MemoryLock.Waiting)], map[])
  const TAKEN := MemoryLock.State(
    map[KEY := 0], map[0 := MemoryLock.Lock(0, 1)], map[0 := MemoryLock.User(KEY, 0, MemoryLock.Holding)],
    map[0 := false])

  lemma LocalLockTaken()
    ensures
      var enter, take := MemoryLock.Enter(0, KEY, 0), MemoryLock.Take(0);
      && MemoryLock.Enabled(MemoryLock.INITIAL, enter) && MemoryLock.Apply(MemoryLock.INITIAL, enter) == WAITED
      && MemoryLock.Enabled(WAITED, take) && MemoryLock.Apply(WAITED, take) == TAKEN
  {
  }

  /** A process takes its own lock, draws a token and, finding no live lease, gets one. */
  lemma Acquires(s: State, p: Process, token: Token)
    requires Reachable(s) && p in s.local && s.local[p] == MemoryLock.INITIAL
    requires (p, 0) !in s.ops && token !in s.used && !Live(s)
    ensures
      Reachable(s.(redis := Some(Lease(token, s.now + LEASE)), used := s.used + {token},
                   local := s.local[p := TAKEN], ops := s.ops[(p, 0) := Op(token, Granted(s.now))]))
  {
    LocalLockTaken();
    hide Reachable, MemoryLock.Enabled, MemoryLock.Apply;
    var o := (p, 0);
    StepReaches(s, Local(p, MemoryLock.Enter(0, KEY, 0)));
    var s1 := s.(local := s.local[p := WAITED]);
    assert Apply(s, Local(p, MemoryLock.Enter(0, KEY, 0))) == s1;
    StepReaches(s1, Local(p, MemoryLock.Take(0)));
    var s2 := s.(local := s.local[p := TAKEN]);
    assert s1.local[p := TAKEN] == s2.local;
    assert Apply(s1, Local(p, MemoryLock.Take(0))) == s2;
    StepReaches(s2, Begin(o, token));
    var s3 := Apply(s2, Begin(o, token));
    StepReaches(s3, SetNX(o));
    assert s3.ops[o := Op(token, Granted(s.now))] == s.ops[o := Op(token, Granted(s.now))];
  }

  /** A lease lapses while its operation holds, another process takes the key, and both hold. */
  lemma LapsedLeaseHasTwoHolders()
    ensures exists s :: Reachable(s) && Holds(s, (0, 0)) && Holds(s, (1, 0))
  {
    var start := State(0, None, {}, map[0 := MemoryLock.INITIAL, 1 := MemoryLock.INITIAL], map[]);
    assert IsRun([start], []) && EndsIn([start], start);
    assert Reachable(start);
    hide Reachable;
    Acquires(start, 0, 0);
    var held := start.(redis := Some(Lease(0, LEASE)), used := {0}, local := start.local[0 := TAKEN],
                       ops := map[(0, 0) := Op(0, Granted(0))]);
    assert start.used + {0} == {0};
    StepReaches(held, Advance(LEASE + 1));
    var lapsed := held.(now := LEASE + 1);
    Acquires(lapsed, 1, 1);
    var both := lapsed.(redis := Some(Lease(1, lapsed.now + LEASE)), used := lapsed.used + {1},
                        local := lapsed.local[1 := TAKEN], ops := lapsed.ops[(1, 0) := Op(1, Granted(lapsed.now))]);
    assert Reachable(both) && Holds(both, (0, 0)) && Holds(both, (1, 0));
  }

  // ---------------------------------------------------------------------------
  // Renewal in time
  // ---------------------------------------------------------------------------

  /** The timing assumptions: a first reply within 15 s of the grant, ticks handled when they are due, and
    * renewal calls answered or timed out within 5 s. */
  ghost predicate Timely(s: State, step: Step) {
    step.Advance? ==> forall o | o in s.ops :: s.now + step.d <= Deadline(s.ops[o].phase, s.now + step.d)
  }

  /** The latest time at which an operation may still be in a phase. */
  function Deadline(phase: Phase, otherwise: int): int {
    match phase
    case Granted(since) => since + REPLY_DELAY
    case Active(_, Idle(next)) => next
    case Active(_, Sent(start, _)) => start + CALL_TIMEOUT
    case Active(_, Landed(start, _, _)) => start + CALL_TIMEOUT
    case _ => otherwise
  }

  /** Granted, or active with its context not cancelled. */
  predicate Running(s: State, o: OpId) {
    o in s.ops && match s.ops[o].phase
    case Granted(_) => true
    case Active(cancelled, _) => !cancelled
    case _ => false
  }

  /** A running operation owns a lease that outlives everything it is waiting for. */
  ghost predicate Covered(s: State, o: OpId)
    requires o in s.ops
  {
    && s.redis.Some? && s.redis.value.token == s.ops[o].token
    && var e := s.redis.value.expires;
       match s.ops[o].phase
       case Granted(since) => s.now <= since + REPLY_DELAY && since + LEASE <= e
       case Active(_, Idle(next)) => s.now <= next && next + CALL_TIMEOUT <= e
       case Active(_, Sent(start, next)) =>
         start <= s.now <= start + CALL_TIMEOUT <= e && next == start + RENEW_PERIOD
       case Active(_, Landed(start, next, renewed)) =>
         renewed && start <= s.now <= start + CALL_TIMEOUT && start + LEASE <= e && next == start + RENEW_PERIOD
       case _ => true
  }

  ghost predicate AllCovered(s: State) {
    forall o | Running(s, o) :: o in s.ops && Covered(s, o)
  }

  lemma CoveredOwns(s: State, o: OpId)
    requires Running(s, o) && Covered(s, o)
    ensures Owns(s, s.ops[o].token)
  {
  }

  lemma OtherStepKeepsCover(s: State, step: Step, o: OpId)
    requires TokensUnique(s) && Enabled(s, step) && Timely(s, step)
    requires Running(s, o) && Covered(s, o) && !IsStepOf(step, o)
    requires o in Apply(s, step).ops && Apply(s, step).ops[o] == s.ops[o]
    ensures Covered(Apply(s, step), o)
  {
    hide MemoryLock.Apply, MemoryLock.Enabled;
    CoveredOwns(s, o);
    if !Acts(s, step, s.ops[o].token) {
      LeaseIsOnlyItsOwners(s, step);
    }
  }

  lemma OwnStepKeepsCover(s: State, step: Step, o: OpId)
    requires Enabled(s, step) && IsStepOf(step, o) && Running(Apply(s, step), o)
    requires Running(s, o) ==> Covered(s, o)
    ensures Covered(Apply(s, step), o)
  {
    hide MemoryLock.Apply, MemoryLock.Enabled;
    if Running(s, o) {
      CoveredOwns(s, o);
    }
  }

  lemma StepKeepsCover(s: State, step: Step)
    requires TokensUnique(s) && Enabled(s, step) && AllCovered(s) && Timely(s, step)
    ensures AllCovered(Apply(s, step))
  {
    var s' := Apply(s, step);
    forall o | Running(s', o)
      ensures o in s'.ops && Covered(s', o)
    {
      hide Apply, Enabled, TokensUnique, Covered;
      if IsStepOf(step, o) {
        OwnStepKeepsCover(s, step, o);
      } else {
        OthersLeaveRecord(s, step, o);
        OtherStepKeepsCover(s, step, o);
      }
    }
  }

  lemma {:induction false} RunKeepsCover(trace: seq<State>, steps: seq<Step>, i: nat)
    requires IsRun(trace, steps) && i < |trace|
    requires forall j | 0 <= j < |steps| :: Timely(trace[j], steps[j])
    ensures AllCovered(trace[i])
    decreases i
  {
    hide TokensUnique, Seated;
    if i > 0 {
      RunKeepsInv(trace, steps, i - 1);
      RunKeepsCover(trace, steps, i - 1);
      hide AllCovered;
      StepKeepsCover(trace[i - 1], steps[i - 1]);
    }
  }

  /** However long the run, an operation neither released nor cancelled owns a live lease; so at most one
    * runs across all processes. */
  lemma RunningOwnsLiveLease(trace: seq<State>, steps: seq<Step>, i: nat, a: OpId)
    requires IsRun(trace, steps) && i < |trace|
    requires forall j | 0 <= j < |steps| :: Timely(trace[j], steps[j])
    requires Running(trace[i], a)
    ensures Owns(trace[i], trace[i].ops[a].token)
    ensures forall b | Running(trace[i], b) :: b == a
  {
    RunKeepsInv(trace, steps, i);
    RunKeepsCover(trace, steps, i);
    CoveredOwns(trace[i], a);
    forall b | Running(trace[i], b)
      ensures b == a
    {
      CoveredOwns(trace[i], b);
    }
  }

  // ---------------------------------------------------------------------------
  // The key passes on
  // ---------------------------------------------------------------------------

  /** A step that may put a lease on a free key. */
  predicate TakesKey(step: Step) {
    step.SetNX? || step.SetNXLost? || step.LateSet?
  }

  lemma StaysFree(s: State, step: Step)
    requires s.redis == None && Enabled(s, step) && !TakesKey(step)
    ensures Apply(s, step).redis == None
  {
    hide MemoryLock.Apply, MemoryLock.Enabled;
  }

  lemma OwnReleaseFrees(s: State, o: OpId)
    requires Enabled(s, Release(o, true)) && Owns(s, s.ops[o].token)
    ensures Apply(s, Release(o, true)).redis == None
  {
  }

  lemma FreeKeyIsTaken(s: State, o: OpId)
    requires Enabled(s, SetNX(o)) && s.redis == None
    ensures
      var s' := Apply(s, SetNX(o));
      Holds(s', o) && s'.redis == Some(Lease(s.ops[o].token, s.now + 30_000)) && s'.ops[o].token == s.ops[o].token
  {
  }

  /** Once the owner's release has landed the key is free, and the next operation to try takes it, for thirty
    * seconds, however much else happens and however much time passes in between. */
  lemma ReleasedKeyIsTaken(trace: seq<State>, steps: seq<Step>, i: nat, j: nat, o: OpId, other: OpId)
    requires IsRun(trace, steps) && i < j < |steps| && steps[i] == Release(o, true) && steps[j] == SetNX(other)
    requires Owns(trace[i], trace[i].ops[o].token)
    requires forall k | i < k < j :: !TakesKey(steps[k])
    ensures other in trace[j].ops && Holds(trace[j + 1], other)
    ensures trace[j + 1].redis == Some(Lease(trace[j].ops[other].token, trace[j].now + 30_000))
  {
    KeyStaysFree(trace, steps, i, j, o);
    FreeKeyIsTaken(trace[j], other);
  }

  lemma RunSteps(trace: seq<State>, steps: seq<Step>, k: nat)
    requires IsRun(trace, steps) && k < |trace| - 1
    ensures |steps| == |trace| - 1 && Enabled(trace[k], steps[k]) && trace[k + 1] == Apply(trace[k], steps[k])
  {
    hide Enabled, Apply, Initial;
  }

  lemma {:induction false} KeyStaysFree(trace: seq<State>, steps: seq<Step>, i: nat, j: nat, o: OpId)
    requires IsRun(trace, steps) && i < j < |trace| && steps[i] == Release(o, true)
    requires o in trace[i].ops && Owns(trace[i], trace[i].ops[o].token)
    requires forall k | i < k < j :: !TakesKey(steps[k])
    ensures trace[j].redis == None
    decreases j
  {
    hide IsRun, Enabled, Apply, Owns;
    RunSteps(trace, steps, j - 1);
    if i + 1 < j {
      KeyStaysFree(trace, steps, i, j - 1, o);
      StaysFree(trace[j - 1], steps[j - 1]);
    } else {
      OwnReleaseFrees(trace[i], o);
    }
  }

  /** While another's lease is live an attempt leaves everything as it was; the operation tries again. */
  lemma LiveKeyIsNotTaken(s: State, o: OpId)
    requires Enabled(s, SetNX(o)) && Live(s)
    ensures Apply(s, SetNX(o)) == s && Enabled(Apply(s, SetNX(o)), SetNX(o))
  {
  }

  // ---------------------------------------------------------------------------
  // A lost lease cancels
  // ---------------------------------------------------------------------------

  /** A renewal that finds the lease gone or another's, that fails, or that is not answered in time. */
  ghost predicate LosesLease(s: State, step: Step, o: OpId) {
    || (step == Land(o) && o in s.ops && !Owns(s, s.ops[o].token))
    || step == Answer(o, true)
    || step == TimeOut(o)
  }

  /** The operation's context is cancelled, or will be when the answer under way arrives. */
  predicate Lost(phase: Phase) {
    phase.Active? && (phase.cancelled || (phase.renewal.Landed? && !phase.renewal.renewed))
  }

  /** The i-th step lost the lease of the operation of `o` that has this token. */
  ghost predicate LostAt(trace: seq<State>, steps: seq<Step>, i: nat, o: OpId, token: Token)
    requires i < |steps| && i < |trace|
  {
    o in trace[i].ops && trace[i].ops[o].token == token && LosesLease(trace[i], steps[i], o)
  }

  ghost predicate EverLost(trace: seq<State>, steps: seq<Step>, j: nat, o: OpId, token: Token)
    requires j <= |steps| < |trace|
  {
    exists i: nat | i < j :: LostAt(trace, steps, i, o, token)
  }

  /** How one step moves an operation from not lost to lost. */
  lemma StepLoses(s: State, step: Step, o: OpId)
    requires Enabled(s, step) && o in Apply(s, step).ops && !Apply(s, step).ops[o].phase.Closing?
    requires !(step.Begin? && step.o == o)
    ensures o in s.ops && s.ops[o].token == Apply(s, step).ops[o].token && !s.ops[o].phase.Closing?
    ensures Lost(Apply(s, step).ops[o].phase) <==> Lost(s.ops[o].phase) || LosesLease(s, step, o)
  {
    hide MemoryLock.Apply, MemoryLock.Enabled;
    if !IsStepOf(step, o) {
      OthersLeaveRecord(s, step, o);
    }
  }

  lemma {:induction false} TokensStayUsed(trace: seq<State>, steps: seq<Step>, i: nat, j: nat)
    requires IsRun(trace, steps) && i <= j < |trace|
    ensures trace[i].used <= trace[j].used
    decreases j
  {
    hide IsRun, Enabled, Apply;
    if i < j {
      RunSteps(trace, steps, j - 1);
      TokensStayUsed(trace, steps, i, j - 1);
      StepKeepsUsed(trace[j - 1], steps[j - 1]);
    }
  }

  lemma StepKeepsUsed(s: State, step: Step)
    requires Enabled(s, step)
    ensures s.used <= Apply(s, step).used
  {
    hide MemoryLock.Apply, MemoryLock.Enabled;
  }

  /** A token not drawn yet belongs to no earlier operation. */
  lemma FreshNeverLost(trace: seq<State>, steps: seq<Step>, j: nat, o: OpId, token: Token)
    requires IsRun(trace, steps) && j < |trace| && token !in trace[j].used
    ensures !EverLost(trace, steps, j, o, token)
  {
    hide IsRun, Enabled, Apply, Seated;
    RunSize(trace, steps);
    forall i: nat | i < j
      ensures !LostAt(trace, steps, i, o, token)
    {
      TokensStayUsed(trace, steps, i, j);
      RunKeepsInv(trace, steps, i);
    }
  }

  lemma RunSize(trace: seq<State>, steps: seq<Step>)
    requires IsRun(trace, steps)
    ensures |trace| == |steps| + 1 && trace[0].ops == map[]
  {
  }

  /** In every run an operation's context is cancelled, once the answer under way is in, if and only if one of
    * its renewals found the lease gone, failed or was not answered in time. */
  lemma {:induction false} LostIffEverLost(trace: seq<State>, steps: seq<Step>, j: nat, o: OpId)
    requires IsRun(trace, steps) && j < |trace| && o in trace[j].ops && !trace[j].ops[o].phase.Closing?
    ensures |steps| == |trace| - 1
    ensures Lost(trace[j].ops[o].phase) <==> EverLost(trace, steps, j, o, trace[j].ops[o].token)
    decreases j
  {
    hide IsRun, Enabled, Apply, LosesLease;
    RunSize(trace, steps);
    if j > 0 {
      var token := trace[j].ops[o].token;
      RunSteps(trace, steps, j - 1);
      assert EverLost(trace, steps, j, o, token)
        <==> EverLost(trace, steps, j - 1, o, token) || LostAt(trace, steps, j - 1, o, token);
      if steps[j - 1].Begin? && steps[j - 1].o == o {
        Begins(trace[j - 1], steps[j - 1], o);
        FreshNeverLost(trace, steps, j - 1, o, token);
      } else {
        StepLoses(trace[j - 1], steps[j - 1], o);
        LostIffEverLost(trace, steps, j - 1, o);
      }
    }
  }

  lemma Begins(s: State, step: Step, o: OpId)
    requires Enabled(s, step) && step.Begin? && step.o == o
    ensures o !in s.ops && o in Apply(s, step).ops && Apply(s, step).ops[o] == Op(step.token, Trying)
    ensures step.token !in s.used
  {
  }

  // ---------------------------------------------------------------------------
  // Ticks
  // ---------------------------------------------------------------------------

  /** The next tick lies a whole number of periods, at least one, after the reply at `i`. */
  ghost predicate TickAfter(trace: seq<State>, steps: seq<Step>, i: nat, o: OpId, next: int)
    requires i < |steps| && i < |trace|
  {
    steps[i] == Reply(o) && exists n: nat | n > 0 :: next == trace[i].now + Periods(n)
  }

  function Periods(n: nat): int {
    10_000 * n
  }

  lemma StepTicks(s: State, step: Step, o: OpId)
    requires Enabled(s, step) && o in Apply(s, step).ops && Apply(s, step).ops[o].phase.Active?
    ensures
      var next := Apply(s, step).ops[o].phase.renewal.nextTick;
      if o in s.ops && s.ops[o].phase.Active? then
        next == s.ops[o].phase.renewal.nextTick + if step == Tick(o) then 10_000 else 0
      else step == Reply(o) && next == s.now + 10_000
  {
    hide MemoryLock.Apply, MemoryLock.Enabled;
    if !IsStepOf(step, o) {
      OthersLeaveRecord(s, step, o);
    }
  }

  /** In every run an active operation's renewals are due every ten seconds from the reply on, whenever they
    * are handled. */
  lemma {:induction false} TicksEveryTenSeconds(trace: seq<State>, steps: seq<Step>, j: nat, o: OpId)
    requires IsRun(trace, steps) && j < |trace| && o in trace[j].ops && trace[j].ops[o].phase.Active?
    ensures |steps| == |trace| - 1
    ensures exists i: nat | i < j :: TickAfter(trace, steps, i, o, trace[j].ops[o].phase.renewal.nextTick)
    decreases j
  {
    hide IsRun, Enabled, Apply;
    RunSize(trace, steps);
    RunSteps(trace, steps, j - 1);
    StepTicks(trace[j - 1], steps[j - 1], o);
    var s, next := trace[j - 1], trace[j].ops[o].phase.renewal.nextTick;
    if o in s.ops && s.ops[o].phase.Active? {
      TicksEveryTenSeconds(trace, steps, j - 1, o);
      var i: nat :| i < j - 1 && TickAfter(trace, steps, i, o, s.ops[o].phase.renewal.nextTick);
      var n: nat :| n > 0 && s.ops[o].phase.renewal.nextTick == trace[i].now + Periods(n);
      assert next == trace[i].now + Periods(if steps[j - 1] == Tick(o) then n + 1 else n);
      assert TickAfter(trace, steps, i, o, next);
    } else {
      assert next == s.now + Periods(1);
      assert TickAfter(trace, steps, j - 1, o, next);
    }
  }

  /** A script that was given up on does, when it runs after all, what it would have done in time. */
  lemma LateScripts(s: State, token: Token)
    ensures Enabled(s, Late(token, true)) && Owns(s, token) ==> Apply(s, Late(token, true)).redis == None
    ensures Enabled(s, Late(token, false)) && Owns(s, token) ==>
              Apply(s, Late(token, false)).redis == Some(Lease(token, s.now + 30_000))
    ensures Enabled(s, LateSet(token)) && !Live(s) ==>
              Apply(s, LateSet(token)).redis == Some(Lease(token, s.now + 30_000))
  {
  }

  // ---------------------------------------------------------------------------
  // Every operation can end
  // ---------------------------------------------------------------------------

  /** `steps`, taken one after the other from `s`, are all enabled and end in `s'`. */
  ghost predicate Leads(s: State, steps: seq<Step>, s': State)
    decreases |steps|
  {
    if steps == [] then s == s'
    else Enabled(s, steps[0]) && Leads(Apply(s, steps[0]), steps[1..], s')
  }

  lemma LeadsNowhere(s: State)
    ensures Leads(s, [], s)
  {
  }

  lemma LeadsByMore(s: State, step: Step, rest: seq<Step>, s': State)
    requires Enabled(s, step) && Leads(Apply(s, step), rest, s')
    ensures Leads(s, [step] + rest, s')
  {
    hide Enabled, Apply;
    assert ([step] + rest)[1..] == rest;
  }

  /** Give up trying, or stop the renewal and release. */
  function Wind(o: OpId, phase: Phase): seq<Step> {
    match phase
    case Trying => [Abort(o)]
    case Granted(_) => [Reply(o), Release(o, true)]
    case Active(_, Idle(_)) => [Release(o, true)]
    case Active(_, _) => [TimeOut(o), Release(o, true)]
    case Closing => []
  }

  /** The operation's own lease is off the key, and any other is where it was. */
  function Wound(s: State, o: OpId): State
    requires o in s.ops
  {
    var op := s.ops[o];
    s.(redis := if Holds(s, o) && Owns(s, op.token) then None else s.redis,
       ops := s.ops[o := Op(op.token, Closing)])
  }

  lemma OneStepUp(s: State, o: OpId)
    requires o in s.ops && !s.ops[o].phase.Closing?
    ensures
      var Op(token, phase) := s.ops[o];
      var first := Wind(o, phase)[0];
      && Enabled(s, first)
      && var next := Apply(s, first);
         && o in next.ops && Wound(next, o) == Wound(s, o)
         && Wind(o, phase) == [first] + Wind(o, next.ops[o].phase)
  {
    hide MemoryLock.Enabled, MemoryLock.Apply;
    var next := Apply(s, Wind(o, s.ops[o].phase)[0]);
    assert Wound(next, o).ops == Wound(s, o).ops;
  }

  lemma {:induction false} WindsUp(s: State, o: OpId)
    requires o in s.ops
    ensures Leads(s, Wind(o, s.ops[o].phase), Wound(s, o))
    decreases |Wind(o, s.ops[o].phase)|
  {
    hide Leads, Apply, Enabled;
    var phase := s.ops[o].phase;
    if phase.Closing? {
      LeadsNowhere(s);
      assert Wound(s, o).ops == s.ops;
    } else {
      OneStepUp(s, o);
      hide Wound, Wind;
      var first := Wind(o, phase)[0];
      var next := Apply(s, first);
      WindsUp(next, o);
      LeadsByMore(s, first, Wind(o, next.ops[o].phase), Wound(s, o));
    }
  }

  /** The local lock goes last. */
  function LetGo(o: OpId, phase: MemoryLock.Phase): seq<Step> {
    InProcess(o.0, MemoryLock.WayOut(o.1, phase))
  }

  function InProcess(p: Process, steps: seq<MemoryLock.Step>): (r: seq<Step>)
    ensures |r| == |steps| && forall i | 0 <= i < |r| :: r[i] == Local(p, steps[i])
  {
    if steps == [] then [] else [Local(p, steps[0])] + InProcess(p, steps[1..])
  }

  /** `s` without operation `o`: its goroutine is out of the process's own lock too. */
  function Ended(s: State, o: OpId): State
    requires o in s.ops && Seated(s, o) && s.local[o.0].threads[o.1].lock in s.local[o.0].heap
  {
    Wound(s, o).(local := s.local[o.0 := MemoryLock.Without(s.local[o.0], o.1)], ops := s.ops - {o})
  }

  ghost predicate StepsOf(ms: seq<MemoryLock.Step>, t: Thread) {
    forall i | 0 <= i < |ms| :: !ms[i].Enter? && ms[i].t == t
  }

  /** What the goroutine's steps in its process's lock leave; the operation goes with the send. */
  function AfterLocal(s: State, o: OpId, ms: seq<MemoryLock.Step>, m': MemoryLock.State): State {
    s.(local := s.local[o.0 := m'], ops := if MemoryLock.Send(o.1) in ms then s.ops - {o} else s.ops)
  }

  /** A closed operation's goroutine runs in its process's lock as it would alone. */
  lemma {:induction false} LeadsInProcess(s: State, o: OpId, ms: seq<MemoryLock.Step>, m': MemoryLock.State)
    requires o.0 in s.local && (o in s.ops ==> s.ops[o].phase.Closing?)
    requires StepsOf(ms, o.1) && MemoryLock.Leads(s.local[o.0], ms, m')
    ensures Leads(s, InProcess(o.0, ms), AfterLocal(s, o, ms, m'))
    decreases |ms|
  {
    hide Leads, MemoryLock.Enabled, MemoryLock.Apply;
    if ms == [] {
      LeadsNowhere(s);
      assert s.local[o.0 := m'] == s.local;
    } else {
      var first := Local(o.0, ms[0]);
      var next := Apply(s, first);
      LeadsInProcess(next, o, ms[1..], m');
      assert ms == [ms[0]] + ms[1..];
      assert AfterLocal(next, o, ms[1..], m') == AfterLocal(s, o, ms, m') by {
        assert s.local[o.0 := MemoryLock.Apply(s.local[o.0], ms[0])][o.0 := m'] == s.local[o.0 := m'];
        assert s.ops - {o} - {o} == s.ops - {o};
      }
      LeadsByMore(s, first, InProcess(o.0, ms[1..]), AfterLocal(s, o, ms, m'));
    }
  }

  lemma {:induction false} LeadsThrough(s: State, a: seq<Step>, s1: State, b: seq<Step>, s2: State)
    requires Leads(s, a, s1) && Leads(s1, b, s2)
    ensures Leads(s, a + b, s2)
    decreases |a|
  {
    hide Enabled, Apply;
    if a == [] {
      assert a + b == b;
    } else {
      LeadsThrough(Apply(s, a[0]), a[1..], s1, b, s2);
      LeadsByMore(s, a[0], a[1..] + b, s2);
      assert a + b == [a[0]] + (a[1..] + b);
    }
  }

  /** From every reachable state each operation can end by steps of its own, no one else having to move. Its
    * own lease, if it holds the key, is then off it, another's is as it was, and its process's lock is free
    * of it. */
  lemma EveryOperationCanEnd(trace: seq<State>, steps: seq<Step>, i: nat, o: OpId)
    requires IsRun(trace, steps) && i < |trace| && o in trace[i].ops
    ensures Seated(trace[i], o) && trace[i].local[o.0].threads[o.1].lock in trace[i].local[o.0].heap
    ensures
      Leads(trace[i], Wind(o, trace[i].ops[o].phase) + LetGo(o, trace[i].local[o.0].threads[o.1].phase),
            Ended(trace[i], o))
  {
    RunKeepsInv(trace, steps, i);
    var s := trace[i];
    assert Seated(s, o) && MemoryLock.Inv(s.local[o.0]);
    hide Inv, IsRun, Leads;
    EndsFrom(s, o);
  }

  lemma EndsFrom(s: State, o: OpId)
    requires o in s.ops && Seated(s, o) && MemoryLock.Inv(s.local[o.0])
    ensures s.local[o.0].threads[o.1].lock in s.local[o.0].heap
    ensures Leads(s, Wind(o, s.ops[o].phase) + LetGo(o, s.local[o.0].threads[o.1].phase), Ended(s, o))
  {
    var m, t := s.local[o.0], o.1;
    MemoryLock.SharesOf(m, t);
    hide Leads, Wind, LetGo, Ended, MemoryLock.Inv;
    WindsUp(s, o);
    GateLetGo(s, o);
    LeadsThrough(s, Wind(o, s.ops[o].phase), Wound(s, o), LetGo(o, m.threads[t].phase), Ended(s, o));
  }

  lemma GateLetGo(s: State, o: OpId)
    requires o in s.ops && Seated(s, o) && MemoryLock.Inv(s.local[o.0])
    ensures s.local[o.0].threads[o.1].lock in s.local[o.0].heap
    ensures Leads(Wound(s, o), LetGo(o, s.local[o.0].threads[o.1].phase), Ended(s, o))
  {
    var m, t := s.local[o.0], o.1;
    MemoryLock.SharesOf(m, t);
    hide Leads, MemoryLock.Leads, MemoryLock.Without, MemoryLock.Inv;
    MemoryLock.LeavesInOrder(m, t);
    var ms := MemoryLock.WayOut(t, m.threads[t].phase);
    SendsOnTheWay(t, m.threads[t].phase);
    hide MemoryLock.WayOut;
    LeadsInProcess(Wound(s, o), o, ms, MemoryLock.Without(m, t));
    assert Wound(s, o).ops - {o} == s.ops - {o};
  }

  lemma SendsOnTheWay(t: Thread, phase: MemoryLock.Phase)
    requires MemoryLock.HasToken(phase)
    ensures StepsOf(MemoryLock.WayOut(t, phase), t) && MemoryLock.Send(t) in MemoryLock.WayOut(t, phase)
  {
    assert phase == MemoryLock.Releasing ==> MemoryLock.WayOut(t, phase)[0] == MemoryLock.Send(t);
    assert phase == MemoryLock.Holding ==> MemoryLock.WayOut(t, phase)[1] == MemoryLock.Send(t);
  }

  /** When a renewal is due, sending it, having it run and getting its answer prolongs the operation's lease to
    * thirty seconds from then, and the next one is due ten seconds after this one was. */
  lemma RenewalProlongs(s: State, o: OpId, next: int)
    requires o in s.ops && s.ops[o].phase == Active(false, Idle(next)) && s.now >= next
    requires Owns(s, s.ops[o].token)
    ensures
      var token := s.ops[o].token;
      Leads(s, [Tick(o), Land(o), Answer(o, false)],
            s.(redis := Some(Lease(token, s.now + 30_000)),
               ops := s.ops[o := Op(token, Active(false, Idle(next + 10_000)))]))
  {
    hide Leads;
    var s1 := Apply(s, Tick(o));
    var s2 := Apply(s1, Land(o));
    var s3 := Apply(s2, Answer(o, false));
    var token := s.ops[o].token;
    assert s3.ops == s.ops[o := Op(token, Active(false, Idle(next + 10_000)))];
    LeadsNowhere(s3);
    LeadsByMore(s2, Answer(o, false), [], s3);
    LeadsByMore(s1, Land(o), [Answer(o, false)] + [], s3);
    LeadsByMore(s, Tick(o), [Land(o)] + ([Answer(o, false)] + []), s3);
    assert [Tick(o)] + ([Land(o)] + ([Answer(o, false)] + [])) == [Tick(o), Land(o), Answer(o, false)];
  }
}
