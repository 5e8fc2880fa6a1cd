/** The in-process lock: one gate channel per key, shared through a reference-counted map entry.
  *
  * Goroutines interleave at the atomic steps of AcquireLock and of the release closure: the two
  * sections under the mutex, the receive and the send on the gate, and the once that lets the closure's
  * body run a single time however many goroutines call it. A thread is one call of AcquireLock. */
module MemoryLock {

  type Key = string
  type Thread = nat
  type LockId = nat

  /** A lock object: the tokens in its one-place gate, and its users counter. */
  datatype Lock = Lock(gate: nat, users: int)

  /** Where a goroutine is between the two mutex sections. */
  datatype Phase =
    | Waiting  // in the select
    | Holding  // took the token
    | Releasing  // the release closure's body is running
    | Leaving  // gave up, or gave the token back; about to drop its reference

  datatype User = User(key: Key, lock: LockId, phase: Phase)

  /** `once` has an entry for each release closure made, true when its body has been started. */
  datatype State = State(
    locks: map<Key, LockId>, heap: map<LockId, Lock>, threads: map<Thread, User>, once: map<Thread, bool>)

  const INITIAL := State(map[], map[], map[], map[])

  datatype Step =
    | Enter(t: Thread, key: Key, unused: LockId)  // look up or create the entry, count a user
    | Take(t: Thread)                            // receive from the gate
    | GiveUp(t: Thread)                          // the context ended first
    | Release(caller: Thread, t: Thread)         // any goroutine calls the closure of t
    | Send(t: Thread)                            // its body: give the token back
    | Unref(t: Thread)                           // drop the reference, and the entry with the last one

  predicate At(s: State, t: Thread, phase: Phase) {
    t in s.threads && s.threads[t].phase == phase && s.threads[t].lock in s.heap
  }

  predicate Enabled(s: State, step: Step) {
    match step
    case Enter(t, key, unused) =>
      && t !in s.threads && t !in s.once
      && (if key in s.locks then s.locks[key] in s.heap else unused !in s.heap)
    case Take(t) => At(s, t, Waiting) && s.heap[s.threads[t].lock].gate > 0
    case GiveUp(t) => At(s, t, Waiting)
    case Release(_, t) => t in s.once
    case Send(t) => At(s, t, Releasing) && s.heap[s.threads[t].lock].gate < 1
    case Unref(t) => At(s, t, Leaving)
  }

  function WithPhase(s: State, t: Thread, phase: Phase): State
    requires t in s.threads
  {
    s.(threads := s.threads[t := s.threads[t].(phase := phase)])
  }

  function Apply(s: State, step: Step): State
    requires Enabled(s, step)
  {
    match step
    case Enter(t, key, unused) =>
      var id := if key in s.locks then s.locks[key] else unused;
      var lock := if key in s.locks then s.heap[id] else Lock(1, 0);
      State(s.locks[key := id], s.heap[id := lock.(users := lock.users + 1)],
            s.threads[t := User(key, id, Waiting)], s.once)
    case Take(t) =>
      var id := s.threads[t].lock;
      var taken := s.(heap := s.heap[id := s.heap[id].(gate := s.heap[id].gate - 1)], once := s.once[t := false]);
      WithPhase(taken, t, Holding)
    case GiveUp(t) => WithPhase(s, t, Leaving)
    case Release(_, t) =>
      if s.once[t] then s
      else
        var started := s.(once := s.once[t := true]);
        if t in s.threads then WithPhase(started, t, Releasing) else started
    case Send(t) =>
      var id := s.threads[t].lock;
      WithPhase(s.(heap := s.heap[id := s.heap[id].(gate := s.heap[id].gate + 1)]), t, Leaving)
    case Unref(t) =>
      var User(key, id, _) := s.threads[t];
      var lock := s.heap[id].(users := s.heap[id].users - 1);
      State(if lock.users == 0 then s.locks - {key} else s.locks, s.heap[id := lock], s.threads - {t}, s.once)
  }

  // ---------------------------------------------------------------------------
  // The invariant
  // ---------------------------------------------------------------------------

  function Users(s: State, id: LockId): set<Thread> {
    set t | t in s.threads && s.threads[t].lock == id
  }

  /** The token is out with this thread. */
  predicate HasToken(phase: Phase) {
    phase == Holding || phase == Releasing
  }

  function Holders(s: State, id: LockId): set<Thread> {
    set t | t in s.threads && s.threads[t].lock == id && HasToken(s.threads[t].phase)
  }

  /** One entry: as many users as the counter says, at least one, and either the token is in the gate
    * or exactly one user holds it. */
  ghost predicate Balanced(s: State, id: LockId) {
    && id in s.heap
    && s.heap[id].users == |Users(s, id)| > 0
    && s.heap[id].gate + |Holders(s, id)| == 1
  }

  ghost predicate Inv(s: State) {
    && (forall k | k in s.locks :: s.locks[k] in s.heap && Balanced(s, s.locks[k]))
    && Linked(s)
    && OnceKept(s)
  }

  /** A closure exists from the moment the token is taken, and its body has not started exactly while its
    * thread holds. */
  ghost predicate OnceKept(s: State) {
    && (forall t | t in s.threads :: OnceAt(s, t))
    && (forall t | t in s.once && !s.once[t] :: t in s.threads && s.threads[t].phase == Holding)
  }

  predicate OnceAt(s: State, t: Thread)
    requires t in s.threads
  {
    match s.threads[t].phase
    case Waiting => t !in s.once
    case Holding => t in s.once && !s.once[t]
    case Releasing => t in s.once && s.once[t]
    case Leaving => t in s.once ==> s.once[t]
  }

  /** Entries are distinct objects, and every user's object is the one its key is mapped to. */
  ghost predicate Linked(s: State) {
    && (forall k, l | k in s.locks && l in s.locks && s.locks[k] == s.locks[l] :: k == l)
    && (forall t | t in s.threads ::
          s.threads[t].key in s.locks && s.locks[s.threads[t].key] == s.threads[t].lock)
  }

  /** Only users of lock `id` and its entry differ between `s` and `s'`. */
  ghost predicate OnlyTouches(s: State, s': State, id: LockId) {
    && (forall k | k in s'.locks && s'.locks[k] != id :: k in s.locks && s.locks[k] == s'.locks[k])
    && (forall i | i in s.heap && i != id :: i in s'.heap && s'.heap[i] == s.heap[i])
    && (forall t | t in s.threads && s.threads[t].lock != id :: t in s'.threads && s'.threads[t] == s.threads[t])
    && (forall t | t in s'.threads && s'.threads[t].lock != id :: t in s.threads && s'.threads[t] == s.threads[t])
  }

  lemma OthersBalanced(s: State, s': State, id: LockId)
    requires Inv(s) && OnlyTouches(s, s', id)
    ensures forall k | k in s'.locks && s'.locks[k] != id :: Balanced(s', s'.locks[k])
  {
    forall k | k in s'.locks && s'.locks[k] != id
      ensures Balanced(s', s'.locks[k])
    {
      var i := s'.locks[k];
      assert Balanced(s, s.locks[k]);
      hide Inv;
      assert Users(s', i) == Users(s, i) && Holders(s', i) == Holders(s, i);
    }
  }

  /** The lock a step is about. */
  ghost function Touched(s: State, step: Step): LockId
    requires Enabled(s, step) && !step.Release?
  {
    if step.Enter? then (if step.key in s.locks then s.locks[step.key] else step.unused)
    else s.threads[step.t].lock
  }

  lemma StepOnlyTouches(s: State, step: Step)
    requires Inv(s) && Enabled(s, step) && !step.Release?
    ensures OnlyTouches(s, Apply(s, step), Touched(s, step))
  {
    hide Balanced, Users, Holders, OnceKept;
    assert Linked(s);
  }

  /** Every step leaves the lock it is about balanced, or without an entry once its last user goes. */
  lemma EnterBalances(s: State, step: Step)
    requires Inv(s) && Enabled(s, step) && step.Enter?
    ensures Balanced(Apply(s, step), Touched(s, step))
  {
    var id := Touched(s, step);
    if step.key !in s.locks {
      assert forall u | u in s.threads :: s.locks[s.threads[u].key] != id;
      assert Users(s, id) == {} && Holders(s, id) == {};
    }
    hide Inv;
    EnterCounts(s, step);
  }

  lemma EnterCounts(s: State, step: Step)
    requires Enabled(s, step) && step.Enter?
    requires
      var id := Touched(s, step);
      if step.key in s.locks then Balanced(s, id) else Users(s, id) == {} == Holders(s, id)
    ensures Balanced(Apply(s, step), Touched(s, step))
  {
    var s', id := Apply(s, step), Touched(s, step);
    assert Users(s', id) == Users(s, id) + {step.t};
    assert Holders(s', id) == Holders(s, id);
  }

  lemma GateBalances(s: State, step: Step)
    requires Enabled(s, step) && (step.Take? || step.GiveUp? || step.Send?)
    requires Balanced(s, Touched(s, step))
    ensures Balanced(Apply(s, step), Touched(s, step))
  {
    var s', id, t := Apply(s, step), Touched(s, step), step.t;
    assert Users(s', id) == Users(s, id);
    if step.Take? {
      assert Holders(s', id) == Holders(s, id) + {t};
    } else if step.GiveUp? {
      assert Holders(s', id) == Holders(s, id);
    } else {
      assert Holders(s', id) == Holders(s, id) - {t};
    }
  }

  lemma UnrefBalances(s: State, step: Step)
    requires Inv(s) && Enabled(s, step) && step.Unref?
    ensures
      var s', id, key := Apply(s, step), Touched(s, step), s.threads[step.t].key;
      && (key in s'.locks ==> Balanced(s', id))
      && (key !in s'.locks <==> Users(s, id) == {step.t})
      && (key !in s'.locks ==> Users(s', id) == {})
  {
    hide OnceKept;
    var s', id, t := Apply(s, step), Touched(s, step), step.t;
    assert Balanced(s, s.locks[s.threads[t].key]);
    assert Users(s', id) == Users(s, id) - {t};
    assert Holders(s', id) == Holders(s, id);
    if Users(s', id) == {} {
      assert Users(s, id) == {t};
    } else {
      assert |Users(s', id)| > 0;
    }
  }

  lemma StepKeepsInv(s: State, step: Step)
    requires Inv(s) && Enabled(s, step)
    ensures Inv(Apply(s, step))
  {
    StepKeepsOnce(s, step);
    if step.Release? {
      ReleaseKeepsBalance(s, step);
    } else {
      StepOnlyTouches(s, step);
      StepKeepsLinks(s, step);
      StepBalances(s, step);
      hide Balanced, Linked, OnceKept;
      OthersBalanced(s, Apply(s, step), Touched(s, step));
    }
  }

  lemma StepKeepsOnce(s: State, step: Step)
    requires OnceKept(s) && Enabled(s, step)
    ensures OnceKept(Apply(s, step))
  {
    var s' := Apply(s, step);
    forall t | t in s'.threads
      ensures OnceAt(s', t)
    {
      assert t in s.threads ==> OnceAt(s, t);
    }
  }

  lemma ReleaseKeepsBalance(s: State, step: Step)
    requires Inv(s) && Enabled(s, step) && step.Release?
    ensures
      var s' := Apply(s, step);
      Linked(s') && forall k | k in s'.locks :: s'.locks[k] in s'.heap && Balanced(s', s'.locks[k])
  {
    var s' := Apply(s, step);
    if s' != s {
      assert s.threads[step.t].phase == Holding;
      hide OnceKept;
      forall k | k in s'.locks
        ensures s'.locks[k] in s'.heap && Balanced(s', s'.locks[k])
      {
        assert Balanced(s, s.locks[k]);
        hide Linked;
        StartingKeepsCounts(s, step, s.locks[k]);
      }
    }
  }

  /** Starting the body moves its thread from holding to releasing, with the token still out. */
  lemma StartingKeepsCounts(s: State, step: Step, id: LockId)
    requires Enabled(s, step) && step.Release? && step.t in s.threads && s.threads[step.t].phase == Holding
    ensures Users(Apply(s, step), id) == Users(s, id) && Holders(Apply(s, step), id) == Holders(s, id)
  {
  }

  lemma StepBalances(s: State, step: Step)
    requires Inv(s) && Enabled(s, step) && !step.Release?
    ensures
      var s', id := Apply(s, step), Touched(s, step);
      forall k | k in s'.locks && s'.locks[k] == id :: id in s'.heap && Balanced(s', id)
  {
    hide Balanced, Users, Holders;
    if step.Enter? {
      EnterBalances(s, step);
    } else if step.Unref? {
      UnrefBalances(s, step);
    } else {
      assert Balanced(s, s.locks[s.threads[step.t].key]);
      GateBalances(s, step);
    }
  }

  /** When the entry goes, no goroutine is left with a reference to it. */
  lemma StepKeepsLinks(s: State, step: Step)
    requires Inv(s) && Enabled(s, step) && !step.Release?
    ensures Linked(Apply(s, step))
  {
    hide Balanced, Holders, OnceKept;
    var s' := Apply(s, step);
    if step.Unref? {
      UnrefBalances(s, step);
      forall u | u in s'.threads
        ensures s'.threads[u].key in s'.locks
      {
        if s.threads[u].key == s.threads[step.t].key {
          assert u in Users(s', s.threads[step.t].lock);
        }
      }
    }
  }

  // ---------------------------------------------------------------------------
  // Every interleaving
  // ---------------------------------------------------------------------------

  /** `trace` is a run from the empty cache by `steps`: any interleaving of any number of goroutines. */
  ghost predicate IsRun(trace: seq<State>, steps: seq<Step>) {
    && |trace| == |steps| + 1
    && trace[0] == INITIAL
    && forall i | 0 <= i < |steps| :: Enabled(trace[i], steps[i]) && trace[i + 1] == Apply(trace[i], steps[i])
  }

  lemma {:induction false} RunKeepsInv(trace: seq<State>, steps: seq<Step>, i: nat)
    requires IsRun(trace, steps) && i < |trace|
    ensures Inv(trace[i])
    decreases i
  {
    hide Inv;
    if i == 0 {
      InitialInv();
    } else {
      RunKeepsInv(trace, steps, i - 1);
      StepKeepsInv(trace[i - 1], steps[i - 1]);
    }
  }

  lemma InitialInv()
    ensures Inv(INITIAL)
  {
  }

  /** What holds of each key at every moment of every run. */
  ghost predicate Exclusive(s: State) {
    // at most one holder per key
    && (forall t, u | t in s.threads && u in s.threads
          && HasToken(s.threads[t].phase) && HasToken(s.threads[u].phase)
          && s.threads[t].key == s.threads[u].key :: t == u)
    // all goroutines between the mutex sections share the key's one lock object
    && (forall t | t in s.threads ::
          s.threads[t].key in s.locks && s.locks[s.threads[t].key] == s.threads[t].lock)
    // the counter counts them, and the entry exists exactly while there are any
    && (forall k | k in s.locks ::
          s.locks[k] in s.heap && s.heap[s.locks[k]].users == |Users(s, s.locks[k])|)
    && (forall k :: k in s.locks <==> exists t :: t in s.threads && s.threads[t].key == k)
  }

  lemma InvIsExclusive(s: State)
    requires Inv(s)
    ensures Exclusive(s)
  {
    forall t, u | t in s.threads && u in s.threads
      && HasToken(s.threads[t].phase) && HasToken(s.threads[u].phase) && s.threads[t].key == s.threads[u].key
      ensures t == u
    {
      var id := s.threads[t].lock;
      assert t in Holders(s, id) && u in Holders(s, id);
      AtMostOne(Holders(s, id), t, u);
    }
    forall k | k in s.locks
      ensures exists t :: t in s.threads && s.threads[t].key == k
    {
      var users := Users(s, s.locks[k]);
      assert |users| > 0;
      var t :| t in users;
      assert s.threads[t].key == k;
    }
  }

  lemma AtMostOne<T>(s: set<T>, a: T, b: T)
    requires |s| <= 1 && a in s && b in s
    ensures a == b
  {
    assert |s - {a}| == |s| - 1;
    assert s - {a} == {};
  }

  /** Mutual exclusion, sharing and reference counting, in every interleaving. */
  lemma EveryRunIsExclusive(trace: seq<State>, steps: seq<Step>, i: nat)
    requires IsRun(trace, steps) && i < |trace|
    ensures Exclusive(trace[i])
  {
    hide Inv, Exclusive;
    RunKeepsInv(trace, steps, i);
    InvIsExclusive(trace[i]);
  }

  /** A holder's release closure is there to be called and will run its body, which never blocks on the
    * gate; a waiter is blocked only by a holder of its key. */
  lemma GateNeverSticks(trace: seq<State>, steps: seq<Step>, i: nat, t: Thread)
    requires IsRun(trace, steps) && i < |trace| && t in trace[i].threads
    ensures trace[i].threads[t].phase == Holding ==>
      forall caller :: Enabled(trace[i], Release(caller, t)) && At(Apply(trace[i], Release(caller, t)), t, Releasing)
    ensures trace[i].threads[t].phase == Releasing ==> Enabled(trace[i], Send(t))
    ensures trace[i].threads[t].phase == Waiting ==>
      (Enabled(trace[i], Take(t)) <==> Holders(trace[i], trace[i].threads[t].lock) == {})
    ensures trace[i].threads[t].phase == Leaving ==> Enabled(trace[i], Unref(t))
  {
    RunKeepsInv(trace, steps, i);
    var s := trace[i];
    var User(key, id, phase) := s.threads[t];
    assert Balanced(s, s.locks[key]) && OnceAt(s, t);
    if HasToken(phase) {
      assert t in Holders(s, id);
      assert Holders(s, id) - {t} + {t} == Holders(s, id);
    }
  }

  /** The closure of `t` has done its work. */
  predicate Spent(s: State, t: Thread) {
    t in s.once && s.once[t] && (t in s.threads ==> s.threads[t].phase == Leaving)
  }

  lemma RunSteps(trace: seq<State>, steps: seq<Step>, k: nat)
    requires IsRun(trace, steps) && k < |trace| - 1
    ensures |steps| == |trace| - 1 && Enabled(trace[k], steps[k]) && trace[k + 1] == Apply(trace[k], steps[k])
  {
    hide Enabled, Apply;
  }

  lemma {:induction false} StaysSpent(trace: seq<State>, steps: seq<Step>, i: nat, j: nat, t: Thread)
    requires IsRun(trace, steps) && i <= j < |trace| && Spent(trace[i], t)
    ensures Spent(trace[j], t)
    decreases j
  {
    hide Enabled, Apply, Spent, IsRun;
    if i < j {
      RunSteps(trace, steps, j - 1);
      StaysSpent(trace, steps, i, j - 1, t);
      StepKeepsSpent(trace[j - 1], steps[j - 1], t);
    }
  }

  lemma StepKeepsSpent(s: State, step: Step, t: Thread)
    requires Spent(s, t) && Enabled(s, step)
    ensures Spent(Apply(s, step), t)
  {
  }

  /** However often and by whomever a closure is called, its body gives the token back once. */
  lemma EveryHandleSendsOnce(trace: seq<State>, steps: seq<Step>, i: nat, j: nat, t: Thread)
    requires IsRun(trace, steps) && i < |steps| && j < |steps| && steps[i] == Send(t) && steps[j] == Send(t)
    ensures i == j
  {
    if i < j {
      SentOnce(trace, steps, i, j, t);
    } else if j < i {
      SentOnce(trace, steps, j, i, t);
    }
  }

  lemma SentOnce(trace: seq<State>, steps: seq<Step>, i: nat, j: nat, t: Thread)
    requires IsRun(trace, steps) && i < j < |steps| && steps[i] == Send(t)
    ensures steps[j] != Send(t)
  {
    RunKeepsInv(trace, steps, i);
    assert trace[i + 1] == Apply(trace[i], steps[i]);
    assert OnceAt(trace[i], t);
    assert Spent(trace[i + 1], t);
    StaysSpent(trace, steps, i + 1, j, t);
  }

  /** The entry goes exactly with its last user. */
  lemma EntryGoesWithLastUser(trace: seq<State>, steps: seq<Step>, i: nat)
    requires IsRun(trace, steps) && i < |steps| && steps[i].Unref?
    ensures
      var User(key, id, _) := trace[i].threads[steps[i].t];
      key !in trace[i + 1].locks <==> Users(trace[i], id) == {steps[i].t}
  {
    RunKeepsInv(trace, steps, i);
    UnrefBalances(trace[i], steps[i]);
  }

  // ---------------------------------------------------------------------------
  // Every goroutine gets out, and the lock passes on
  // ---------------------------------------------------------------------------

  /** `steps`, taken one after the other from `s`, are all enabled and end in `s'`. */
  ghost predicate Leads(s: State, steps: seq<Step>, s': State)
    decreases |steps|
  {
    if steps == [] then s == s'
    else Enabled(s, steps[0]) && Leads(Apply(s, steps[0]), steps[1..], s')
  }

  /** What a goroutine still has to do: a waiter whose context ended gives up, a holder releases. */
  function WayOut(t: Thread, phase: Phase): seq<Step> {
    match phase
    case Waiting => [GiveUp(t), Unref(t)]
    case Holding => [Release(t, t), Send(t), Unref(t)]
    case Releasing => [Send(t), Unref(t)]
    case Leaving => [Unref(t)]
  }

  /** `s` without goroutine `t`, which gives back the token if it has it and its reference in any case. */
  function Without(s: State, t: Thread): State
    requires t in s.threads && s.threads[t].lock in s.heap
  {
    var User(key, id, phase) := s.threads[t];
    var lock := Lock(s.heap[id].gate + (if HasToken(phase) then 1 else 0), s.heap[id].users - 1);
    State(if lock.users == 0 then s.locks - {key} else s.locks, s.heap[id := lock], s.threads - {t},
          if phase == Holding then s.once[t := true] else s.once)
  }

  lemma LeadsByOne(s: State, step: Step, s': State)
    requires Enabled(s, step) && Apply(s, step) == s'
    ensures Leads(s, [step], s')
  {
    hide Enabled, Apply;
    assert Leads(s', [step][1..], s');
  }

  lemma LeadsByMore(s: State, step: Step, rest: seq<Step>, s': State)
    requires Enabled(s, step) && Leads(Apply(s, step), rest, s')
    ensures Leads(s, [step] + rest, s')
  {
    hide Enabled, Apply;
    assert ([step] + rest)[1..] == rest;
  }

  /** From every reachable state each goroutine can leave by steps of its own, no one else having to move.
    * The token and the reference it had are then back, nothing of another goroutine has changed, and the
    * entry is gone if no one else uses it. */
  lemma EveryoneCanLeave(trace: seq<State>, steps: seq<Step>, i: nat, t: Thread)
    requires IsRun(trace, steps) && i < |trace| && t in trace[i].threads
    ensures trace[i].threads[t].lock in trace[i].heap
    ensures Leads(trace[i], WayOut(t, trace[i].threads[t].phase), Without(trace[i], t))
    ensures
      var User(key, id, phase) := trace[i].threads[t];
      var s' := Without(trace[i], t);
      && (key in s'.locks <==> Users(trace[i], id) != {t})
      && Holders(s', id) == Holders(trace[i], id) - {t}
  {
    RunKeepsInv(trace, steps, i);
    SharesOf(trace[i], t);
    hide Inv, Users, IsRun, Leads;
    LeavesInOrder(trace[i], t);
    assert Holders(Without(trace[i], t), trace[i].threads[t].lock) == Holders(trace[i], trace[i].threads[t].lock) - {t};
  }

  /** What one goroutine has of its lock. */
  lemma SharesOf(s: State, t: Thread)
    requires Inv(s) && t in s.threads
    ensures
      var User(key, id, phase) := s.threads[t];
      && key in s.locks && s.locks[key] == id && id in s.heap && OnceAt(s, t)
      && (HasToken(phase) ==> s.heap[id].gate == 0)
      && (s.heap[id].users == 1 <==> Users(s, id) == {t})
  {
    var User(key, id, phase) := s.threads[t];
    assert Balanced(s, s.locks[key]) && OnceAt(s, t);
    hide Inv;
    if HasToken(phase) {
      assert t in Holders(s, id) && |Holders(s, id) - {t}| == |Holders(s, id)| - 1;
    }
    assert t in Users(s, id) && |Users(s, id) - {t}| == |Users(s, id)| - 1;
    if s.heap[id].users == 1 {
      assert Users(s, id) - {t} == {};
    }
  }

  lemma OneStepOut(s: State, t: Thread)
    requires t in s.threads && s.threads[t].lock in s.heap && OnceAt(s, t) && s.threads[t].phase != Leaving
    requires HasToken(s.threads[t].phase) ==> s.heap[s.threads[t].lock].gate == 0
    ensures
      var User(key, id, phase) := s.threads[t];
      var first := WayOut(t, phase)[0];
      && Enabled(s, first)
      && var next := Apply(s, first);
         && t in next.threads && id in next.heap && OnceAt(next, t)
         && next.threads[t] == User(key, id, if phase == Holding then Releasing else Leaving)
         && (HasToken(next.threads[t].phase) ==> next.heap[id].gate == 0)
         && Without(next, t) == Without(s, t)
  {
    var id, next := s.threads[t].lock, Apply(s, WayOut(t, s.threads[t].phase)[0]);
    assert next.threads - {t} == s.threads - {t};
    assert Without(next, t).heap == Without(s, t).heap;
  }

  lemma LeavesInOrder(s: State, t: Thread)
    requires t in s.threads && s.threads[t].lock in s.heap && OnceAt(s, t)
    requires HasToken(s.threads[t].phase) ==> s.heap[s.threads[t].lock].gate == 0
    ensures Leads(s, WayOut(t, s.threads[t].phase), Without(s, t))
    decreases match s.threads[t].phase case Waiting => 1 case Holding => 2 case Releasing => 1 case Leaving => 0
  {
    hide Leads;
    var phase, s' := s.threads[t].phase, Without(s, t);
    var first := WayOut(t, phase)[0];
    if phase == Leaving {
      LeadsByOne(s, first, s');
    } else {
      OneStepOut(s, t);
      hide Apply, Enabled, Without, OnceAt;
      var next := Apply(s, first);
      LeavesInOrder(next, t);
      LeadsByMore(s, first, WayOut(t, next.threads[t].phase), s');
      assert WayOut(t, phase) == [first] + WayOut(t, next.threads[t].phase);
    }
  }

  /** When a holder releases, any waiter of its key can take the lock next. */
  lemma ReleaseHandsOver(trace: seq<State>, steps: seq<Step>, i: nat, t: Thread, caller: Thread, u: Thread)
    requires IsRun(trace, steps) && i < |trace| && t in trace[i].threads && u in trace[i].threads
    requires trace[i].threads[t].phase == Holding && trace[i].threads[u].phase == Waiting
    requires trace[i].threads[t].key == trace[i].threads[u].key
    ensures exists s' :: Leads(trace[i], [Release(caller, t), Send(t), Take(u)], s') && At(s', u, Holding)
  {
    RunKeepsInv(trace, steps, i);
    SharesOf(trace[i], t);
    SharesOf(trace[i], u);
    hide Inv, IsRun, Users;
    HandsOver(trace[i], t, caller, u);
  }

  lemma HandsOver(s: State, t: Thread, caller: Thread, u: Thread)
    requires At(s, t, Holding) && At(s, u, Waiting) && s.threads[u].lock == s.threads[t].lock
    requires OnceAt(s, t) && s.heap[s.threads[t].lock].gate == 0
    ensures exists s' :: Leads(s, [Release(caller, t), Send(t), Take(u)], s') && At(s', u, Holding)
  {
    hide Leads;
    var s1 := Apply(s, Release(caller, t));
    var s2 := Apply(s1, Send(t));
    var s3 := Apply(s2, Take(u));
    LeadsByOne(s2, Take(u), s3);
    LeadsByMore(s1, Send(t), [Take(u)], s3);
    LeadsByMore(s, Release(caller, t), [Send(t)] + [Take(u)], s3);
    assert [Release(caller, t)] + ([Send(t)] + [Take(u)]) == [Release(caller, t), Send(t), Take(u)];
  }

  /** Given up, or gone: no token, no closure, and at most a reference to drop. */
  predicate GivenUp(s: State, t: Thread) {
    t !in s.once && (t in s.threads ==> At(s, t, Leaving))
  }

  lemma StaysGivenUp(s: State, step: Step, t: Thread)
    requires GivenUp(s, t) && Enabled(s, step) && !(step.Enter? && step.t == t)
    ensures GivenUp(Apply(s, step), t)
  {
  }

  lemma GivesUp(s: State, t: Thread)
    requires Inv(s) && Enabled(s, GiveUp(t))
    ensures GivenUp(Apply(s, GiveUp(t)), t)
  {
    SharesOf(s, t);
    hide Inv;
  }

  /** A waiter whose context ended never takes the lock: until it enters again, all it does is drop its
    * reference, and nothing can keep it from doing so. */
  lemma {:induction false} CancelledOnlyLeaves(trace: seq<State>, steps: seq<Step>, i: nat, j: nat, t: Thread)
    requires IsRun(trace, steps) && i < j < |trace| && steps[i] == GiveUp(t)
    requires forall k | i < k < j :: !(steps[k].Enter? && steps[k].t == t)
    ensures t in trace[j].threads ==> Enabled(trace[j], Unref(t)) && !Enabled(trace[j], Take(t))
    ensures t !in trace[j].once
  {
    CancelledIsGivenUp(trace, steps, i, j, t);
  }

  lemma {:induction false} CancelledIsGivenUp(trace: seq<State>, steps: seq<Step>, i: nat, j: nat, t: Thread)
    requires IsRun(trace, steps) && i < j < |trace| && steps[i] == GiveUp(t)
    requires forall k | i < k < j :: !(steps[k].Enter? && steps[k].t == t)
    ensures GivenUp(trace[j], t)
    decreases j
  {
    hide IsRun, GivenUp, Apply, Enabled, Inv;
    RunSteps(trace, steps, j - 1);
    if i + 1 < j {
      CancelledIsGivenUp(trace, steps, i, j - 1, t);
      StaysGivenUp(trace[j - 1], steps[j - 1], t);
    } else {
      RunKeepsInv(trace, steps, i);
      GivesUp(trace[i], t);
    }
  }
}
