/** The lock discipline scripts get: `lock` for the rest of the execution, `withLock` for a callback,
  * and a closure that releases whatever is left at the end. A script is a tree of such calls; which
  * acquisitions and releases succeed is part of the tree. */
module ScriptLocks {

  type Key = string
  type Lease = nat

  datatype Command =
    | Lock(key: Key, granted: bool)
    | WithLock(key: Key, granted: bool, released: bool, callback: seq<Command>)
    | Protected(body: seq<Command>)  // pcall: an error inside ends here
    | Raise                          // an error the script raises itself
    | Other                          // anything that touches no lock

  /** The module's variables, the chain of lease contexts the script runs under, and the leases
    * acquired and released so far. */
  datatype State = State(
    locks: map<Key, Lease>,
    scopedDepth: nat,
    context: seq<Lease>,
    acquired: nat,
    released: seq<Lease>
  )

  const INITIAL := State(map[], 0, [], 0, [])

  datatype Outcome = Outcome(state: State, ok: bool)

  // ---------------------------------------------------------------------------
  // The interpreter
  // ---------------------------------------------------------------------------

  function Acquire(s: State, key: Key): State {
    s.(locks := s.locks[key := s.acquired], context := s.context + [s.acquired], acquired := s.acquired + 1)
  }

  function Exec(s: State, c: Command): Outcome
    decreases c
  {
    match c
    case Lock(key, granted) =>
      if key in s.locks then Outcome(s, true)
      else if s.scopedDepth > 0 || !granted then Outcome(s, false)
      else Outcome(Acquire(s, key), true)
    case WithLock(key, granted, released, callback) =>
      if key in s.locks then
        var r := ExecAll(s.(scopedDepth := s.scopedDepth + 1), callback);
        Outcome(r.state.(scopedDepth := s.scopedDepth), r.ok)
      else if s.scopedDepth > 0 || !granted then Outcome(s, false)
      else
        var lease := s.acquired;
        var r := ExecAll(Acquire(s, key).(scopedDepth := s.scopedDepth + 1), callback);
        Outcome(State(r.state.locks - {key}, s.scopedDepth, s.context, r.state.acquired, r.state.released + [lease]),
                r.ok && released)
    case Protected(body) => Outcome(ExecAll(s, body).state, true)
    case Raise => Outcome(s, false)
    case Other => Outcome(s, true)
  }

  /** The commands in order, up to the first error. */
  function ExecAll(s: State, cs: seq<Command>): Outcome
    decreases cs
  {
    if cs == [] then Outcome(s, true)
    else
      var r := Exec(s, cs[0]);
      if r.ok then ExecAll(r.state, cs[1..]) else r
  }

  // ---------------------------------------------------------------------------
  // Scopes
  // ---------------------------------------------------------------------------

  /** Inside a scoped callback nothing is acquired or released: the state is left exactly as it was,
    * whether the command succeeds or fails. */
  lemma {:induction false} ScopeIsStill(s: State, c: Command)
    requires s.scopedDepth > 0
    ensures Exec(s, c).state == s
    decreases c
  {
    match c
    case WithLock(key, _, _, callback) =>
      if key in s.locks {
        ScopeIsStillAll(s.(scopedDepth := s.scopedDepth + 1), callback);
      }
    case Protected(body) => ScopeIsStillAll(s, body);
    case _ =>
  }

  lemma {:induction false} ScopeIsStillAll(s: State, cs: seq<Command>)
    requires s.scopedDepth > 0
    ensures ExecAll(s, cs).state == s
    decreases cs
  {
    if cs != [] {
      ScopeIsStill(s, cs[0]);
      ScopeIsStillAll(s, cs[1..]);
    }
  }

  /** `withLock` gives back the locks, the context and the depth it found, whether its callback succeeds or
    * fails; the one lease it may have taken has been released. */
  lemma WithLockRestores(s: State, c: Command)
    requires c.WithLock?
    ensures
      var s' := Exec(s, c).state;
      && s'.locks == s.locks && s'.context == s.context && s'.scopedDepth == s.scopedDepth
      && if s'.acquired == s.acquired then s' == s
         else s'.acquired == s.acquired + 1 && s'.released == s.released + [s.acquired]
  {
    var inner := (if c.key in s.locks then s else Acquire(s, c.key)).(scopedDepth := s.scopedDepth + 1);
    ScopeIsStillAll(inner, c.callback);
    assert s.locks[c.key := s.acquired] - {c.key} == s.locks - {c.key};
    assert c.key !in s.locks ==> s.locks - {c.key} == s.locks;
  }

  // ---------------------------------------------------------------------------
  // What scripts observe
  // ---------------------------------------------------------------------------

  /** Inside a scope the held keys are fixed, and they alone decide what succeeds. */
  predicate Succeeds(held: set<Key>, c: Command)
    decreases c
  {
    match c
    case Lock(key, _) => key in held
    case WithLock(key, _, _, callback) => key in held && AllSucceed(held, callback)
    case Protected(_) => true
    case Raise => false
    case Other => true
  }

  predicate AllSucceed(held: set<Key>, cs: seq<Command>)
    decreases cs
  {
    forall i | 0 <= i < |cs| :: Succeeds(held, cs[i])
  }

  /** The keys held after a command outside any scope, and whether it succeeds: `lock` adds its key unless it is
    * refused, `withLock` runs its callback with the key held and leaves the keys as they were. */
  function Observed(held: set<Key>, c: Command): (set<Key>, bool)
    decreases c
  {
    match c
    case Lock(key, granted) => if key in held || granted then (held + {key}, true) else (held, false)
    case WithLock(key, granted, released, callback) =>
      (held, (key in held || (granted && released)) && AllSucceed(held + {key}, callback))
    case Protected(body) => (ObservedAll(held, body).0, true)
    case Raise => (held, false)
    case Other => (held, true)
  }

  function ObservedAll(held: set<Key>, cs: seq<Command>): (set<Key>, bool)
    decreases cs
  {
    if cs == [] then (held, true)
    else
      var (held', ok) := Observed(held, cs[0]);
      if ok then ObservedAll(held', cs[1..]) else (held', false)
  }

  lemma {:induction false} ScopedOutcome(s: State, c: Command)
    requires s.scopedDepth > 0
    ensures Exec(s, c).ok <==> Succeeds(s.locks.Keys, c)
    decreases c
  {
    match c
    case WithLock(key, _, _, callback) =>
      if key in s.locks {
        ScopedOutcomes(s.(scopedDepth := s.scopedDepth + 1), callback);
      }
    case _ =>
  }

  lemma {:induction false} ScopedOutcomes(s: State, cs: seq<Command>)
    requires s.scopedDepth > 0
    ensures ExecAll(s, cs).ok <==> AllSucceed(s.locks.Keys, cs)
    decreases cs
  {
    hide Exec, Succeeds;
    if cs != [] {
      ScopeIsStill(s, cs[0]);
      ScopedOutcome(s, cs[0]);
      ScopedOutcomes(s, cs[1..]);
      assert forall i | 0 < i < |cs| :: cs[i] == cs[1..][i - 1];
    }
  }

  /** Outside any scope a command does to the held keys, and answers, what is observed above. */
  lemma {:induction false} OutcomeObserved(s: State, c: Command)
    requires s.scopedDepth == 0
    ensures
      var r := Exec(s, c);
      (r.state.locks.Keys, r.ok) == Observed(s.locks.Keys, c) && r.state.scopedDepth == 0
    decreases c
  {
    match c
    case Lock(key, granted) =>
      assert key in s.locks ==> s.locks.Keys + {key} == s.locks.Keys;
      assert s.locks[key := s.acquired].Keys == s.locks.Keys + {key};
    case WithLock(key, granted, released, callback) =>
      WithLockRestores(s, c);
      var inner := (if key in s.locks then s else Acquire(s, key)).(scopedDepth := 1);
      ScopedOutcomes(inner, callback);
      assert inner.locks.Keys == s.locks.Keys + {key};
    case Protected(body) => OutcomesObserved(s, body);
    case _ =>
  }

  lemma {:induction false} OutcomesObserved(s: State, cs: seq<Command>)
    requires s.scopedDepth == 0
    ensures
      var r := ExecAll(s, cs);
      (r.state.locks.Keys, r.ok) == ObservedAll(s.locks.Keys, cs) && r.state.scopedDepth == 0
    decreases cs
  {
    if cs != [] {
      hide Exec, Observed;
      OutcomeObserved(s, cs[0]);
      OutcomesObserved(Exec(s, cs[0]).state, cs[1..]);
    }
  }

  // ---------------------------------------------------------------------------
  // Every lease is accounted for
  // ---------------------------------------------------------------------------

  /** Each acquired lease is either held under one key or has been released once, and the context is
    * built from exactly the held leases, in the order they were acquired. */
  ghost predicate Accounted(s: State) {
    && (forall k | k in s.locks :: s.locks[k] < s.acquired && s.locks[k] !in s.released)
    && (forall k, l | k in s.locks && l in s.locks && s.locks[k] == s.locks[l] :: k == l)
    && (forall lease | lease in s.released :: lease < s.acquired)
    && (forall i, j | 0 <= i < j < |s.released| :: s.released[i] != s.released[j])
    && NoneMissing(s)
    && ContextIsHeld(s)
  }

  ghost predicate NoneMissing(s: State) {
    forall lease: nat | lease < s.acquired :: lease in s.released || lease in s.locks.Values
  }

  ghost predicate ContextIsHeld(s: State) {
    && (forall i | 0 <= i < |s.context| :: s.context[i] < s.acquired && s.context[i] in s.locks.Values)
    && (forall i, j | 0 <= i < j < |s.context| :: s.context[i] < s.context[j])
    && (forall key | key in s.locks :: s.locks[key] in s.context)
  }

  lemma AcquireInContext(s: State, key: Key)
    requires ContextIsHeld(s) && key !in s.locks
    ensures ContextIsHeld(Acquire(s, key))
  {
    var s' := Acquire(s, key);
    assert key in s'.locks;
    forall i | 0 <= i < |s'.context|
      ensures s'.context[i] < s'.acquired && s'.context[i] in s'.locks.Values
    {
      if i < |s.context| {
        assert s.context[i] in s.locks.Values;
        var k :| k in s.locks && s.locks[k] == s.context[i];
        assert k in s'.locks && s'.locks[k] == s'.context[i];
      }
    }
  }

  /** Every lease below `acquired`, and no other, exactly once. */
  ghost predicate ReleasedOnce(released: seq<Lease>, acquired: nat) {
    forall lease: nat :: multiset(released)[lease] == if lease < acquired then 1 else 0
  }

  lemma AcquireMissesNone(s: State, key: Key)
    requires NoneMissing(s) && key !in s.locks
    ensures NoneMissing(Acquire(s, key))
  {
    var s' := Acquire(s, key);
    assert key in s'.locks;
    forall lease | lease in s.locks.Values
      ensures lease in s'.locks.Values
    {
      var k :| k in s.locks && s.locks[k] == lease;
      assert k in s'.locks && s'.locks[k] == lease;
    }
  }

  lemma AcquireAccounted(s: State, key: Key)
    requires Accounted(s) && key !in s.locks
    ensures Accounted(Acquire(s, key))
  {
    AcquireInContext(s, key);
    AcquireMissesNone(s, key);
    hide ContextIsHeld, NoneMissing;
  }

  lemma {:induction false} ExecAccounted(s: State, c: Command)
    requires Accounted(s)
    ensures Accounted(Exec(s, c).state)
    decreases c
  {
    match c
    case Lock(key, granted) =>
      if key !in s.locks {
        AcquireAccounted(s, key);
      }
    case WithLock(_, _, _, _) =>
      WithLockRestores(s, c);
      WithLockAccounted(s, Exec(s, c).state);
    case Protected(body) => ExecAllAccounted(s, body);
    case _ =>
  }

  lemma WithLockAccounted(s: State, s': State)
    requires Accounted(s)
    requires s'.locks == s.locks && s'.context == s.context
    requires
      || (s'.acquired == s.acquired && s' == s)
      || (s'.acquired == s.acquired + 1 && s'.released == s.released + [s.acquired])
    ensures Accounted(s')
  {
    assert forall i | 0 <= i < |s.released| :: s.released[i] in s.released;
  }

  lemma {:induction false} ExecAllAccounted(s: State, cs: seq<Command>)
    requires Accounted(s)
    ensures Accounted(ExecAll(s, cs).state)
    decreases cs
  {
    if cs != [] {
      ExecAccounted(s, cs[0]);
      ExecAllAccounted(Exec(s, cs[0]).state, cs[1..]);
    }
  }

  // ---------------------------------------------------------------------------
  // The module object
  // ---------------------------------------------------------------------------

  class CacheModule {
    var locks: map<Key, Lease>
    var scopedDepth: nat
    var context: seq<Lease>
    var acquired: nat
    var released: seq<Lease>

    ghost function View(): State
      reads this
    {
      State(locks, scopedDepth, context, acquired, released)
    }

    constructor ()
      ensures View() == INITIAL
    {
      locks, scopedDepth, context, acquired, released := map[], 0, [], 0, [];
    }

    method AcquireLock(key: Key) returns (lease: Lease)
      modifies this
      ensures lease == old(acquired) && View() == Acquire(old(View()), key)
    {
      lease := acquired;
      acquired := acquired + 1;
      locks := locks[key := lease];
      context := context + [lease];
    }

    method Run(cs: seq<Command>) returns (ok: bool)
      modifies this
      ensures Outcome(View(), ok) == ExecAll(old(View()), cs)
      decreases cs
    {
      ok := true;
      var i := 0;
      while i < |cs| && ok
        invariant 0 <= i <= |cs|
        invariant ExecAll(old(View()), cs) ==
          if ok then ExecAll(View(), cs[i..]) else Outcome(View(), false)
      {
        hide Exec;
        assert cs[i..][0] == cs[i] && cs[i..][1..] == cs[i + 1..];
        ok := Do(cs[i]);
        i := i + 1;
      }
    }

    method Do(c: Command) returns (ok: bool)
      modifies this
      ensures Outcome(View(), ok) == Exec(old(View()), c)
      decreases c
    {
      match c
      case Lock(key, granted) =>
        if key in locks {
          return true;
        }
        if scopedDepth > 0 || !granted {
          return false;
        }
        var _ := AcquireLock(key);
        return true;
      case WithLock(key, granted, releases, callback) =>
        var previousContext := context;
        var owned := key in locks;
        var lease := 0;
        if !owned {
          if scopedDepth > 0 || !granted {
            return false;
          }
          lease := AcquireLock(key);
        }
        scopedDepth := scopedDepth + 1;
        ok := Run(callback);
        ghost var inner := View();
        ScopeDepthKept(old(View()), c);
        scopedDepth := scopedDepth - 1;
        if !owned {
          released := released + [lease];
          locks := locks - {key};
          context := previousContext;
          ok := ok && releases;
        }
      case Protected(body) =>
        var _ := Run(body);
        return true;
      case Raise => return false;
      case Other => return true;
    }

    /** The closure run when the execution ends: afterwards every lease the script ever acquired has been
      * released, exactly once. */
    method ReleaseAll()
      requires Accounted(View())
      modifies this
      ensures acquired == old(acquired)
      ensures ReleasedOnce(released, acquired)
    {
      hide Accounted, ReleasedOnce;
      ReleaseEach(locks.Values);
      AllReleased(old(View()), released);
    }

    method ReleaseEach(leases: set<Lease>)
      modifies this`released
      ensures multiset(released) == multiset(old(released)) + multiset(leases)
    {
      var held := leases;
      ghost var done: set<Lease> := {};
      while held != {}
        invariant held + done == leases && held !! done
        invariant multiset(released) == multiset(old(released)) + multiset(done)
        decreases |held|
      {
        var lease :| lease in held;
        MoveOne(released, old(released), done, lease);
        released := released + [lease];
        held := held - {lease};
        done := done + {lease};
      }
      assert done == leases;
    }
  }

  lemma ScopeDepthKept(s: State, c: Command)
    requires c.WithLock? && (c.key in s.locks || (s.scopedDepth == 0 && c.granted))
    ensures
      var inner := (if c.key in s.locks then s else Acquire(s, c.key)).(scopedDepth := s.scopedDepth + 1);
      ExecAll(inner, c.callback).state == inner
  {
    var inner := (if c.key in s.locks then s else Acquire(s, c.key)).(scopedDepth := s.scopedDepth + 1);
    ScopeIsStillAll(inner, c.callback);
  }

  lemma MoveOne(released: seq<Lease>, before: seq<Lease>, done: set<Lease>, lease: Lease)
    requires lease !in done && multiset(released) == multiset(before) + multiset(done)
    ensures multiset(released + [lease]) == multiset(before) + multiset(done + {lease})
  {
  }

  lemma AllReleased(s: State, released: seq<Lease>)
    requires Accounted(s)
    requires multiset(released) == multiset(s.released) + multiset(s.locks.Values)
    ensures ReleasedOnce(released, s.acquired)
  {
    forall lease: nat
      ensures multiset(released)[lease] == if lease < s.acquired then 1 else 0
    {
      DistinctCount(s.released, lease);
      if lease in s.locks.Values {
        var k :| k in s.locks && s.locks[k] == lease;
      }
    }
  }

  lemma {:induction false} DistinctCount(s: seq<Lease>, x: Lease)
    requires forall i, j | 0 <= i < j < |s| :: s[i] != s[j]
    ensures multiset(s)[x] == if x in s then 1 else 0
  {
    if s != [] {
      var rest := s[..|s| - 1];
      DistinctCount(rest, x);
      assert s == rest + [s[|s| - 1]];
    }
  }

  /** A whole execution: run the script, then release what is left. */
  method Execute(script: seq<Command>) returns (ok: bool, acquired: nat, released: seq<Lease>)
    ensures ok == ExecAll(INITIAL, script).ok && acquired == ExecAll(INITIAL, script).state.acquired
    ensures ok == ObservedAll({}, script).1
    ensures ReleasedOnce(released, acquired)
  {
    var m := new CacheModule();
    ok := m.Run(script);
    OutcomesObserved(INITIAL, script);
    assert INITIAL.locks.Keys == {};
    ExecAllAccounted(INITIAL, script);
    m.ReleaseAll();
    acquired, released := m.acquired, m.released;
  }
}
