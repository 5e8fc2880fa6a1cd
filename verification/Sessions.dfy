/** Connections over time: the pool under every interleaving of connects, logons and teardowns, and the
  * agreement of pool and session store when those run one at a time. */
module Sessions {
  import opened Bytes
  import opened Wrappers
  import ConnPool
  import SessionStore
  import Logon

  type Id = string
  type Conn = ConnPool.Conn
  type Pool = ConnPool.Pool
  type Store = SessionStore.Store

  /** The remote address of each connection, and the ids that clients may log on with. */
  datatype Naming = Naming(addr: Conn -> Id, users: iset<Id>)

  /** Connections have distinct addresses, and no user id is an address. */
  ghost predicate Addressing(names: Naming) {
    && (forall c: Conn, d: Conn :: names.addr(c) == names.addr(d) ==> c == d)
    && (forall c: Conn :: !IsUserId(names, names.addr(c)))
  }

  ghost predicate IsUserId(names: Naming, id: Id) {
    id in names.users
  }

  /** Ids in the pool are the connection's own address or a user id. */
  ghost predicate OwnIds(names: Naming, pool: Pool) {
    forall c | c in pool.connToID :: pool.connToID[c] == names.addr(c) || IsUserId(names, pool.connToID[c])
  }

  /** The address of a connection that is not in the pool is free. */
  lemma AddressIsFree(names: Naming, pool: Pool, c: Conn)
    requires Addressing(names) && OwnIds(names, pool) && ConnPool.Inverse(pool) && c !in pool.connToID
    ensures names.addr(c) !in pool.clients
    ensures forall d | d in pool.connToID :: pool.connToID[d] != names.addr(c)
  {
  }

  // ---------------------------------------------------------------------------
  // Interleaved substeps
  // ---------------------------------------------------------------------------

  /** How far a connection's goroutine has come. */
  datatype Phase =
    | Pooled                                     // registered in the pool, not yet in the store
    | Ready                                      // between messages
    | Guard(connectionID: Id, userID: Id, level: int)  // a logon, before its takeover check
    | ToRemap(connectionID: Id, userID: Id, level: int)
    | Remapped(connectionID: Id, userID: Id, level: int)
    | ToDrop(connectionID: Id, userID: Id, level: int, ip: string)
    | ToRegister(userID: Id, level: int, ip: string)
    | ToStamp(userID: Id, level: int)
    | Unpooled(id: Id)                           // taken out of the pool, still to leave the store

  datatype World = World(pool: Pool, store: Store, phases: map<Conn, Phase>)

  datatype Step =
    | Connect(c: Conn)
    | StoreConnect(c: Conn)
    | StartLogon(c: Conn, userID: Id, level: int)
    | CheckTakeover(c: Conn)
    | Remap(c: Conn)
    | ReadIp(c: Conn)
    | DropOld(c: Conn)
    | RegisterNew(c: Conn)
    | Stamp(c: Conn)
    | Disconnect(c: Conn)
    | StoreDisconnect(c: Conn)

  ghost predicate Enabled(names: Naming, w: World, step: Step) {
    match step
    case Connect(c) => c !in w.phases
    case StartLogon(c, userID, _) => c in w.phases && w.phases[c].Ready? && IsUserId(names, userID)
    case StoreConnect(c) => c in w.phases && w.phases[c].Pooled?
    case CheckTakeover(c) => c in w.phases && w.phases[c].Guard?
    case Remap(c) => c in w.phases && w.phases[c].ToRemap?
    case ReadIp(c) => c in w.phases && w.phases[c].Remapped?
    case DropOld(c) => c in w.phases && w.phases[c].ToDrop?
    case RegisterNew(c) => c in w.phases && w.phases[c].ToRegister?
    case Stamp(c) => c in w.phases && w.phases[c].ToStamp?
    case Disconnect(c) => c in w.phases && w.phases[c].Ready?
    case StoreDisconnect(c) => c in w.phases && w.phases[c].Unpooled?
  }

  ghost function Apply(names: Naming, w: World, step: Step): World
    requires Enabled(names, w, step)
  {
    match step
    case Connect(c) => World(ConnPool.Register(w.pool, c, names.addr(c)), w.store, w.phases[c := Pooled])
    case StoreConnect(c) =>
      w.(store := SessionStore.Register(w.store, names.addr(c), names.addr(c)), phases := w.phases[c := Ready])
    case StartLogon(c, userID, level) =>
      w.(phases := w.phases[c := Guard(ConnPool.CurrentId(w.pool, c), userID, level)])
    case CheckTakeover(c) =>
      var Guard(connectionID, userID, level) := w.phases[c];
      var refused := userID != connectionID && userID in w.store.connections;
      w.(phases := w.phases[c := if refused then Ready else ToRemap(connectionID, userID, level)])
    case Remap(c) =>
      var ToRemap(connectionID, userID, level) := w.phases[c];
      var ok := ConnPool.CanRemap(w.pool, connectionID, userID);
      World(ConnPool.Remap(w.pool, connectionID, userID), w.store,
            w.phases[c := if ok then Remapped(connectionID, userID, level) else Ready])
    case ReadIp(c) =>
      var Remapped(connectionID, userID, level) := w.phases[c];
      w.(phases := w.phases[c := ToDrop(connectionID, userID, level, Logon.SessionIp(w.store, connectionID))])
    case DropOld(c) =>
      var ToDrop(connectionID, userID, level, ip) := w.phases[c];
      w.(store := SessionStore.Unregister(w.store, connectionID),
         phases := w.phases[c := ToRegister(userID, level, ip)])
    case RegisterNew(c) =>
      var ToRegister(userID, level, ip) := w.phases[c];
      w.(store := SessionStore.Register(w.store, userID, ip), phases := w.phases[c := ToStamp(userID, level)])
    case Stamp(c) =>
      var ToStamp(userID, level) := w.phases[c];
      w.(store := SessionStore.SetAttribute(w.store, userID, Logon.USER_LEVEL, SessionStore.Level(ToInt32(level))),
         phases := w.phases[c := Ready])
    case Disconnect(c) =>
      World(ConnPool.Unregister(w.pool, c), w.store, w.phases[c := Unpooled(ConnPool.CurrentId(w.pool, c))])
    case StoreDisconnect(c) =>
      w.(store := SessionStore.Unregister(w.store, w.phases[c].id), phases := w.phases - {c})
  }

  /** The pool's maps are inverse, hold exactly the connections between connect and disconnect, and a logon
    * under way works on the connection's own id. */
  ghost predicate PoolInv(names: Naming, w: World) {
    && ConnPool.Inverse(w.pool)
    && OwnIds(names, w.pool)
    && (forall c: Conn :: c in w.pool.connToID <==> c in w.phases && !w.phases[c].Unpooled?)
    && (forall c | c in w.phases :: PhaseInv(names, w, c))
  }

  ghost predicate PhaseInv(names: Naming, w: World, c: Conn)
    requires c in w.phases
  {
    match w.phases[c]
    case Guard(connectionID, userID, _) => connectionID == ConnPool.CurrentId(w.pool, c) && IsUserId(names, userID)
    case ToRemap(connectionID, userID, _) => connectionID == ConnPool.CurrentId(w.pool, c) && IsUserId(names, userID)
    case _ => true
  }

  /** The steps that touch the pool. */
  predicate PoolStep(step: Step) {
    step.Connect? || step.Remap? || step.Disconnect?
  }

  lemma QuietStepKeepsPool(names: Naming, w: World, step: Step)
    requires PoolInv(names, w) && Enabled(names, w, step) && !PoolStep(step)
    ensures PoolInv(names, Apply(names, w, step))
  {
    hide ConnPool.Inverse, OwnIds, IsUserId;
    var w' := Apply(names, w, step);
    assert w'.pool == w.pool;
    forall c | c in w'.phases
      ensures PhaseInv(names, w', c)
    {
      assert c in w.phases && PhaseInv(names, w, c);
    }
  }

  lemma PoolStepKeepsMaps(names: Naming, w: World, step: Step)
    requires Addressing(names) && PoolInv(names, w) && Enabled(names, w, step) && PoolStep(step)
    ensures ConnPool.Inverse(Apply(names, w, step).pool) && OwnIds(names, Apply(names, w, step).pool)
  {
    if step.Connect? {
      AddressIsFree(names, w.pool, step.c);
      ConnPool.RegisterInverse(w.pool, step.c, names.addr(step.c));
    } else if step.Remap? {
      assert PhaseInv(names, w, step.c);
      hide IsUserId;
      ConnPool.RemapInverse(w.pool, w.phases[step.c].connectionID, w.phases[step.c].userID);
    } else {
      ConnPool.UnregisterInverse(w.pool, step.c);
    }
  }

  /** A pool step changes the id of its own connection only. */
  lemma PoolStepKeepsOthers(names: Naming, w: World, step: Step, c: Conn)
    requires PoolInv(names, w) && Enabled(names, w, step) && PoolStep(step) && c != step.c
    ensures
      var w' := Apply(names, w, step);
      && (c in w'.pool.connToID <==> c in w.pool.connToID)
      && (c in w.pool.connToID ==> w'.pool.connToID[c] == w.pool.connToID[c])
      && (c in w'.phases <==> c in w.phases)
      && (c in w.phases ==> w'.phases[c] == w.phases[c])
  {
    hide OwnIds, IsUserId;
    if step.Remap? {
      assert PhaseInv(names, w, step.c);
      assert w.pool.clients[w.phases[step.c].connectionID] == step.c;
    }
  }

  lemma PoolStepKeepsPool(names: Naming, w: World, step: Step)
    requires Addressing(names) && PoolInv(names, w) && Enabled(names, w, step) && PoolStep(step)
    ensures PoolInv(names, Apply(names, w, step))
  {
    PoolStepKeepsMaps(names, w, step);
    var w' := Apply(names, w, step);
    forall c: Conn
      ensures c in w'.pool.connToID <==> c in w'.phases && !w'.phases[c].Unpooled?
      ensures c in w'.phases ==> PhaseInv(names, w', c)
    {
      hide OwnIds, IsUserId;
      if c == step.c {
        OwnPoolStep(names, w, step);
      } else {
        hide Apply, ConnPool.Inverse;
        PoolStepKeepsOthers(names, w, step, c);
      }
    }
  }

  lemma OwnPoolStep(names: Naming, w: World, step: Step)
    requires PoolInv(names, w) && Enabled(names, w, step) && PoolStep(step)
    ensures
      var w', c := Apply(names, w, step), step.c;
      && (c in w'.pool.connToID <==> c in w'.phases && !w'.phases[c].Unpooled?)
      && (c in w'.phases ==> PhaseInv(names, w', c))
  {
    hide OwnIds, IsUserId;
  }

  lemma StepKeepsPool(names: Naming, w: World, step: Step)
    requires Addressing(names) && PoolInv(names, w) && Enabled(names, w, step)
    ensures PoolInv(names, Apply(names, w, step))
  {
    hide PoolInv, Apply;
    if PoolStep(step) {
      PoolStepKeepsPool(names, w, step);
    } else {
      QuietStepKeepsPool(names, w, step);
    }
  }

  ghost predicate IsRun(names: Naming, trace: seq<World>, steps: seq<Step>) {
    && |trace| == |steps| + 1
    && trace[0] == World(ConnPool.EMPTY, SessionStore.EMPTY, map[])
    && forall i | 0 <= i < |steps| ::
         Enabled(names, trace[i], steps[i]) && trace[i + 1] == Apply(names, trace[i], steps[i])
  }

  lemma {:induction false} RunKeepsPool(names: Naming, trace: seq<World>, steps: seq<Step>, i: nat)
    requires Addressing(names) && IsRun(names, trace, steps) && i < |trace|
    ensures PoolInv(names, trace[i])
    decreases i
  {
    if i > 0 {
      hide PoolInv;
      RunKeepsPool(names, trace, steps, i - 1);
      StepKeepsPool(names, trace[i - 1], steps[i - 1]);
    }
  }

  /** In every interleaving the pool's maps are inverse, so no two live connections own one id. */
  lemma EveryInterleavingHasOneOwner(names: Naming, trace: seq<World>, steps: seq<Step>, i: nat)
    requires Addressing(names) && IsRun(names, trace, steps) && i < |trace|
    ensures ConnPool.Inverse(trace[i].pool)
    ensures
      var ids := trace[i].pool.connToID;
      forall c, d | c in ids && d in ids && ids[c] == ids[d] :: c == d
  {
    RunKeepsPool(names, trace, steps, i);
    var p := trace[i].pool;
    forall c, d | c in p.connToID && d in p.connToID && p.connToID[c] == p.connToID[d]
      ensures c == d
    {
      ConnPool.OneOwnerPerId(p, c, d);
    }
  }

  // ---------------------------------------------------------------------------
  // Exactly when
  // ---------------------------------------------------------------------------

  ghost predicate AlwaysInverse(names: Naming) {
    forall trace: seq<World>, steps, i | IsRun(names, trace, steps) && 0 <= i < |trace| ::
      ConnPool.Inverse(trace[i].pool)
  }

  /** The pool's maps are inverse in every interleaving exactly when addresses are distinct and no user id is
    * an address. */
  lemma OneOwnerIffApart(names: Naming)
    ensures AlwaysInverse(names) <==> Addressing(names)
  {
    if Addressing(names) {
      forall trace: seq<World>, steps, i | IsRun(names, trace, steps) && 0 <= i < |trace|
        ensures ConnPool.Inverse(trace[i].pool)
      {
        EveryInterleavingHasOneOwner(names, trace, steps, i);
      }
    } else if c: Conn, d: Conn :| names.addr(c) == names.addr(d) && c != d {
      SharedAddressBreaks(names, c, d);
    } else {
      var c: Conn :| IsUserId(names, names.addr(c));
      BorrowedAddressBreaks(names, c, c + 1);
    }
  }

  const NOBODY := World(ConnPool.EMPTY, SessionStore.EMPTY, map[])

  ghost predicate EndsIn(trace: seq<World>, w: World) {
    trace != [] && trace[|trace| - 1] == w
  }

  /** Some interleaving leads to `w`. */
  ghost predicate Reachable(names: Naming, w: World) {
    exists trace, steps :: IsRun(names, trace, steps) && EndsIn(trace, w)
  }

  lemma StartIsReachable(names: Naming)
    ensures Reachable(names, NOBODY)
  {
    assert IsRun(names, [NOBODY], []) && EndsIn([NOBODY], NOBODY);
  }

  lemma StepReaches(names: Naming, w: World, step: Step)
    requires Reachable(names, w) && Enabled(names, w, step)
    ensures Reachable(names, Apply(names, w, step))
  {
    hide Enabled, Apply;
    var trace, steps :| IsRun(names, trace, steps) && EndsIn(trace, w);
    var w' := Apply(names, w, step);
    assert IsRun(names, trace + [w'], steps + [step]);
    assert EndsIn(trace + [w'], w');
  }

  lemma ReachableRefutes(names: Naming, w: World)
    requires Reachable(names, w) && !ConnPool.Inverse(w.pool)
    ensures !AlwaysInverse(names)
  {
    hide IsRun, ConnPool.Inverse;
    var trace, steps :| IsRun(names, trace, steps) && EndsIn(trace, w);
    assert trace[|trace| - 1] == w;
  }

  lemma SharedAddressBreaks(names: Naming, c: Conn, d: Conn)
    requires c != d && names.addr(c) == names.addr(d)
    ensures !AlwaysInverse(names)
  {
    hide Reachable, AlwaysInverse;
    StartIsReachable(names);
    StepReaches(names, NOBODY, Connect(c));
    var w := Apply(names, NOBODY, Connect(c));
    StepReaches(names, w, Connect(d));
    ConnPool.RegisterInverse(ConnPool.EMPTY, c, names.addr(c));
    ConnPool.RegisterInverse(w.pool, d, names.addr(d));
    ReachableRefutes(names, Apply(names, w, Connect(d)));
  }

  /** Connection `d` is on its way to taking the id `b`: connected, stored, asking, past the guard, remapped. */
  function Borrowed(d: Conn, a: Id, b: Id): World {
    World(ConnPool.Remap(ConnPool.Register(ConnPool.EMPTY, d, a), a, b),
          SessionStore.Register(SessionStore.EMPTY, a, a),
          map[d := Remapped(a, b, 0)])
  }

  lemma BorrowingIsReachable(names: Naming, d: Conn, b: Id)
    requires names.addr(d) != b && IsUserId(names, b)
    ensures Reachable(names, Borrowed(d, names.addr(d), b))
  {
    hide Reachable;
    var a := names.addr(d);
    var pool, store := ConnPool.Register(ConnPool.EMPTY, d, a), SessionStore.Register(SessionStore.EMPTY, a, a);
    StartIsReachable(names);
    StepReaches(names, NOBODY, Connect(d));
    assert Apply(names, NOBODY, Connect(d)) == World(pool, SessionStore.EMPTY, map[d := Pooled]);
    StepReaches(names, World(pool, SessionStore.EMPTY, map[d := Pooled]), StoreConnect(d));
    assert map[d := Pooled][d := Ready] == map[d := Ready];
    StepReaches(names, World(pool, store, map[d := Ready]), StartLogon(d, b, 0));
    assert map[d := Ready][d := Guard(a, b, 0)] == map[d := Guard(a, b, 0)];
    GuardToRemapped(names, d, b);
  }

  lemma GuardToRemapped(names: Naming, d: Conn, b: Id)
    requires names.addr(d) != b
    requires
      var a := names.addr(d);
      var pool, store := ConnPool.Register(ConnPool.EMPTY, d, a), SessionStore.Register(SessionStore.EMPTY, a, a);
      Reachable(names, World(pool, store, map[d := Guard(a, b, 0)]))
    ensures Reachable(names, Borrowed(d, names.addr(d), b))
  {
    hide Reachable;
    var a := names.addr(d);
    var pool, store := ConnPool.Register(ConnPool.EMPTY, d, a), SessionStore.Register(SessionStore.EMPTY, a, a);
    StepReaches(names, World(pool, store, map[d := Guard(a, b, 0)]), CheckTakeover(d));
    assert map[d := Guard(a, b, 0)][d := ToRemap(a, b, 0)] == map[d := ToRemap(a, b, 0)];
    StepReaches(names, World(pool, store, map[d := ToRemap(a, b, 0)]), Remap(d));
    assert map[d := ToRemap(a, b, 0)][d := Remapped(a, b, 0)] == map[d := Remapped(a, b, 0)];
  }

  /** A client logs on with the address a peer is about to connect from; the peer's registration then takes
    * the entry over. */
  lemma BorrowedAddressBreaks(names: Naming, c: Conn, d: Conn)
    requires c != d && names.addr(c) != names.addr(d) && IsUserId(names, names.addr(c))
    ensures !AlwaysInverse(names)
  {
    hide Reachable, AlwaysInverse, ConnPool.Inverse;
    var a, b := names.addr(d), names.addr(c);
    BorrowingIsReachable(names, d, b);
    ConnPool.TakenIdBreaks(d, a, c, b);
    StepReaches(names, Borrowed(d, a, b), Connect(c));
    ReachableRefutes(names, Apply(names, Borrowed(d, a, b), Connect(c)));
  }

  // ---------------------------------------------------------------------------
  // A refused logon leaves no trace
  // ---------------------------------------------------------------------------

  lemma OthersKeepPhase(names: Naming, w: World, step: Step, c: Conn)
    requires Enabled(names, w, step) && step.c != c
    ensures
      var w' := Apply(names, w, step);
      (c in w'.phases <==> c in w.phases) && (c in w.phases ==> w'.phases[c] == w.phases[c])
  {
  }

  /** A logon that has not yet been let through. */
  predicate Asking(w: World, c: Conn) {
    c in w.phases && (w.phases[c].Guard? || w.phases[c].ToRemap?)
  }

  lemma AskedBefore(names: Naming, w: World, step: Step, c: Conn)
    requires Enabled(names, w, step) && Asking(Apply(names, w, step), c)
    requires c in w.phases && !w.phases[c].Ready?
    ensures Asking(w, c)
    ensures step.c == c ==> Apply(names, w, step).pool == w.pool && Apply(names, w, step).store == w.store
  {
    if step.c != c {
      OthersKeepPhase(names, w, step, c);
    }
  }

  /** The steps of one logon of `c`: it starts at `i`, is under way until `j`, and step `j` refuses it. */
  ghost predicate RefusedLogon(names: Naming, trace: seq<World>, steps: seq<Step>, i: nat, j: nat, c: Conn) {
    && IsRun(names, trace, steps) && i < j < |steps|
    && steps[i].StartLogon? && steps[i].c == c
    && (forall k | i < k <= j :: c in trace[k].phases && !trace[k].phases[c].Ready?)
    && steps[j].c == c && (steps[j].CheckTakeover? || steps[j].Remap?) && trace[j + 1].phases[c].Ready?
  }

  lemma {:induction false} AskingUntilRefused(
    names: Naming, trace: seq<World>, steps: seq<Step>, i: nat, j: nat, c: Conn, k: nat)
    requires RefusedLogon(names, trace, steps, i, j, c) && i < k <= j
    ensures Asking(trace[k], c)
    decreases j - k
  {
    hide Apply;
    if k < j {
      AskingUntilRefused(names, trace, steps, i, j, c, k + 1);
      assert trace[k + 1] == Apply(names, trace[k], steps[k]);
      AskedBefore(names, trace[k], steps[k], c);
    }
  }

  /** In every interleaving, none of the steps a refused logon takes changes the pool or the store. */
  lemma RefusedLogonChangesNothing(names: Naming, trace: seq<World>, steps: seq<Step>, i: nat, j: nat, c: Conn, k: nat)
    requires RefusedLogon(names, trace, steps, i, j, c) && i <= k <= j && steps[k].c == c
    ensures trace[k + 1].pool == trace[k].pool && trace[k + 1].store == trace[k].store
  {
    assert trace[k + 1] == Apply(names, trace[k], steps[k]);
    if i < k < j {
      AskingUntilRefused(names, trace, steps, i, j, c, k + 1);
      AskedBefore(names, trace[k], steps[k], c);
    }
  }

  // ---------------------------------------------------------------------------
  // Uninterrupted
  // ---------------------------------------------------------------------------

  /** `steps`, taken one after the other from `w`, are all enabled and end in `w'`. */
  ghost predicate Leads(names: Naming, w: World, steps: seq<Step>, w': World)
    decreases |steps|
  {
    if steps == [] then w == w'
    else Enabled(names, w, steps[0]) && Leads(names, Apply(names, w, steps[0]), steps[1..], w')
  }

  lemma LeadsNowhere(names: Naming, w: World)
    ensures Leads(names, w, [], w)
  {
  }

  lemma LeadsByMore(names: Naming, w: World, step: Step, rest: seq<Step>, w': World)
    requires Enabled(names, w, step) && Leads(names, Apply(names, w, step), rest, w')
    ensures Leads(names, w, [step] + rest, w')
  {
    hide Enabled, Apply;
    assert ([step] + rest)[1..] == rest;
  }

  /** `step` leads from `w` to `w'`. */
  ghost predicate Goes(names: Naming, w: World, step: Step, w': World) {
    Enabled(names, w, step) && Apply(names, w, step) == w'
  }

  lemma LeadsBy(names: Naming, w: World, step: Step, w1: World, rest: seq<Step>, w': World)
    requires Goes(names, w, step, w1) && Leads(names, w1, rest, w')
    ensures Leads(names, w, [step] + rest, w')
  {
    LeadsByMore(names, w, step, rest, w');
  }

  /** A logon under way, its pool and store. */
  function InPhase(w: World, pool: Pool, store: Store, c: Conn, phase: Phase): World {
    World(pool, store, w.phases[c := phase])
  }

  lemma AsksAndRemaps(names: Naming, w: World, c: Conn, userID: Id, level: int)
    requires c in w.phases && w.phases[c].Ready? && IsUserId(names, userID)
    ensures
      var id := ConnPool.CurrentId(w.pool, c);
      var asked := InPhase(w, w.pool, w.store, c, Guard(id, userID, level));
      var guarded := InPhase(w, w.pool, w.store, c, ToRemap(id, userID, level));
      && Goes(names, w, StartLogon(c, userID, level), asked)
      && (if userID != id && userID in w.store.connections then Goes(names, asked, CheckTakeover(c), w)
          else Goes(names, asked, CheckTakeover(c), guarded))
      && (if ConnPool.CanRemap(w.pool, id, userID) then
            Goes(names, guarded, Remap(c),
                 InPhase(w, ConnPool.Remap(w.pool, id, userID), w.store, c, Remapped(id, userID, level)))
          else Goes(names, guarded, Remap(c), w))
  {
    var id := ConnPool.CurrentId(w.pool, c);
    assert w.phases[c := Guard(id, userID, level)][c := Ready] == w.phases;
    assert w.phases[c := Guard(id, userID, level)][c := ToRemap(id, userID, level)]
        == w.phases[c := ToRemap(id, userID, level)];
    assert w.phases[c := ToRemap(id, userID, level)][c := Ready] == w.phases;
    assert w.phases[c := ToRemap(id, userID, level)][c := Remapped(id, userID, level)]
        == w.phases[c := Remapped(id, userID, level)];
  }

  lemma MovesSession(names: Naming, w: World, pool: Pool, c: Conn, id: Id, userID: Id, level: int)
    requires c in w.phases && w.phases[c].Ready?
    ensures
      var ip, dropped := Logon.SessionIp(w.store, id), SessionStore.Unregister(w.store, id);
      var w3 := InPhase(w, pool, w.store, c, Remapped(id, userID, level));
      var w4 := InPhase(w, pool, w.store, c, ToDrop(id, userID, level, ip));
      var w5 := InPhase(w, pool, dropped, c, ToRegister(userID, level, ip));
      var w6 := InPhase(w, pool, SessionStore.Register(dropped, userID, ip), c, ToStamp(userID, level));
      && Goes(names, w3, ReadIp(c), w4) && Goes(names, w4, DropOld(c), w5) && Goes(names, w5, RegisterNew(c), w6)
      && Goes(names, w6, Stamp(c), World(pool, Logon.MoveSession(w.store, id, userID, level), w.phases))
  {
    hide SessionStore.Unregister, SessionStore.Register, SessionStore.SetAttribute, Logon.SessionIp;
    var ip := Logon.SessionIp(w.store, id);
    assert w.phases[c := Remapped(id, userID, level)][c := ToDrop(id, userID, level, ip)]
        == w.phases[c := ToDrop(id, userID, level, ip)];
    assert w.phases[c := ToDrop(id, userID, level, ip)][c := ToRegister(userID, level, ip)]
        == w.phases[c := ToRegister(userID, level, ip)];
    assert w.phases[c := ToRegister(userID, level, ip)][c := ToStamp(userID, level)]
        == w.phases[c := ToStamp(userID, level)];
    assert w.phases[c := ToStamp(userID, level)][c := Ready] == w.phases;
  }

  /** The rest of a logon that has taken its id. */
  function Rest(c: Conn): seq<Step> {
    [ReadIp(c)] + ([DropOld(c)] + ([RegisterNew(c)] + ([Stamp(c)] + [])))
  }

  lemma RestAlone(names: Naming, w: World, pool: Pool, c: Conn, id: Id, userID: Id, level: int)
    requires c in w.phases && w.phases[c].Ready?
    ensures
      Leads(names, InPhase(w, pool, w.store, c, Remapped(id, userID, level)), Rest(c),
            World(pool, Logon.MoveSession(w.store, id, userID, level), w.phases))
  {
    hide Leads, Goes, InPhase, SessionStore.Unregister, SessionStore.Register, Logon.SessionIp, Logon.MoveSession;
    var ip, dropped := Logon.SessionIp(w.store, id), SessionStore.Unregister(w.store, id);
    var w3 := InPhase(w, pool, w.store, c, Remapped(id, userID, level));
    var w4 := InPhase(w, pool, w.store, c, ToDrop(id, userID, level, ip));
    var w5 := InPhase(w, pool, dropped, c, ToRegister(userID, level, ip));
    var w6 := InPhase(w, pool, SessionStore.Register(dropped, userID, ip), c, ToStamp(userID, level));
    var w7 := World(pool, Logon.MoveSession(w.store, id, userID, level), w.phases);
    MovesSession(names, w, pool, c, id, userID, level);
    LeadsNowhere(names, w7);
    LeadsBy(names, w6, Stamp(c), w7, [], w7);
    LeadsBy(names, w5, RegisterNew(c), w6, [Stamp(c)] + [], w7);
    LeadsBy(names, w4, DropOld(c), w5, [RegisterNew(c)] + ([Stamp(c)] + []), w7);
    LeadsBy(names, w3, ReadIp(c), w4, [DropOld(c)] + ([RegisterNew(c)] + ([Stamp(c)] + [])), w7);
  }

  /** The steps of a logon, up to where it is refused. */
  function LogonSteps(w: World, c: Conn, userID: Id, level: int): seq<Step> {
    var id := ConnPool.CurrentId(w.pool, c);
    [StartLogon(c, userID, level)] + ([CheckTakeover(c)]
    + if userID != id && userID in w.store.connections then []
      else [Remap(c)] + if ConnPool.CanRemap(w.pool, id, userID) then Rest(c) else [])
  }

  /** A logon run through without interruption does what it does in one step: it moves connection and session
    * over when the id is free, and changes nothing when it is not. */
  lemma LogonAlone(names: Naming, w: World, c: Conn, userID: Id, level: int)
    requires c in w.phases && w.phases[c].Ready? && IsUserId(names, userID)
    ensures
      var id := ConnPool.CurrentId(w.pool, c);
      Leads(names, w, LogonSteps(w, c, userID, level),
            if Logon.Free(w.pool, w.store, id, userID) then
              World(ConnPool.Remap(w.pool, id, userID), Logon.MoveSession(w.store, id, userID, level), w.phases)
            else w)
  {
    var id := ConnPool.CurrentId(w.pool, c);
    hide Leads, Goes, InPhase, Rest, Logon.MoveSession, ConnPool.Remap, ConnPool.CanRemap, ConnPool.CurrentId;
    AsksAndRemaps(names, w, c, userID, level);
    var asked := InPhase(w, w.pool, w.store, c, Guard(id, userID, level));
    var guarded := InPhase(w, w.pool, w.store, c, ToRemap(id, userID, level));
    LeadsNowhere(names, w);
    if userID != id && userID in w.store.connections {
      LeadsBy(names, asked, CheckTakeover(c), w, [], w);
      LeadsBy(names, w, StartLogon(c, userID, level), asked, [CheckTakeover(c)] + [], w);
    } else if !ConnPool.CanRemap(w.pool, id, userID) {
      LeadsBy(names, guarded, Remap(c), w, [], w);
      LeadsBy(names, asked, CheckTakeover(c), guarded, [Remap(c)] + [], w);
      LeadsBy(names, w, StartLogon(c, userID, level), asked, [CheckTakeover(c)] + ([Remap(c)] + []), w);
    } else {
      var pool := ConnPool.Remap(w.pool, id, userID);
      var taken := InPhase(w, pool, w.store, c, Remapped(id, userID, level));
      var w' := World(pool, Logon.MoveSession(w.store, id, userID, level), w.phases);
      RestAlone(names, w, pool, c, id, userID, level);
      LeadsBy(names, guarded, Remap(c), taken, Rest(c), w');
      LeadsBy(names, asked, CheckTakeover(c), guarded, [Remap(c)] + Rest(c), w');
      LeadsBy(names, w, StartLogon(c, userID, level), asked, [CheckTakeover(c)] + ([Remap(c)] + Rest(c)), w');
    }
  }

  /** So do connecting and disconnecting. */
  lemma ConnectionAlone(names: Naming, w: World, c: Conn)
    ensures c !in w.phases ==>
              Leads(names, w, [Connect(c), StoreConnect(c)],
                    World(ConnPool.Register(w.pool, c, names.addr(c)),
                          SessionStore.Register(w.store, names.addr(c), names.addr(c)), w.phases[c := Ready]))
    ensures c in w.phases && w.phases[c].Ready? ==>
              Leads(names, w, [Disconnect(c), StoreDisconnect(c)],
                    World(ConnPool.Unregister(w.pool, c),
                          SessionStore.Unregister(w.store, ConnPool.CurrentId(w.pool, c)), w.phases - {c}))
  {
    hide Leads, SessionStore.Unregister;
    if c !in w.phases {
      var w1 := Apply(names, w, Connect(c));
      var w2 := Apply(names, w1, StoreConnect(c));
      assert w2.phases == w.phases[c := Ready];
      LeadsNowhere(names, w2);
      LeadsByMore(names, w1, StoreConnect(c), [], w2);
      LeadsByMore(names, w, Connect(c), [StoreConnect(c)] + [], w2);
      assert [Connect(c)] + ([StoreConnect(c)] + []) == [Connect(c), StoreConnect(c)];
    } else if w.phases[c].Ready? {
      var w1 := Apply(names, w, Disconnect(c));
      var w2 := Apply(names, w1, StoreDisconnect(c));
      assert w2.phases == w.phases - {c};
      LeadsNowhere(names, w2);
      LeadsByMore(names, w1, StoreDisconnect(c), [], w2);
      LeadsByMore(names, w, Disconnect(c), [StoreDisconnect(c)] + [], w2);
      assert [Disconnect(c)] + ([StoreDisconnect(c)] + []) == [Disconnect(c), StoreDisconnect(c)];
    }
  }

  // ---------------------------------------------------------------------------
  // One step at a time
  // ---------------------------------------------------------------------------

  /** The server between atomic connects, logons and teardowns, with the level of each connection's last
    * successful logon. */
  datatype Server = Server(pool: Pool, store: Store, levels: map<Conn, int32>)

  datatype Event =
    | Arrive(c: Conn)
    | LogOn(c: Conn, world: Logon.World, req: Logon.Request)
    | Note(c: Conn, name: string, value: SessionStore.Attribute)  // some other attribute is set
    | Depart(c: Conn)

  /** How the request is judged. */
  function Judged(e: Event): Logon.Verdict
    requires e.LogOn?
  {
    Logon.Authenticate(e.world, e.req)
  }

  /** The logon succeeds: the identity is admitted and its id is free. */
  predicate Succeeds(s: Server, e: Event) {
    && e.LogOn? && e.c in s.pool.connToID && Judged(e).Accept?
    && Logon.Free(s.pool, s.store, s.pool.connToID[e.c], Judged(e).userID)
  }

  ghost predicate Possible(names: Naming, s: Server, e: Event) {
    match e
    case Arrive(c) => c !in s.pool.connToID
    case LogOn(c, _, req) =>
      && c in s.pool.connToID && req.connectionID == s.pool.connToID[c]
      && (Judged(e).Accept? ==> IsUserId(names, Judged(e).userID))
    case Note(c, name, _) => c in s.pool.connToID && name != Logon.USER_LEVEL
    case Depart(c) => c in s.pool.connToID
  }

  ghost function After(names: Naming, s: Server, e: Event): Server
    requires Possible(names, s, e)
  {
    match e
    case Arrive(c) =>
      var id := names.addr(c);
      s.(pool := ConnPool.Register(s.pool, c, id), store := SessionStore.Register(s.store, id, id))
    case LogOn(c, _, _) =>
      if !Succeeds(s, e) then s
      else
        var id, Accept(userID, _, level) := s.pool.connToID[c], Judged(e);
        Server(ConnPool.Remap(s.pool, id, userID), Logon.MoveSession(s.store, id, userID, level),
               s.levels[c := ToInt32(level)])
    case Note(c, name, value) =>
      s.(store := SessionStore.SetAttribute(s.store, s.pool.connToID[c], name, value))
    case Depart(c) =>
      Server(ConnPool.Unregister(s.pool, c), SessionStore.Unregister(s.store, s.pool.connToID[c]), s.levels - {c})
  }

  /** The level stamped on a session, if any. */
  function Stamped(store: Store, id: Id): Option<SessionStore.Attribute> {
    var attributes := SessionStore.AttributesOf(store, id);
    if Logon.USER_LEVEL in attributes then Some(attributes[Logon.USER_LEVEL]) else None
  }

  /** The session of one connection: registered under its current id with its own address, stamped with the
    * level of its last successful logon, or unstamped before any. */
  ghost predicate SessionMatches(names: Naming, s: Server, c: Conn)
    requires c in s.pool.connToID
  {
    var id := s.pool.connToID[c];
    && id in s.store.connections
    && s.store.connections[id] == SessionStore.Connection(id, names.addr(c))
    && Stamped(s.store, id) == if c in s.levels then Some(SessionStore.Level(s.levels[c])) else None
  }

  /** Once anyone can log on, no address is empty. */
  ghost predicate Nonempty(names: Naming) {
    (exists id :: IsUserId(names, id)) ==> forall c: Conn :: names.addr(c) != ""
  }

  ghost predicate SessionsAgree(names: Naming, s: Server) {
    && ConnPool.Inverse(s.pool)
    && OwnIds(names, s.pool)
    && s.store.connections.Keys == s.pool.clients.Keys
    && s.store.attributes.Keys <= s.pool.clients.Keys
    && s.levels.Keys <= s.pool.connToID.Keys
    && forall c | c in s.pool.connToID :: SessionMatches(names, s, c)
  }

  lemma ArriveAgrees(names: Naming, s: Server, e: Event)
    requires Addressing(names) && SessionsAgree(names, s) && e.Arrive? && Possible(names, s, e)
    ensures SessionsAgree(names, After(names, s, e))
  {
    AddressIsFree(names, s.pool, e.c);
    ArriveMaps(names, s.pool, e.c);
    hide Addressing, OwnIds, ConnPool.Inverse;
    var s' := After(names, s, e);
    assert s'.store.connections.Keys == s'.pool.clients.Keys;
    forall c | c in s'.pool.connToID
      ensures SessionMatches(names, s', c)
    {
      if c != e.c {
        assert SessionMatches(names, s, c);
        hide SessionMatches;
        ArriveKeepsOthers(names, s, e, c);
      } else {
        assert names.addr(c) !in s.store.attributes;
        hide SessionMatches;
        ArriveOwn(names, s, e);
      }
    }
  }

  lemma ArriveOwn(names: Naming, s: Server, e: Event)
    requires e.Arrive? && Possible(names, s, e)
    requires names.addr(e.c) !in s.store.attributes && e.c !in s.levels
    ensures SessionMatches(names, After(names, s, e), e.c)
  {
  }

  lemma ArriveKeepsOthers(names: Naming, s: Server, e: Event, c: Conn)
    requires e.Arrive? && Possible(names, s, e) && c != e.c
    requires c in s.pool.connToID && SessionMatches(names, s, c) && s.pool.connToID[c] != names.addr(e.c)
    ensures SessionMatches(names, After(names, s, e), c)
  {
  }

  lemma ArriveMaps(names: Naming, pool: Pool, c: Conn)
    requires ConnPool.Inverse(pool) && OwnIds(names, pool)
    requires c !in pool.connToID && names.addr(c) !in pool.clients
    ensures
      var pool' := ConnPool.Register(pool, c, names.addr(c));
      ConnPool.Inverse(pool') && OwnIds(names, pool')
  {
    hide IsUserId;
    ConnPool.RegisterInverse(pool, c, names.addr(c));
  }

  lemma NoteAgrees(names: Naming, s: Server, e: Event)
    requires SessionsAgree(names, s) && e.Note? && Possible(names, s, e)
    ensures SessionsAgree(names, After(names, s, e))
  {
    var s' := After(names, s, e);
    forall c | c in s'.pool.connToID
      ensures SessionMatches(names, s', c)
    {
      assert SessionMatches(names, s, c);
    }
  }

  lemma DepartAgrees(names: Naming, s: Server, e: Event)
    requires SessionsAgree(names, s) && e.Depart? && Possible(names, s, e)
    ensures SessionsAgree(names, After(names, s, e))
  {
    ConnPool.UnregisterInverse(s.pool, e.c);
    var s' := After(names, s, e);
    forall c | c in s'.pool.connToID
      ensures SessionMatches(names, s', c)
    {
      assert SessionMatches(names, s, c);
      assert s.pool.connToID[c] != s.pool.connToID[e.c] by {
        if s.pool.connToID[c] == s.pool.connToID[e.c] {
          ConnPool.OneOwnerPerId(s.pool, c, e.c);
        }
      }
    }
  }

  lemma LogOnAgrees(names: Naming, s: Server, e: Event)
    requires Nonempty(names) && SessionsAgree(names, s) && e.LogOn? && Possible(names, s, e)
    ensures SessionsAgree(names, After(names, s, e))
  {
    var s' := After(names, s, e);
    if Succeeds(s, e) {
      var userID := Judged(e).userID;
      LogOnMoves(names, s, e);
      forall c | c in s'.pool.connToID
        ensures SessionMatches(names, s', c)
      {
        hide OwnIds, Judged;
        assert SessionMatches(names, s, c);
        OthersKeepIds(s.pool, e.c, userID, c);
        hide ConnPool.Inverse;
        if c == e.c {
          OwnSession(names, s, e);
        } else {
          OtherSession(names, s, e, c);
        }
      }
    }
  }

  /** The pool and the key sets after an accepted logon. */
  lemma LogOnMoves(names: Naming, s: Server, e: Event)
    requires SessionsAgree(names, s) && Possible(names, s, e) && Succeeds(s, e)
    ensures
      var s' := After(names, s, e);
      && ConnPool.Inverse(s'.pool) && OwnIds(names, s'.pool)
      && s'.store.connections.Keys == s'.pool.clients.Keys
      && s'.store.attributes.Keys <= s'.pool.clients.Keys
      && s'.levels.Keys <= s'.pool.connToID.Keys
      && s'.pool.connToID == s.pool.connToID[e.c := Judged(e).userID]
  {
    hide IsUserId, SessionMatches, Judged;
    var id := s.pool.connToID[e.c];
    ConnPool.RemapInverse(s.pool, id, Judged(e).userID);
    assert s.pool.clients[id] == e.c;
  }

  lemma OwnSession(names: Naming, s: Server, e: Event)
    requires Possible(names, s, e) && Succeeds(s, e) && SessionMatches(names, s, e.c) && names.addr(e.c) != ""
    requires After(names, s, e).pool.connToID == s.pool.connToID[e.c := Judged(e).userID]
    ensures SessionMatches(names, After(names, s, e), e.c)
  {
    hide Judged;
  }

  lemma OtherSession(names: Naming, s: Server, e: Event, c: Conn)
    requires Possible(names, s, e) && Succeeds(s, e) && c in s.pool.connToID && SessionMatches(names, s, c)
    requires s.pool.connToID[c] != s.pool.connToID[e.c] && s.pool.connToID[c] != Judged(e).userID
    requires After(names, s, e).pool.connToID == s.pool.connToID[e.c := Judged(e).userID]
    ensures SessionMatches(names, After(names, s, e), c)
  {
    hide Judged;
  }

  /** When a connection is remapped, no other connection has its old or its new id. */
  lemma OthersKeepIds(pool: Pool, c: Conn, userID: Id, d: Conn)
    requires ConnPool.Inverse(pool) && c in pool.connToID && d in pool.connToID
    requires ConnPool.CanRemap(pool, pool.connToID[c], userID)
    ensures d != c ==> pool.connToID[d] != pool.connToID[c] && pool.connToID[d] != userID
  {
    assert pool.clients[pool.connToID[d]] == d && pool.clients[pool.connToID[c]] == c;
  }

  lemma EventAgrees(names: Naming, s: Server, e: Event)
    requires Addressing(names) && Nonempty(names) && SessionsAgree(names, s) && Possible(names, s, e)
    ensures SessionsAgree(names, After(names, s, e))
  {
    hide SessionsAgree, Addressing, Nonempty, Judged;
    match e
    case Arrive(_) => ArriveAgrees(names, s, e);
    case LogOn(_, _, _) => LogOnAgrees(names, s, e);
    case Note(_, _, _) => NoteAgrees(names, s, e);
    case Depart(_) => DepartAgrees(names, s, e);
  }

  ghost predicate IsHistory(names: Naming, trace: seq<Server>, events: seq<Event>) {
    && |trace| == |events| + 1
    && trace[0] == Server(ConnPool.EMPTY, SessionStore.EMPTY, map[])
    && forall i | 0 <= i < |events| ::
         Possible(names, trace[i], events[i]) && trace[i + 1] == After(names, trace[i], events[i])
  }

  /** At every moment of every such run: session ids equal pool ids, each session keeps its connection's
    * address, and the stamped level is that of the connection's last successful logon. */
  lemma {:induction false} SessionsAlwaysAgree(names: Naming, trace: seq<Server>, events: seq<Event>, i: nat)
    requires Addressing(names) && Nonempty(names) && IsHistory(names, trace, events) && i < |trace|
    ensures SessionsAgree(names, trace[i])
    decreases i
  {
    if i > 0 {
      hide SessionsAgree, Addressing, Nonempty;
      SessionsAlwaysAgree(names, trace, events, i - 1);
      EventAgrees(names, trace[i - 1], events[i - 1]);
    }
  }

  // ---------------------------------------------------------------------------
  // Exactly when sessions agree
  // ---------------------------------------------------------------------------

  ghost predicate AlwaysAgree(names: Naming) {
    forall trace: seq<Server>, events, i | IsHistory(names, trace, events) && 0 <= i < |trace| ::
      SessionsAgree(names, trace[i])
  }

  /** Sessions agree with the pool in every history exactly when addresses are distinct, no user id is an
    * address, and, once anyone can log on, no address is empty. */
  lemma SessionsAgreeIff(names: Naming)
    ensures AlwaysAgree(names) <==> Addressing(names) && Nonempty(names)
  {
    if Addressing(names) && Nonempty(names) {
      forall trace: seq<Server>, events, i | IsHistory(names, trace, events) && 0 <= i < |trace|
        ensures SessionsAgree(names, trace[i])
      {
        SessionsAlwaysAgree(names, trace, events, i);
      }
    } else if c: Conn, d: Conn :| names.addr(c) == names.addr(d) && c != d {
      SharedAddressDisagrees(names, c, d);
    } else if c: Conn :| IsUserId(names, names.addr(c)) {
      BorrowedAddressDisagrees(names, c, c + 1);
    } else {
      var id, c :| IsUserId(names, id) && names.addr(c) == "";
      EmptyAddressDisagrees(names, c, id);
    }
  }

  const UP := Server(ConnPool.EMPTY, SessionStore.EMPTY, map[])

  /** A request that mode "none" accepts as it stands. */
  function AsUser(c: Conn, connectionID: Id, userID: Id): Event {
    LogOn(c, Logon.World("none", 0, (id: Id) => Logon.Missing, (hash: string, password: string) => false, None),
          Logon.Request(connectionID, userID, None))
  }

  lemma AsUserIsAccepted(c: Conn, connectionID: Id, userID: Id)
    ensures Judged(AsUser(c, connectionID, userID)) == Logon.Accept(userID, "", 0)
  {
  }

  ghost predicate ClosesIn(trace: seq<Server>, s: Server) {
    trace != [] && trace[|trace| - 1] == s
  }

  /** Some history leads to `s`. */
  ghost predicate Comes(names: Naming, s: Server) {
    exists trace, events :: IsHistory(names, trace, events) && ClosesIn(trace, s)
  }

  lemma UpComes(names: Naming)
    ensures Comes(names, UP)
  {
    assert IsHistory(names, [UP], []) && ClosesIn([UP], UP);
  }

  lemma EventComes(names: Naming, s: Server, e: Event)
    requires Comes(names, s) && Possible(names, s, e)
    ensures Comes(names, After(names, s, e))
  {
    hide Possible, After;
    var trace, events :| IsHistory(names, trace, events) && ClosesIn(trace, s);
    var s' := After(names, s, e);
    assert IsHistory(names, trace + [s'], events + [e]);
    assert ClosesIn(trace + [s'], s');
  }

  lemma ComingRefutes(names: Naming, s: Server)
    requires Comes(names, s) && !SessionsAgree(names, s)
    ensures !AlwaysAgree(names)
  {
    hide IsHistory, SessionsAgree;
    var trace, events :| IsHistory(names, trace, events) && ClosesIn(trace, s);
    assert trace[|trace| - 1] == s;
  }

  lemma SharedAddressDisagrees(names: Naming, c: Conn, d: Conn)
    requires c != d && names.addr(c) == names.addr(d)
    ensures !AlwaysAgree(names)
  {
    hide Comes, AlwaysAgree;
    UpComes(names);
    EventComes(names, UP, Arrive(c));
    var s := After(names, UP, Arrive(c));
    EventComes(names, s, Arrive(d));
    ConnPool.RegisterInverse(ConnPool.EMPTY, c, names.addr(c));
    ConnPool.RegisterInverse(s.pool, d, names.addr(d));
    ComingRefutes(names, After(names, s, Arrive(d)));
  }

  lemma BorrowedAddressDisagrees(names: Naming, c: Conn, d: Conn)
    requires c != d && names.addr(c) != names.addr(d) && IsUserId(names, names.addr(c))
    ensures !AlwaysAgree(names)
  {
    hide Comes, AlwaysAgree, ConnPool.Inverse, Logon.MoveSession;
    var a, b := names.addr(d), names.addr(c);
    var e := AsUser(d, a, b);
    AsUserIsAccepted(d, a, b);
    hide Judged;
    UpComes(names);
    EventComes(names, UP, Arrive(d));
    var s := After(names, UP, Arrive(d));
    assert Succeeds(s, e);
    EventComes(names, s, e);
    var s' := After(names, s, e);
    assert s'.pool == ConnPool.Remap(ConnPool.Register(ConnPool.EMPTY, d, a), a, b);
    EventComes(names, s', Arrive(c));
    ConnPool.TakenIdBreaks(d, a, c, b);
    ComingRefutes(names, After(names, s', Arrive(c)));
  }

  /** The address a moved session carries. */
  lemma MovedIp(store: Store, connectionID: Id, userID: Id, level: int)
    ensures
      var moved := Logon.MoveSession(store, connectionID, userID, level);
      && moved.connections.Keys == store.connections.Keys - {connectionID} + {userID}
      && moved.connections[userID] == SessionStore.Connection(userID, Logon.SessionIp(store, connectionID))
  {
  }

  /** A connection without an address, alone and logged on as `id`, logs on again: its user id is stored as
    * the address. */
  lemma LogsOnAgain(names: Naming, s: Server, c: Conn, id: Id)
    requires names.addr(c) == "" && id != "" && IsUserId(names, id)
    requires s.pool == ConnPool.Register(ConnPool.EMPTY, c, id)
    requires s.store.connections.Keys == {id} && s.store.connections[id] == SessionStore.Connection(id, "")
    ensures
      var e := AsUser(c, id, id);
      Possible(names, s, e) && !SessionsAgree(names, After(names, s, e))
  {
    var e := AsUser(c, id, id);
    AsUserIsAccepted(c, id, id);
    hide Judged, Logon.MoveSession;
    assert Succeeds(s, e);
    MovedIp(s.store, id, id, 0);
    var s' := After(names, s, e);
    assert s'.pool.connToID[c] == id;
    assert !SessionMatches(names, s', c);
  }

  lemma LogsOnFirst(names: Naming, c: Conn, id: Id)
    requires names.addr(c) == "" && id != "" && IsUserId(names, id)
    ensures
      var s, e := After(names, UP, Arrive(c)), AsUser(c, "", id);
      && Possible(names, s, e)
      && var s' := After(names, s, e);
         && s'.pool == ConnPool.Register(ConnPool.EMPTY, c, id)
         && s'.store.connections.Keys == {id} && s'.store.connections[id] == SessionStore.Connection(id, "")
  {
    var s, e := After(names, UP, Arrive(c)), AsUser(c, "", id);
    AsUserIsAccepted(c, "", id);
    hide Judged, Logon.MoveSession;
    assert s.pool == ConnPool.Register(ConnPool.EMPTY, c, "");
    assert Succeeds(s, e);
    MovedIp(s.store, "", id, 0);
  }

  lemma EmptyAddressDisagrees(names: Naming, c: Conn, id: Id)
    requires names.addr(c) == "" && id != "" && IsUserId(names, id)
    ensures !AlwaysAgree(names)
  {
    UpComes(names);
    EventComes(names, UP, Arrive(c));
    LogsOnFirst(names, c, id);
    hide Comes, AlwaysAgree, After, SessionsAgree, Possible;
    var s := After(names, UP, Arrive(c));
    EventComes(names, s, AsUser(c, "", id));
    var s' := After(names, s, AsUser(c, "", id));
    LogsOnAgain(names, s', c, id);
    EventComes(names, s', AsUser(c, id, id));
    ComingRefutes(names, After(names, s', AsUser(c, id, id)));
  }

  // ---------------------------------------------------------------------------
  // Levels are granted
  // ---------------------------------------------------------------------------

  /** Event `j` is a logon of `c`, made under its id of that moment, that admits it as `id` at a level stored
    * as `stamp`. */
  ghost predicate GrantedAt(trace: seq<Server>, events: seq<Event>, j: nat, c: Conn, id: Id, stamp: int32)
    requires j < |events| < |trace|
  {
    var e := events[j];
    && e.LogOn? && e.c == c && c in trace[j].pool.connToID && e.req.connectionID == trace[j].pool.connToID[c]
    && exists level :: Logon.Admitted(e.world, e.req, id, level) && stamp == ToInt32(level)
  }

  lemma SuccessIsGranted(names: Naming, trace: seq<Server>, events: seq<Event>, j: nat)
    requires IsHistory(names, trace, events) && j < |events| && Succeeds(trace[j], events[j])
    requires SessionsAgree(names, trace[j])
    ensures
      var s', c := trace[j + 1], events[j].c;
      && c in s'.pool.connToID && c in s'.levels
      && GrantedAt(trace, events, j, c, s'.pool.connToID[c], s'.levels[c])
  {
    var e := events[j];
    LogOnMoves(names, trace[j], e);
    Logon.AcceptedIffAdmitted(e.world, e.req, Judged(e).userID, Judged(e).level);
    hide Logon.Admitted, SessionsAgree, ConnPool.Inverse;
  }

  /** Events other than its own successful logons leave a connection's id and level alone. */
  lemma OthersKeepLevel(names: Naming, s: Server, e: Event, c: Conn)
    requires SessionsAgree(names, s) && Possible(names, s, e) && c in After(names, s, e).levels
    requires !(Succeeds(s, e) && e.c == c)
    ensures
      var s' := After(names, s, e);
      && c in s.levels && s'.levels[c] == s.levels[c]
      && c in s'.pool.connToID && s'.pool.connToID[c] == s.pool.connToID[c]
  {
    hide SessionMatches, OwnIds, Judged;
    if Succeeds(s, e) {
      LogOnMoves(names, s, e);
    }
  }

  lemma {:induction false} LevelsWereGranted(names: Naming, trace: seq<Server>, events: seq<Event>, i: nat, c: Conn)
    requires Addressing(names) && Nonempty(names) && IsHistory(names, trace, events) && i < |trace|
    requires c in trace[i].levels
    ensures c in trace[i].pool.connToID
    ensures exists j :: 0 <= j < i && GrantedAt(trace, events, j, c, trace[i].pool.connToID[c], trace[i].levels[c])
    decreases i
  {
    hide Addressing, Nonempty, SessionsAgree, GrantedAt, After;
    var s, e := trace[i - 1], events[i - 1];
    SessionsAlwaysAgree(names, trace, events, i - 1);
    if Succeeds(s, e) && e.c == c {
      SuccessIsGranted(names, trace, events, i - 1);
    } else {
      OthersKeepLevel(names, s, e, c);
      LevelsWereGranted(names, trace, events, i - 1, c);
    }
  }

  /** Every level stamped on a session was granted to that connection, under its present id, by a request
    * that the mode in force admits. */
  lemma StampsWereAdmitted(names: Naming, trace: seq<Server>, events: seq<Event>, i: nat, c: Conn)
    requires Addressing(names) && Nonempty(names) && IsHistory(names, trace, events) && i < |trace|
    requires c in trace[i].pool.connToID && Stamped(trace[i].store, trace[i].pool.connToID[c]).Some?
    ensures
      var id := trace[i].pool.connToID[c];
      exists j, stamp: int32 :: 0 <= j < i && GrantedAt(trace, events, j, c, id, stamp)
        && Stamped(trace[i].store, id) == Some(SessionStore.Level(stamp))
  {
    SessionsAlwaysAgree(names, trace, events, i);
    assert SessionMatches(names, trace[i], c);
    hide GrantedAt, Addressing, Nonempty, SessionsAgree;
    LevelsWereGranted(names, trace, events, i, c);
  }

  /** While sessions agree with the pool, a logon is refused exactly when the id belongs to another live
    * connection: the takeover check and the remap never disagree. */
  lemma RefusedIffTaken(names: Naming, s: Server, c: Conn, userID: Id)
    requires SessionsAgree(names, s) && c in s.pool.connToID
    ensures Logon.Free(s.pool, s.store, s.pool.connToID[c], userID) <==>
            !exists d :: d in s.pool.connToID && d != c && s.pool.connToID[d] == userID
  {
    var id := s.pool.connToID[c];
    assert s.pool.clients[id] == c;
    if userID in s.pool.clients {
      var d := s.pool.clients[userID];
      assert d in s.pool.connToID && s.pool.connToID[d] == userID;
      if d == c {
        assert userID == id;
      }
    }
  }
}
