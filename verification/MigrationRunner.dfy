/** The migration runner: each pending migration, in name order, in a transaction with its tracker row. */
module MigrationRunner {
  import opened Wrappers
  import opened Migrations
  import Rebind

  // ---------------------------------------------------------------------------
  // Migrations and the content they change
  // ---------------------------------------------------------------------------

  datatype Ending = Returned | Failed | Panicked

  /** What one run of Up does: its calls, and how it ends. */
  datatype Script = Script(ops: seq<Op>, ending: Ending)

  /** Up reads the database it changes, so what it does is a function of the content it starts from. */
  datatype Migration = Migration(name: string, up: Content -> Script)

  /** Failures of the connection, at each point where the runner can meet one. */
  datatype Faults = Faults(begin: bool, mark: bool, commit: bool, rollback: bool)

  datatype Verdict = Done | Error | Panic

  /** MarkMigrationApplied: names are UNIQUE. */
  function Mark(name: string): Statement {
    (c: Content) => if name in c.applied then None else Some(c.(applied := c.applied + {name}))
  }

  function Opening(c: Content, next: nat): Session {
    Session(Tx(c, [], false), [], next)
  }

  /** What applying one migration leads to; None when anything at all goes wrong. */
  function Attempt(strict: bool, c: Content, m: Migration, f: Faults): Option<Content> {
    var script := m.up(c);
    var (tx, ok) := Exec(strict, Steps(strict, Opening(c, 0), script.ops).tx, Mark(m.name));
    if f.begin || !script.ending.Returned? || f.mark || !ok || f.commit then None else Some(tx.cur)
  }

  // ---------------------------------------------------------------------------
  // What every statement keeps, a migration keeps
  // ---------------------------------------------------------------------------

  ghost predicate Preserves(statement: Statement, p: iset<Content>) {
    forall c | c in p :: statement(c).Some? ==> statement(c).value in p
  }

  /** Every statement the call runs is one of these. */
  ghost predicate OpUses(op: Op, statements: iset<Statement>) {
    match op
    case Run(statement) => statement in statements
    case Raw(raw) => forall i | 0 <= i < |raw| :: raw[i] in statements
    case Begin => true
    case Commit(_) => true
    case Rollback(_) => true
  }

  ghost predicate Uses(m: Migration, statements: iset<Statement>) {
    forall c, i :: 0 <= i < |m.up(c).ops| ==> OpUses(m.up(c).ops[i], statements)
  }

  ghost predicate AllUse(ms: seq<Migration>, statements: iset<Statement>) {
    forall m | m in ms :: Uses(m, statements)
  }

  /** The transaction, and every point it can roll back to. */
  ghost predicate Within(tx: Tx, p: iset<Content>) {
    tx.cur in p && forall save | save in tx.saves :: save.snapshot in p
  }

  lemma {:induction false} StatementsStayWithin(c: Content, raw: seq<Statement>, p: iset<Content>)
    requires c in p && forall i | 0 <= i < |raw| :: Preserves(raw[i], p)
    ensures Statements(c, raw).Some? ==> Statements(c, raw).value in p
    decreases |raw|
  {
    if raw != [] {
      assert Preserves(raw[0], p);
      match raw[0](c)
      case None =>
      case Some(c') => StatementsStayWithin(c', raw[1..], p);
    }
  }

  lemma StepStaysWithin(strict: bool, s: Session, op: Op, statements: iset<Statement>, p: iset<Content>)
    requires Within(s.tx, p) && OpUses(op, statements) && forall t | t in statements :: Preserves(t, p)
    ensures Within(Step(strict, s, op).tx, p)
  {
    match op {
      case Run(statement) =>
        assert Preserves(statement, p);
      case Begin =>
        hide Preserves;
      case Commit(h) =>
        hide Preserves;
      case Rollback(h) =>
        UndoingStaysWithin(strict, s.tx, if h < |s.handles| then s.handles[h].name else 0, p);
        hide Undone, Preserves;
      case Raw(raw) =>
        RawSqlIsAtomic(strict, s.tx, s.next + 1, raw);
        hide Preserves;
        StatementsStayWithin(s.tx.cur, raw, p);
        hide RawSql, Statements;
    }
  }

  lemma UndoingStaysWithin(strict: bool, tx: Tx, name: nat, p: iset<Content>)
    requires Within(tx, p)
    ensures Within(Undone(strict, tx, name), p)
  {
    var (tx', ok) := RollbackTo(strict, tx, name);
    assert Within(tx', p);
    assert Within(Release(strict, tx', name).0, p);
  }

  lemma {:induction false} StepsStayWithin(
    strict: bool, s: Session, ops: seq<Op>, statements: iset<Statement>, p: iset<Content>)
    requires Within(s.tx, p) && forall i | 0 <= i < |ops| :: OpUses(ops[i], statements)
    requires forall t | t in statements :: Preserves(t, p)
    ensures Within(Steps(strict, s, ops).tx, p)
    decreases |ops|
  {
    hide Within, Step, OpUses, Preserves;
    if ops != [] {
      StepsStayWithin(strict, s, ops[..|ops| - 1], statements, p);
      StepStaysWithin(strict, Steps(strict, s, ops[..|ops| - 1]), ops[|ops| - 1], statements, p);
    }
  }

  /** A migration that lands has gone from `c` to some content with the same property, and marked it. */
  lemma AttemptStaysWithin(
    strict: bool, c: Content, m: Migration, f: Faults, statements: iset<Statement>, p: iset<Content>)
    returns (unmarked: Content)
    requires Attempt(strict, c, m, f).Some? && c in p
    requires Uses(m, statements) && forall t | t in statements :: Preserves(t, p)
    ensures unmarked in p && m.name !in unmarked.applied
    ensures Attempt(strict, c, m, f).value == unmarked.(applied := unmarked.applied + {m.name})
  {
    StepsStayWithin(strict, Opening(c, 0), m.up(c).ops, statements, p);
    hide Steps, Preserves, Uses;
    unmarked := Steps(strict, Opening(c, 0), m.up(c).ops).tx.cur;
  }

  // ---------------------------------------------------------------------------
  // Tracker rows
  // ---------------------------------------------------------------------------

  /** Of these rows, the statement drops none. */
  ghost predicate KeepingOf(statement: Statement, names: set<string>) {
    forall c :: statement(c).Some? ==> c.applied * names <= statement(c).value.applied
  }

  /** Of these rows, the statement neither drops nor adds any. */
  ghost predicate LeavingOf(statement: Statement, names: set<string>) {
    forall c :: statement(c).Some? ==> statement(c).value.applied * names == c.applied * names
  }

  ghost function NameSet(ms: seq<Migration>): set<string> {
    set i | 0 <= i < |ms| :: ms[i].name
  }

  /** Of these rows, a migration that lands adds exactly its own, which was not there before. */
  lemma AttemptMarks(
    strict: bool, c: Content, m: Migration, f: Faults, statements: iset<Statement>, names: set<string>)
    requires Uses(m, statements) && m.name in names && forall t | t in statements :: LeavingOf(t, names)
    ensures
      var r := Attempt(strict, c, m, f);
      r.Some? ==> m.name !in c.applied && r.value.applied * names == c.applied * names + {m.name}
  {
    if Attempt(strict, c, m, f).Some? {
      var rows := c.applied * names;
      var p := iset d: Content | d.applied * names == rows;
      assert forall t | t in statements :: Preserves(t, p);
      hide Attempt, Uses, Preserves, LeavingOf;
      var d := AttemptStaysWithin(strict, c, m, f, statements, p);
      assert m.name in c.applied <==> m.name in rows;
      assert m.name in d.applied <==> m.name in d.applied * names;
      assert (d.applied + {m.name}) * names == d.applied * names + {m.name};
    }
  }

  /** A migration that lands adds its own row to those it keeps. */
  lemma AttemptKeeps(
    strict: bool, c: Content, m: Migration, f: Faults, statements: iset<Statement>, names: set<string>)
    requires Uses(m, statements) && forall t | t in statements :: KeepingOf(t, names)
    ensures
      var r := Attempt(strict, c, m, f);
      r.Some? ==> c.applied * names + {m.name} <= r.value.applied
  {
    if Attempt(strict, c, m, f).Some? {
      var rows := c.applied * names;
      var p := iset d: Content | rows <= d.applied;
      forall t | t in statements
        ensures Preserves(t, p)
      {
        KeepingPreserves(t, names, rows);
      }
      hide Attempt, Uses, Preserves, KeepingOf;
      var d := AttemptStaysWithin(strict, c, m, f, statements, p);
    }
  }

  lemma KeepingPreserves(t: Statement, names: set<string>, rows: set<string>)
    requires KeepingOf(t, names) && rows <= names
    ensures Preserves(t, iset d: Content | rows <= d.applied)
  {
    forall c: Content | rows <= c.applied && t(c).Some?
      ensures rows <= t(c).value.applied
    {
      assert rows <= c.applied * names;
    }
  }

  // ---------------------------------------------------------------------------
  // What a plain migration leads to
  // ---------------------------------------------------------------------------

  function Runs(statements: seq<Statement>): seq<Op> {
    seq(|statements|, i requires 0 <= i < |statements| => Run(statements[i]))
  }

  lemma {:induction false} StatementsLast(c: Content, statements: seq<Statement>, last: Statement)
    ensures
      Statements(c, statements + [last])
      == match Statements(c, statements) case None => None case Some(c') => last(c')
    decreases |statements|
  {
    if statements == [] {
      assert statements + [last] == [last] && [last][1..] == [];
    } else {
      assert (statements + [last])[1..] == statements[1..] + [last];
      match statements[0](c)
      case None =>
      case Some(c') => StatementsLast(c', statements[1..], last);
    }
  }

  lemma {:induction false} RunsInOrder(strict: bool, c: Content, statements: seq<Statement>)
    requires Statements(c, statements).Some?
    ensures Steps(strict, Opening(c, 0), Runs(statements)) == Opening(Statements(c, statements).value, 0)
    decreases |statements|
  {
    if statements != [] {
      var init, last := statements[..|statements| - 1], statements[|statements| - 1];
      assert statements == init + [last];
      StatementsLast(c, init, last);
      assert Runs(statements)[..|init|] == Runs(init);
      hide Statements;
      RunsInOrder(strict, c, init);
    }
  }

  /** A migration whose statements all succeed lands: they take effect in order, with the tracker row. */
  lemma PlainMigrationLands(strict: bool, c: Content, m: Migration, f: Faults, statements: seq<Statement>)
    requires m.up(c) == Script(Runs(statements), Returned) && f == Faults(false, false, false, false)
    requires Statements(c, statements).Some? && m.name !in Statements(c, statements).value.applied
    ensures
      var c' := Statements(c, statements).value;
      Attempt(strict, c, m, f) == Some(c'.(applied := c'.applied + {m.name}))
  {
    RunsInOrder(strict, c, statements);
    hide Statements, Steps;
  }

  // ---------------------------------------------------------------------------
  // Chains of migrations
  // ---------------------------------------------------------------------------

  /** The migrations one after another; None when one of them does not land. */
  function Chain(strict: bool, c: Content, ms: seq<Migration>, faults: string -> Faults): Option<Content>
    decreases |ms|
  {
    if ms == [] then Some(c)
    else match Attempt(strict, c, ms[0], faults(ms[0].name))
      case None => None
      case Some(c') => Chain(strict, c', ms[1..], faults)
  }

  function Names(ms: seq<Migration>): seq<string> {
    seq(|ms|, i requires 0 <= i < |ms| => ms[i].name)
  }

  function Pending(ms: seq<Migration>, applied: set<string>): seq<Migration>
    decreases |ms|
  {
    if ms == [] then []
    else
      var rest := Pending(ms[..|ms| - 1], applied);
      if ms[|ms| - 1].name in applied then rest else rest + [ms[|ms| - 1]]
  }

  lemma {:induction false} ChainJoins(
    strict: bool, c: Content, a: seq<Migration>, b: seq<Migration>, faults: string -> Faults)
    ensures
      Chain(strict, c, a + b, faults)
      == match Chain(strict, c, a, faults) case None => None case Some(c') => Chain(strict, c', b, faults)
    decreases |a|
  {
    if a == [] {
      assert a + b == b;
    } else {
      hide Attempt;
      assert (a + b)[1..] == a[1..] + b;
      match Attempt(strict, c, a[0], faults(a[0].name))
      case None =>
      case Some(c') => ChainJoins(strict, c', a[1..], b, faults);
    }
  }

  /** Once a prefix does not land, no longer prefix does: a run stops at the longest prefix that lands. */
  lemma LongestPrefix(strict: bool, c: Content, ms: seq<Migration>, k: nat, j: nat, faults: string -> Faults)
    requires k < j <= |ms| && Chain(strict, c, ms[..k], faults).None?
    ensures Chain(strict, c, ms[..j], faults).None?
  {
    assert ms[..j] == ms[..k] + ms[k..j];
    ChainJoins(strict, c, ms[..k], ms[k..j], faults);
  }

  ghost predicate Distinct(ms: seq<Migration>) {
    forall i, j | 0 <= i < j < |ms| :: ms[i].name != ms[j].name
  }

  /** A chain that lands records exactly its names. */
  lemma {:induction false} ChainMarks(
    strict: bool, c: Content, ms: seq<Migration>, faults: string -> Faults, statements: iset<Statement>,
    names: set<string>)
    requires AllUse(ms, statements) && forall t | t in statements :: LeavingOf(t, names)
    requires forall m | m in ms :: m.name in names
    ensures
      var r := Chain(strict, c, ms, faults);
      r.Some? ==> forall name | name in names :: name in r.value.applied <==> name in c.applied || name in Names(ms)
    decreases |ms|
  {
    hide Uses, Attempt, LeavingOf;
    if ms != [] {
      AttemptMarks(strict, c, ms[0], faults(ms[0].name), statements, names);
      match Attempt(strict, c, ms[0], faults(ms[0].name))
      case None =>
      case Some(c') =>
        ChainMarks(strict, c', ms[1..], faults, statements, names);
        assert forall name | name in names :: name in c'.applied <==> name in c'.applied * names;
        assert forall name | name in names :: name in c.applied <==> name in c.applied * names;
        assert Names(ms) == [ms[0].name] + Names(ms[1..]);
    }
  }

  /** A chain that lands keeps the rows it finds and records its names. */
  lemma {:induction false} ChainKeeps(
    strict: bool, c: Content, ms: seq<Migration>, faults: string -> Faults, statements: iset<Statement>,
    names: set<string>)
    requires AllUse(ms, statements) && forall t | t in statements :: KeepingOf(t, names)
    requires forall m | m in ms :: m.name in names
    ensures
      var r := Chain(strict, c, ms, faults);
      r.Some? ==> forall name | name in names && (name in c.applied || name in Names(ms)) :: name in r.value.applied
    decreases |ms|
  {
    hide Uses, Attempt, KeepingOf;
    if ms != [] {
      AttemptKeeps(strict, c, ms[0], faults(ms[0].name), statements, names);
      match Attempt(strict, c, ms[0], faults(ms[0].name))
      case None =>
      case Some(c') =>
        ChainKeeps(strict, c', ms[1..], faults, statements, names);
        assert forall name | name in names && name in c.applied :: name in c.applied * names;
        assert Names(ms) == [ms[0].name] + Names(ms[1..]);
    }
  }

  lemma {:induction false} PendingElements(ms: seq<Migration>, applied: set<string>)
    ensures forall name :: name in Names(Pending(ms, applied)) <==> name in Names(ms) && name !in applied
    ensures forall m | m in Pending(ms, applied) :: m in ms
    decreases |ms|
  {
    if ms != [] {
      var last := ms[|ms| - 1];
      var rest := Pending(ms[..|ms| - 1], applied);
      PendingElements(ms[..|ms| - 1], applied);
      assert Names(ms) == Names(ms[..|ms| - 1]) + [last.name];
      assert Names(rest + [last]) == Names(rest) + [last.name];
    }
  }

  lemma {:induction false} NothingPending(ms: seq<Migration>, applied: set<string>)
    requires forall name | name in Names(ms) :: name in applied
    ensures Pending(ms, applied) == []
    decreases |ms|
  {
    if ms != [] {
      assert Names(ms) == Names(ms[..|ms| - 1]) + [ms[|ms| - 1].name];
      NothingPending(ms[..|ms| - 1], applied);
    }
  }

  /** After a run in which every migration landed, nothing is pending and a second run changes nothing,
    * provided no statement drops the row of a registered migration. */
  lemma SecondRunIsEmpty(
    strict: bool, c: Content, c': Content, ms: seq<Migration>, faults: string -> Faults, statements: iset<Statement>)
    requires AllUse(ms, statements) && forall t | t in statements :: KeepingOf(t, NameSet(ms))
    requires Chain(strict, c, Pending(ms, c.applied), faults) == Some(c')
    ensures Pending(ms, c'.applied) == []
  {
    hide Uses, KeepingOf;
    PendingElements(ms, c.applied);
    ChainKeeps(strict, c, Pending(ms, c.applied), faults, statements, NameSet(ms));
    NamesAreSet(ms);
    hide Chain, Names, NameSet;
    NothingPending(ms, c'.applied);
  }

  lemma NamesAreSet(ms: seq<Migration>)
    ensures forall name :: name in Names(ms) <==> name in NameSet(ms)
  {
    forall name
      ensures name in Names(ms) <==> name in NameSet(ms)
    {
      if name in Names(ms) {
        var i :| 0 <= i < |Names(ms)| && Names(ms)[i] == name;
        assert ms[i].name == name;
      }
      if name in NameSet(ms) {
        var i :| 0 <= i < |ms| && ms[i].name == name;
        assert Names(ms)[i] == name;
      }
    }
  }

  function Forget(name: string): Statement {
    (c: Content) => Some(c.(applied := c.applied - {name}))
  }

  /** Without that, "a" runs again when "b" deletes its row. */
  lemma ForgottenMigrationRunsAgain(strict: bool)
    ensures
      var a := Migration("a", c => Script([], Returned));
      var b := Migration("b", c => Script([Run(Forget("a"))], Returned));
      var after := Chain(strict, Content(map[], {}), Pending([a, b], {}), NoFaults);
      after.Some? && Pending([a, b], after.value.applied) == [a]
  {
    var a := Migration("a", c => Script([], Returned));
    var b := Migration("b", c => Script([Run(Forget("a"))], Returned));
    var c0, c1, c2 := Content(map[], {}), Content(map[], {"a"}), Content(map[], {"b"});
    assert Runs([]) == [] && Runs([Forget("a")]) == [Run(Forget("a"))];
    PlainMigrationLands(strict, c0, a, NoFaults("a"), []);
    assert Statements(c1, [Forget("a")]) == Some(c0) by {
      assert [Forget("a")][1..] == [];
      assert {"a"} - {"a"} == {};
      assert Forget("a")(c1) == Some(c0);
    }
    assert c0.applied + {"a"} == {"a"} && c0.applied + {"b"} == {"b"};
    PlainMigrationLands(strict, c1, b, NoFaults("b"), [Forget("a")]);
    hide Attempt, Statements;
    assert [a, b][..1] == [a] && [a][..0] == [];
    assert Pending([a], {}) == [a] && Pending([a, b], {}) == [a, b];
    assert [a, b][1..] == [b] && [b][1..] == [];
    assert Chain(strict, c1, [b], NoFaults) == Some(c2);
    assert Chain(strict, c0, [a, b], NoFaults) == Some(c2);
    assert Pending([a], {"b"}) == [a];
  }

  lemma {:induction false} PendingAgain(ms: seq<Migration>, applied: set<string>, more: set<string>)
    ensures Pending(Pending(ms, applied), applied + more) == Pending(ms, applied + more)
    decreases |ms|
  {
    if ms != [] {
      PendingAgain(ms[..|ms| - 1], applied, more);
      var last := ms[|ms| - 1];
      var rest := Pending(ms[..|ms| - 1], applied);
      if last.name !in applied {
        assert (rest + [last])[..|rest|] == rest;
      }
    }
  }

  lemma {:induction false} PendingSuffix(ms: seq<Migration>, k: nat, applied: set<string>)
    requires k <= |ms|
    requires forall i | 0 <= i < |ms| :: ms[i].name in applied <==> i < k
    ensures Pending(ms, applied) == ms[k..]
    decreases |ms|
  {
    if ms == [] {
      assert ms[k..] == [];
    } else {
      var init := ms[..|ms| - 1];
      if k < |ms| {
        PendingSuffix(init, k, applied);
        assert ms[k..] == init[k..] + [ms[|ms| - 1]];
      } else {
        PendingSuffix(init, k - 1, applied);
        assert ms[k..] == init[k - 1..];
      }
    }
  }

  lemma {:induction false} PendingDistinct(ms: seq<Migration>, applied: set<string>)
    requires Distinct(ms)
    ensures Distinct(Pending(ms, applied))
    decreases |ms|
  {
    if ms != [] {
      var init := ms[..|ms| - 1];
      PendingDistinct(init, applied);
      PendingElements(init, applied);
      var rest := Pending(init, applied);
      assert forall i | 0 <= i < |rest| :: rest[i].name == Names(rest)[i] && Names(rest)[i] in Names(init);
      assert forall name | name in Names(init) :: exists i :: 0 <= i < |init| && name == init[i].name == ms[i].name;
    }
  }

  function NoFaults(name: string): Faults {
    Faults(false, false, false, false)
  }

  /** What lands despite possible faults is what lands without any. */
  lemma {:induction false} LandsWithoutFaults(strict: bool, c: Content, ms: seq<Migration>, faults: string -> Faults)
    requires Chain(strict, c, ms, faults).Some?
    ensures Chain(strict, c, ms, NoFaults) == Chain(strict, c, ms, faults)
    decreases |ms|
  {
    if ms != [] {
      var c' := Attempt(strict, c, ms[0], faults(ms[0].name)).value;
      assert Attempt(strict, c, ms[0], NoFaults(ms[0].name)) == Some(c');
      hide Attempt;
      LandsWithoutFaults(strict, c', ms[1..], faults);
    }
  }

  /** The next run resumes a stopped one exactly where it stopped, provided no statement touches the row of a
    * registered migration. */
  lemma NextRunResumes(
    strict: bool, c: Content, c': Content, ms: seq<Migration>, k: nat, faults: string -> Faults,
    statements: iset<Statement>)
    requires AllUse(ms, statements) && forall t | t in statements :: LeavingOf(t, NameSet(ms))
    requires Distinct(ms) && k <= |Pending(ms, c.applied)|
    requires Chain(strict, c, Pending(ms, c.applied)[..k], faults) == Some(c')
    ensures Pending(ms, c'.applied) == Pending(ms, c.applied)[k..]
  {
    hide Uses, LeavingOf, Chain, NameSet, Distinct;
    var p, ever := Pending(ms, c.applied), c.applied + c'.applied;
    PendingElements(ms, c.applied);
    NamesAreSet(ms);
    MembersNamed(ms);
    assert forall m | m in p[..k] :: m in p;
    ChainMarks(strict, c, p[..k], faults, statements, NameSet(ms));
    PendingDistinct(ms, c.applied);
    assert forall name | name in Names(ms) :: name in ever <==> name in c'.applied;
    ResumePoint(ms, c.applied, c'.applied, k);
    PendingSuffix(p, k, ever);
    PendingAgain(ms, c.applied, c'.applied);
    PendingByNames(ms, ever, c'.applied);
  }

  lemma MembersNamed(ms: seq<Migration>)
    ensures forall m | m in ms :: m.name in NameSet(ms)
  {
  }

  /** Of the pending migrations, exactly the first `k` are recorded. */
  lemma ResumePoint(ms: seq<Migration>, before: set<string>, after: set<string>, k: nat)
    requires k <= |Pending(ms, before)| && Distinct(Pending(ms, before))
    requires forall name :: name in Names(Pending(ms, before)) <==> name in Names(ms) && name !in before
    requires forall name | name in Names(ms) ::
               name in after <==> name in before || name in Names(Pending(ms, before)[..k])
    ensures forall i | 0 <= i < |Pending(ms, before)| :: Pending(ms, before)[i].name in before + after <==> i < k
  {
    hide Pending;
    var p := Pending(ms, before);
    forall i | 0 <= i < |p|
      ensures p[i].name in before + after <==> i < k
    {
      assert Names(p)[i] == p[i].name;
      if i < k {
        assert Names(p[..k])[i] == p[i].name;
      }
    }
  }

  /** Only the rows of registered migrations matter. */
  lemma {:induction false} PendingByNames(ms: seq<Migration>, a: set<string>, b: set<string>)
    requires forall name | name in Names(ms) :: name in a <==> name in b
    ensures Pending(ms, a) == Pending(ms, b)
    decreases |ms|
  {
    if ms != [] {
      assert Names(ms) == Names(ms[..|ms| - 1]) + [ms[|ms| - 1].name];
      PendingByNames(ms[..|ms| - 1], a, b);
    }
  }

  /** A run that stopped and a second one that finishes do together what one run without any fault does. */
  lemma RunsCompose(
    strict: bool, c: Content, c': Content, ms: seq<Migration>, k: nat, faults: string -> Faults,
    again: string -> Faults, statements: iset<Statement>)
    requires AllUse(ms, statements) && forall t | t in statements :: LeavingOf(t, NameSet(ms))
    requires Distinct(ms) && k <= |Pending(ms, c.applied)|
    requires Chain(strict, c, Pending(ms, c.applied)[..k], faults) == Some(c')
    requires Chain(strict, c', Pending(ms, c'.applied), again).Some?
    ensures Chain(strict, c', Pending(ms, c'.applied), again) == Chain(strict, c, Pending(ms, c.applied), NoFaults)
  {
    hide Chain, Pending, AllUse, Distinct, NameSet, LeavingOf;
    var p := Pending(ms, c.applied);
    NextRunResumes(strict, c, c', ms, k, faults, statements);
    LandsWithoutFaults(strict, c, p[..k], faults);
    LandsWithoutFaults(strict, c', p[k..], again);
    assert p == p[..k] + p[k..];
    ChainJoins(strict, c, p[..k], p[k..], NoFaults);
  }

  // ---------------------------------------------------------------------------
  // Exactly when
  // ---------------------------------------------------------------------------

  /** Drops no tracker row. */
  ghost predicate Keeping(statement: Statement) {
    forall c :: statement(c).Some? ==> c.applied <= statement(c).value.applied
  }

  /** Leaves the tracker as it is. */
  ghost predicate Leaving(statement: Statement) {
    forall c :: statement(c).Some? ==> statement(c).value.applied == c.applied
  }

  /** Of a list of migrations made of these statements, the run and what it leads to. */
  ghost predicate Lands(
    strict: bool, statements: iset<Statement>, c: Content, c': Content, ms: seq<Migration>, k: nat,
    faults: string -> Faults) {
    && AllUse(ms, statements) && Distinct(ms)
    && k <= |Pending(ms, c.applied)| && Chain(strict, c, Pending(ms, c.applied)[..k], faults) == Some(c')
  }

  /** After a run in which all landed, a second is empty. */
  ghost predicate AlwaysSettles(strict: bool, statements: iset<Statement>) {
    forall c: Content, c', ms, faults | Lands(strict, statements, c, c', ms, |Pending(ms, c.applied)|, faults) ::
      Pending(ms, c'.applied) == []
  }

  /** After a run that stopped, the next has exactly the rest to do. */
  ghost predicate AlwaysResumes(strict: bool, statements: iset<Statement>) {
    forall c: Content, c', ms, k: nat, faults | Lands(strict, statements, c, c', ms, k, faults) ::
      Pending(ms, c'.applied) == Pending(ms, c.applied)[k..]
  }

  /** A run that stopped and one that finishes do what one fault-free run does. */
  ghost predicate AlwaysComposes(strict: bool, statements: iset<Statement>) {
    forall c: Content, c', ms, k: nat, faults, again | Lands(strict, statements, c, c', ms, k, faults) ::
      var rest := Chain(strict, c', Pending(ms, c'.applied), again);
      rest.Some? ==> rest == Chain(strict, c, Pending(ms, c.applied), NoFaults)
  }

  /** A name not in use. */
  lemma {:induction false} LongerThanAll(used: set<string>) returns (n: nat)
    ensures forall name | name in used :: |name| < n
  {
    if used == {} {
      n := 0;
    } else {
      var name :| name in used;
      n := LongerThanAll(used - {name});
      n := if |name| < n then n else |name| + 1;
    }
  }

  lemma UnusedName(used: set<string>) returns (name: string)
    ensures name !in used
  {
    var n := LongerThanAll(used);
    name := seq(n, _ => 'x');
  }

  /** Does nothing. */
  function Blank(name: string): Migration {
    Migration(name, _ => Script([], Returned))
  }

  /** Runs one statement. */
  function Single(name: string, statement: Statement): Migration {
    Migration(name, _ => Script([Run(statement)], Returned))
  }

  lemma BlankLands(strict: bool, c: Content, name: string)
    ensures
      Attempt(strict, c, Blank(name), NoFaults(name))
      == if name in c.applied then None else Some(c.(applied := c.applied + {name}))
  {
    assert Steps(strict, Opening(c, 0), []) == Opening(c, 0);
  }

  lemma SingleLands(strict: bool, c: Content, name: string, statement: Statement)
    requires statement(c).Some? && name !in statement(c).value.applied
    ensures
      var d := statement(c).value;
      Attempt(strict, c, Single(name, statement), NoFaults(name)) == Some(d.(applied := d.applied + {name}))
  {
    assert Runs([statement]) == [Run(statement)];
    assert [statement][1..] == [];
    assert Statements(c, [statement]) == statement(c);
    PlainMigrationLands(strict, c, Single(name, statement), NoFaults(name), [statement]);
  }

  /** What a statement that changes row `n` does to the list of itself and `n`, in either order. */
  lemma PendingPair(a: Migration, b: Migration, applied: set<string>)
    ensures
      Pending([a, b], applied)
      == (if a.name in applied then [] else [a]) + (if b.name in applied then [] else [b])
  {
    assert [a, b][..1] == [a] && [a][..0] == [];
    assert Pending([a], applied) == if a.name in applied then [] else [a];
  }

  lemma ChainOne(strict: bool, c: Content, m: Migration)
    ensures Chain(strict, c, [m], NoFaults) == Attempt(strict, c, m, NoFaults(m.name))
  {
    hide Attempt;
    assert [m][1..] == [];
  }

  lemma UsesOne(name: string, n: string, statement: Statement, statements: iset<Statement>)
    requires statement in statements
    ensures AllUse([Single(name, statement), Blank(n)], statements)
    ensures AllUse([Blank(n), Single(name, statement)], statements)
  {
    assert Uses(Single(name, statement), statements) && Uses(Blank(n), statements);
  }

  /** The list that runs the statement, then does nothing under the name of a row it changes. */
  lemma ChangedRowBreaks(strict: bool, statements: iset<Statement>, s: Statement, c: Content, n: string)
    requires s in statements && s(c).Some? && (n in c.applied <==> n !in s(c).value.applied)
    ensures !AlwaysResumes(strict, statements) && !AlwaysComposes(strict, statements)
    ensures n in c.applied ==> !AlwaysSettles(strict, statements)
  {
    var d := s(c).value;
    var name := UnusedName(c.applied + d.applied + {n});
    var one, two := Single(name, s), Blank(n);
    var ms, c' := [one, two], d.(applied := d.applied + {name});
    SingleLands(strict, c, name, s);
    ChainOne(strict, c, one);
    BlankLands(strict, c', n);
    ChainOne(strict, c', two);
    UsesOne(name, n, s, statements);
    PendingPair(one, two, c.applied);
    PendingPair(one, two, c'.applied);
    hide Attempt, Pending, AllUse;
    var p := Pending(ms, c.applied);
    assert p[..1] == [one];
    assert Lands(strict, statements, c, c', ms, 1, NoFaults);
    if n in c.applied {
      assert p == [one] && Pending(ms, c'.applied) == [two];
      DroppedRowComposes(strict, c, c', one, two);
    } else {
      assert p == [one, two] && Pending(ms, c'.applied) == [];
      AddedRowComposes(strict, c, c', one, two);
    }
  }

  lemma DroppedRowComposes(strict: bool, c: Content, c': Content, one: Migration, two: Migration)
    requires Chain(strict, c, [one], NoFaults) == Some(c')
    requires Chain(strict, c', [two], NoFaults) == Some(c'.(applied := c'.applied + {two.name}))
    requires two.name !in c'.applied
    ensures Chain(strict, c', [two], NoFaults).Some?
    ensures Chain(strict, c', [two], NoFaults) != Chain(strict, c, [one], NoFaults)
  {
    hide Chain;
    assert two.name in c'.applied + {two.name};
  }

  lemma AddedRowComposes(strict: bool, c: Content, c': Content, one: Migration, two: Migration)
    requires Chain(strict, c, [one], NoFaults) == Some(c') && Chain(strict, c', [two], NoFaults).None?
    ensures Chain(strict, c', [], NoFaults) == Some(c')
    ensures Chain(strict, c, [one, two], NoFaults).None?
  {
    ChainJoins(strict, c, [one], [two], NoFaults);
    assert [one] + [two] == [one, two];
  }

  /** A second run after success is always empty exactly when no statement an Up may run drops a tracker row. */
  lemma SettlesIffKeeping(strict: bool, statements: iset<Statement>)
    ensures AlwaysSettles(strict, statements) <==> forall s | s in statements :: Keeping(s)
  {
    if s :| s in statements && !Keeping(s) {
      var c :| s(c).Some? && !(c.applied <= s(c).value.applied);
      var n :| n in c.applied && n !in s(c).value.applied;
      ChangedRowBreaks(strict, statements, s, c, n);
    } else {
      forall c: Content, c', ms, faults | Lands(strict, statements, c, c', ms, |Pending(ms, c.applied)|, faults)
        ensures Pending(ms, c'.applied) == []
      {
        var p := Pending(ms, c.applied);
        assert p[..|p|] == p;
        hide Pending, AllUse, Chain;
        assert forall t | t in statements :: KeepingOf(t, NameSet(ms));
        SecondRunIsEmpty(strict, c, c', ms, faults, statements);
      }
    }
  }

  /** A stopped run is always resumed where it stopped exactly when no statement an Up may run changes the
    * tracker. */
  lemma ResumesIffLeaving(strict: bool, statements: iset<Statement>)
    ensures AlwaysResumes(strict, statements) <==> forall s | s in statements :: Leaving(s)
  {
    if s :| s in statements && !Leaving(s) {
      ChangesSomeRow(strict, statements, s);
    } else {
      forall c: Content, c', ms, k: nat, faults | Lands(strict, statements, c, c', ms, k, faults)
        ensures Pending(ms, c'.applied) == Pending(ms, c.applied)[k..]
      {
        hide Pending, AllUse, Chain;
        assert forall t | t in statements :: LeavingOf(t, NameSet(ms));
        NextRunResumes(strict, c, c', ms, k, faults, statements);
      }
    }
  }

  /** And exactly then a stopped run and one that finishes always do what one fault-free run does. */
  lemma ComposesIffLeaving(strict: bool, statements: iset<Statement>)
    ensures AlwaysComposes(strict, statements) <==> forall s | s in statements :: Leaving(s)
  {
    if s :| s in statements && !Leaving(s) {
      ChangesSomeRow(strict, statements, s);
    } else {
      forall c: Content, c', ms, k: nat, faults, again | Lands(strict, statements, c, c', ms, k, faults)
        && Chain(strict, c', Pending(ms, c'.applied), again).Some?
        ensures Chain(strict, c', Pending(ms, c'.applied), again) == Chain(strict, c, Pending(ms, c.applied), NoFaults)
      {
        hide Pending, AllUse, Chain;
        assert forall t | t in statements :: LeavingOf(t, NameSet(ms));
        RunsCompose(strict, c, c', ms, k, faults, again, statements);
      }
    }
  }

  lemma ChangesSomeRow(strict: bool, statements: iset<Statement>, s: Statement)
    requires s in statements && !Leaving(s)
    ensures !AlwaysResumes(strict, statements) && !AlwaysComposes(strict, statements)
  {
    var c :| s(c).Some? && s(c).value.applied != c.applied;
    var d := s(c).value;
    if n :| n in c.applied && n !in d.applied {
      ChangedRowBreaks(strict, statements, s, c, n);
    } else {
      var n :| n in d.applied && n !in c.applied;
      ChangedRowBreaks(strict, statements, s, c, n);
    }
  }

  // ---------------------------------------------------------------------------
  // A failed statement outside any savepoint
  // ---------------------------------------------------------------------------

  /** Under the Postgres rule a migration that goes on after a failed statement, without rolling back, never
    * lands, even if it reports success. */
  lemma FailureStopsMigration(
    c: Content, m: Migration, f: Faults, before: seq<Op>, statement: Statement, after: seq<Op>)
    requires m.up(c).ops == before + [Run(statement)] + after
    requires
      var s := Steps(true, Opening(c, 0), before);
      !s.tx.aborted && statement(s.tx.cur).None?
    requires forall op | op in after :: !op.Rollback?
    ensures Attempt(true, c, m, f).None?
  {
    var s := Steps(true, Opening(c, 0), before);
    StepsJoin(true, Opening(c, 0), before + [Run(statement)], after);
    StepsJoin(true, Opening(c, 0), before, [Run(statement)]);
    assert [Run(statement)][..0] == [];
    assert Steps(true, s, [Run(statement)]) == Step(true, s, Run(statement));
    FailureBlocks(true, s, statement, after);
  }

  // ---------------------------------------------------------------------------
  // Name order
  // ---------------------------------------------------------------------------

  predicate Less(a: string, b: string) {
    b != [] && (a == [] || a[0] < b[0] || (a[0] == b[0] && Less(a[1..], b[1..])))
  }

  lemma {:induction false} LessIsTotal(a: string, b: string)
    ensures (a == b && !Less(a, b) && !Less(b, a)) || (a != b && (Less(a, b) <==> !Less(b, a)))
  {
    if a != [] && b != [] && a[0] == b[0] {
      LessIsTotal(a[1..], b[1..]);
      assert a == [a[0]] + a[1..] && b == [b[0]] + b[1..];
    }
  }

  lemma {:induction false} LessIsTransitive(a: string, b: string, c: string)
    requires Less(a, b) && Less(b, c)
    ensures Less(a, c)
  {
    if a != [] && a[0] == b[0] == c[0] {
      LessIsTransitive(a[1..], b[1..], c[1..]);
    }
  }

  /** `a` and `b` agree up to position `k`, where `a` ends or has the smaller character. */
  predicate SmallerAt(a: string, b: string, k: nat) {
    && k <= |a| && k < |b|
    && a[..k] == b[..k]
    && (k == |a| || a[k] < b[k])
  }

  lemma SmallerLater(a: string, b: string, k: nat)
    requires a != [] && b != [] && a[0] == b[0]
    ensures SmallerAt(a, b, k + 1) <==> SmallerAt(a[1..], b[1..], k)
  {
    if k < |a| && k + 1 < |b| {
      PrefixSplits(a, k);
      PrefixSplits(b, k);
    }
  }

  lemma PrefixSplits(a: string, k: nat)
    requires k < |a|
    ensures a[..k + 1] == [a[0]] + a[1..][..k]
  {
  }

  /** Go's order on strings: `a` is a proper prefix of `b`, or has the smaller character at the first
    * position where they differ. */
  lemma {:induction false} LessIsLexicographic(a: string, b: string)
    ensures Less(a, b) <==> exists k: nat :: SmallerAt(a, b, k)
  {
    if a == [] || b == [] || a[0] != b[0] {
      if Less(a, b) {
        assert SmallerAt(a, b, 0);
      }
    } else {
      LessIsLexicographic(a[1..], b[1..]);
      if Less(a, b) {
        var k: nat :| SmallerAt(a[1..], b[1..], k);
        SmallerLater(a, b, k);
      }
      if k: nat :| SmallerAt(a, b, k) {
        SmallerLater(a, b, k - 1);
      }
    }
  }

  predicate IsNumeral(s: string) {
    forall i | 0 <= i < |s| :: Rebind.IsDigit(s[i])
  }

  /** Numerals of one width have one value each. */
  lemma {:induction false} NumeralsDiffer(a: string, b: string)
    requires |a| == |b| && IsNumeral(a) && IsNumeral(b) && Rebind.Number(a) == Rebind.Number(b)
    ensures a == b
    decreases |a|
  {
    if a != [] {
      var n := |a| - 1;
      assert Rebind.IsDigit(a[n]) && Rebind.IsDigit(b[n]);
      NumeralsDiffer(a[..n], b[..n]);
      assert a == a[..n] + [a[n]] && b == b[..n] + [b[n]];
    }
  }

  /** Names that begin with a number padded to one width come in the order of their numbers. */
  lemma {:induction false} NumberedInOrder(a: string, b: string, s: string, t: string)
    requires |a| == |b| && IsNumeral(a) && IsNumeral(b) && Rebind.Number(a) < Rebind.Number(b)
    ensures Less(a + s, b + t)
    decreases |a|
  {
    var n := |a| - 1;
    assert Rebind.IsDigit(a[n]) && Rebind.IsDigit(b[n]);
    var a', b' := a[..n], b[..n];
    assert a + s == a' + ([a[n]] + s) && b + t == b' + ([b[n]] + t);
    if Rebind.Number(a') < Rebind.Number(b') {
      NumberedInOrder(a', b', [a[n]] + s, [b[n]] + t);
    } else {
      NumeralsDiffer(a', b');
      assert SmallerAt(a + s, b + t, n);
      LessIsLexicographic(a + s, b + t);
    }
  }

  ghost predicate Sorted(ms: seq<Migration>) {
    forall i, j | 0 <= i < j < |ms| :: !Less(ms[j].name, ms[i].name)
  }

  function Insert(ms: seq<Migration>, m: Migration): seq<Migration>
    decreases |ms|
  {
    if ms == [] || !Less(m.name, ms[|ms| - 1].name) then ms + [m]
    else Insert(ms[..|ms| - 1], m) + [ms[|ms| - 1]]
  }

  function Sort(ms: seq<Migration>): seq<Migration> {
    if ms == [] then [] else Insert(Sort(ms[..|ms| - 1]), ms[|ms| - 1])
  }

  lemma SplitLast<T>(s: seq<T>)
    requires s != []
    ensures multiset(s) == multiset(s[..|s| - 1]) + multiset{s[|s| - 1]}
  {
    assert s == s[..|s| - 1] + [s[|s| - 1]];
  }

  lemma SortedLast(ms: seq<Migration>, last: Migration)
    requires Sorted(ms) && forall m | m in ms :: !Less(last.name, m.name)
    ensures Sorted(ms + [last])
  {
    hide Less;
  }

  lemma InsertElements(ms: seq<Migration>, m: Migration)
    ensures multiset(Insert(ms, m)) == multiset(ms) + multiset{m}
    decreases |ms|
  {
    hide Less;
    if ms != [] {
      SplitLast(ms);
      if Less(m.name, ms[|ms| - 1].name) {
        InsertElements(ms[..|ms| - 1], m);
      }
    }
  }

  lemma {:induction false} InsertSorts(ms: seq<Migration>, m: Migration)
    requires Sorted(ms)
    ensures Sorted(Insert(ms, m))
    decreases |ms|
  {
    hide Less;
    if ms != [] {
      var init, last := ms[..|ms| - 1], ms[|ms| - 1];
      if Less(m.name, last.name) {
        InsertSorts(init, m);
        InsertElements(init, m);
        forall x | x in Insert(init, m)
          ensures !Less(last.name, x.name)
        {
          assert x in multiset(Insert(init, m));
          LessIsTotal(m.name, last.name);
        }
        SortedLast(Insert(init, m), last);
      } else {
        forall x | x in ms
          ensures !Less(m.name, x.name)
        {
          LessIsTotal(last.name, last.name);
          NotLessChains(m.name, last.name, x.name);
        }
        SortedLast(ms, m);
      }
    }
  }

  lemma NotLessChains(a: string, b: string, c: string)
    requires !Less(a, b) && !Less(b, c)
    ensures !Less(a, c)
  {
    LessIsTotal(a, b);
    LessIsTotal(b, c);
    if Less(a, c) && b != c {
      LessIsTransitive(a, c, b);
    }
  }

  lemma {:induction false} SortSorts(ms: seq<Migration>)
    ensures Sorted(Sort(ms)) && multiset(Sort(ms)) == multiset(ms)
  {
    hide Sorted, Insert;
    if ms == [] {
      NothingIsSorted();
    } else {
      SortSorts(ms[..|ms| - 1]);
      InsertSorts(Sort(ms[..|ms| - 1]), ms[|ms| - 1]);
      InsertElements(Sort(ms[..|ms| - 1]), ms[|ms| - 1]);
      SplitLast(ms);
    }
  }

  lemma NothingIsSorted()
    ensures Sorted([])
  {
  }

  /** Distinct names leave one order only: registration order and the sorting algorithm do not matter. */
  lemma {:induction false} SortIsUnique(a: seq<Migration>, b: seq<Migration>)
    requires Sorted(a) && Sorted(b) && multiset(a) == multiset(b) && Distinct(a)
    ensures a == b
    decreases |a|
  {
    hide Sorted, Distinct;
    assert |multiset(a)| == |a| && |multiset(b)| == |b|;
    if a != [] {
      LastIsLargest(a, b);
      InitSorted(a);
      InitSorted(b);
      SplitLast(a);
      SplitLast(b);
      assert a == a[..|a| - 1] + [a[|a| - 1]] && b == b[..|b| - 1] + [b[|b| - 1]];
      assert multiset(a[..|a| - 1]) == multiset(a) - multiset{a[|a| - 1]};
      assert multiset(b[..|b| - 1]) == multiset(b) - multiset{b[|b| - 1]};
      SortIsUnique(a[..|a| - 1], b[..|b| - 1]);
    }
  }

  lemma InitSorted(a: seq<Migration>)
    requires Sorted(a) && a != []
    ensures Sorted(a[..|a| - 1]) && (Distinct(a) ==> Distinct(a[..|a| - 1]))
  {
    hide Less;
  }

  lemma LastIsLargest(a: seq<Migration>, b: seq<Migration>)
    requires Sorted(a) && Sorted(b) && multiset(a) == multiset(b) && Distinct(a) && a != [] && b != []
    ensures a[|a| - 1] == b[|b| - 1]
  {
    hide Less;
    var x, y := a[|a| - 1], b[|b| - 1];
    assert x in multiset(a) && y in multiset(b);
    assert x in b && y in a;
    LessIsTotal(x.name, y.name);
    var j :| 0 <= j < |a| && a[j] == y;
    var i :| 0 <= i < |b| && b[i] == x;
    LessIsTotal(y.name, y.name);
    assert !Less(x.name, y.name) && !Less(y.name, x.name);
  }

  /** The runner's list is the registered migrations, no name before one that is smaller at the first
    * character where they differ. */
  lemma RunnerOrder(ms: seq<Migration>, i: nat, j: nat, k: nat)
    requires i < |Sort(ms)| && j < |Sort(ms)| && SmallerAt(Sort(ms)[i].name, Sort(ms)[j].name, k)
    ensures i < j
  {
    hide Less, Sort;
    SortSorts(ms);
    var a, b := Sort(ms)[i].name, Sort(ms)[j].name;
    LessIsLexicographic(a, b);
    LessIsTotal(a, b);
  }

  // ---------------------------------------------------------------------------
  // The objects
  // ---------------------------------------------------------------------------

  lemma StatementsStep(d: Content, statements: seq<Statement>, i: nat)
    requires i < |statements|
    ensures
      Statements(d, statements[i..])
      == match statements[i](d) case None => None case Some(d') => Statements(d', statements[i + 1..])
  {
    assert statements[i..][1..] == statements[i + 1..];
  }

  lemma NoStatements(d: Content, statements: seq<Statement>)
    requires statements == []
    ensures Statements(d, statements) == Some(d)
  {
  }

  /** The handle is not finalized, and its savepoint is on the stack. */
  predicate Open(s: Session, h: nat) {
    h < |s.handles| && !s.handles[h].done && Index(s.tx.saves, s.handles[h].name) >= 0
  }

  lemma RawStep(strict: bool, s: Session, statements: seq<Statement>)
    ensures Step(strict, s, Raw(statements)) == Session(AfterRaw(s.tx, statements), s.handles, s.next + 1)
  {
    RawSqlIsAtomic(strict, s.tx, s.next + 1, statements);
    hide RawSql, AfterRaw;
  }

  /** What is committed, and how many transactions were begun and ended and how often one was asked to end. */
  class Database {
    var content: Content
    var begun: nat
    var ended: nat
    var finalizations: nat

    constructor (content: Content)
      ensures this.content == content && begun == ended == finalizations == 0
    {
      this.content, begun, ended, finalizations := content, 0, 0, 0;
    }

    method BeginMigration(strict: bool, next: nat, fault: bool) returns (tx: MigrationTx?)
      modifies this`begun
      ensures tx == null <==> fault
      ensures begun == old(begun) + if fault then 0 else 1
      ensures tx != null ==>
                && fresh(tx) && tx.db == this && tx.strict == strict && !tx.finished
                && tx.View() == Opening(content, next)
    {
      if fault {
        return null;
      }
      begun := begun + 1;
      tx := new MigrationTx(this, strict, next);
    }
  }

  /** sqlMigrationTx with the savepoints opened in it. */
  class MigrationTx {
    const db: Database
    const strict: bool
    var tx: Tx
    var handles: seq<Handle>
    var next: nat
    var finished: bool

    ghost function View(): Session
      reads this
    {
      Session(tx, handles, next)
    }

    constructor (db: Database, strict: bool, next: nat)
      ensures View() == Opening(db.content, next) && this.db == db && this.strict == strict && !finished
    {
      this.db, this.strict, tx, handles, this.next := db, strict, Tx(db.content, [], false), [], next;
      finished := false;
    }

    /** A transaction ends once; asked again, it answers that it is done. */
    method CommitTx(fault: bool) returns (ok: bool)
      modifies this`finished, db`content, db`ended, db`finalizations
      ensures finished && ok == (!old(finished) && !fault)
      ensures db.content == (if ok then tx.cur else old(db.content))
      ensures db.ended == old(db.ended) + if old(finished) then 0 else 1
      ensures db.finalizations == old(db.finalizations) + 1
    {
      db.finalizations := db.finalizations + 1;
      if finished {
        return false;
      }
      finished := true;
      db.ended := db.ended + 1;
      if fault {
        return false;
      }
      db.content := tx.cur;
      return true;
    }

    method RollbackTx(fault: bool) returns (ok: bool)
      modifies this`finished, db`ended, db`finalizations
      ensures finished && ok == (!old(finished) && !fault)
      ensures db.ended == old(db.ended) + if old(finished) then 0 else 1
      ensures db.finalizations == old(db.finalizations) + 1
    {
      db.finalizations := db.finalizations + 1;
      if finished {
        return false;
      }
      finished := true;
      db.ended := db.ended + 1;
      return !fault;
    }

    method Execute(statement: Statement) returns (ok: bool)
      modifies this`tx
      ensures (tx, ok) == Exec(strict, old(tx), statement)
    {
      var (after, done) := Exec(strict, tx, statement);
      tx, ok := after, done;
    }

    method OpenSavepoint() returns (ok: bool)
      modifies this
      ensures View() == Step(strict, old(View()), Begin) && ok == !old(tx.aborted) && finished == old(finished)
    {
      next := next + 1;
      var (after, done) := Savepoint(tx, next);
      tx, ok := after, done;
      if ok {
        handles := handles + [Handle(next, false)];
      }
    }

    /** Succeeds exactly when the savepoint is still open and the transaction not blocked. */
    method CommitSavepoint(h: nat) returns (ok: bool)
      modifies this
      ensures View() == Step(strict, old(View()), Commit(h)) && finished == old(finished)
      ensures ok <==> Open(old(View()), h) && !old(tx.aborted)
    {
      if h >= |handles| || handles[h].done {
        return false;
      }
      handles := handles[h := handles[h].(done := true)];
      var (after, done) := Release(strict, tx, handles[h].name);
      tx, ok := after, done;
    }

    /** Succeeds exactly when the savepoint is still open, blocked or not. */
    method RollbackSavepoint(h: nat) returns (ok: bool)
      modifies this
      ensures View() == Step(strict, old(View()), Rollback(h)) && finished == old(finished)
      ensures ok <==> Open(old(View()), h)
    {
      if h >= |handles| || handles[h].done {
        return false;
      }
      handles := handles[h := handles[h].(done := true)];
      var (after, done) := RollbackTo(strict, tx, handles[h].name);
      tx, ok := after, done;
      if ok {
        var (after2, done2) := Release(strict, tx, handles[h].name);
        tx, ok := after2, done2;
      }
    }

    /** The statements in order, up to the first that fails. */
    method ExecuteAll(statements: seq<Statement>) returns (ok: bool)
      requires !tx.aborted
      modifies this`tx
      ensures tx.saves == old(tx.saves) && (ok <==> Statements(old(tx.cur), statements).Some?)
      ensures ok ==> tx == old(tx).(cur := Statements(old(tx.cur), statements).value)
    {
      hide Statements;
      var i := 0;
      while i < |statements|
        invariant 0 <= i <= |statements| && tx == old(tx).(cur := tx.cur)
        invariant Statements(old(tx.cur), statements) == Statements(tx.cur, statements[i..])
      {
        StatementsStep(tx.cur, statements, i);
        ok := Execute(statements[i]);
        if !ok {
          return;
        }
        i := i + 1;
      }
      NoStatements(tx.cur, statements[i..]);
      return true;
    }

    /** The whole call, or nothing of it; an already blocked transaction stays as it is. */
    method ExecuteMigrationSQL(statements: seq<Statement>) returns (ok: bool)
      modifies this
      ensures View() == Step(strict, old(View()), Raw(statements)) && finished == old(finished)
      ensures ok <==> !old(tx.aborted) && Statements(old(tx.cur), statements).Some?
    {
      RawStep(strict, View(), statements);
      hide Statements, Release, Undone, Step;
      next := next + 1;
      ghost var before := tx;
      var (tx1, started) := Savepoint(tx, next);
      tx := tx1;
      if !started {
        return false;
      }
      ok := ExecuteAll(statements);
      TopSavepoint(strict, before, next, tx);
      if !ok {
        tx := Undone(strict, tx, next);
        return;
      }
      var (tx2, released) := Release(strict, tx, next);
      tx, ok := tx2, released;
    }

    method Perform(op: Op)
      modifies this
      ensures View() == Step(strict, old(View()), op) && finished == old(finished)
    {
      match op {
        case Run(statement) => var _ := Execute(statement);
        case Begin => var _ := OpenSavepoint();
        case Commit(h) => var _ := CommitSavepoint(h);
        case Rollback(h) => var _ := RollbackSavepoint(h);
        case Raw(statements) => var _ := ExecuteMigrationSQL(statements);
      }
    }

    method PerformAll(ops: seq<Op>)
      modifies this
      ensures View() == Steps(strict, old(View()), ops) && finished == old(finished)
    {
      hide Step;
      var i := 0;
      while i < |ops|
        invariant 0 <= i <= |ops|
        invariant View() == Steps(strict, old(View()), ops[..i]) && finished == old(finished)
      {
        assert ops[..i + 1][..i] == ops[..i];
        Perform(ops[i]);
        i := i + 1;
      }
      assert ops[..i] == ops;
    }
  }

  class Runner {
    const strict: bool
    const migrations: seq<Migration>
    const db: Database
    var savepointSeq: nat

    constructor (strict: bool, db: Database, migrations: seq<Migration>)
      ensures Sorted(this.migrations) && multiset(this.migrations) == multiset(migrations)
      ensures this.strict == strict && this.db == db
    {
      SortSorts(migrations);
      this.strict, this.db, this.migrations, savepointSeq := strict, db, Sort(migrations), 0;
    }

    /** One migration lands whole with its row, or the committed content is untouched; and on every path the
      * transaction, once begun, is asked to end and ends exactly once. */
    method Apply(m: Migration, f: Faults) returns (verdict: Verdict)
      modifies this, db
      ensures verdict.Done? <==> Attempt(strict, old(db.content), m, f).Some?
      ensures db.content == if verdict.Done? then Attempt(strict, old(db.content), m, f).value else old(db.content)
      ensures verdict.Panic? <==> !f.begin && m.up(old(db.content)).ending.Panicked?
      ensures
        var one := if f.begin then 0 else 1;
        && db.begun == old(db.begun) + one && db.ended == old(db.ended) + one
        && db.finalizations == old(db.finalizations) + one
    {
      hide Attempt;
      var tx := db.BeginMigration(strict, savepointSeq, f.begin);
      if tx == null {
        AttemptCases(strict, db.content, m, f);
        return Error;
      }
      var finalized;
      finalized, verdict := Inside(tx, m, f);
      // the deferred function, which a panic runs as well
      if !finalized {
        var _ := tx.RollbackTx(f.rollback);
      }
    }

    /** The body of apply after Begin, up to its return or panic. */
    method Inside(tx: MigrationTx, m: Migration, f: Faults) returns (finalized: bool, verdict: Verdict)
      requires tx.db == db && tx.strict == strict && !tx.finished && !f.begin
      requires tx.View() == Opening(db.content, savepointSeq)
      modifies this, tx, db`content, db`ended, db`finalizations
      ensures verdict.Done? <==> Attempt(strict, old(db.content), m, f).Some?
      ensures db.content == if verdict.Done? then Attempt(strict, old(db.content), m, f).value else old(db.content)
      ensures verdict.Panic? <==> m.up(old(db.content)).ending.Panicked?
      ensures finalized == tx.finished
      ensures db.ended == old(db.ended) + (if finalized then 1 else 0)
      ensures db.finalizations == old(db.finalizations) + (if finalized then 1 else 0)
    {
      hide Attempt;
      AttemptCases(strict, db.content, m, f);
      var script := m.up(db.content);
      CounterDoesNotMatter(strict, db.content, savepointSeq, script.ops);
      tx.PerformAll(script.ops);
      savepointSeq := tx.next;
      if script.ending.Panicked? {
        return false, Panic;
      }
      if script.ending.Failed? {
        return false, Error;
      }
      var ok := tx.Execute(Mark(m.name));
      if !ok || f.mark {
        return false, Error;
      }
      ok := tx.CommitTx(f.commit);
      return true, if ok then Done else Error;
    }

    /** The committed content is the in-order application of the longest prefix of the pending migrations
      * that lands. */
    method RunPending(readable: bool, faults: string -> Faults) returns (ran: seq<string>, verdict: Verdict)
      modifies this, db
      ensures !readable ==> db.content == old(db.content) && ran == [] && verdict.Error?
      ensures
        var pending := Pending(migrations, old(db.content).applied);
        readable ==> RanPrefix(strict, old(db.content), pending, faults, ran, db.content, verdict)
      ensures db.begun - old(db.begun) == db.ended - old(db.ended) == db.finalizations - old(db.finalizations)
    {
      if !readable {
        return [], Error;
      }
      ran, verdict := ApplyPending(db.content.applied, faults);
    }

    method ApplyPending(applied: set<string>, faults: string -> Faults) returns (ran: seq<string>, verdict: Verdict)
      modifies this, db
      ensures RanPrefix(strict, old(db.content), Pending(migrations, applied), faults, ran, db.content, verdict)
      ensures db.begun - old(db.begun) == db.ended - old(db.ended) == db.finalizations - old(db.finalizations)
    {
      hide Attempt, Chain, Names, Pending, RanPrefix;
      NothingYet(strict, db.content, migrations[..0], applied, faults);
      ran := [];
      var i := 0;
      while i < |migrations|
        invariant 0 <= i <= |migrations|
        invariant ran == Names(Pending(migrations[..i], applied))
        invariant Chain(strict, old(db.content), Pending(migrations[..i], applied), faults) == Some(db.content)
        invariant db.begun - old(db.begun) == db.ended - old(db.ended) == db.finalizations - old(db.finalizations)
      {
        var m := migrations[i];
        Advance(strict, old(db.content), migrations, i, applied, faults, db.content);
        if m.name !in applied {
          verdict := Apply(m, faults(m.name));
          if !verdict.Done? {
            return;
          }
          ran := ran + [m.name];
        }
        i := i + 1;
      }
      assert migrations[..i] == migrations;
      Finishes(strict, old(db.content), Pending(migrations, applied), faults, db.content);
      return ran, Done;
    }
  }

  lemma AttemptCases(strict: bool, c: Content, m: Migration, f: Faults)
    ensures f.begin || f.mark || f.commit || !m.up(c).ending.Returned? ==> Attempt(strict, c, m, f).None?
    ensures
      var (tx, ok) := Exec(strict, Steps(strict, Opening(c, 0), m.up(c).ops).tx, Mark(m.name));
      !f.begin && m.up(c).ending.Returned? ==>
        Attempt(strict, c, m, f) == if f.mark || !ok || f.commit then None else Some(tx.cur)
  {
    hide Steps;
  }

  /** The names that ran are a prefix of the pending migrations, the content is what that prefix leads to,
    * and it is the longest that lands. */
  ghost predicate RanPrefix(strict: bool, before: Content, pending: seq<Migration>, faults: string -> Faults,
                               ran: seq<string>, after: Content, verdict: Verdict) {
    && |ran| <= |pending| && ran == Names(pending[..|ran|])
    && Chain(strict, before, pending[..|ran|], faults) == Some(after)
    && (verdict.Done? <==> |ran| == |pending|)
    && (|ran| < |pending| ==> Chain(strict, before, pending[..|ran| + 1], faults).None?)
  }

  lemma Advance(strict: bool, c: Content, ms: seq<Migration>, i: nat, applied: set<string>, faults: string -> Faults,
                   now: Content)
    requires i < |ms| && Chain(strict, c, Pending(ms[..i], applied), faults) == Some(now)
    ensures ms[i].name in applied ==> Pending(ms[..i + 1], applied) == Pending(ms[..i], applied)
    ensures ms[i].name !in applied ==>
      var next := Attempt(strict, now, ms[i], faults(ms[i].name));
      && Names(Pending(ms[..i + 1], applied)) == Names(Pending(ms[..i], applied)) + [ms[i].name]
      && Chain(strict, c, Pending(ms[..i + 1], applied), faults) == next
      && (next.None? ==> forall verdict: Verdict | !verdict.Done? ::
            RanPrefix(strict, c, Pending(ms, applied), faults, Names(Pending(ms[..i], applied)), now, verdict))
  {
    hide Chain, Names, Pending, Attempt, RanPrefix;
    PendingStep(ms, i, applied);
    if ms[i].name !in applied {
      NextLink(strict, c, Pending(ms[..i], applied), ms[i], faults, now);
      NamesOf(Pending(ms[..i], applied), ms[i]);
      StopsAt(strict, c, ms, i, applied, faults, now);
    }
  }

  lemma StopsAt(strict: bool, c: Content, ms: seq<Migration>, i: nat, applied: set<string>, faults: string -> Faults,
                now: Content)
    requires i < |ms| && ms[i].name !in applied && Chain(strict, c, Pending(ms[..i], applied), faults) == Some(now)
    ensures Chain(strict, c, Pending(ms[..i], applied) + [ms[i]], faults).None? ==>
      forall verdict: Verdict | !verdict.Done? ::
        RanPrefix(strict, c, Pending(ms, applied), faults, Names(Pending(ms[..i], applied)), now, verdict)
  {
    PendingSlices(ms, i, applied);
    NamesLength(Pending(ms[..i], applied));
    hide Chain, Names, Pending;
  }

  lemma Finishes(strict: bool, c: Content, pending: seq<Migration>, faults: string -> Faults, after: Content)
    requires Chain(strict, c, pending, faults) == Some(after)
    ensures RanPrefix(strict, c, pending, faults, Names(pending), after, Done)
  {
    NamesLength(pending);
    hide Chain, Names;
    assert pending[..|pending|] == pending;
  }

  lemma NothingYet(strict: bool, c: Content, ms: seq<Migration>, applied: set<string>, faults: string -> Faults)
    requires ms == []
    ensures Pending(ms, applied) == [] && Names(Pending(ms, applied)) == []
    ensures Chain(strict, c, Pending(ms, applied), faults) == Some(c)
  {
  }

  lemma PendingStep(ms: seq<Migration>, i: nat, applied: set<string>)
    requires i < |ms|
    ensures Pending(ms[..i + 1], applied)
         == if ms[i].name in applied then Pending(ms[..i], applied) else Pending(ms[..i], applied) + [ms[i]]
  {
    assert ms[..i + 1][..i] == ms[..i];
  }

  lemma NamesLength(ms: seq<Migration>)
    ensures |Names(ms)| == |ms|
  {
  }

  lemma NamesOf(ms: seq<Migration>, m: Migration)
    ensures |Names(ms)| == |ms| && Names(ms + [m]) == Names(ms) + [m.name]
  {
  }

  lemma CounterDoesNotMatter(strict: bool, c: Content, k: nat, ops: seq<Op>)
    ensures
      var a, b := Steps(strict, Opening(c, k), ops).tx, Steps(strict, Opening(c, 0), ops).tx;
      a.cur == b.cur && a.aborted == b.aborted
  {
    StepsShifted(strict, Opening(c, 0), ops, k);
    assert Shift(Opening(c, 0), k) == Opening(c, k);
    hide Steps;
  }

  lemma NextLink(strict: bool, c: Content, ms: seq<Migration>, m: Migration, faults: string -> Faults, c': Content)
    requires Chain(strict, c, ms, faults) == Some(c')
    ensures Chain(strict, c, ms + [m], faults) == Attempt(strict, c', m, faults(m.name))
  {
    ChainJoins(strict, c, ms, [m], faults);
    hide Attempt;
    assert Chain(strict, c', [m], faults) == Attempt(strict, c', m, faults(m.name));
  }

  lemma PendingSlices(ms: seq<Migration>, i: nat, applied: set<string>)
    requires i < |ms| && ms[i].name !in applied
    ensures
      var before, pending := Pending(ms[..i], applied), Pending(ms, applied);
      |before| < |pending| && pending[..|before|] == before && pending[..|before| + 1] == before + [ms[i]]
  {
    PendingPrefix(ms, i, applied);
  }

  lemma {:induction false} PendingPrefix(ms: seq<Migration>, i: nat, applied: set<string>)
    requires i < |ms| && ms[i].name !in applied
    ensures Pending(ms[..i], applied) + [ms[i]] <= Pending(ms, applied)
    decreases |ms|
  {
    if i == |ms| - 1 {
    } else {
      assert ms[..|ms| - 1][..i] == ms[..i];
      PendingPrefix(ms[..|ms| - 1], i, applied);
    }
  }
}
