/** Migrations: nested savepoints inside the runner's transaction, and the runner itself.
  *
  * A statement is any partial change of the database; `strict` is the Postgres rule that a failed statement
  * blocks its transaction until a rollback. */
module Migrations {
  import opened Wrappers

  /** The tables' rows, and the tracker's. */
  datatype Content = Content(tables: map<string, seq<string>>, applied: set<string>)

  type Statement = Content -> Option<Content>

  // ---------------------------------------------------------------------------
  // A transaction with savepoints
  // ---------------------------------------------------------------------------

  datatype Save = Save(name: nat, snapshot: Content)
  datatype Tx = Tx(cur: Content, saves: seq<Save>, aborted: bool)

  function Refuse(strict: bool, tx: Tx): Tx {
    tx.(aborted := tx.aborted || strict)
  }

  function Exec(strict: bool, tx: Tx, statement: Statement): (Tx, bool) {
    if tx.aborted then (tx, false)
    else match statement(tx.cur)
      case None => (Refuse(strict, tx), false)
      case Some(d) => (tx.(cur := d), true)
  }

  function Savepoint(tx: Tx, name: nat): (Tx, bool) {
    if tx.aborted then (tx, false) else (tx.(saves := tx.saves + [Save(name, tx.cur)]), true)
  }

  /** The position of the latest savepoint of that name, or -1. */
  function Index(saves: seq<Save>, name: nat): (i: int)
    ensures -1 <= i < |saves| && (i >= 0 ==> saves[i].name == name)
    ensures forall j | i < j < |saves| :: saves[j].name != name
  {
    if saves == [] then -1
    else if saves[|saves| - 1].name == name then |saves| - 1
    else Index(saves[..|saves| - 1], name)
  }

  function Release(strict: bool, tx: Tx, name: nat): (Tx, bool) {
    var i := Index(tx.saves, name);
    if tx.aborted || i < 0 then (Refuse(strict, tx), false) else (tx.(saves := tx.saves[..i]), true)
  }

  function RollbackTo(strict: bool, tx: Tx, name: nat): (Tx, bool) {
    var i := Index(tx.saves, name);
    if i < 0 then (Refuse(strict, tx), false)
    else (Tx(tx.saves[i].snapshot, tx.saves[..i + 1], false), true)
  }

  /** ROLLBACK TO and, if that worked, RELEASE. */
  function Undone(strict: bool, tx: Tx, name: nat): Tx {
    var (tx', ok) := RollbackTo(strict, tx, name);
    if ok then Release(strict, tx', name).0 else tx'
  }

  /** Statements in order, up to the first that fails. */
  function ExecAll(strict: bool, tx: Tx, statements: seq<Statement>): (Tx, bool)
    decreases |statements|
  {
    if statements == [] then (tx, true)
    else
      var (tx', ok) := Exec(strict, tx, statements[0]);
      if ok then ExecAll(strict, tx', statements[1..]) else (tx', false)
  }

  /** ExecuteMigrationSQL: the statements inside a savepoint of their own. */
  function RawSql(strict: bool, tx: Tx, name: nat, statements: seq<Statement>): (Tx, bool) {
    var (tx1, started) := Savepoint(tx, name);
    if !started then (tx1, false)
    else
      var (tx2, ok) := ExecAll(strict, tx1, statements);
      if ok then Release(strict, tx2, name)
      else (Undone(strict, tx2, name), false)
  }

  /** What the statements do to the content, if all of them succeed. */
  function Statements(d: Content, statements: seq<Statement>): Option<Content>
    decreases |statements|
  {
    if statements == [] then Some(d)
    else match statements[0](d)
      case None => None
      case Some(d') => Statements(d', statements[1..])
  }

  lemma {:induction false} ExecAllCases(strict: bool, tx: Tx, statements: seq<Statement>)
    requires !tx.aborted
    ensures
      var (tx', ok) := ExecAll(strict, tx, statements);
      && tx'.saves == tx.saves
      && (ok <==> Statements(tx.cur, statements).Some?)
      && (ok ==> tx' == tx.(cur := Statements(tx.cur, statements).value))
    decreases |statements|
  {
    if statements != [] {
      var (tx', ok) := Exec(strict, tx, statements[0]);
      if ok {
        ExecAllCases(strict, tx', statements[1..]);
      }
    }
  }

  /** The statements' effect, or none. */
  function AfterRaw(tx: Tx, statements: seq<Statement>): Tx {
    if tx.aborted || Statements(tx.cur, statements).None? then tx
    else tx.(cur := Statements(tx.cur, statements).value)
  }

  /** A raw-SQL call takes effect as a whole, or leaves the transaction exactly as it was. */
  lemma RawSqlIsAtomic(strict: bool, tx: Tx, name: nat, statements: seq<Statement>)
    ensures RawSql(strict, tx, name, statements)
         == (AfterRaw(tx, statements), !tx.aborted && Statements(tx.cur, statements).Some?)
  {
    if !tx.aborted {
      var (tx1, started) := Savepoint(tx, name);
      ExecAllCases(strict, tx1, statements);
      TopSavepoint(strict, tx, name, ExecAll(strict, tx1, statements).0);
      hide Index, Statements, ExecAll;
    }
  }

  /** The two ways out of a savepoint that is on top of the stack. */
  lemma TopSavepoint(strict: bool, before: Tx, name: nat, tx: Tx)
    requires !before.aborted && tx.saves == before.saves + [Save(name, before.cur)]
    ensures Undone(strict, tx, name) == before
    ensures !tx.aborted ==> Release(strict, tx, name) == (tx.(saves := before.saves), true)
  {
    assert Index(tx.saves, name) == |before.saves|;
    assert tx.saves[..|before.saves|] == before.saves && tx.saves[..|before.saves| + 1] == tx.saves;
  }

  // ---------------------------------------------------------------------------
  // What a migration does
  // ---------------------------------------------------------------------------

  datatype Handle = Handle(name: nat, done: bool)

  /** A migration's calls; `h` is the number of the Begin that gave the handle. */
  datatype Op =
    | Run(statement: Statement)
    | Begin
    | Commit(h: nat)
    | Rollback(h: nat)
    | Raw(statements: seq<Statement>)

  /** The transaction, the savepoint handles given out, and the savepoint name counter. */
  datatype Session = Session(tx: Tx, handles: seq<Handle>, next: nat)

  function Closed(s: Session, h: nat, tx: Tx): Session
    requires h < |s.handles|
  {
    s.(tx := tx, handles := s.handles[h := s.handles[h].(done := true)])
  }

  function Step(strict: bool, s: Session, op: Op): Session {
    match op
    case Run(statement) => s.(tx := Exec(strict, s.tx, statement).0)
    case Begin =>
      var (tx, ok) := Savepoint(s.tx, s.next + 1);
      Session(tx, if ok then s.handles + [Handle(s.next + 1, false)] else s.handles, s.next + 1)
    case Commit(h) =>
      if h >= |s.handles| || s.handles[h].done then s
      else Closed(s, h, Release(strict, s.tx, s.handles[h].name).0)
    case Rollback(h) =>
      if h >= |s.handles| || s.handles[h].done then s
      else Closed(s, h, Undone(strict, s.tx, s.handles[h].name))
    case Raw(statements) => Session(RawSql(strict, s.tx, s.next + 1, statements).0, s.handles, s.next + 1)
  }

  function Steps(strict: bool, s: Session, ops: seq<Op>): Session
    decreases |ops|
  {
    if ops == [] then s else Step(strict, Steps(strict, s, ops[..|ops| - 1]), ops[|ops| - 1])
  }

  /** Savepoint names grow towards the top of the stack and were all drawn from the counter. */
  ghost predicate WellNamed(s: Session) {
    && (forall i | 0 <= i < |s.tx.saves| :: s.tx.saves[i].name <= s.next)
    && (forall i, j | 0 <= i < j < |s.tx.saves| :: s.tx.saves[i].name < s.tx.saves[j].name)
    && (forall h | 0 <= h < |s.handles| :: s.handles[h].name <= s.next)
  }

  lemma StepKeepsNames(strict: bool, s: Session, op: Op)
    requires WellNamed(s)
    ensures WellNamed(Step(strict, s, op))
  {
    match op {
      case Run(statement) =>
        assert Exec(strict, s.tx, statement).0.saves == s.tx.saves;
        hide Exec;
      case Begin =>
        BeginKeepsNames(strict, s);
      case Commit(h) =>
        ReleasePrefix(strict, s.tx, if h < |s.handles| then s.handles[h].name else 0);
        if h < |s.handles| && !s.handles[h].done {
          FinalizingKeepsNames(s, h, Release(strict, s.tx, s.handles[h].name).0);
        }
        hide Release, Closed, WellNamed;
      case Rollback(h) =>
        RollbackKeepsNames(strict, s, h);
      case Raw(statements) =>
        RawSqlIsAtomic(strict, s.tx, s.next + 1, statements);
        assert AfterRaw(s.tx, statements).saves == s.tx.saves;
        hide RawSql, Statements, AfterRaw;
    }
  }

  lemma BeginKeepsNames(strict: bool, s: Session)
    requires WellNamed(s)
    ensures WellNamed(Step(strict, s, Begin))
  {
  }

  lemma RollbackKeepsNames(strict: bool, s: Session, h: nat)
    requires WellNamed(s)
    ensures WellNamed(Step(strict, s, Rollback(h)))
  {
    hide WellNamed;
    if h < |s.handles| && !s.handles[h].done {
      var (tx, ok) := RollbackTo(strict, s.tx, s.handles[h].name);
      assert tx.saves <= s.tx.saves;
      ReleasePrefix(strict, tx, s.handles[h].name);
      hide Release, RollbackTo, Closed;
      FinalizingKeepsNames(s, h, if ok then Release(strict, tx, s.handles[h].name).0 else tx);
    }
  }

  lemma ReleasePrefix(strict: bool, tx: Tx, name: nat)
    ensures Release(strict, tx, name).0.saves <= tx.saves
  {
  }

  lemma FinalizingKeepsNames(s: Session, h: nat, tx: Tx)
    requires WellNamed(s) && h < |s.handles| && tx.saves <= s.tx.saves
    ensures WellNamed(Closed(s, h, tx))
  {
    assert forall i | 0 <= i < |tx.saves| :: tx.saves[i] == s.tx.saves[i];
  }

  lemma {:induction false} EveryRunIsWellNamed(strict: bool, content: Content, next: nat, ops: seq<Op>)
    ensures WellNamed(Steps(strict, Session(Tx(content, [], false), [], next), ops))
    decreases |ops|
  {
    if ops != [] {
      EveryRunIsWellNamed(strict, content, next, ops[..|ops| - 1]);
      hide WellNamed, Step;
      var start := Session(Tx(content, [], false), [], next);
      StepKeepsNames(strict, Steps(strict, start, ops[..|ops| - 1]), ops[|ops| - 1]);
    }
  }

  // ---------------------------------------------------------------------------
  // Nested savepoints are scopes
  // ---------------------------------------------------------------------------

  /** The op finalizes only handles given out after handle `h`. */
  predicate Inside(op: Op, h: nat) {
    (op.Commit? || op.Rollback?) ==> op.h > h
  }

  /** Inside the scope opened as handle `h`: the stack below still holds what it held. */
  ghost predicate InScope(s: Session, h: nat, below: seq<Save>) {
    && WellNamed(s)
    && |below| > 0 && below <= s.tx.saves
    && h < |s.handles| && s.handles[h] == Handle(below[|below| - 1].name, false)
    && (forall g | h < g < |s.handles| :: s.handles[g].name > s.handles[h].name)
  }

  lemma NamesAboveAreAbove(s: Session, h: nat, below: seq<Save>, name: nat)
    requires InScope(s, h, below) && name > s.handles[h].name
    ensures Index(s.tx.saves, name) < 0 || Index(s.tx.saves, name) >= |below|
  {
    var k := |below| - 1;
    assert s.tx.saves[k] == below[k];
  }

  lemma StepStaysInScope(strict: bool, s: Session, op: Op, h: nat, below: seq<Save>)
    requires InScope(s, h, below) && Inside(op, h)
    ensures InScope(Step(strict, s, op), h, below)
  {
    match op {
      case Run(statement) =>
        assert Exec(strict, s.tx, statement).0.saves == s.tx.saves;
        SameSavesInScope(s, Step(strict, s, op), h, below);
      case Begin =>
        BeginStaysInScope(strict, s, h, below);
      case Commit(g) =>
        if g < |s.handles| && !s.handles[g].done {
          CommitStaysInScope(strict, s, g, h, below);
        }
      case Rollback(g) =>
        if g < |s.handles| && !s.handles[g].done {
          RollbackStaysInScope(strict, s, g, h, below);
        }
      case Raw(statements) =>
        RawSqlIsAtomic(strict, s.tx, s.next + 1, statements);
        assert AfterRaw(s.tx, statements).saves == s.tx.saves;
        hide RawSql, Statements, AfterRaw;
        SameSavesInScope(s, Step(strict, s, op), h, below);
    }
    hide InScope, Release, RollbackTo, Exec, Savepoint, RawSql;
  }

  lemma SameSavesInScope(s: Session, s': Session, h: nat, below: seq<Save>)
    requires InScope(s, h, below) && s'.tx.saves == s.tx.saves && s'.handles == s.handles && s'.next >= s.next
    ensures InScope(s', h, below)
  {
  }

  lemma BeginStaysInScope(strict: bool, s: Session, h: nat, below: seq<Save>)
    requires InScope(s, h, below)
    ensures InScope(Step(strict, s, Begin), h, below)
  {
  }

  lemma CommitStaysInScope(strict: bool, s: Session, g: nat, h: nat, below: seq<Save>)
    requires InScope(s, h, below) && h < g < |s.handles| && !s.handles[g].done
    ensures InScope(Step(strict, s, Commit(g)), h, below)
  {
    NamesAboveAreAbove(s, h, below, s.handles[g].name);
    hide Index;
  }

  lemma RollbackStaysInScope(strict: bool, s: Session, g: nat, h: nat, below: seq<Save>)
    requires InScope(s, h, below) && h < g < |s.handles| && !s.handles[g].done
    ensures InScope(Step(strict, s, Rollback(g)), h, below)
  {
    var name := s.handles[g].name;
    NamesAboveAreAbove(s, h, below, name);
    var i := Index(s.tx.saves, name);
    if i >= 0 {
      var (tx, ok) := RollbackTo(strict, s.tx, name);
      assert Index(tx.saves, name) == i;
      assert Release(strict, tx, name).0.saves == s.tx.saves[..i];
    }
  }

  lemma {:induction false} StepsStayInScope(strict: bool, s: Session, ops: seq<Op>, h: nat, below: seq<Save>)
    requires InScope(s, h, below) && forall op | op in ops :: Inside(op, h)
    ensures InScope(Steps(strict, s, ops), h, below)
    decreases |ops|
  {
    if ops != [] {
      hide InScope;
      StepsStayInScope(strict, s, ops[..|ops| - 1], h, below);
      StepStaysInScope(strict, Steps(strict, s, ops[..|ops| - 1]), ops[|ops| - 1], h, below);
    }
  }

  lemma BeginOpensScope(strict: bool, s: Session)
    requires WellNamed(s) && !s.tx.aborted
    ensures InScope(Step(strict, s, Begin), |s.handles|, s.tx.saves + [Save(s.next + 1, s.tx.cur)])
  {
  }

  /** Whatever a nested transaction does -- statements that fail, further nesting, finalizing twice -- its
    * Rollback puts the enclosing transaction back as it was at Begin. */
  lemma RollbackUndoesScope(strict: bool, s: Session, body: seq<Op>)
    requires WellNamed(s) && !s.tx.aborted
    requires forall op | op in body :: Inside(op, |s.handles|)
    ensures Step(strict, Steps(strict, Step(strict, s, Begin), body), Rollback(|s.handles|)).tx == s.tx
  {
    var h := |s.handles|;
    var below := s.tx.saves + [Save(s.next + 1, s.tx.cur)];
    BeginOpensScope(strict, s);
    StepsStayInScope(strict, Step(strict, s, Begin), body, h, below);
    var s' := Steps(strict, Step(strict, s, Begin), body);
    hide Steps;
    TopIndex(s', h, below);
    var (tx, ok) := RollbackTo(strict, s'.tx, s.next + 1);
    assert tx.saves == below;
    assert Index(tx.saves, s.next + 1) == |s.tx.saves|;
    assert below[..|s.tx.saves|] == s.tx.saves;
  }

  lemma TopIndex(s: Session, h: nat, below: seq<Save>)
    requires InScope(s, h, below)
    ensures Index(s.tx.saves, s.handles[h].name) == |below| - 1
  {
    assert s.tx.saves[|below| - 1] == below[|below| - 1];
  }

  /** Its Commit keeps its writes and no savepoint, unless a failed statement blocks it. */
  lemma CommitKeepsScope(strict: bool, s: Session, body: seq<Op>)
    requires WellNamed(s) && !s.tx.aborted
    requires forall op | op in body :: Inside(op, |s.handles|)
    ensures
      var s' := Steps(strict, Step(strict, s, Begin), body);
      Step(strict, s', Commit(|s.handles|)).tx
      == if s'.tx.aborted then Refuse(strict, s'.tx) else s'.tx.(saves := s.tx.saves)
  {
    var below := s.tx.saves + [Save(s.next + 1, s.tx.cur)];
    BeginOpensScope(strict, s);
    StepsStayInScope(strict, Step(strict, s, Begin), body, |s.handles|, below);
    CommitInScope(strict, Steps(strict, Step(strict, s, Begin), body), |s.handles|, s.tx.saves, below);
    hide InScope, WellNamed, Inside;
  }

  lemma CommitInScope(strict: bool, s: Session, h: nat, saves: seq<Save>, below: seq<Save>)
    requires InScope(s, h, below) && below[..|below| - 1] == saves
    ensures Step(strict, s, Commit(h)).tx == if s.tx.aborted then Refuse(strict, s.tx) else s.tx.(saves := saves)
  {
    TopIndex(s, h, below);
    assert s.tx.saves[..|below| - 1] == below[..|below| - 1];
  }

  lemma StaysDone(strict: bool, s: Session, op: Op, h: nat)
    requires h < |s.handles| && s.handles[h].done
    ensures
      var s' := Step(strict, s, op);
      h < |s'.handles| && s'.handles[h] == s.handles[h]
  {
    hide Exec, Release, Undone, RawSql, Savepoint;
  }

  lemma {:induction false} StepsStayDone(strict: bool, s: Session, ops: seq<Op>, h: nat)
    requires h < |s.handles| && s.handles[h].done
    ensures
      var s' := Steps(strict, s, ops);
      h < |s'.handles| && s'.handles[h] == s.handles[h]
    decreases |ops|
  {
    if ops != [] {
      hide Step;
      StepsStayDone(strict, s, ops[..|ops| - 1], h);
      StaysDone(strict, Steps(strict, s, ops[..|ops| - 1]), ops[|ops| - 1], h);
    }
  }

  /** The op finalizes handle `h`. */
  predicate Finalizes(op: Op, h: nat) {
    op == Commit(h) || op == Rollback(h)
  }

  /** Once finalized, a nested transaction is left alone for good: whatever comes between, a second Commit or
    * Rollback of it changes nothing. */
  lemma FinalizedOnce(strict: bool, s: Session, first: Op, between: seq<Op>, second: Op, h: nat)
    requires Finalizes(first, h) && Finalizes(second, h) && h < |s.handles|
    ensures
      var s' := Steps(strict, Step(strict, s, first), between);
      Step(strict, s', second) == s'
  {
    hide Steps, Release, Undone;
    StepsStayDone(strict, Step(strict, s, first), between, h);
  }

  // ---------------------------------------------------------------------------
  // A failed statement
  // ---------------------------------------------------------------------------

  /** In a blocked transaction nothing has any effect until a rollback. */
  lemma {:induction false} BlockedStays(strict: bool, s: Session, ops: seq<Op>)
    requires s.tx.aborted && forall op | op in ops :: !op.Rollback?
    ensures Steps(strict, s, ops).tx == s.tx
    decreases |ops|
  {
    if ops != [] {
      hide Index;
      var init, op := ops[..|ops| - 1], ops[|ops| - 1];
      assert op in ops;
      BlockedStays(strict, s, init);
    }
  }

  /** Under the Postgres rule a failed statement undoes nothing but blocks everything after it, up to a
    * rollback; without the rule it is as if the statement had not been there. */
  lemma FailureBlocks(strict: bool, s: Session, statement: Statement, ops: seq<Op>)
    requires !s.tx.aborted && statement(s.tx.cur).None? && forall op | op in ops :: !op.Rollback?
    ensures strict ==> Steps(strict, Step(strict, s, Run(statement)), ops).tx == Tx(s.tx.cur, s.tx.saves, true)
    ensures !strict ==> Step(strict, s, Run(statement)) == s
  {
    if strict {
      BlockedStays(strict, Step(strict, s, Run(statement)), ops);
    }
  }

  lemma {:induction false} StepsJoin(strict: bool, s: Session, a: seq<Op>, b: seq<Op>)
    ensures Steps(strict, s, a + b) == Steps(strict, Steps(strict, s, a), b)
    decreases |b|
  {
    if b == [] {
      assert a + b == a;
    } else {
      assert (a + b)[..|a + b| - 1] == a + b[..|b| - 1];
      StepsJoin(strict, s, a, b[..|b| - 1]);
    }
  }

  // ---------------------------------------------------------------------------
  // The counter's value never matters
  // ---------------------------------------------------------------------------

  function ShiftSaves(saves: seq<Save>, k: nat): seq<Save> {
    seq(|saves|, i requires 0 <= i < |saves| => saves[i].(name := saves[i].name + k))
  }

  function ShiftTx(tx: Tx, k: nat): Tx {
    tx.(saves := ShiftSaves(tx.saves, k))
  }

  function ShiftHandles(handles: seq<Handle>, k: nat): seq<Handle> {
    seq(|handles|, i requires 0 <= i < |handles| => handles[i].(name := handles[i].name + k))
  }

  function Shift(s: Session, k: nat): Session {
    Session(ShiftTx(s.tx, k), ShiftHandles(s.handles, k), s.next + k)
  }

  lemma {:induction false} IndexShifted(saves: seq<Save>, name: nat, k: nat)
    ensures Index(ShiftSaves(saves, k), name + k) == Index(saves, name)
  {
    if saves != [] && saves[|saves| - 1].name != name {
      var shifted := ShiftSaves(saves, k);
      assert shifted[..|saves| - 1] == ShiftSaves(saves[..|saves| - 1], k);
      IndexShifted(saves[..|saves| - 1], name, k);
    }
  }

  lemma ReleaseShifted(strict: bool, tx: Tx, name: nat, k: nat)
    ensures Release(strict, ShiftTx(tx, k), name + k)
         == (ShiftTx(Release(strict, tx, name).0, k), Release(strict, tx, name).1)
  {
    IndexShifted(tx.saves, name, k);
    var i := Index(tx.saves, name);
    if i >= 0 {
      assert ShiftSaves(tx.saves, k)[..i] == ShiftSaves(tx.saves[..i], k);
    }
  }

  lemma RollbackToShifted(strict: bool, tx: Tx, name: nat, k: nat)
    ensures RollbackTo(strict, ShiftTx(tx, k), name + k)
         == (ShiftTx(RollbackTo(strict, tx, name).0, k), RollbackTo(strict, tx, name).1)
  {
    IndexShifted(tx.saves, name, k);
    var i := Index(tx.saves, name);
    if i >= 0 {
      assert ShiftSaves(tx.saves, k)[..i + 1] == ShiftSaves(tx.saves[..i + 1], k);
    }
  }

  lemma StepShifted(strict: bool, s: Session, op: Op, k: nat)
    ensures Step(strict, Shift(s, k), op) == Shift(Step(strict, s, op), k)
  {
    hide Step, Shift;
    match op {
      case Run(statement) => RunShifted(strict, s, statement, k);
      case Begin => BeginShifted(strict, s, k);
      case Commit(h) => CommitShifted(strict, s, h, k);
      case Rollback(h) => RollbackShifted(strict, s, h, k);
      case Raw(statements) => RawShifted(strict, s, statements, k);
    }
  }

  lemma RunShifted(strict: bool, s: Session, statement: Statement, k: nat)
    ensures Step(strict, Shift(s, k), Run(statement)) == Shift(Step(strict, s, Run(statement)), k)
  {
    assert Exec(strict, ShiftTx(s.tx, k), statement).0 == ShiftTx(Exec(strict, s.tx, statement).0, k);
    hide Exec, ShiftTx;
  }

  lemma RawTxShifted(strict: bool, tx: Tx, name: nat, statements: seq<Statement>, k: nat)
    ensures RawSql(strict, ShiftTx(tx, k), name + k, statements).0 == ShiftTx(RawSql(strict, tx, name, statements).0, k)
  {
    RawSqlIsAtomic(strict, tx, name, statements);
    RawSqlIsAtomic(strict, ShiftTx(tx, k), name + k, statements);
    hide RawSql, Statements, ShiftSaves;
  }

  lemma RawShifted(strict: bool, s: Session, statements: seq<Statement>, k: nat)
    ensures Step(strict, Shift(s, k), Raw(statements)) == Shift(Step(strict, s, Raw(statements)), k)
  {
    hide RawSql, ShiftTx, ShiftHandles;
    RawTxShifted(strict, s.tx, s.next + 1, statements, k);
  }

  lemma BeginShifted(strict: bool, s: Session, k: nat)
    ensures Step(strict, Shift(s, k), Begin) == Shift(Step(strict, s, Begin), k)
  {
    var saves, d := s.tx.saves, s.tx.cur;
    assert ShiftSaves(saves + [Save(s.next + 1, d)], k) == ShiftSaves(saves, k) + [Save(s.next + 1 + k, d)];
    assert Step(strict, Shift(s, k), Begin).handles == Shift(Step(strict, s, Begin), k).handles;
  }

  lemma CommitShifted(strict: bool, s: Session, h: nat, k: nat)
    ensures Step(strict, Shift(s, k), Commit(h)) == Shift(Step(strict, s, Commit(h)), k)
  {
    if h < |s.handles| && !s.handles[h].done {
      var name := s.handles[h].name;
      var tx := Release(strict, s.tx, name).0;
      ReleaseShifted(strict, s.tx, name, k);
      ClosedShifted(s, h, tx, k);
      hide Release, Closed, ShiftTx;
      assert ShiftHandles(s.handles, k)[h] == Handle(name + k, false);
      hide ShiftHandles;
      assert Step(strict, s, Commit(h)) == Closed(s, h, tx);
      assert Step(strict, Shift(s, k), Commit(h)) == Closed(Shift(s, k), h, ShiftTx(tx, k));
    }
  }

  lemma UndoneShifted(strict: bool, tx: Tx, name: nat, k: nat)
    ensures Undone(strict, ShiftTx(tx, k), name + k) == ShiftTx(Undone(strict, tx, name), k)
  {
    RollbackToShifted(strict, tx, name, k);
    ReleaseShifted(strict, RollbackTo(strict, tx, name).0, name, k);
    hide RollbackTo, Release, ShiftTx;
  }

  lemma RollbackShifted(strict: bool, s: Session, h: nat, k: nat)
    ensures Step(strict, Shift(s, k), Rollback(h)) == Shift(Step(strict, s, Rollback(h)), k)
  {
    if h < |s.handles| && !s.handles[h].done {
      var name := s.handles[h].name;
      UndoneShifted(strict, s.tx, name, k);
      ClosedShifted(s, h, Undone(strict, s.tx, name), k);
      hide Undone, Closed, ShiftTx, Release, RollbackTo;
      assert ShiftHandles(s.handles, k)[h] == Handle(name + k, false);
      hide ShiftHandles;
      assert Step(strict, s, Rollback(h)) == Closed(s, h, Undone(strict, s.tx, name));
      assert Step(strict, Shift(s, k), Rollback(h)) == Closed(Shift(s, k), h, ShiftTx(Undone(strict, s.tx, name), k));
    }
  }

  lemma ClosedShifted(s: Session, h: nat, tx: Tx, k: nat)
    requires h < |s.handles|
    ensures Closed(Shift(s, k), h, ShiftTx(tx, k)) == Shift(Closed(s, h, tx), k)
  {
    assert Closed(Shift(s, k), h, ShiftTx(tx, k)).handles == Shift(Closed(s, h, tx), k).handles;
  }

  lemma {:induction false} StepsShifted(strict: bool, s: Session, ops: seq<Op>, k: nat)
    ensures Steps(strict, Shift(s, k), ops) == Shift(Steps(strict, s, ops), k)
    decreases |ops|
  {
    if ops != [] {
      hide Shift, Step;
      StepsShifted(strict, s, ops[..|ops| - 1], k);
      StepShifted(strict, Steps(strict, s, ops[..|ops| - 1]), ops[|ops| - 1], k);
    }
  }
}
