/** Reading statements back: from the tokens a database executes to the table, the columns and the values, by
  * the words and signs of SQL alone. */
module QueryReader {
  import opened Wrappers
  import opened Rebind
  import opened QueryBuilder

  datatype Clause<V> = IsNull(column: string) | Compare(column: string, sign: char, value: Value<V>)

  datatype Statement<V> =
    | Deleted(table: string, clauses: seq<Clause<V>>)
    | Selected(table: string, clauses: seq<Clause<V>>, one: bool)
    | Counted(table: string, clauses: seq<Clause<V>>)
    | Updated(table: string, sets: seq<(string, Value<V>)>, clauses: seq<Clause<V>>)
    | Raised(table: string, column: string, delta: Value<V>, clauses: seq<Clause<V>>)
    | Inserted(table: string, columns: seq<string>, values: seq<Value<V>>)

  datatype Unreadable = Unreadable

  type Read<V, T> = Result<(T, seq<Token<V>>), Unreadable>

  // ---------------------------------------------------------------------------
  // The reader
  // ---------------------------------------------------------------------------

  predicate Starts<V>(ts: seq<Token<V>>, text: string) {
    |text| <= |ts| && forall i | 0 <= i < |text| :: ts[i].Char? && ts[i].c == text[i]
  }

  function Expect<V>(ts: seq<Token<V>>, text: string): Result<seq<Token<V>>, Unreadable> {
    if Starts(ts, text) then Ok(ts[|text|..]) else Err(Unreadable)
  }

  predicate InWord<V>(t: Token<V>) {
    t.Char? && (IdentifierStart(t.c) || IsDigit(t.c))
  }

  function WordLength<V>(ts: seq<Token<V>>): (n: nat)
    ensures n <= |ts|
    ensures forall i | 0 <= i < n :: ts[i].Char?
  {
    if ts == [] || !InWord(ts[0]) then 0 else 1 + WordLength(ts[1..])
  }

  function ReadWord<V>(ts: seq<Token<V>>): Read<V, string> {
    var n := WordLength(ts);
    if n == 0 then Err(Unreadable)
    else Ok((seq(n, i requires 0 <= i < n => ts[i].c), ts[n..]))
  }

  function ReadValue<V>(ts: seq<Token<V>>): Read<V, Value<V>> {
    if ts == [] || !ts[0].Bound? then Err(Unreadable) else Ok((ts[0].value, ts[1..]))
  }

  function ReadSet<V>(ts: seq<Token<V>>): Read<V, (string, Value<V>)> {
    var (column, rest) :- ReadWord(ts);
    var rest :- Expect(rest, " = ");
    var (value, rest) :- ReadValue(rest);
    Ok(((column, value), rest))
  }

  function ReadClause<V>(ts: seq<Token<V>>): Read<V, Clause<V>> {
    var (column, rest) :- ReadWord(ts);
    if Starts(rest, " IS NULL") then Ok((IsNull(column), rest[8..]))
    else if Starts(rest, " = ") then
      var (value, rest) :- ReadValue(rest[3..]);
      Ok((Compare(column, '=', value), rest))
    else
      var rest :- Expect(rest, " < ");
      var (value, rest) :- ReadValue(rest);
      Ok((Compare(column, '<', value), rest))
  }

  /** One or more items, with `sep` between them. */
  function ReadList<V, T>(item: seq<Token<V>> -> Read<V, T>, sep: string, ts: seq<Token<V>>): Read<V, seq<T>>
    decreases |ts|
  {
    var (x, rest) :- item(ts);
    if |rest| < |ts| && Starts(rest, sep) then
      var (xs, end) :- ReadList(item, sep, rest[|sep|..]);
      Ok(([x] + xs, end))
    else Ok(([x], rest))
  }

  function ReadWhere<V>(ts: seq<Token<V>>): Read<V, seq<Clause<V>>> {
    if Starts(ts, " WHERE ") then ReadList(ReadClause, " AND ", ts[7..]) else Ok(([], ts))
  }

  function ReadEnd<V>(ts: seq<Token<V>>, st: Statement<V>): Result<Statement<V>, Unreadable> {
    if ts == [] then Ok(st) else Err(Unreadable)
  }

  function ReadSelect<V>(ts: seq<Token<V>>): Result<Statement<V>, Unreadable> {
    var (table, rest) :- ReadWord(ts);
    var (clauses, rest) :- ReadWhere(rest);
    if Starts(rest, " LIMIT 1") then ReadEnd(rest[8..], Selected(table, clauses, true))
    else ReadEnd(rest, Selected(table, clauses, false))
  }

  function ReadUpdate<V>(ts: seq<Token<V>>): Result<Statement<V>, Unreadable> {
    var (table, rest) :- ReadWord(ts);
    var rest :- Expect(rest, " SET ");
    var sets := ReadList(ReadSet, ", ", rest);
    if sets.Ok? then
      var (clauses, end) :- ReadWhere(sets.value.1);
      ReadEnd(end, Updated(table, sets.value.0, clauses))
    else
      var (column, rest) :- ReadWord(rest);
      var rest :- Expect(rest, " = " + column + " + ");
      var (delta, rest) :- ReadValue(rest);
      var (clauses, end) :- ReadWhere(rest);
      ReadEnd(end, Raised(table, column, delta, clauses))
  }

  function ReadInsert<V>(ts: seq<Token<V>>): Result<Statement<V>, Unreadable> {
    var (table, rest) :- ReadWord(ts);
    var rest :- Expect(rest, " (");
    var (columns, rest) :- ReadList(ReadWord, ", ", rest);
    var rest :- Expect(rest, ") VALUES (");
    var (values, rest) :- ReadList(ReadValue, ", ", rest);
    var rest :- Expect(rest, ")");
    ReadEnd(rest, Inserted(table, columns, values))
  }

  function ReadTable<V>(ts: seq<Token<V>>): Read<V, (string, seq<Clause<V>>)> {
    var (table, rest) :- ReadWord(ts);
    var (clauses, rest) :- ReadWhere(rest);
    Ok(((table, clauses), rest))
  }

  function ReadStatement<V>(ts: seq<Token<V>>): Result<Statement<V>, Unreadable> {
    if Starts(ts, "DELETE FROM ") then
      var (what, end) :- ReadTable(ts[12..]);
      ReadEnd(end, Deleted(what.0, what.1))
    else if Starts(ts, "SELECT COUNT(*) FROM ") then
      var (what, end) :- ReadTable(ts[21..]);
      ReadEnd(end, Counted(what.0, what.1))
    else if Starts(ts, "SELECT * FROM ") then ReadSelect(ts[14..])
    else if Starts(ts, "UPDATE ") then ReadUpdate(ts[7..])
    else
      var rest :- Expect(ts, "INSERT INTO ");
      ReadInsert(rest)
  }

  // ---------------------------------------------------------------------------
  // Fragments as tokens
  // ---------------------------------------------------------------------------

  lemma CharsJoin<V>(a: string, b: string)
    ensures Chars<V>(a + b) == Chars<V>(a) + Chars<V>(b)
  {
  }

  lemma {:induction false} MeantJoins<V>(a: seq<Fragment<V>>, b: seq<Fragment<V>>)
    ensures Meant(a + b) == Meant(a) + Meant(b)
    decreases |b|
  {
    hide Chars;
    if b == [] {
      assert a + b == a;
    } else {
      var init, last := b[..|b| - 1], b[|b| - 1];
      assert (a + b)[..|a + b| - 1] == a + init && (a + b)[|a + b| - 1] == last;
      MeantJoins(a, init);
      Associative(Meant(a), Meant(init), match last case Words(text) => Chars(text) case Hole(value) => [Bound(value)]);
    }
  }

  lemma MeantOne<V>(f: Fragment<V>)
    ensures Meant([f]) == match f case Words(text) => Chars(text) case Hole(value) => [Bound(value)]
  {
    assert [f][..0] == [];
  }

  lemma MeantPair<V>(text: string, value: Value<V>)
    ensures Meant([Words(text), Hole(value)]) == Chars(text) + [Bound(value)]
  {
    MeantOne<V>(Words(text));
    MeantOne(Hole(value));
    MeantJoins([Words(text)], [Hole(value)]);
    assert [Words(text)] + [Hole(value)] == [Words(text), Hole(value)];
  }

  lemma {:induction false} JoinedFirst<V>(parts: seq<seq<Fragment<V>>>, sep: string)
    requires |parts| > 1
    ensures Joined(parts, sep) == parts[0] + ([Words(sep)] + Joined(parts[1..], sep))
    decreases |parts|
  {
    var init, last := parts[..|parts| - 1], parts[|parts| - 1];
    if |parts| > 2 {
      JoinedFirst(init, sep);
      assert init[1..] == parts[1..][..|parts| - 2] && parts[1..][|parts| - 2] == last;
      Associative(parts[0], [Words(sep)] + Joined(init[1..], sep), [Words(sep)] + last);
      Associative([Words(sep)], Joined(init[1..], sep), [Words(sep)] + last);
      assert Joined(parts, sep) == parts[0] + ([Words(sep)] + Joined(init[1..], sep)) + ([Words(sep)] + last);
    } else {
      assert Joined(init, sep) == parts[0] && Joined(parts[1..], sep) == last;
    }
  }

  // ---------------------------------------------------------------------------
  // Reading what was written
  // ---------------------------------------------------------------------------

  lemma ExpectWritten<V>(text: string, rest: seq<Token<V>>)
    ensures Starts(Chars(text) + rest, text) && Expect(Chars(text) + rest, text) == Ok(rest)
    ensures (Chars(text) + rest)[|text|..] == rest
  {
  }

  predicate EndsWord<V>(rest: seq<Token<V>>) {
    rest == [] || !InWord(rest[0])
  }

  lemma {:induction false} WordLengthWritten<V>(name: string, rest: seq<Token<V>>)
    requires forall c | c in name :: IdentifierStart(c) || IsDigit(c)
    requires EndsWord(rest)
    ensures WordLength(Chars(name) + rest) == |name|
  {
    if name == [] {
      assert Chars(name) + rest == rest;
    } else {
      assert (Chars(name) + rest)[1..] == Chars(name[1..]) + rest;
      WordLengthWritten(name[1..], rest);
    }
  }

  lemma WordWritten<V>(name: string, rest: seq<Token<V>>)
    requires ValidIdentifier(name) && EndsWord(rest)
    ensures ReadWord(Chars(name) + rest) == Ok((name, rest))
  {
    var ts := Chars(name) + rest;
    WordLengthWritten(name, rest);
    assert seq(|name|, i requires 0 <= i < |name| => ts[i].c) == name;
    assert ts[|name|..] == rest;
  }

  lemma ValueWritten<V>(value: Value<V>, rest: seq<Token<V>>)
    ensures ReadValue([Bound(value)] + rest) == Ok((value, rest))
  {
  }

  /** Text that does not begin like a word. */
  lemma EndsBefore<V>(text: string, rest: seq<Token<V>>)
    requires text != [] && !IdentifierStart(text[0]) && !IsDigit(text[0])
    ensures EndsWord(Chars(text) + rest)
  {
    assert (Chars<V>(text) + rest)[0] == Char(text[0]);
  }

  lemma SetWritten<V>(column: string, value: Value<V>, rest: seq<Token<V>>)
    requires ValidIdentifier(column)
    ensures ReadSet(Meant([Words(column + " = "), Hole(value)]) + rest) == Ok(((column, value), rest))
  {
    hide ReadWord, Starts, Meant, Chars, ValidIdentifier;
    var tail := [Bound(value)] + rest;
    var ts := Meant([Words(column + " = "), Hole(value)]) + rest;
    assert ts == Chars(column) + (Chars(" = ") + tail) by {
      MeantPair(column + " = ", value);
      CharsJoin<V>(column, " = ");
    }
    EndsBefore(" = ", tail);
    WordWritten(column, Chars(" = ") + tail);
    ExpectWritten(" = ", tail);
  }

  /** What a condition says, in the words of SQL. */
  function Said<V>(w: Where<V>): Clause<V> {
    match w.operator
    case LessThan => Compare(w.column, '<', w.value)
    case Equal => if w.value.None? then IsNull(w.column) else Compare(w.column, '=', w.value)
  }

  function SaidAll<V>(ws: seq<Where<V>>): (r: seq<Clause<V>>)
    ensures |r| == |ws|
    ensures forall i | 0 <= i < |ws| :: r[i] == Said(ws[i])
  {
    if ws == [] then [] else SaidAll(ws[..|ws| - 1]) + [Said(ws[|ws| - 1])]
  }

  lemma DifferentSigns<V>(rest: seq<Token<V>>)
    ensures !Starts(Chars(" = ") + rest, " IS NULL") && !Starts(Chars(" < ") + rest, " IS NULL")
    ensures !Starts(Chars(" < ") + rest, " = ")
  {
    assert (Chars<V>(" = ") + rest)[1] == Char('=') && (Chars<V>(" < ") + rest)[1] == Char('<');
    assert Chars<V>(" IS NULL")[1] == Char('I') && Chars<V>(" = ")[1] == Char('=');
  }

  lemma NullWritten<V>(w: Where<V>, rest: seq<Token<V>>)
    requires ValidIdentifier(w.column) && w.value.None? && w.operator.Equal?
    ensures ReadClause(Meant(Condition(w)) + rest) == Ok((IsNull(w.column), rest))
  {
    hide ReadWord, Starts, Meant, Chars, ValidIdentifier;
    var ts := Meant(Condition(w)) + rest;
    assert ts == Chars(w.column) + (Chars(" IS NULL") + rest) by {
      MeantOne<V>(Words(w.column + " IS NULL"));
      CharsJoin<V>(w.column, " IS NULL");
    }
    EndsBefore(" IS NULL", rest);
    WordWritten(w.column, Chars(" IS NULL") + rest);
    ExpectWritten(" IS NULL", rest);
  }

  lemma CompareWritten<V>(w: Where<V>, rest: seq<Token<V>>)
    requires ValidIdentifier(w.column) && !(w.value.None? && w.operator.Equal?)
    ensures ReadClause(Meant(Condition(w)) + rest)
         == Ok((Compare(w.column, if w.operator.Equal? then '=' else '<', w.value), rest))
  {
    hide ReadWord, Starts, Meant, Chars, ValidIdentifier;
    var sign := if w.operator.Equal? then " = " else " < ";
    var tail := [Bound(w.value)] + rest;
    var ts := Meant(Condition(w)) + rest;
    assert ts == Chars(w.column) + (Chars(sign) + tail) by {
      assert w.column + " " + Symbol(w.operator) + " " == w.column + sign;
      MeantPair(w.column + sign, w.value);
      CharsJoin<V>(w.column, sign);
    }
    EndsBefore(sign, tail);
    WordWritten(w.column, Chars(sign) + tail);
    ExpectWritten(sign, tail);
    DifferentSigns(tail);
  }

  lemma ClauseWritten<V>(w: Where<V>, rest: seq<Token<V>>)
    requires ValidIdentifier(w.column)
    ensures ReadClause(Meant(Condition(w)) + rest) == Ok((Said(w), rest))
  {
    hide ReadClause, Condition, Meant, ValidIdentifier;
    if w.value.None? && w.operator.Equal? {
      NullWritten(w, rest);
    } else {
      CompareWritten(w, rest);
    }
  }

  /** A written part is read as `x` before a separator and before the end of the list. */
  ghost predicate ReadsAs<V(!new), T>(
    item: seq<Token<V>> -> Read<V, T>, part: seq<Fragment<V>>, x: T, sep: string, end: seq<Token<V>>)
  {
    && Meant(part) != []
    && item(Meant(part) + end) == Ok((x, end))
    && forall rest :: item(Meant(part) + (Chars(sep) + rest)) == Ok((x, Chars(sep) + rest))
  }

  lemma {:induction false} ListWritten<V(!new), T>(
    item: seq<Token<V>> -> Read<V, T>, sep: string, parts: seq<seq<Fragment<V>>>, xs: seq<T>, end: seq<Token<V>>)
    requires |parts| == |xs| > 0 && !Starts(end, sep)
    requires forall i | 0 <= i < |parts| :: ReadsAs(item, parts[i], xs[i], sep, end)
    ensures ReadList(item, sep, Meant(Joined(parts, sep)) + end) == Ok((xs, end))
    decreases |parts|
  {
    hide Meant, Chars, Starts;
    assert ReadsAs(item, parts[0], xs[0], sep, end);
    if |parts| == 1 {
      assert Joined(parts, sep) == parts[0];
      assert xs == [xs[0]];
    } else {
      var more := Meant(Joined(parts[1..], sep)) + end;
      ListWritten(item, sep, parts[1..], xs[1..], end);
      MoreWritten(parts, sep, end);
      ExpectWritten(sep, more);
      assert xs == [xs[0]] + xs[1..];
    }
  }

  lemma MoreWritten<V>(parts: seq<seq<Fragment<V>>>, sep: string, end: seq<Token<V>>)
    requires |parts| > 1
    ensures Meant(Joined(parts, sep)) + end
         == Meant(parts[0]) + (Chars(sep) + (Meant(Joined(parts[1..], sep)) + end))
  {
    hide Meant, Chars;
    JoinedFirst(parts, sep);
    MeantJoins(parts[0], [Words(sep)] + Joined(parts[1..], sep));
    MeantJoins([Words(sep)], Joined(parts[1..], sep));
    MeantOne<V>(Words(sep));
  }

  // ---------------------------------------------------------------------------
  // Whole statements
  // ---------------------------------------------------------------------------

  /** The end of a statement, or the bound of a single row. */
  predicate Closing<V>(end: seq<Token<V>>) {
    !Starts(end, " WHERE ") && !Starts(end, " AND ") && EndsWord(end)
  }

  lemma EndsClose<V>()
    ensures Closing<V>([]) && Closing<V>(Chars(" LIMIT 1")) && !Starts<V>([], " LIMIT 1")
  {
    var end := Chars<V>(" LIMIT 1");
    assert end[0] == Char(' ') && end[1] == Char('L');
  }

  lemma ClausesWritten<V(!new)>(ws: seq<Where<V>>, end: seq<Token<V>>)
    requires ws != [] && (forall w | w in ws :: ValidIdentifier(w.column)) && Closing(end)
    ensures ReadList(ReadClause, " AND ", Meant(Joined(Conditions(ws), " AND ")) + end) == Ok((SaidAll(ws), end))
  {
    hide ReadClause, Meant, Chars, Starts, ValidIdentifier, Condition, Said;
    var parts, said := Conditions(ws), SaidAll(ws);
    forall i | 0 <= i < |ws|
      ensures ReadsAs(ReadClause, parts[i], said[i], " AND ", end)
    {
      assert ws[i] in ws;
      ConditionNotEmpty(ws[i]);
      ClauseWritten(ws[i], end);
      forall rest
        ensures ReadClause(Meant(parts[i]) + (Chars(" AND ") + rest)) == Ok((said[i], Chars(" AND ") + rest))
      {
        ClauseWritten(ws[i], Chars(" AND ") + rest);
      }
    }
    ListWritten(ReadClause, " AND ", parts, said, end);
  }

  lemma ConditionNotEmpty<V>(w: Where<V>)
    ensures Meant(Condition(w)) != []
  {
    MeantOne<V>(Words(w.column + " IS NULL"));
    MeantPair(w.column + " " + Symbol(w.operator) + " ", w.value);
  }

  lemma WhereWritten<V(!new)>(ws: seq<Where<V>>, end: seq<Token<V>>)
    requires (forall w | w in ws :: ValidIdentifier(w.column)) && Closing(end)
    ensures ReadWhere(Meant(WhereFragments(ws)) + end) == Ok((SaidAll(ws), end))
    ensures EndsWord(Meant(WhereFragments(ws)) + end)
  {
    hide Meant, Chars, Starts, ValidIdentifier, ReadList;
    if ws == [] {
      NothingMeant<V>();
      assert [] + end == end;
    } else {
      var list := Joined(Conditions(ws), " AND ");
      MeantOne<V>(Words(" WHERE "));
      MeantJoins([Words(" WHERE ")], list);
      assert Meant(WhereFragments(ws)) + end == Chars(" WHERE ") + (Meant(list) + end);
      ExpectWritten(" WHERE ", Meant(list) + end);
      EndsBefore(" WHERE ", Meant(list) + end);
      ClausesWritten(ws, end);
    }
  }

  lemma NothingMeant<V>()
    ensures Meant<V>([]) == []
  {
  }

  lemma TableWritten<V(!new)>(table: string, ws: seq<Where<V>>, end: seq<Token<V>>)
    requires ValidIdentifier(table) && (forall w | w in ws :: ValidIdentifier(w.column)) && Closing(end)
    ensures
      var ts := Chars(table) + (Meant(WhereFragments(ws)) + end);
      ReadTable(ts) == Ok(((table, SaidAll(ws)), end))
  {
    hide Meant, Chars, ReadWhere, ReadWord, WhereFragments, ValidIdentifier, Closing;
    WhereWritten(ws, end);
    WordWritten(table, Meant(WhereFragments(ws)) + end);
  }

  /** What a statement without data says, in the words of SQL. */
  function PlainSays<V>(q: Query<V>, kind: Kind): Statement<V> {
    match kind
    case Delete => Deleted(q.table, SaidAll(q.wheres))
    case First => Selected(q.table, SaidAll(q.wheres), true)
    case Get => Selected(q.table, SaidAll(q.wheres), false)
    case Tally => Counted(q.table, SaidAll(q.wheres))
  }

  lemma HeadsDiffer<V>(rest: seq<Token<V>>)
    ensures !Starts(Chars("SELECT * FROM ") + rest, "DELETE FROM ")
    ensures !Starts(Chars("SELECT * FROM ") + rest, "SELECT COUNT(*) FROM ")
    ensures !Starts(Chars("SELECT COUNT(*) FROM ") + rest, "DELETE FROM ")
  {
    assert (Chars<V>("SELECT * FROM ") + rest)[0] == Char('S') && (Chars<V>("SELECT * FROM ") + rest)[7] == Char('*');
    assert (Chars<V>("SELECT COUNT(*) FROM ") + rest)[0] == Char('S');
  }

  lemma PlainLayout<V>(q: Query<V>, kind: Kind, end: seq<Token<V>>)
    requires end == if kind.First? then Chars(" LIMIT 1") else []
    ensures
      Meant(PlainFragments(q, kind))
      == Chars(Head(kind)) + (Chars(q.table) + (Meant(WhereFragments(q.wheres)) + end))
  {
    hide Meant, Chars, WhereFragments, Head;
    var a: seq<Fragment<V>> := [Words(Head(kind) + q.table)];
    var c: seq<Fragment<V>> := if kind.First? then [Words(" LIMIT 1")] else [];
    MeantOne<V>(Words(Head(kind) + q.table));
    CharsJoin<V>(Head(kind), q.table);
    MeantOne<V>(Words(" LIMIT 1"));
    NothingMeant<V>();
    MeantJoins(a, WhereFragments(q.wheres));
    MeantJoins(a + WhereFragments(q.wheres), c);
  }

  lemma PlainWritten<V(!new)>(q: Query<V>, kind: Kind)
    requires ValidIdentifier(q.table) && forall w | w in q.wheres :: ValidIdentifier(w.column)
    ensures ReadStatement(Meant(PlainFragments(q, kind))) == Ok(PlainSays(q, kind))
  {
    hide Meant, Chars, Starts, WhereFragments, ReadWord, ReadWhere, ValidIdentifier, PlainFragments, Closing;
    var end := if kind.First? then Chars<V>(" LIMIT 1") else [];
    PlainLayout(q, kind, end);
    EndsClose<V>();
    TableWritten(q.table, q.wheres, end);
    var rest := Chars(q.table) + (Meant(WhereFragments(q.wheres)) + end);
    ExpectWritten(Head(kind), rest);
    HeadsDiffer(rest);
    ExpectWritten<V>(" LIMIT 1", []);
    assert Chars<V>(" LIMIT 1") + [] == Chars<V>(" LIMIT 1");
  }

  // ---------------------------------------------------------------------------
  // Statements with data
  // ---------------------------------------------------------------------------

  lemma WhereFollows<V(!new)>(ws: seq<Where<V>>)
    requires forall w | w in ws :: ValidIdentifier(w.column)
    ensures
      var ts := Meant(WhereFragments(ws));
      ReadWhere(ts) == Ok((SaidAll(ws), [])) && EndsWord(ts) && !Starts(ts, ", ")
  {
    hide Chars, ValidIdentifier, ReadWhere;
    EndsClose<V>();
    WhereWritten(ws, []);
    var ts := Meant(WhereFragments(ws));
    assert ts + [] == ts;
    if ws != [] {
      MeantOne<V>(Words(" WHERE "));
      MeantJoins([Words(" WHERE ")], Joined(Conditions(ws), " AND "));
      StartsWithWhere(Meant(Joined(Conditions(ws), " AND ")));
    } else {
      NothingMeant<V>();
    }
  }

  lemma StartsWithWhere<V>(rest: seq<Token<V>>)
    ensures !Starts(Chars(" WHERE ") + rest, ", ")
  {
    assert (Chars<V>(" WHERE ") + rest)[0] == Char(' ');
  }

  lemma SetsWritten<V(!new)>(data: Data<V>, end: seq<Token<V>>)
    requires data != [] && (forall i | 0 <= i < |data| :: ValidIdentifier(data[i].0)) && !Starts(end, ", ")
    ensures ReadList(ReadSet, ", ", Meant(Joined(SetParts(data), ", ")) + end) == Ok((data, end))
  {
    hide ReadSet, Meant, Chars, Starts, ValidIdentifier;
    var parts := SetParts(data);
    forall i | 0 <= i < |data|
      ensures ReadsAs(ReadSet, parts[i], data[i], ", ", end)
    {
      MeantPair(data[i].0 + " = ", data[i].1);
      SetWritten(data[i].0, data[i].1, end);
      forall rest
        ensures ReadSet(Meant(parts[i]) + (Chars(", ") + rest)) == Ok((data[i], Chars(", ") + rest))
      {
        SetWritten(data[i].0, data[i].1, Chars(", ") + rest);
      }
    }
    ListWritten(ReadSet, ", ", parts, data, end);
  }

  lemma UpdateHead<V>(rest: seq<Token<V>>)
    ensures !Starts(Chars("UPDATE ") + rest, "DELETE FROM ")
    ensures !Starts(Chars("UPDATE ") + rest, "SELECT * FROM ")
    ensures !Starts(Chars("UPDATE ") + rest, "SELECT COUNT(*) FROM ")
  {
    assert (Chars<V>("UPDATE ") + rest)[0] == Char('U');
  }

  lemma UpdateLayout<V>(q: Query<V>, more: seq<Fragment<V>>)
    ensures
      Meant([Words("UPDATE " + q.table + " SET ")] + more)
      == Chars("UPDATE ") + (Chars(q.table) + (Chars(" SET ") + Meant(more)))
  {
    hide Meant, Chars;
    MeantOne<V>(Words("UPDATE " + q.table + " SET "));
    MeantJoins([Words("UPDATE " + q.table + " SET ")], more);
    CharsJoin<V>("UPDATE ", q.table);
    CharsJoin<V>("UPDATE " + q.table, " SET ");
  }

  lemma UpdateReads<V>(table: string, rest: seq<Token<V>>)
    requires ValidIdentifier(table)
    ensures
      var ts := Chars("UPDATE ") + (Chars(table) + (Chars(" SET ") + rest));
      && ReadStatement(ts) == ReadUpdate(Chars(table) + (Chars(" SET ") + rest))
      && ReadWord(Chars(table) + (Chars(" SET ") + rest)) == Ok((table, Chars(" SET ") + rest))
      && Expect(Chars(" SET ") + rest, " SET ") == Ok(rest)
  {
    hide Chars, Starts, ReadUpdate, ReadWord, ValidIdentifier;
    ExpectWritten(" SET ", rest);
    EndsBefore(" SET ", rest);
    WordWritten(table, Chars(" SET ") + rest);
    UpdateHead(Chars(table) + (Chars(" SET ") + rest));
    ExpectWritten("UPDATE ", Chars(table) + (Chars(" SET ") + rest));
  }

  lemma UpdateWritten<V(!new)>(q: Query<V>, data: Data<V>)
    requires ValidIdentifier(q.table) && forall w | w in q.wheres :: ValidIdentifier(w.column)
    requires data != [] && forall i | 0 <= i < |data| :: ValidIdentifier(data[i].0)
    ensures ReadStatement(Meant(UpdateFragments(q, data))) == Ok(Updated(q.table, data, SaidAll(q.wheres)))
  {
    hide Meant, Chars, Starts, WhereFragments, ReadStatement, ReadWord, ReadWhere, ReadList, ValidIdentifier, Expect;
    var sets, wheres := Joined(SetParts(data), ", "), WhereFragments(q.wheres);
    UpdateLayout(q, sets + wheres);
    assert UpdateFragments(q, data) == [Words("UPDATE " + q.table + " SET ")] + (sets + wheres);
    MeantJoins(sets, wheres);
    WhereFollows(q.wheres);
    SetsWritten(data, Meant(wheres));
    UpdateReads(q.table, Meant(sets) + Meant(wheres));
  }

  lemma RaiseLayout<V>(column: string, delta: V, more: seq<Fragment<V>>)
    ensures
      Meant([Words(column + " = " + column + " + "), Hole(Some(delta))] + more)
      == Chars(column) + (Chars(" = ") + (Chars(column) + (Chars(" + ") + ([Bound(Some(delta))] + Meant(more)))))
  {
    hide Meant, Chars;
    MeantPair(column + " = " + column + " + ", Some(delta));
    MeantJoins([Words(column + " = " + column + " + "), Hole(Some(delta))], more);
    CharsJoin<V>(column, " = ");
    CharsJoin<V>(column + " = ", column);
    CharsJoin<V>(column + " = " + column, " + ");
  }

  /** After the sign comes a column, so it is no list of assignments. */
  lemma NoSetsWritten<V>(column: string, rest: seq<Token<V>>)
    requires ValidIdentifier(column)
    ensures ReadList(ReadSet, ", ", Chars(column) + (Chars(" = ") + (Chars(column) + rest))).Err?
  {
    hide Chars, Starts, ReadWord, ValidIdentifier;
    EndsBefore(" = ", Chars(column) + rest);
    WordWritten(column, Chars(" = ") + (Chars(column) + rest));
    ExpectWritten(" = ", Chars(column) + rest);
    assert ReadValue(Chars(column) + rest).Err? by {
      ColumnIsNoValue(column, rest);
    }
  }

  lemma ColumnIsNoValue<V>(column: string, rest: seq<Token<V>>)
    requires ValidIdentifier(column)
    ensures ReadValue(Chars(column) + rest).Err?
  {
    assert (Chars<V>(column) + rest)[0] == Char(column[0]);
  }

  lemma RaiseRead<V>(column: string, rest: seq<Token<V>>)
    requires ValidIdentifier(column)
    ensures
      var tail := Chars(" = ") + (Chars(column) + (Chars(" + ") + rest));
      ReadWord(Chars(column) + tail) == Ok((column, tail)) && Expect(tail, " = " + column + " + ") == Ok(rest)
  {
    hide Chars, Starts, ReadWord, ValidIdentifier;
    var tail := Chars(" = ") + (Chars(column) + (Chars(" + ") + rest));
    EndsBefore(" = ", Chars(column) + (Chars(" + ") + rest));
    WordWritten(column, tail);
    CharsJoin<V>(" = ", column);
    CharsJoin<V>(" = " + column, " + ");
    assert tail == Chars(" = " + column + " + ") + rest;
    ExpectWritten(" = " + column + " + ", rest);
  }

  lemma IncrementWritten<V(!new)>(q: Query<V>, column: string, delta: V)
    requires ValidIdentifier(q.table) && ValidIdentifier(column)
    requires forall w | w in q.wheres :: ValidIdentifier(w.column)
    ensures
      ReadStatement(Meant(IncrementFragments(q, column, delta)))
      == Ok(Raised(q.table, column, Some(delta), SaidAll(q.wheres)))
  {
    hide Meant, Chars, Starts, WhereFragments, ReadStatement, ReadWord, ReadWhere, ReadList, ValidIdentifier, Expect;
    var wheres := WhereFragments(q.wheres);
    var more: seq<Fragment<V>> := [Words(column + " = " + column + " + "), Hole(Some(delta))] + wheres;
    IncrementLayout(q, column, delta);
    var last := [Bound(Some(delta))] + Meant(wheres);
    RaiseLayout(column, delta, wheres);
    NoSetsWritten(column, Chars(" + ") + last);
    RaiseRead(column, last);
    ValueWritten(Some(delta), Meant(wheres));
    WhereFollows(q.wheres);
    UpdateReads(q.table, Meant(more));
  }

  lemma IncrementLayout<V>(q: Query<V>, column: string, delta: V)
    ensures
      Meant(IncrementFragments(q, column, delta))
      == Chars("UPDATE ") + (Chars(q.table) + (Chars(" SET ")
         + Meant([Words(column + " = " + column + " + "), Hole(Some(delta))] + WhereFragments(q.wheres))))
  {
    hide Meant, Chars, WhereFragments;
    var wheres := WhereFragments(q.wheres);
    var text := column + " = " + column + " + ";
    var whole := "UPDATE " + q.table + " SET " + column + " = " + column + " + ";
    assert whole == "UPDATE " + q.table + " SET " + text;
    UpdateLayout(q, [Words(text), Hole(Some(delta))] + wheres);
    MeantJoins([Words("UPDATE " + q.table + " SET ")], [Words(text), Hole(Some(delta))] + wheres);
    MeantJoins([Words(text), Hole(Some(delta))], wheres);
    MeantJoins([Words(whole), Hole(Some(delta))], wheres);
    MeantPair(text, Some(delta));
    MeantPair(whole, Some(delta));
    MeantOne<V>(Words("UPDATE " + q.table + " SET "));
    CharsJoin<V>("UPDATE " + q.table + " SET ", text);
  }

  lemma ColumnsWritten<V(!new)>(data: Data<V>, columns: seq<string>, end: seq<Token<V>>)
    requires data != [] && (forall i | 0 <= i < |data| :: ValidIdentifier(data[i].0))
    requires |columns| == |data| && forall i | 0 <= i < |data| :: columns[i] == data[i].0
    requires !Starts(end, ", ") && EndsWord(end)
    ensures ReadList(ReadWord, ", ", Meant(Joined(ColumnParts(data), ", ")) + end) == Ok((columns, end))
  {
    hide ReadWord, Meant, Chars, Starts, ValidIdentifier, EndsWord;
    var parts := ColumnParts(data);
    forall i | 0 <= i < |data|
      ensures ReadsAs(ReadWord, parts[i], columns[i], ", ", end)
    {
      MeantOne<V>(Words(data[i].0));
      WordNotEmpty<V>(data[i].0);
      WordWritten(data[i].0, end);
      forall rest
        ensures ReadWord(Meant(parts[i]) + (Chars(", ") + rest)) == Ok((columns[i], Chars(", ") + rest))
      {
        EndsBefore(", ", rest);
        WordWritten(data[i].0, Chars(", ") + rest);
      }
    }
    ListWritten(ReadWord, ", ", parts, columns, end);
  }

  lemma WordNotEmpty<V>(name: string)
    requires ValidIdentifier(name)
    ensures Chars<V>(name) != []
  {
    assert |Chars<V>(name)| == |name|;
  }

  lemma ValuesWritten<V(!new)>(data: Data<V>, values: seq<Value<V>>, end: seq<Token<V>>)
    requires data != [] && |values| == |data| && forall i | 0 <= i < |data| :: values[i] == data[i].1
    requires !Starts(end, ", ")
    ensures ReadList(ReadValue, ", ", Meant(Joined(ValueParts(data), ", ")) + end) == Ok((values, end))
  {
    hide Meant, Chars, Starts;
    var parts := ValueParts(data);
    forall i | 0 <= i < |data|
      ensures ReadsAs(ReadValue, parts[i], values[i], ", ", end)
    {
      MeantOne(Hole(data[i].1));
    }
    ListWritten(ReadValue, ", ", parts, values, end);
  }

  lemma InsertHead<V>(rest: seq<Token<V>>)
    ensures !Starts(Chars("INSERT INTO ") + rest, "DELETE FROM ") && !Starts(Chars("INSERT INTO ") + rest, "UPDATE ")
    ensures !Starts(Chars("INSERT INTO ") + rest, "SELECT * FROM ")
    ensures !Starts(Chars("INSERT INTO ") + rest, "SELECT COUNT(*) FROM ")
    ensures !Starts(Chars(") VALUES (") + rest, ", ") && !Starts<V>(Chars(")"), ", ")
  {
    assert (Chars<V>("INSERT INTO ") + rest)[0] == Char('I');
    assert (Chars<V>(") VALUES (") + rest)[0] == Char(')') && Chars<V>(")")[0] == Char(')');
  }

  lemma InsertLayout<V>(q: Query<V>, data: Data<V>)
    ensures
      var columns, values := Meant(Joined(ColumnParts(data), ", ")), Meant(Joined(ValueParts(data), ", "));
      Meant(InsertFragments(q, data))
      == Chars("INSERT INTO ") + (Chars(q.table) + (Chars(" (")
         + (columns + (Chars(") VALUES (") + (values + Chars(")"))))))
  {
    hide Meant, Chars, Joined, ColumnParts, ValueParts;
    var a: seq<Fragment<V>> := [Words("INSERT INTO " + q.table + " (")];
    var b, c := Joined(ColumnParts(data), ", "), Joined(ValueParts(data), ", ");
    InsertParts(a, b, [Words(") VALUES (")], c, [Words(")")]);
    MeantOne<V>(Words(") VALUES ("));
    MeantOne<V>(Words(")"));
    assert Meant(a) == Chars("INSERT INTO ") + (Chars(q.table) + Chars(" (")) by {
      MeantOne<V>(Words("INSERT INTO " + q.table + " ("));
      CharsJoin<V>("INSERT INTO ", q.table);
      CharsJoin<V>("INSERT INTO " + q.table, " (");
    }
    var rest := Meant(b) + (Chars(") VALUES (") + (Meant(c) + Chars(")")));
    Associative(Chars("INSERT INTO "), Chars(q.table) + Chars(" ("), rest);
    Associative(Chars(q.table), Chars(" ("), rest);
  }

  lemma InsertParts<V>(
    a: seq<Fragment<V>>, b: seq<Fragment<V>>, c: seq<Fragment<V>>, d: seq<Fragment<V>>, e: seq<Fragment<V>>)
    ensures Meant(a + b + c + d + e) == Meant(a) + (Meant(b) + (Meant(c) + (Meant(d) + Meant(e))))
  {
    hide Meant;
    MeantJoins(d, e);
    MeantJoins(c, d + e);
    MeantJoins(b, c + (d + e));
    MeantJoins(a, b + (c + (d + e)));
    assert a + b + c + d + e == a + (b + (c + (d + e)));
  }

  lemma InsertWritten<V(!new)>(q: Query<V>, data: Data<V>, columns: seq<string>, values: seq<Value<V>>)
    requires ValidIdentifier(q.table) && data != [] && forall i | 0 <= i < |data| :: ValidIdentifier(data[i].0)
    requires |columns| == |data| == |values|
    requires forall i | 0 <= i < |data| :: data[i] == (columns[i], values[i])
    ensures ReadStatement(Meant(InsertFragments(q, data))) == Ok(Inserted(q.table, columns, values))
  {
    hide Meant, Chars, Starts, ReadWord, ReadList, ValidIdentifier, InsertFragments, EndsWord;
    var cs, vs := Meant(Joined(ColumnParts(data), ", ")), Meant(Joined(ValueParts(data), ", "));
    InsertLayout(q, data);
    var end := Chars<V>(")");
    var rest4 := vs + end;
    var rest3 := Chars(") VALUES (") + rest4;
    var rest2 := Chars(" (") + (cs + rest3);
    InsertHead(rest4);
    InsertHead(Chars(q.table) + rest2);
    ExpectWritten("INSERT INTO ", Chars(q.table) + rest2);
    EndsBefore(" (", cs + rest3);
    WordWritten(q.table, rest2);
    ExpectWritten(" (", cs + rest3);
    EndsBefore(") VALUES (", rest4);
    ColumnsWritten(data, columns, rest3);
    ExpectWritten(") VALUES (", rest4);
    ValuesWritten(data, values, end);
    ExpectWritten<V>(")", []);
    assert end + [] == end;
  }

  /** Each condition added to a query adds its clause, after those already there. */
  lemma ConditionsAdd<V>(q: Query<V>, column: string, value: Value<V>)
    ensures SaidAll(q.AndWhere(column, value).wheres)
         == SaidAll(q.wheres) + [if value.None? then IsNull(column) else Compare(column, '=', value)]
    ensures SaidAll(q.AndWhereLessThan(column, value).wheres) == SaidAll(q.wheres) + [Compare(column, '<', value)]
    ensures q.AndWhere(column, value).table == q.table == q.AndWhereLessThan(column, value).table
  {
  }
}
