/** The builder's methods: what they write is what is meant. */
module SqlQuery {
  import opened Wrappers
  import opened Rebind
  import opened QueryBuilder
  import opened QueryReader

  // ---------------------------------------------------------------------------
  // Text and values of joined parts
  // ---------------------------------------------------------------------------

  function Join(parts: seq<string>, sep: string): string {
    if parts == [] then []
    else if |parts| == 1 then parts[0]
    else Join(parts[..|parts| - 1], sep) + sep + parts[|parts| - 1]
  }

  ghost function TextsOf<V>(parts: seq<seq<Fragment<V>>>): seq<string> {
    seq(|parts|, i requires 0 <= i < |parts| => Sql(parts[i]))
  }

  ghost function ValuesOf<V>(parts: seq<seq<Fragment<V>>>): seq<Value<V>> {
    if parts == [] then [] else ValuesOf(parts[..|parts| - 1]) + Vals(parts[|parts| - 1])
  }

  lemma {:induction false} Concatenated<V>(a: seq<Fragment<V>>, b: seq<Fragment<V>>)
    ensures Sql(a + b) == Sql(a) + Sql(b) && Vals(a + b) == Vals(a) + Vals(b)
    decreases |b|
  {
    if b == [] {
      assert a + b == a;
    } else {
      var init, last := b[..|b| - 1], b[|b| - 1];
      assert (a + b)[..|a + b| - 1] == a + init;
      assert (a + b)[|a + b| - 1] == last;
      Concatenated(a, init);
      Associative(Sql(a), Sql(init), if last.Words? then last.text else "?");
      Associative(Vals(a), Vals(init), if last.Words? then [] else [last.value]);
    }
  }

  lemma OneWord<V>(text: string)
    ensures Sql<V>([Words(text)]) == text && Vals<V>([Words(text)]) == []
  {
    assert [Fragment<V>.Words(text)][..0] == [];
  }

  lemma OneHole<V>(text: string, value: Value<V>)
    ensures Sql([Hole(value)]) == "?" && Vals([Hole(value)]) == [value]
    ensures Sql([Words(text), Hole(value)]) == text + "?" && Vals([Words(text), Hole(value)]) == [value]
  {
    assert [Hole(value)][..0] == [];
    OneWord<V>(text);
    Concatenated([Words(text)], [Hole(value)]);
    assert [Words(text)] + [Hole(value)] == [Words(text), Hole(value)];
  }

  lemma {:induction false} JoinedText<V>(parts: seq<seq<Fragment<V>>>, sep: string)
    ensures Sql(Joined(parts, sep)) == Join(TextsOf(parts), sep) && Vals(Joined(parts, sep)) == ValuesOf(parts)
    decreases |parts|
  {
    if parts == [] {
      assert Joined(parts, sep) == [];
    } else if |parts| == 1 {
      hide Sql, Vals;
      assert parts[..0] == [];
    } else {
      JoinedText(parts[..|parts| - 1], sep);
      JoinedLast(parts, sep);
    }
  }

  lemma JoinedLast<V>(parts: seq<seq<Fragment<V>>>, sep: string)
    requires |parts| > 1
    requires
      var init := parts[..|parts| - 1];
      Sql(Joined(init, sep)) == Join(TextsOf(init), sep) && Vals(Joined(init, sep)) == ValuesOf(init)
    ensures Sql(Joined(parts, sep)) == Join(TextsOf(parts), sep) && Vals(Joined(parts, sep)) == ValuesOf(parts)
  {
    hide Sql, Vals;
    var init, last := parts[..|parts| - 1], parts[|parts| - 1];
    var joined := Joined(init, sep);
    assert Joined(parts, sep) == joined + [Words(sep)] + last;
    assert TextsOf(parts)[..|parts| - 1] == TextsOf(init);
    hide Joined;
    OneWord<V>(sep);
    Concatenated(joined, [Words(sep)]);
    Concatenated(joined + [Words(sep)], last);
  }

  lemma PartsGrow<V>(parts: seq<seq<Fragment<V>>>, part: seq<Fragment<V>>)
    ensures TextsOf(parts + [part]) == TextsOf(parts) + [Sql(part)]
    ensures ValuesOf(parts + [part]) == ValuesOf(parts) + Vals(part)
  {
    assert (parts + [part])[..|parts|] == parts;
  }

  // ---------------------------------------------------------------------------
  // Refusals
  // ---------------------------------------------------------------------------

  function FirstInvalid(columns: seq<string>): Option<Error> {
    if columns == [] then None
    else if !ValidIdentifier(columns[0]) then Some(BadColumn(columns[0]))
    else FirstInvalid(columns[1..])
  }

  function Columns<V>(data: Data<V>): seq<string> {
    seq(|data|, i requires 0 <= i < |data| => data[i].0)
  }

  function Values<V>(data: Data<V>): seq<Value<V>> {
    seq(|data|, i requires 0 <= i < |data| => data[i].1)
  }

  function WhereColumns<V>(ws: seq<Where<V>>): seq<string> {
    seq(|ws|, i requires 0 <= i < |ws| => ws[i].column)
  }

  /** Why a statement is refused: the table first, then the columns in the order they are written. */
  function Refusal(table: string, columns: seq<string>): Option<Error> {
    if !ValidIdentifier(table) then Some(BadTable) else FirstInvalid(columns)
  }

  lemma {:induction false} FirstInvalidAt(columns: seq<string>, i: nat, more: seq<string>)
    requires i <= |columns| && forall j | 0 <= j < i :: ValidIdentifier(columns[j])
    ensures i < |columns| && !ValidIdentifier(columns[i]) ==>
              FirstInvalid(columns + more) == Some(BadColumn(columns[i]))
    ensures i == |columns| ==> FirstInvalid(columns + more) == FirstInvalid(more)
    decreases |columns|
  {
    if columns == [] {
      assert columns + more == more;
    } else {
      hide ValidIdentifier;
      assert (columns + more)[1..] == columns[1..] + more;
      if i > 0 {
        FirstInvalidAt(columns[1..], i - 1, more);
      }
    }
  }

  lemma {:induction false} NoneInvalid(columns: seq<string>)
    requires FirstInvalid(columns).None?
    ensures forall i | 0 <= i < |columns| :: ValidIdentifier(columns[i])
    decreases |columns|
  {
    if columns != [] {
      hide ValidIdentifier;
      NoneInvalid(columns[1..]);
      assert forall i | 1 <= i < |columns| :: columns[i] == columns[1..][i - 1];
    }
  }

  /** What the database executes, under either dialect, is the statement meant. */
  ghost predicate Means<V>(b: Built<V>, fs: seq<Fragment<V>>) {
    && Placeholders(b.sql) == |b.vals|
    && Bind(Positional(b.sql, false, 0), b.vals) == Meant(fs)
    && Bind(Numbered(Rebound(b.sql, false, 0), false), b.vals) == Meant(fs)
  }

  lemma SafeMeans<V>(b: Built<V>, fs: seq<Fragment<V>>)
    requires AllSafe(fs) && b == Built(Sql(fs), Vals(fs))
    ensures Means(b, fs)
  {
    BuiltMeansMeant(fs);
  }

  /** What the database executes, under either dialect, reads as this statement. */
  ghost predicate Executes<V>(b: Built<V>, st: Statement<V>) {
    && ReadStatement(Bind(Positional(b.sql, false, 0), b.vals)) == Ok(st)
    && ReadStatement(Bind(Numbered(Rebound(b.sql, false, 0), false), b.vals)) == Ok(st)
  }

  lemma MeansExecutes<V>(b: Built<V>, fs: seq<Fragment<V>>, st: Statement<V>)
    requires Means(b, fs) && ReadStatement(Meant(fs)) == Ok(st)
    ensures Executes(b, st)
  {
    hide ReadStatement, Positional, Numbered, Rebound;
  }

  // ---------------------------------------------------------------------------
  // Conditions
  // ---------------------------------------------------------------------------

  method BuildWhere<V>(ws: seq<Where<V>>) returns (r: Result<Built<V>, Error>)
    ensures r.Err? <==> FirstInvalid(WhereColumns(ws)).Some?
    ensures r.Err? ==> FirstInvalid(WhereColumns(ws)) == Some(r.error)
    ensures r.Ok? ==> r.value == Built(Sql(WhereFragments(ws)), Vals(WhereFragments(ws)))
  {
    hide ValidIdentifier, FirstInvalid, Condition, Conditions, WhereFragments, Sql, Vals, Join, TextsOf, ValuesOf;
    if ws == [] {
      NoWhere(ws);
      return Ok(Built("", []));
    }
    var parts: seq<string> := [];
    var vals: seq<Value<V>> := [];
    var i := 0;
    NoConditions(ws[..0]);
    while i < |ws|
      invariant 0 <= i <= |ws|
      invariant forall j | 0 <= j < i :: ValidIdentifier(WhereColumns(ws)[j])
      invariant parts == TextsOf(Conditions(ws[..i])) && vals == ValuesOf(Conditions(ws[..i]))
    {
      var w := ws[i];
      if !ValidIdentifier(w.column) {
        FirstInvalidAt(WhereColumns(ws), i, []);
        assert WhereColumns(ws) + [] == WhereColumns(ws);
        return Err(BadColumn(w.column));
      }
      ConditionsGrow(ws, i);
      if w.value.None? && w.operator.Equal? {
        parts := parts + [w.column + " IS NULL"];
      } else {
        parts := parts + [w.column + " " + Symbol(w.operator) + " ?"];
        vals := vals + [w.value];
      }
      i := i + 1;
    }
    assert ws[..i] == ws;
    FirstInvalidAt(WhereColumns(ws), i, []);
    NoColumns();
    assert WhereColumns(ws) + [] == WhereColumns(ws);
    WhereText(ws);
    return Ok(Built(" WHERE " + Join(parts, " AND "), vals));
  }

  lemma NothingJoined<V>(parts: seq<seq<Fragment<V>>>)
    requires parts == []
    ensures TextsOf(parts) == [] && ValuesOf(parts) == []
  {
  }

  lemma NoWhere<V>(ws: seq<Where<V>>)
    requires ws == []
    ensures FirstInvalid(WhereColumns(ws)).None? && Sql(WhereFragments(ws)) == "" && Vals(WhereFragments(ws)) == []
  {
  }

  lemma NoConditions<V>(ws: seq<Where<V>>)
    requires ws == []
    ensures TextsOf(Conditions(ws)) == [] && ValuesOf(Conditions(ws)) == []
  {
  }

  lemma ConditionsGrow<V>(ws: seq<Where<V>>, i: nat)
    requires i < |ws|
    ensures
      var w := ws[i];
      var isNull := w.value.None? && w.operator.Equal?;
      && TextsOf(Conditions(ws[..i + 1])) == TextsOf(Conditions(ws[..i]))
         + [if isNull then w.column + " IS NULL" else w.column + " " + Symbol(w.operator) + " ?"]
      && ValuesOf(Conditions(ws[..i + 1])) == ValuesOf(Conditions(ws[..i])) + if isNull then [] else [w.value]
  {
    hide Sql, Vals, ValuesOf, Condition;
    ConditionText(ws[i]);
    PartsGrow(Conditions(ws[..i]), Condition(ws[i]));
    assert Conditions(ws[..i + 1]) == Conditions(ws[..i]) + [Condition(ws[i])];
  }

  lemma NoColumns()
    ensures FirstInvalid([]) == None
  {
  }

  lemma ConditionText<V>(w: Where<V>)
    ensures
      if w.value.None? && w.operator.Equal? then
        Sql(Condition(w)) == w.column + " IS NULL" && Vals(Condition(w)) == []
      else Sql(Condition(w)) == w.column + " " + Symbol(w.operator) + " ?" && Vals(Condition(w)) == [w.value]
  {
    OneWord<V>(w.column + " IS NULL");
    OneHole(w.column + " " + Symbol(w.operator) + " ", w.value);
    assert w.column + " " + Symbol(w.operator) + " " + "?" == w.column + " " + Symbol(w.operator) + " ?";
  }

  lemma WhereText<V>(ws: seq<Where<V>>)
    requires ws != []
    ensures Sql(WhereFragments(ws)) == " WHERE " + Join(TextsOf(Conditions(ws)), " AND ")
    ensures Vals(WhereFragments(ws)) == ValuesOf(Conditions(ws))
  {
    OneWord<V>(" WHERE ");
    Concatenated([Words(" WHERE ")], Joined(Conditions(ws), " AND "));
    JoinedText(Conditions(ws), " AND ");
  }

  lemma ValidWheres<V>(ws: seq<Where<V>>)
    requires FirstInvalid(WhereColumns(ws)).None?
    ensures forall w | w in ws :: ValidIdentifier(w.column)
  {
    NoneInvalid(WhereColumns(ws));
    hide ValidIdentifier;
    assert forall i | 0 <= i < |ws| :: ws[i].column == WhereColumns(ws)[i];
  }

  lemma ValidData<V>(data: Data<V>)
    requires FirstInvalid(Columns(data)).None?
    ensures forall i | 0 <= i < |data| :: ValidIdentifier(data[i].0)
  {
    NoneInvalid(Columns(data));
    hide ValidIdentifier;
    assert forall i | 0 <= i < |data| :: data[i].0 == Columns(data)[i];
  }

  // ---------------------------------------------------------------------------
  // Statements
  // ---------------------------------------------------------------------------

  method Insert<V(!new)>(q: Query<V>, data: Data<V>) returns (r: Result<Built<V>, Error>)
    ensures r.Err? <==> Refusal(q.table, Columns(data)).Some?
    ensures r.Err? ==> Refusal(q.table, Columns(data)) == Some(r.error)
    ensures r.Ok? ==> Means(r.value, InsertFragments(q, data))
    ensures r.Ok? && data != [] ==> Executes(r.value, Inserted(q.table, Columns(data), Values(data)))
  {
    hide Executes, ReadStatement, ValidIdentifier, FirstInvalid, Sql, Vals, Join, ValuesOf, Means, TextsOf,
         InsertFragments;
    if !ValidIdentifier(q.table) {
      return Err(BadTable);
    }
    var cols: seq<string>, placeholders: seq<string> := [], [];
    var vals: seq<Value<V>> := [];
    NothingJoined(ColumnParts(data[..0]));
    NothingJoined(ValueParts(data[..0]));
    var i := 0;
    while i < |data|
      invariant 0 <= i <= |data|
      invariant forall j | 0 <= j < i :: ValidIdentifier(Columns(data)[j])
      invariant cols == TextsOf(ColumnParts(data[..i]))
      invariant placeholders == TextsOf(ValueParts(data[..i])) && vals == ValuesOf(ValueParts(data[..i]))
    {
      var (col, val) := data[i];
      if !ValidIdentifier(col) {
        FirstInvalidAt(Columns(data), i, []);
        assert Columns(data) + [] == Columns(data);
        return Err(BadColumn(col));
      }
      InsertGrows(data, i);
      cols := cols + [col];
      placeholders := placeholders + ["?"];
      vals := vals + [val];
      i := i + 1;
    }
    assert data[..i] == data;
    FirstInvalidAt(Columns(data), i, []);
    NoColumns();
    assert Columns(data) + [] == Columns(data);
    ValidData(data);
    InsertSafe(q, data);
    InsertText(q, data);
    var sql := "INSERT INTO " + q.table + " (" + Join(cols, ", ") + ") VALUES (" + Join(placeholders, ", ") + ")";
    var built := Built(sql, vals);
    SafeMeans(built, InsertFragments(q, data));
    if data != [] {
      InsertWritten(q, data, Columns(data), Values(data));
      MeansExecutes(built, InsertFragments(q, data), Inserted(q.table, Columns(data), Values(data)));
    }
    return Ok(built);
  }

  lemma InsertGrows<V>(data: Data<V>, i: nat)
    requires i < |data|
    ensures TextsOf(ColumnParts(data[..i + 1])) == TextsOf(ColumnParts(data[..i])) + [data[i].0]
    ensures TextsOf(ValueParts(data[..i + 1])) == TextsOf(ValueParts(data[..i])) + ["?"]
    ensures ValuesOf(ValueParts(data[..i + 1])) == ValuesOf(ValueParts(data[..i])) + [data[i].1]
  {
    hide Sql, Vals, ValuesOf;
    OneWord<V>(data[i].0);
    OneHole("", data[i].1);
    PartsGrow(ColumnParts(data[..i]), [Words(data[i].0)]);
    PartsGrow(ValueParts(data[..i]), [Hole(data[i].1)]);
    assert ColumnParts(data[..i + 1]) == ColumnParts(data[..i]) + [[Words(data[i].0)]];
    assert ValueParts(data[..i + 1]) == ValueParts(data[..i]) + [[Hole(data[i].1)]];
  }

  lemma {:induction false} NoValues<V>(data: Data<V>)
    ensures ValuesOf(ColumnParts(data)) == []
    decreases |data|
  {
    if data != [] {
      var n := |data| - 1;
      assert ColumnParts(data)[..n] == ColumnParts(data[..n]);
      OneWord<V>(data[n].0);
      NoValues(data[..n]);
    }
  }

  lemma InsertText<V>(q: Query<V>, data: Data<V>)
    ensures
      Sql(InsertFragments(q, data))
      == "INSERT INTO " + q.table + " (" + Join(TextsOf(ColumnParts(data)), ", ") + ") VALUES ("
         + Join(TextsOf(ValueParts(data)), ", ") + ")"
    ensures Vals(InsertFragments(q, data)) == ValuesOf(ValueParts(data))
  {
    hide Sql, Vals, Join, ValuesOf, Joined;
    var a: seq<Fragment<V>> := [Words("INSERT INTO " + q.table + " (")];
    var b, c := Joined(ColumnParts(data), ", "), Joined(ValueParts(data), ", ");
    OneWord<V>("INSERT INTO " + q.table + " (");
    OneWord<V>(") VALUES (");
    OneWord<V>(")");
    JoinedText(ColumnParts(data), ", ");
    JoinedText(ValueParts(data), ", ");
    NoValues(data);
    Concatenated(a, b);
    Concatenated(a + b, [Words(") VALUES (")]);
    Concatenated(a + b + [Words(") VALUES (")], c);
    Concatenated(a + b + [Words(") VALUES (")] + c, [Words(")")]);
  }

  method Update<V(!new)>(q: Query<V>, data: Data<V>) returns (r: Result<Built<V>, Error>)
    ensures r.Err? <==> Refusal(q.table, Columns(data) + WhereColumns(q.wheres)).Some?
    ensures r.Err? ==> Refusal(q.table, Columns(data) + WhereColumns(q.wheres)) == Some(r.error)
    ensures r.Ok? ==> Means(r.value, UpdateFragments(q, data))
    ensures r.Ok? && data != [] ==> Executes(r.value, Updated(q.table, data, SaidAll(q.wheres)))
  {
    hide Executes, ReadStatement, ValidIdentifier, FirstInvalid, Sql, Vals, Join, ValuesOf, Means;
    if !ValidIdentifier(q.table) {
      return Err(BadTable);
    }
    var sets: seq<string> := [];
    var vals: seq<Value<V>> := [];
    NothingJoined(SetParts(data[..0]));
    var i := 0;
    while i < |data|
      invariant 0 <= i <= |data|
      invariant forall j | 0 <= j < i :: ValidIdentifier(Columns(data)[j])
      invariant sets == TextsOf(SetParts(data[..i])) && vals == ValuesOf(SetParts(data[..i]))
    {
      var (col, val) := data[i];
      if !ValidIdentifier(col) {
        FirstInvalidAt(Columns(data), i, WhereColumns(q.wheres));
        return Err(BadColumn(col));
      }
      OneHole(col + " = ", val);
      assert col + " = " + "?" == col + " = ?";
      PartsGrow(SetParts(data[..i]), [Words(col + " = "), Hole(val)]);
      assert SetParts(data[..i + 1]) == SetParts(data[..i]) + [[Words(col + " = "), Hole(val)]];
      sets := sets + [col + " = ?"];
      vals := vals + [val];
      i := i + 1;
    }
    assert data[..i] == data;
    FirstInvalidAt(Columns(data), i, WhereColumns(q.wheres));
    var wr := BuildWhere(q.wheres);
    if wr.Err? {
      return Err(wr.error);
    }
    ValidColumns(data);
    ValidWheres(q.wheres);
    UpdateSafe(q, data);
    UpdateText(q, data);
    var built := Built("UPDATE " + q.table + " SET " + Join(sets, ", ") + wr.value.sql, vals + wr.value.vals);
    SafeMeans(built, UpdateFragments(q, data));
    if data != [] {
      UpdateWritten(q, data);
      MeansExecutes(built, UpdateFragments(q, data), Updated(q.table, data, SaidAll(q.wheres)));
    }
    return Ok(built);
  }

  lemma ValidColumns<V>(data: Data<V>)
    requires forall j | 0 <= j < |data| :: ValidIdentifier(Columns(data)[j])
    ensures forall i | 0 <= i < |data| :: ValidIdentifier(data[i].0)
  {
    hide ValidIdentifier;
    assert forall i | 0 <= i < |data| :: data[i].0 == Columns(data)[i];
  }

  lemma UpdateText<V>(q: Query<V>, data: Data<V>)
    ensures
      Sql(UpdateFragments(q, data))
      == "UPDATE " + q.table + " SET " + Join(TextsOf(SetParts(data)), ", ") + Sql(WhereFragments(q.wheres))
    ensures Vals(UpdateFragments(q, data)) == ValuesOf(SetParts(data)) + Vals(WhereFragments(q.wheres))
  {
    hide Sql, Vals, Join, ValuesOf, Joined;
    var a: seq<Fragment<V>> := [Words("UPDATE " + q.table + " SET ")];
    OneWord<V>("UPDATE " + q.table + " SET ");
    JoinedText(SetParts(data), ", ");
    Concatenated(a, Joined(SetParts(data), ", "));
    Concatenated(a + Joined(SetParts(data), ", "), WhereFragments(q.wheres));
  }

  method Increment<V(!new)>(q: Query<V>, column: string, delta: V) returns (r: Result<Built<V>, Error>)
    ensures r.Err? <==> Refusal(q.table, [column] + WhereColumns(q.wheres)).Some?
    ensures r.Err? ==> Refusal(q.table, [column] + WhereColumns(q.wheres)) == Some(r.error)
    ensures r.Ok? ==> Means(r.value, IncrementFragments(q, column, delta))
    ensures r.Ok? ==> Executes(r.value, Raised(q.table, column, Some(delta), SaidAll(q.wheres)))
  {
    hide Executes, ReadStatement, ValidIdentifier, Sql, Vals, Means, WhereFragments;
    if !ValidIdentifier(q.table) {
      return Err(BadTable);
    }
    assert ([column] + WhereColumns(q.wheres))[1..] == WhereColumns(q.wheres);
    if !ValidIdentifier(column) {
      return Err(BadColumn(column));
    }
    var wr := BuildWhere(q.wheres);
    if wr.Err? {
      return Err(wr.error);
    }
    ValidWheres(q.wheres);
    IncrementSafe(q, column, delta);
    var text := "UPDATE " + q.table + " SET " + column + " = " + column + " + ";
    OneHole(text, Some(delta));
    Concatenated([Words(text), Hole(Some(delta))], WhereFragments(q.wheres));
    var built := Built("UPDATE " + q.table + " SET " + column + " = " + column + " + ?" + wr.value.sql,
                       [Some(delta)] + wr.value.vals);
    assert text + "?" == "UPDATE " + q.table + " SET " + column + " = " + column + " + ?";
    SafeMeans(built, IncrementFragments(q, column, delta));
    IncrementWritten(q, column, delta);
    MeansExecutes(built, IncrementFragments(q, column, delta),
                  Raised(q.table, column, Some(delta), SaidAll(q.wheres)));
    return Ok(built);
  }

  /** Delete, First, Get and Count. */
  method Plain<V(!new)>(q: Query<V>, kind: Kind) returns (r: Result<Built<V>, Error>)
    ensures r.Err? <==> Refusal(q.table, WhereColumns(q.wheres)).Some?
    ensures r.Err? ==> Refusal(q.table, WhereColumns(q.wheres)) == Some(r.error)
    ensures r.Ok? ==> Means(r.value, PlainFragments(q, kind))
    ensures r.Ok? ==> Executes(r.value, PlainSays(q, kind))
  {
    hide Executes, ReadStatement, ValidIdentifier, FirstInvalid, Sql, Vals, Means, WhereFragments;
    if !ValidIdentifier(q.table) {
      return Err(BadTable);
    }
    var wr := BuildWhere(q.wheres);
    if wr.Err? {
      return Err(wr.error);
    }
    ValidWheres(q.wheres);
    PlainSafe(q, kind);
    PlainText(q, kind);
    var built := Built(Head(kind) + q.table + wr.value.sql + (if kind.First? then " LIMIT 1" else ""), wr.value.vals);
    SafeMeans(built, PlainFragments(q, kind));
    PlainWritten(q, kind);
    MeansExecutes(built, PlainFragments(q, kind), PlainSays(q, kind));
    return Ok(built);
  }

  lemma PlainText<V>(q: Query<V>, kind: Kind)
    ensures Sql(PlainFragments(q, kind))
         == Head(kind) + q.table + Sql(WhereFragments(q.wheres)) + (if kind.First? then " LIMIT 1" else "")
    ensures Vals(PlainFragments(q, kind)) == Vals(WhereFragments(q.wheres))
  {
    hide WhereFragments, Head;
    var a: seq<Fragment<V>> := [Words(Head(kind) + q.table)];
    var c: seq<Fragment<V>> := if kind.First? then [Words(" LIMIT 1")] else [];
    OneWord<V>(Head(kind) + q.table);
    OneWord<V>(" LIMIT 1");
    Concatenated(a, WhereFragments(q.wheres));
    Concatenated(a + WhereFragments(q.wheres), c);
  }
}
