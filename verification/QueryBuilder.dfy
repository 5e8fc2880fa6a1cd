/** The query builder: statements with ?-placeholders, built from tables, conditions and data. */
module QueryBuilder {
  import opened Wrappers
  import opened Rebind

  /** A value to bind; None is nil. */
  type Value<V> = Option<V>

  datatype Error = BadTable | BadColumn(column: string)

  datatype Operator = Equal | LessThan

  function Symbol(op: Operator): string {
    if op.Equal? then "=" else "<"
  }

  datatype Where<V> = Where(column: string, operator: Operator, value: Value<V>)

  /** A map's entries in the order an iteration happens to visit them. */
  type Data<V> = seq<(string, Value<V>)>

  /** An immutable query: adding a condition leaves the query it was added to as it was. */
  datatype Query<V> = Query(table: string, wheres: seq<Where<V>>) {
    function AndWhere(column: string, value: Value<V>): Query<V> {
      Query(table, wheres + [Where(column, Equal, value)])
    }

    function AndWhereLessThan(column: string, value: Value<V>): Query<V> {
      Query(table, wheres + [Where(column, LessThan, value)])
    }
  }

  /** The statement text and the values bound to it, in order. */
  datatype Built<V> = Built(sql: string, vals: seq<Value<V>>)

  // ---------------------------------------------------------------------------
  // Identifiers
  // ---------------------------------------------------------------------------

  predicate IdentifierStart(c: char) {
    'a' <= c <= 'z' || 'A' <= c <= 'Z' || c == '_'
  }

  predicate ValidIdentifier(name: string) {
    name != [] && IdentifierStart(name[0]) && forall c | c in name :: IdentifierStart(c) || IsDigit(c)
  }

  /** Identifiers, letter by letter: a letter or an underscore, then letters, underscores and digits. */
  lemma IdentifierGrammar(name: string, c: char)
    ensures
      var letter := 'a' <= c <= 'z' || 'A' <= c <= 'Z' || c == '_';
      && !ValidIdentifier("")
      && (ValidIdentifier([c]) <==> letter)
      && (name != [] ==> (ValidIdentifier(name + [c]) <==> ValidIdentifier(name) && (letter || '0' <= c <= '9')))
  {
    assert forall d :: d in name + [c] <==> d in name || d == c;
  }

  // ---------------------------------------------------------------------------
  // What a statement says
  // ---------------------------------------------------------------------------

  /** A statement as its author means it: text, with values in place. */
  datatype Fragment<V> = Words(text: string) | Hole(value: Value<V>)

  datatype Token<V> = Char(c: char) | Bound(value: Value<V>) | Unbound

  function Sql<V>(fs: seq<Fragment<V>>): string {
    if fs == [] then []
    else Sql(fs[..|fs| - 1]) + (match fs[|fs| - 1] case Words(text) => text case Hole(_) => "?")
  }

  function Vals<V>(fs: seq<Fragment<V>>): seq<Value<V>> {
    if fs == [] then []
    else Vals(fs[..|fs| - 1]) + (match fs[|fs| - 1] case Words(_) => [] case Hole(value) => [value])
  }

  function Chars<V>(text: string): seq<Token<V>> {
    seq(|text|, i requires 0 <= i < |text| => Char(text[i]))
  }

  function Meant<V>(fs: seq<Fragment<V>>): seq<Token<V>> {
    if fs == [] then []
    else Meant(fs[..|fs| - 1]) + (match fs[|fs| - 1] case Words(text) => Chars(text) case Hole(value) => [Bound(value)])
  }

  function Lookup<V>(item: Item, vals: seq<Value<V>>): Token<V> {
    match item
    case Text(c) => Char(c)
    case Param(k) => if 1 <= k <= |vals| then Bound(vals[k - 1]) else Unbound
  }

  /** A statement as the database executes it: arguments put where it refers to them. */
  function Bind<V>(items: seq<Item>, vals: seq<Value<V>>): seq<Token<V>> {
    seq(|items|, i requires 0 <= i < |items| => Lookup(items[i], vals))
  }

  // ---------------------------------------------------------------------------
  // Fragments the builders use
  // ---------------------------------------------------------------------------

  predicate Ordinary(c: char) {
    c != '\'' && c != '?' && c != '$'
  }

  predicate Safe<V>(f: Fragment<V>) {
    f.Hole? || (f.text != [] && !IsDigit(f.text[0]) && forall c | c in f.text :: Ordinary(c))
  }

  ghost predicate AllSafe<V>(fs: seq<Fragment<V>>) {
    forall f | f in fs :: Safe(f)
  }

  function Texts(text: string): seq<Item> {
    seq(|text|, i requires 0 <= i < |text| => Text(text[i]))
  }

  /** Text with nothing special in it, after any statement whose literals are closed. */
  lemma {:induction false} PositionalOrdinary(text: string, n: nat)
    requires forall c | c in text :: Ordinary(c)
    ensures Positional(text, false, n) == Texts(text) && Clear(text, false)
    decreases |text|
  {
    if text != [] {
      assert Ordinary(text[0]);
      PositionalOrdinary(text[1..], n);
      assert Texts(text) == [Text(text[0])] + Texts(text[1..]);
    }
  }

  /** The characters of a statement that opens no literal. */
  predicate Unquoted(q: string) {
    '\'' !in q
  }

  function Placeholders(q: string): nat {
    if q == [] then 0 else Placeholders(q[1..]) + if q[0] == '?' then 1 else 0
  }

  lemma {:induction false} PositionalJoins(a: string, b: string, n: nat)
    requires Unquoted(a)
    ensures Positional(a + b, false, n) == Positional(a, false, n) + Positional(b, false, n + Placeholders(a))
    ensures Placeholders(a + b) == Placeholders(a) + Placeholders(b)
    decreases |a|
  {
    if a == [] {
      assert a + b == b;
    } else {
      assert (a + b)[1..] == a[1..] + b;
      var m := if a[0] == '?' then n + 1 else n;
      PositionalJoins(a[1..], b, m);
      Associative([if a[0] == '?' then Param(n + 1) else Text(a[0])], Positional(a[1..], false, m),
                  Positional(b, false, n + Placeholders(a)));
    }
  }

  lemma {:induction false} ClearJoins(a: string, b: string)
    requires Unquoted(a) && Clear(a, false) && Clear(b, false) && !StartsWithDigit(b)
    ensures Clear(a + b, false)
    decreases |a|
  {
    if a == [] {
      assert a + b == b;
    } else {
      assert (a + b)[1..] == a[1..] + b;
      ClearJoins(a[1..], b);
    }
  }

  lemma {:induction false} CountOrdinary(text: string)
    requires forall c | c in text :: Ordinary(c)
    ensures Placeholders(text) == 0
  {
    if text != [] {
      assert Ordinary(text[0]);
      CountOrdinary(text[1..]);
    }
  }

  /** One placeholder per value, each where its value is meant, and nothing for the rewriting to trip over. */
  lemma {:induction false} SafeMeansMeant<V>(fs: seq<Fragment<V>>)
    requires AllSafe(fs)
    ensures Unquoted(Sql(fs)) && Clear(Sql(fs), false) && Placeholders(Sql(fs)) == |Vals(fs)|
    ensures Bind(Positional(Sql(fs), false, 0), Vals(fs)) == Meant(fs)
    ensures forall item | item in Positional(Sql(fs), false, 0) :: item.Param? ==> item.k <= |Vals(fs)|
    decreases |fs|
  {
    if fs != [] {
      var init, last := fs[..|fs| - 1], fs[|fs| - 1];
      assert Safe(last);
      SafeMeansMeant(init);
      match last
      case Words(text) => SafeWords(init, text);
      case Hole(value) => SafeHole(init, value);
    }
  }

  lemma SafeWords<V>(fs: seq<Fragment<V>>, text: string)
    requires Unquoted(Sql(fs)) && Clear(Sql(fs), false) && Placeholders(Sql(fs)) == |Vals(fs)|
    requires text != [] && !IsDigit(text[0]) && forall c | c in text :: Ordinary(c)
    ensures
      var a, b := Sql(fs), Sql(fs) + text;
      && Unquoted(b) && Clear(b, false) && Placeholders(b) == |Vals(fs)|
      && Positional(b, false, 0) == Positional(a, false, 0) + Texts(text)
      && Bind(Positional(b, false, 0), Vals(fs)) == Bind(Positional(a, false, 0), Vals(fs)) + Chars(text)
  {
    var a := Sql(fs);
    hide Clear, Positional, Placeholders;
    PositionalOrdinary(text, Placeholders(a));
    CountOrdinary(text);
    PositionalJoins(a, text, 0);
    ClearJoins(a, text);
    var items := Positional(a, false, 0);
    assert Bind(items + Texts(text), Vals(fs)) == Bind(items, Vals(fs)) + Chars(text);
  }

  lemma HoleReads(n: nat)
    ensures Positional("?", false, n) == [Param(n + 1)] && Clear("?", false) && Placeholders("?") == 1
  {
    assert "?"[1..] == "";
  }

  lemma SafeHole<V>(fs: seq<Fragment<V>>, value: Value<V>)
    requires Unquoted(Sql(fs)) && Clear(Sql(fs), false) && Placeholders(Sql(fs)) == |Vals(fs)|
    requires forall item | item in Positional(Sql(fs), false, 0) :: item.Param? ==> item.k <= |Vals(fs)|
    ensures
      var a, b, vals := Sql(fs), Sql(fs) + "?", Vals(fs) + [value];
      && Unquoted(b) && Clear(b, false) && Placeholders(b) == |vals|
      && Positional(b, false, 0) == Positional(a, false, 0) + [Param(|vals|)]
      && Bind(Positional(b, false, 0), vals) == Bind(Positional(a, false, 0), Vals(fs)) + [Bound(value)]
  {
    var a, vals := Sql(fs), Vals(fs) + [value];
    hide Clear, Positional, Placeholders;
    HoleReads(Placeholders(a));
    PositionalJoins(a, "?", 0);
    ClearJoins(a, "?");
    var items := Positional(a, false, 0);
    forall i | 0 <= i < |items|
      ensures Lookup(items[i], vals) == Lookup(items[i], Vals(fs))
    {
      assert items[i] in items;
    }
    assert Bind(items + [Param(|vals|)], vals) == Bind(items, Vals(fs)) + [Bound(value)];
  }

  /** The statement the builder writes is the statement meant, both as SQLite executes it and, rewritten, as
    * Postgres does. */
  lemma BuiltMeansMeant<V>(fs: seq<Fragment<V>>)
    requires AllSafe(fs)
    ensures Bind(Positional(Sql(fs), false, 0), Vals(fs)) == Meant(fs)
    ensures Bind(Numbered(Rebound(Sql(fs), false, 0), false), Vals(fs)) == Meant(fs)
    ensures Placeholders(Sql(fs)) == |Vals(fs)|
  {
    SafeMeansMeant(fs);
    RebindKeepsMeaning(Sql(fs), false, 0);
  }

  // ---------------------------------------------------------------------------
  // The statements
  // ---------------------------------------------------------------------------

  function Joined<V>(parts: seq<seq<Fragment<V>>>, sep: string): seq<Fragment<V>> {
    if parts == [] then []
    else if |parts| == 1 then parts[0]
    else Joined(parts[..|parts| - 1], sep) + [Words(sep)] + parts[|parts| - 1]
  }

  function Condition<V>(w: Where<V>): seq<Fragment<V>> {
    if w.value.None? && w.operator.Equal? then [Words(w.column + " IS NULL")]
    else [Words(w.column + " " + Symbol(w.operator) + " "), Hole(w.value)]
  }

  function Conditions<V>(ws: seq<Where<V>>): seq<seq<Fragment<V>>> {
    seq(|ws|, i requires 0 <= i < |ws| => Condition(ws[i]))
  }

  function WhereFragments<V>(ws: seq<Where<V>>): seq<Fragment<V>> {
    if ws == [] then [] else [Words(" WHERE ")] + Joined(Conditions(ws), " AND ")
  }

  function ColumnParts<V>(data: Data<V>): seq<seq<Fragment<V>>> {
    seq(|data|, i requires 0 <= i < |data| => [Words(data[i].0)])
  }

  function ValueParts<V>(data: Data<V>): seq<seq<Fragment<V>>> {
    seq(|data|, i requires 0 <= i < |data| => [Hole(data[i].1)])
  }

  function SetParts<V>(data: Data<V>): seq<seq<Fragment<V>>> {
    seq(|data|, i requires 0 <= i < |data| => [Words(data[i].0 + " = "), Hole(data[i].1)])
  }

  function InsertFragments<V>(q: Query<V>, data: Data<V>): seq<Fragment<V>> {
    [Words("INSERT INTO " + q.table + " (")] + Joined(ColumnParts(data), ", ") + [Words(") VALUES (")]
    + Joined(ValueParts(data), ", ") + [Words(")")]
  }

  function UpdateFragments<V>(q: Query<V>, data: Data<V>): seq<Fragment<V>> {
    [Words("UPDATE " + q.table + " SET ")] + Joined(SetParts(data), ", ") + WhereFragments(q.wheres)
  }

  function IncrementFragments<V>(q: Query<V>, column: string, delta: V): seq<Fragment<V>> {
    [Words("UPDATE " + q.table + " SET " + column + " = " + column + " + "), Hole(Some(delta))]
    + WhereFragments(q.wheres)
  }

  /** The statements made of a head, the conditions, and perhaps a tail. */
  datatype Kind = Delete | First | Get | Tally

  function Head(kind: Kind): string {
    match kind
    case Delete => "DELETE FROM "
    case First => "SELECT * FROM "
    case Get => "SELECT * FROM "
    case Tally => "SELECT COUNT(*) FROM "
  }

  function PlainFragments<V>(q: Query<V>, kind: Kind): seq<Fragment<V>> {
    [Words(Head(kind) + q.table)] + WhereFragments(q.wheres) + if kind.First? then [Words(" LIMIT 1")] else []
  }

  // ---------------------------------------------------------------------------
  // They are safe when the identifiers are valid
  // ---------------------------------------------------------------------------

  predicate OrdinaryText(text: string) {
    forall c | c in text :: Ordinary(c)
  }

  lemma ValidIsOrdinary(name: string)
    requires ValidIdentifier(name)
    ensures OrdinaryText(name) && name != [] && !IsDigit(name[0])
  {
  }

  lemma {:induction false} JoinedSafe<V>(parts: seq<seq<Fragment<V>>>, sep: string)
    requires forall part | part in parts :: AllSafe(part)
    requires Safe<V>(Words(sep))
    ensures AllSafe(Joined(parts, sep))
    decreases |parts|
  {
    if |parts| > 1 {
      hide Safe;
      JoinedSafe(parts[..|parts| - 1], sep);
      assert AllSafe(parts[|parts| - 1]);
    } else if |parts| == 1 {
      assert AllSafe(parts[0]);
    }
  }

  lemma WordsSafe<V>(a: string, b: string, c: string)
    requires OrdinaryText(a) && OrdinaryText(b) && OrdinaryText(c) && a != [] && !IsDigit(a[0])
    ensures Safe<V>(Words(a + b)) && Safe<V>(Words(a + b + c))
  {
  }

  lemma ConditionSafe<V>(w: Where<V>)
    requires ValidIdentifier(w.column)
    ensures AllSafe(Condition(w))
  {
    ValidIsOrdinary(w.column);
    WordsSafe<V>(w.column, " IS NULL", "");
    WordsSafe<V>(w.column, " " + Symbol(w.operator) + " ", "");
    assert w.column + " " + Symbol(w.operator) + " " == w.column + (" " + Symbol(w.operator) + " ");
  }

  lemma WhereSafe<V>(ws: seq<Where<V>>)
    requires forall w | w in ws :: ValidIdentifier(w.column)
    ensures AllSafe(WhereFragments(ws))
  {
    forall part | part in Conditions(ws)
      ensures AllSafe(part)
    {
      var i :| 0 <= i < |ws| && part == Condition(ws[i]);
      ConditionSafe(ws[i]);
    }
    JoinedSafe(Conditions(ws), " AND ");
  }

  lemma DataSafe<V>(data: Data<V>)
    requires forall i | 0 <= i < |data| :: ValidIdentifier(data[i].0)
    ensures AllSafe(Joined(ColumnParts(data), ", "))
    ensures AllSafe(Joined(ValueParts(data), ", "))
    ensures AllSafe(Joined(SetParts(data), ", "))
  {
    forall i | 0 <= i < |data|
      ensures AllSafe(ColumnParts(data)[i]) && AllSafe(SetParts(data)[i])
    {
      ValidIsOrdinary(data[i].0);
      WordsSafe<V>(data[i].0, " = ", "");
      assert data[i].0 + "" == data[i].0;
    }
    hide Safe, Joined;
    assert Safe<V>(Words(", ")) by {
      WordsSafe<V>(", ", "", "");
      assert ", " + "" == ", ";
    }
    assert forall part | part in ValueParts(data) :: AllSafe(part) by {
      HolesSafe(data);
    }
    JoinedSafe(ColumnParts(data), ", ");
    JoinedSafe(ValueParts(data), ", ");
    JoinedSafe(SetParts(data), ", ");
  }

  lemma HolesSafe<V>(data: Data<V>)
    ensures forall part | part in ValueParts(data) :: AllSafe(part)
  {
  }

  lemma InsertSafe<V>(q: Query<V>, data: Data<V>)
    requires ValidIdentifier(q.table) && forall i | 0 <= i < |data| :: ValidIdentifier(data[i].0)
    ensures AllSafe(InsertFragments(q, data))
  {
    ValidIsOrdinary(q.table);
    DataSafe(data);
    WordsSafe<V>("INSERT INTO ", q.table, " (");
    assert Safe<V>(Words(") VALUES (")) && Safe<V>(Words(")"));
    hide Safe, Joined;
  }

  lemma UpdateSafe<V>(q: Query<V>, data: Data<V>)
    requires ValidIdentifier(q.table) && forall i | 0 <= i < |data| :: ValidIdentifier(data[i].0)
    requires forall w | w in q.wheres :: ValidIdentifier(w.column)
    ensures AllSafe(UpdateFragments(q, data))
  {
    ValidIsOrdinary(q.table);
    DataSafe(data);
    WhereSafe(q.wheres);
    WordsSafe<V>("UPDATE ", q.table, " SET ");
    hide Safe, Joined, WhereFragments;
  }

  lemma IncrementSafe<V>(q: Query<V>, column: string, delta: V)
    requires ValidIdentifier(q.table) && ValidIdentifier(column)
    requires forall w | w in q.wheres :: ValidIdentifier(w.column)
    ensures AllSafe(IncrementFragments(q, column, delta))
  {
    ValidIsOrdinary(q.table);
    ValidIsOrdinary(column);
    WhereSafe(q.wheres);
    WordsSafe<V>("UPDATE ", q.table + " SET " + column, " = " + column + " + ");
    assert "UPDATE " + (q.table + " SET " + column) + (" = " + column + " + ")
        == "UPDATE " + q.table + " SET " + column + " = " + column + " + ";
    assert Safe<V>(Hole(Some(delta)));
    hide Safe, WhereFragments;
  }

  lemma HeadOrdinary(kind: Kind)
    ensures OrdinaryText(Head(kind)) && Head(kind) != [] && !IsDigit(Head(kind)[0])
  {
    match kind {
      case Delete => assert OrdinaryText("DELETE FROM ");
      case First => assert OrdinaryText("SELECT * FROM ");
      case Get => assert OrdinaryText("SELECT * FROM ");
      case Tally => assert OrdinaryText("SELECT COUNT(*) FROM ");
    }
  }

  lemma PlainSafe<V>(q: Query<V>, kind: Kind)
    requires ValidIdentifier(q.table)
    requires forall w | w in q.wheres :: ValidIdentifier(w.column)
    ensures AllSafe(PlainFragments(q, kind))
  {
    ValidIsOrdinary(q.table);
    WhereSafe(q.wheres);
    HeadOrdinary(kind);
    WordsSafe<V>(Head(kind), q.table, "");
    assert Safe<V>(Words(" LIMIT 1"));
    hide Safe, WhereFragments, Head;
  }
}
