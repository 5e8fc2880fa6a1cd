/** Rewriting ?-placeholders as $1, $2, ... without changing what the statement means. */
module Rebind {

  /** A statement read by a database: characters, and references to argument k. */
  datatype Item = Text(c: char) | Param(k: nat)

  predicate IsDigit(c: char) {
    '0' <= c <= '9'
  }

  // ---------------------------------------------------------------------------
  // Decimal numerals
  // ---------------------------------------------------------------------------

  function Digit(d: nat): char
    requires d < 10
  {
    '0' + d as char
  }

  function Itoa(n: nat): (s: string)
    ensures |s| > 0 && forall i | 0 <= i < |s| :: IsDigit(s[i])
  {
    if n < 10 then [Digit(n)] else Itoa(n / 10) + [Digit(n % 10)]
  }

  function Number(s: string): nat
    requires forall i | 0 <= i < |s| :: IsDigit(s[i])
  {
    if s == [] then 0
    else
      assert IsDigit(s[|s| - 1]);
      10 * Number(s[..|s| - 1]) + (s[|s| - 1] - '0') as nat
  }

  lemma {:induction false} NumberItoa(n: nat)
    ensures Number(Itoa(n)) == n
  {
    var s := Itoa(n);
    if n >= 10 {
      assert s[..|s| - 1] == Itoa(n / 10);
      NumberItoa(n / 10);
    }
  }

  /** More digits, a larger number. */
  lemma {:induction false} NumberGrows(a: string, b: string)
    requires forall i | 0 <= i < |a| :: IsDigit(a[i])
    requires forall i | 0 <= i < |b| :: IsDigit(b[i])
    requires |b| > 0 && Number(a) > 0
    ensures Number(a + b) > Number(a)
    decreases |b|
  {
    var init := b[..|b| - 1];
    assert (a + b)[..|a + b| - 1] == a + init;
    if |b| == 1 {
      assert a + init == a;
    } else {
      NumberGrows(a, init);
    }
  }

  // ---------------------------------------------------------------------------
  // Two readings and the rewriting
  // ---------------------------------------------------------------------------

  /** Reading by position: outside literals the n-th ? is argument n. */
  function Positional(q: string, inLiteral: bool, n: nat): seq<Item>
    decreases |q|
  {
    if q == [] then []
    else if q[0] == '\'' then [Text(q[0])] + Positional(q[1..], !inLiteral, n)
    else if q[0] == '?' && !inLiteral then [Param(n + 1)] + Positional(q[1..], inLiteral, n + 1)
    else [Text(q[0])] + Positional(q[1..], inLiteral, n)
  }

  /** The longest run of digits at the front. */
  function Digits(q: string): (s: string)
    ensures s <= q && forall i | 0 <= i < |s| :: IsDigit(s[i])
  {
    if q == [] || !IsDigit(q[0]) then []
    else
      var rest := Digits(q[1..]);
      assert q == [q[0]] + q[1..];
      [q[0]] + rest
  }

  /** Reading by number: outside literals a $ and the digits after it are one argument. */
  function Numbered(q: string, inLiteral: bool): seq<Item>
    decreases |q|
  {
    if q == [] then []
    else if q[0] == '\'' then [Text(q[0])] + Numbered(q[1..], !inLiteral)
    else if q[0] == '$' && !inLiteral && |Digits(q[1..])| > 0 then
      [Param(Number(Digits(q[1..])))] + Numbered(q[1 + |Digits(q[1..])|..], inLiteral)
    else [Text(q[0])] + Numbered(q[1..], inLiteral)
  }

  function Rebound(q: string, inLiteral: bool, n: nat): string
    decreases |q|
  {
    if q == [] then []
    else if q[0] == '\'' then [q[0]] + Rebound(q[1..], !inLiteral, n)
    else if q[0] == '?' && !inLiteral then "$" + Itoa(n + 1) + Rebound(q[1..], inLiteral, n + 1)
    else [q[0]] + Rebound(q[1..], inLiteral, n)
  }

  /** Outside literals no $ or ? stands directly before a digit. */
  predicate Clear(q: string, inLiteral: bool)
    decreases |q|
  {
    q == [] ||
    if q[0] == '\'' then Clear(q[1..], !inLiteral)
    else
      && ((q[0] == '$' || q[0] == '?') && !inLiteral ==> !StartsWithDigit(q[1..]))
      && Clear(q[1..], inLiteral)
  }

  predicate StartsWithDigit(q: string) {
    q != [] && IsDigit(q[0])
  }

  lemma ReboundHead(q: string, inLiteral: bool, n: nat)
    ensures StartsWithDigit(Rebound(q, inLiteral, n)) <==> StartsWithDigit(q)
  {
  }

  lemma {:induction false} DigitsOf(s: string, rest: string)
    requires forall i | 0 <= i < |s| :: IsDigit(s[i])
    ensures Digits(s + rest) == s + Digits(rest)
    decreases |s|
  {
    if s == [] {
      assert s + rest == rest;
    } else {
      assert (s + rest)[1..] == s[1..] + rest;
      DigitsOf(s[1..], rest);
      assert s == [s[0]] + s[1..];
    }
  }

  /** How `$k` followed by `rest` is read. */
  lemma NumberedParam(k: nat, rest: string)
    requires k > 0
    ensures
      var items := Numbered("$" + Itoa(k) + rest, false);
      if StartsWithDigit(rest) then items != [] && items[0] != Param(k)
      else items == [Param(k)] + Numbered(rest, false)
  {
    var numeral := Itoa(k);
    NumberItoa(k);
    hide Itoa;
    NumeralRead(numeral, rest);
    if StartsWithDigit(rest) {
      hide Number, Numbered;
      NumberGrows(numeral, Digits(rest));
    }
  }

  /** The digits after the dollar sign, as far as they go, are the argument. */
  lemma NumeralRead(numeral: string, rest: string)
    requires numeral != [] && forall i | 0 <= i < |numeral| :: IsDigit(numeral[i])
    ensures
      var items := Numbered("$" + numeral + rest, false);
      && items != [] && items[0] == Param(Number(numeral + Digits(rest)))
      && (!StartsWithDigit(rest) ==> items == [Param(Number(numeral))] + Numbered(rest, false))
  {
    hide Number, IsDigit;
    var q := "$" + numeral + rest;
    assert q[1..] == numeral + rest;
    DigitsOf(numeral, rest);
    if !StartsWithDigit(rest) {
      assert numeral + Digits(rest) == numeral;
      assert q[1 + |numeral|..] == rest;
    }
  }

  lemma NumberedText(c: char, rest: string, inLiteral: bool)
    requires c != '\''
    ensures
      var items := Numbered([c] + rest, inLiteral);
      if c == '$' && !inLiteral && StartsWithDigit(rest) then items != [] && items[0].Param?
      else items == [Text(c)] + Numbered(rest, inLiteral)
  {
    assert ([c] + rest)[1..] == rest;
  }

  /** The rewritten statement, read by number, means what the original means by position -- exactly when
    * no $ or ? outside a literal stands directly before a digit. */
  lemma {:induction false} RebindKeepsMeaning(q: string, inLiteral: bool, n: nat)
    ensures Numbered(Rebound(q, inLiteral, n), inLiteral) == Positional(q, inLiteral, n) <==> Clear(q, inLiteral)
    decreases |q|
  {
    if q != [] {
      hide IsDigit, Itoa;
      var c, rest := q[0], q[1..];
      if c == '\'' {
        RebindKeepsMeaning(rest, !inLiteral, n);
        var r := Rebound(rest, !inLiteral, n);
        assert ([c] + r)[1..] == r;
        SameHead(Text(c), Numbered(r, !inLiteral), Positional(rest, !inLiteral, n));
      } else if c == '?' && !inLiteral {
        RebindKeepsMeaning(rest, inLiteral, n + 1);
        var r := Rebound(rest, inLiteral, n + 1);
        ReboundHead(rest, inLiteral, n + 1);
        NumberedParam(n + 1, r);
        SameHead(Param(n + 1), Numbered(r, false), Positional(rest, inLiteral, n + 1));
      } else {
        RebindKeepsMeaning(rest, inLiteral, n);
        var r := Rebound(rest, inLiteral, n);
        ReboundHead(rest, inLiteral, n);
        NumberedText(c, r, inLiteral);
        SameHead(Text(c), Numbered(r, inLiteral), Positional(rest, inLiteral, n));
      }
    }
  }

  lemma SameHead(item: Item, a: seq<Item>, b: seq<Item>)
    ensures [item] + a == [item] + b <==> a == b
  {
    if [item] + a == [item] + b {
      assert a == ([item] + a)[1..] && b == ([item] + b)[1..];
    }
  }

  /** A placeholder before a digit does change the statement. */
  lemma DigitAfterPlaceholder()
    ensures !Clear("?5", false) && Numbered(Rebound("?5", false, 0), false) != Positional("?5", false, 0)
  {
    RebindKeepsMeaning("?5", false, 0);
    assert "?5"[1..] == "5";
  }

  lemma Associative<T>(a: seq<T>, b: seq<T>, c: seq<T>)
    ensures (a + b) + c == a + (b + c)
  {
  }

  lemma ReboundStep(q: string, i: nat, inLiteral: bool, n: nat)
    requires i < |q|
    ensures
      Rebound(q[i..], inLiteral, n)
      == if q[i] == '\'' then [q[i]] + Rebound(q[i + 1..], !inLiteral, n)
         else if q[i] == '?' && !inLiteral then "$" + Itoa(n + 1) + Rebound(q[i + 1..], inLiteral, n + 1)
         else [q[i]] + Rebound(q[i + 1..], inLiteral, n)
  {
    hide Itoa;
    assert q[i..][1..] == q[i + 1..];
  }

  lemma ReboundEnd(q: string, inLiteral: bool, n: nat)
    requires q == []
    ensures Rebound(q, inLiteral, n) == []
  {
  }

  method RebindDollar(query: string) returns (r: string)
    ensures r == Rebound(query, false, 0)
    ensures Numbered(r, false) == Positional(query, false, 0) <==> Clear(query, false)
  {
    RebindKeepsMeaning(query, false, 0);
    hide Rebound, Numbered, Positional, Clear, Itoa;
    r := "";
    var n, inLiteral, i := 0, false, 0;
    while i < |query|
      invariant 0 <= i <= |query|
      invariant Rebound(query, false, 0) == r + Rebound(query[i..], inLiteral, n)
    {
      ReboundStep(query, i, inLiteral, n);
      var piece := [query[i]];
      if query[i] == '\'' {
        inLiteral := !inLiteral;
      } else if query[i] == '?' && !inLiteral {
        n := n + 1;
        piece := "$" + Itoa(n);
      }
      Associative(r, piece, Rebound(query[i + 1..], inLiteral, n));
      r := r + piece;
      i := i + 1;
    }
    ReboundEnd(query[i..], inLiteral, n);
  }
}
