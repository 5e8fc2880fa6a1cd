/** The printed form of Lingo values, and exactly what parsing it gives back. */
module LingoRoundTrip {
  import opened Bytes
  import opened Lingo

  // ---------------------------------------------------------------------------
  // Printing
  // ---------------------------------------------------------------------------

  /** Shaped, with no nil field at any depth: `GetBytes` dereferences every field. */
  predicate Printable(v: LValue) {
    match v
    case Leaf(k, bits) => |bits| == k.Width()
    case List(vs) => forall x | x in vs :: Printable(x)
    case Point(h, w) => PrintableSlot(h) && PrintableSlot(w)
    case Rect(l, t, r, b) => PrintableSlot(l) && PrintableSlot(t) && PrintableSlot(r) && PrintableSlot(b)
    case PropList(ps, vs) =>
      && |ps| == |vs|
      && (forall x | x in ps :: Printable(x))
      && (forall x | x in vs :: Printable(x))
    case _ => true
  }

  predicate PrintableSlot(s: Slot) {
    s.Some? && Printable(s.value)
  }

  /** A length or count as the four bytes it is truncated to. */
  function PutLength(n: nat): (b: seq<byte>)
    ensures |b| == 4
  {
    Put32(n % TWO_32)
  }

  function Print(v: LValue): seq<byte>
    requires Printable(v)
    decreases v, 3
  {
    if v.Media? then []
    else Put16(v.Tag()) + Body(v)
  }

  /** What follows the type tag. */
  function Body(v: LValue): seq<byte>
    requires Printable(v) && !v.Media?
    decreases v, 2
  {
    match v
    case Void => []
    case Leaf(_, bits) => bits
    case Color(r, g, b) => [r, g, b, 0]
    case Symbol(text) => PutLength(|text|) + (text + Padding(|text|))
    case Str(text) => PutLength(|text|) + (text + Padding(|text|))
    case Picture(data) => PutLength(|data|) + data
    case List(vs) => PutLength(|vs|) + PrintAll(vs)
    case Point(h, w) => PrintSlot(h) + PrintSlot(w)
    case Rect(l, t, r, b) => PrintSlot(l) + (PrintSlot(t) + (PrintSlot(r) + PrintSlot(b)))
    case PropList(ps, vs) => PutLength(|ps|) + PrintPairs(v, 0)
  }

  function PrintAll(vs: seq<LValue>): seq<byte>
    requires forall x | x in vs :: Printable(x)
    decreases vs
  {
    if vs == [] then [] else Print(vs[0]) + PrintAll(vs[1..])
  }

  function PrintSlot(s: Slot): seq<byte>
    requires PrintableSlot(s)
    decreases s
  {
    Print(s.value)
  }

  /** The pairs of a property list from the i-th on. */
  function PrintPairs(v: LValue, i: nat): seq<byte>
    requires v.PropList? && Printable(v) && i <= |v.properties|
    decreases v, 1, |v.properties| - i
  {
    if i == |v.properties| then []
    else Print(v.properties[i]) + (Print(v.values[i]) + PrintPairs(v, i + 1))
  }

  /** The wire form, byte by byte: the type tag, and what follows it. */
  lemma WireForm(v: LValue)
    requires Printable(v)
    ensures
      match v
      case Void => Print(v) == [0, 0]
      case Leaf(Integer, bits) => Print(v) == [0, 1] + bits && |bits| == 4
      case Leaf(Float, bits) => Print(v) == [0, 6] + bits && |bits| == 8
      case Leaf(Date, bits) => Print(v) == [0, 19] + bits && |bits| == 8
      case Leaf(Vector3d, bits) => Print(v) == [0, 22] + bits && |bits| == 12
      case Leaf(Transform3d, bits) => Print(v) == [0, 23] + bits && |bits| == 64
      case Color(r, g, b) => Print(v) == [0, 18, r, g, b, 0]
      case Symbol(text) =>
        Print(v) == [0, 2] + (PutLength(|text|) + (text + if |text| % 2 == 1 then [0] else []))
      case Str(text) =>
        Print(v) == [0, 3] + (PutLength(|text|) + (text + if |text| % 2 == 1 then [0] else []))
      case Picture(data) => Print(v) == [0, 5] + (PutLength(|data|) + data)
      case List(vs) => [0, 7] + PutLength(|vs|) <= Print(v)
      case Point(_, _) => [0, 8] <= Print(v)
      case Rect(_, _, _, _) => [0, 9] <= Print(v)
      case PropList(ps, _) => [0, 10] + PutLength(|ps|) <= Print(v)
      case Media(_) => Print(v) == []
  {
    hide PutLength;
    match v
    case List(vs) => Prefixed([0, 7], PutLength(|vs|), PrintAll(vs));
    case PropList(ps, vs) => Prefixed([0, 10], PutLength(|ps|), PrintPairs(v, 0));
    case _ =>
  }

  lemma Prefixed(tag: seq<byte>, length: seq<byte>, rest: seq<byte>)
    ensures tag + length <= tag + (length + rest)
  {
    assert tag + (length + rest) == tag + length + rest;
  }

  // ---------------------------------------------------------------------------
  // What parsing the printed form yields
  // ---------------------------------------------------------------------------

  /** No Media, and every length and count below 2^32. */
  predicate Encodable(v: LValue)
    requires Printable(v)
  {
    match v
    case Media(_) => false
    case Symbol(text) => |text| < TWO_32
    case Str(text) => |text| < TWO_32
    case Picture(data) => |data| < TWO_32
    case List(vs) => |vs| < TWO_32 && forall x | x in vs :: Encodable(x)
    case Point(h, w) => EncodableSlot(h) && EncodableSlot(w)
    case Rect(l, t, r, b) => EncodableSlot(l) && EncodableSlot(t) && EncodableSlot(r) && EncodableSlot(b)
    case PropList(ps, vs) =>
      && |ps| < TWO_32
      && (forall x | x in ps :: Encodable(x))
      && (forall x | x in vs :: Encodable(x))
    case _ => true
  }

  predicate EncodableSlot(s: Slot)
    requires PrintableSlot(s)
  {
    Encodable(s.value)
  }

  /** An object in state `was` after extracting the printed form of `v`: everything is overwritten
    * except in a property list, which appends. */
  function Absorb(was: LValue, v: LValue): LValue
    decreases v, 0
  {
    match v
    case List(vs) => List(TwiceAll(vs))
    case Point(h, w) => Point(TwiceSlot(h), TwiceSlot(w))
    case Rect(l, t, r, b) => Rect(TwiceSlot(l), TwiceSlot(t), TwiceSlot(r), TwiceSlot(b))
    case PropList(ps, vs) =>
      if was.PropList? then PropList(was.properties + TwiceAll(ps), was.values + TwiceAll(vs)) else v
    case _ => v
  }

  /** A root value is extracted once, a child twice. */
  function Once(v: LValue): LValue
    decreases v, 1
  {
    Absorb(Fresh(v.Tag()), v)
  }

  function Twice(v: LValue): LValue
    decreases v, 2
  {
    Absorb(Once(v), v)
  }

  function TwiceAll(vs: seq<LValue>): (r: seq<LValue>)
    ensures |r| == |vs|
    decreases vs
  {
    if vs == [] then [] else [Twice(vs[0])] + TwiceAll(vs[1..])
  }

  function TwiceSlot(s: Slot): (r: Slot)
    decreases s
  {
    if s.Some? then Some(Twice(s.value)) else Nil
  }

  // ---------------------------------------------------------------------------
  // The parser against the printer
  // ---------------------------------------------------------------------------

  lemma FreshTag(v: LValue)
    ensures Fresh(v.Tag()).Tag() == v.Tag()
    ensures v.Leaf? ==> Fresh(v.Tag()).Leaf? && Fresh(v.Tag()).kind == v.kind
    ensures v.PropList? ==> Fresh(v.Tag()) == PropList([], [])
  {
  }

  /** Every printed value has at least its two tag bytes. */
  lemma {:induction false} PrintedSize(v: LValue)
    requires Printable(v) && Encodable(v)
    ensures |Print(v)| >= 2
  {
  }

  lemma {:induction false} PrintedListSize(vs: seq<LValue>)
    requires forall x | x in vs :: Printable(x) && Encodable(x)
    ensures |PrintAll(vs)| >= 2 * |vs|
  {
    if vs != [] {
      PrintedSize(vs[0]);
      PrintedListSize(vs[1..]);
    }
  }

  /** Extracting the printed form of `v` into any object of its class. */
  lemma {:induction false} ExtractPrinted(was: LValue, v: LValue, raw: seq<byte>, off: nat)
    requires Printable(v) && Encodable(v) && was.Tag() == v.Tag()
    requires At(raw, off, Body(v))
    ensures Extract(was, raw, off) == (Absorb(was, v), |Body(v)|)
    decreases v, 3
  {
    match v
    case List(_) => ListPrinted(was, v, raw, off);
    case Point(_, _) => PointPrinted(was, v, raw, off);
    case Rect(_, _, _, _) => RectPrinted(was, v, raw, off);
    case PropList(_, _) => PropListPrinted(was, v, raw, off);
    case _ => ScalarPrinted(was, v, raw, off);
  }

  lemma ScalarPrinted(was: LValue, v: LValue, raw: seq<byte>, off: nat)
    requires Scalar(v) && Scalar(was)
    requires Printable(v) && Encodable(v) && was.Tag() == v.Tag()
    requires At(raw, off, Body(v))
    ensures ExtractScalar(was, raw, off) == (v, |Body(v)|)
  {
    if v.Symbol? || v.Str? || v.Picture? {
      TextScalarPrinted(was, v, raw, off);
    } else if v.Color? {
      var part := raw[off..off + 4];
      assert raw[off] == part[0] && raw[off + 1] == part[1] && raw[off + 2] == part[2];
    }
  }

  lemma TextScalarPrinted(was: LValue, v: LValue, raw: seq<byte>, off: nat)
    requires v.Symbol? || v.Str? || v.Picture?
    requires Scalar(was) && Encodable(v) && was.Tag() == v.Tag()
    requires At(raw, off, Body(v))
    ensures ExtractScalar(was, raw, off) == (v, |Body(v)|)
  {
    hide Put32, Get32, At;
    if v.Picture? {
      assert v.data + [] == v.data;
      TextPrinted(raw, off, v.data, []);
    } else {
      TextPrinted(raw, off, v.text, Padding(|v.text|));
    }
  }

  lemma TextPrinted(raw: seq<byte>, off: nat, text: seq<byte>, pad: seq<byte>)
    requires |text| < TWO_32
    requires At(raw, off, PutLength(|text|) + (text + pad))
    ensures off + 4 + |text| <= |raw| && Get32(raw, off) == |text|
    ensures raw[off + 4..off + 4 + |text|] == text
  {
    AtSplit(raw, off, PutLength(|text|), text + pad);
    AtSplit(raw, off + 4, text, pad);
    Get32Put32(raw, off, |text|);
  }

  lemma {:induction false} ChildPrinted(raw: seq<byte>, off: nat, v: LValue)
    requires Printable(v) && Encodable(v)
    requires At(raw, off, Print(v))
    ensures off + 2 <= |raw| && FromRaw(raw, off) == Once(v)
    ensures Child(raw, off) == (Twice(v), |Print(v)| - 2)
    decreases v, 4
  {
    hide Extract, Body, Get16, Put16;
    AtSplit(raw, off, Put16(v.Tag()), Body(v));
    Get16Put16(raw, off, v.Tag());
    FreshTag(v);
    ExtractPrinted(Fresh(v.Tag()), v, raw, off + 2);
    ExtractPrinted(Once(v), v, raw, off + 2);
  }

  lemma {:induction false} ElementsPrinted(raw: seq<byte>, cur: nat, vs: seq<LValue>)
    requires forall x | x in vs :: Printable(x) && Encodable(x)
    requires At(raw, cur, PrintAll(vs))
    ensures Elements(raw, cur, |vs|) == (TwiceAll(vs), cur + |PrintAll(vs)|)
    decreases vs
  {
    hide Extract, FromRaw, Child, Print, Printable, Encodable, Twice;
    if vs != [] {
      AtSplit(raw, cur, Print(vs[0]), PrintAll(vs[1..]));
      ChildPrinted(raw, cur, vs[0]);
      ElementsPrinted(raw, cur + |Print(vs[0])|, vs[1..]);
    }
  }

  /** One field of a point or rect. */
  lemma {:induction false} FieldPrinted(
    raw: seq<byte>, off: nat, consumed: nat, fields: seq<Slot>, i: nat, s: Slot)
    requires i < |fields| && PrintableSlot(s) && EncodableSlot(s)
    requires At(raw, off + consumed, PrintSlot(s))
    ensures Fields(raw, off, consumed, fields, i)
         == Fields(raw, off, consumed + |PrintSlot(s)|, fields[i := TwiceSlot(s)], i + 1)
    decreases s
  {
    hide Extract, FromRaw, Child;
    ChildPrinted(raw, off + consumed, s.value);
  }

  lemma {:induction false} PointPrinted(was: LValue, v: LValue, raw: seq<byte>, off: nat)
    requires v.Point? && was.Point?
    requires Printable(v) && Encodable(v)
    requires At(raw, off, Body(v))
    ensures Extract(was, raw, off) == (Absorb(was, v), |Body(v)|)
    decreases v, 2
  {
    hide Print, Twice;
    var Point(h, w) := v;
    AtSplit(raw, off, PrintSlot(h), PrintSlot(w));
    var f := [was.locH, was.locV];
    FieldPrinted(raw, off, 0, f, 0, h);
    FieldPrinted(raw, off, |PrintSlot(h)|, f[0 := TwiceSlot(h)], 1, w);
  }

  lemma {:induction false} RectPrinted(was: LValue, v: LValue, raw: seq<byte>, off: nat)
    requires v.Rect? && was.Rect?
    requires Printable(v) && Encodable(v)
    requires At(raw, off, Body(v))
    ensures Extract(was, raw, off) == (Absorb(was, v), |Body(v)|)
    decreases v, 2
  {
    hide Print, Twice, Fields;
    var fields := [was.left, was.top, was.right, was.bottom];
    FieldsPrinted(raw, off, fields, v);
  }

  lemma {:induction false} FieldsPrinted(raw: seq<byte>, off: nat, fields: seq<Slot>, v: LValue)
    requires v.Rect? && Printable(v) && Encodable(v) && |fields| == 4
    requires At(raw, off, Body(v))
    ensures Fields(raw, off, 0, fields, 0)
         == ([TwiceSlot(v.left), TwiceSlot(v.top), TwiceSlot(v.right), TwiceSlot(v.bottom)], |Body(v)|)
    decreases v, 1
  {
    hide Print, Twice, Fields, Extract, FromRaw, Child, TwiceSlot, PrintSlot, PrintableSlot, EncodableSlot;
    var Rect(l, t, r, b) := v;
    var n1 := |PrintSlot(l)|;
    var n2 := n1 + |PrintSlot(t)|;
    var n3 := n2 + |PrintSlot(r)|;
    AtSplit(raw, off, PrintSlot(l), PrintSlot(t) + (PrintSlot(r) + PrintSlot(b)));
    AtSplit(raw, off + n1, PrintSlot(t), PrintSlot(r) + PrintSlot(b));
    AtSplit(raw, off + n2, PrintSlot(r), PrintSlot(b));
    var f1 := fields[0 := TwiceSlot(l)];
    var f2 := f1[1 := TwiceSlot(t)];
    var f3 := f2[2 := TwiceSlot(r)];
    var f4 := f3[3 := TwiceSlot(b)];
    FieldPrinted(raw, off, 0, fields, 0, l);
    FieldPrinted(raw, off, n1, f1, 1, t);
    FieldPrinted(raw, off, n2, f2, 2, r);
    FieldPrinted(raw, off, n3, f3, 3, b);
    FieldsDone(raw, off, n3 + |PrintSlot(b)|, f4);
    assert f4 == [TwiceSlot(l), TwiceSlot(t), TwiceSlot(r), TwiceSlot(b)];
  }

  lemma FieldsDone(raw: seq<byte>, off: nat, consumed: nat, fields: seq<Slot>)
    ensures Fields(raw, off, consumed, fields, |fields|) == (fields, consumed)
  {
  }

  /** The containers' cases of `Extract`. */
  lemma ExtractCases(v: LValue, raw: seq<byte>, off: nat)
    ensures v.List? ==>
              Extract(v, raw, off) ==
              if off + 4 > |raw| || Get32(raw, off) > (|raw| - off - 4) / 2 then (v, 0)
              else
                var r := Elements(raw, off + 4, Get32(raw, off));
                (List(r.0), r.1 - off)
    ensures v.Point? ==>
              Extract(v, raw, off) ==
              var r := Fields(raw, off, 0, [v.locH, v.locV], 0);
              (Point(r.0[0], r.0[1]), r.1)
    ensures v.Rect? ==>
              Extract(v, raw, off) ==
              var r := Fields(raw, off, 0, [v.left, v.top, v.right, v.bottom], 0);
              (Rect(r.0[0], r.0[1], r.0[2], r.0[3]), r.1)
    ensures v.PropList? ==>
              Extract(v, raw, off) ==
              if off + 4 > |raw| then (v, 0)
              else
                var r := Pairs(raw, off, 4, Get32(raw, off), v.properties, v.values);
                (PropList(r.0, r.1), r.2)
  {
  }

  lemma LengthPrinted(raw: seq<byte>, off: nat, n: nat)
    requires n < TWO_32 && At(raw, off, PutLength(n))
    ensures off + 4 <= |raw| && Get32(raw, off) == n
  {
    hide Put32, Get32;
    assert n % TWO_32 == n;
    Get32Put32(raw, off, n);
  }

  lemma {:induction false} ListPrinted(was: LValue, v: LValue, raw: seq<byte>, off: nat)
    requires v.List? && was.List?
    requires Printable(v) && Encodable(v)
    requires At(raw, off, Body(v))
    ensures Extract(was, raw, off) == (Absorb(was, v), |Body(v)|)
    decreases v, 2
  {
    hide Elements, PrintAll, TwiceAll, Extract, Get32, PutLength;
    ExtractCases(was, raw, off);
    AtSplit(raw, off, PutLength(|v.values|), PrintAll(v.values));
    LengthPrinted(raw, off, |v.values|);
    PrintedListSize(v.values);
    ElementsPrinted(raw, off + 4, v.values);
  }

  lemma {:induction false} PropListPrinted(was: LValue, v: LValue, raw: seq<byte>, off: nat)
    requires v.PropList? && was.PropList?
    requires Printable(v) && Encodable(v)
    requires At(raw, off, Body(v))
    ensures Extract(was, raw, off) == (Absorb(was, v), |Body(v)|)
    decreases v, 2
  {
    hide Pairs, PrintPairs, TwiceAll, Extract, Get32, PutLength, At;
    ExtractCases(was, raw, off);
    AtSplit(raw, off, PutLength(|v.properties|), PrintPairs(v, 0));
    LengthPrinted(raw, off, |v.properties|);
    PairsPrinted(raw, off, 4, v, 0, was.properties, was.values);
    assert v.properties[0..] == v.properties && v.values[0..] == v.values;
  }

  lemma NothingTwice(before: seq<LValue>, vs: seq<LValue>)
    requires vs == []
    ensures before + TwiceAll(vs) == before
  {
  }

  lemma TwiceAllFrom(before: seq<LValue>, vs: seq<LValue>, i: nat)
    requires i < |vs|
    ensures before + TwiceAll(vs[i..]) == before + [Twice(vs[i])] + TwiceAll(vs[i + 1..])
  {
    hide Twice;
    assert vs[i..][1..] == vs[i + 1..];
  }

  lemma {:induction false} PairsPrinted(
    raw: seq<byte>, off: nat, chunk: nat, v: LValue, i: nat, ps0: seq<LValue>, vs0: seq<LValue>)
    requires v.PropList? && Printable(v) && Encodable(v) && i <= |v.properties|
    requires At(raw, off + chunk, PrintPairs(v, i))
    ensures Pairs(raw, off, chunk, |v.properties| - i, ps0, vs0)
         == (ps0 + TwiceAll(v.properties[i..]), vs0 + TwiceAll(v.values[i..]), chunk + |PrintPairs(v, i)|)
    decreases v, 1, |v.properties| - i
  {
    hide Extract, FromRaw, Child, Print, Twice, TwiceAll, At;
    var ps, vs := v.properties, v.values;
    if i == |ps| {
      NothingTwice(ps0, ps[i..]);
      NothingTwice(vs0, vs[i..]);
    } else {
      var rest := PrintPairs(v, i + 1);
      AtSplit(raw, off + chunk, Print(ps[i]), Print(vs[i]) + rest);
      ChildPrinted(raw, off + chunk, ps[i]);
      var next := chunk + |Print(ps[i])|;
      AtSplit(raw, off + next, Print(vs[i]), rest);
      ChildPrinted(raw, off + next, vs[i]);
      var p, w := Twice(ps[i]), Twice(vs[i]);
      PairsPrinted(raw, off, next + |Print(vs[i])|, v, i + 1, ps0 + [p], vs0 + [w]);
      TwiceAllFrom(ps0, ps, i);
      TwiceAllFrom(vs0, vs, i);
    }
  }

  /** Parsing a printed value, whatever surrounds it, gives `Once(v)`; extraction consumes exactly
    * the printed length after the tag. */
  lemma ParsePrinted(v: LValue, before: seq<byte>, after: seq<byte>)
    requires Printable(v) && Encodable(v)
    ensures FromRaw(before + Print(v) + after, |before|) == Once(v)
    ensures Extract(Fresh(v.Tag()), before + Print(v) + after, |before| + 2).1 == |Print(v)| - 2
  {
    var raw := before + Print(v) + after;
    assert At(raw, |before|, Print(v));
    ChildPrinted(raw, |before|, v);
    AtSplit(raw, |before|, Put16(v.Tag()), Body(v));
    FreshTag(v);
    ExtractPrinted(Fresh(v.Tag()), v, raw, |before| + 2);
  }

  // ---------------------------------------------------------------------------
  // When the value comes back unchanged
  // ---------------------------------------------------------------------------

  /** No non-empty property list anywhere in `v`, `v` itself included. */
  predicate PropFree(v: LValue) {
    match v
    case List(vs) => forall x | x in vs :: PropFree(x)
    case Point(h, w) => PropFreeSlot(h) && PropFreeSlot(w)
    case Rect(l, t, r, b) => PropFreeSlot(l) && PropFreeSlot(t) && PropFreeSlot(r) && PropFreeSlot(b)
    case PropList(ps, vs) => ps == [] && vs == []
    case _ => true
  }

  predicate PropFreeSlot(s: Slot) {
    s.Some? ==> PropFree(s.value)
  }

  /** No non-empty property list strictly inside `v`. */
  predicate InnerPropFree(v: LValue) {
    match v
    case PropList(ps, vs) => (forall x | x in ps :: PropFree(x)) && (forall x | x in vs :: PropFree(x))
    case _ => PropFree(v)
  }

  lemma {:induction false} TwiceIsIdentity(v: LValue)
    requires Printable(v)
    ensures Twice(v) == v <==> PropFree(v)
    decreases v
  {
    match v
    case List(vs) => TwiceAllIsIdentity(vs);
    case Point(h, w) =>
      TwiceSlotIsIdentity(h);
      TwiceSlotIsIdentity(w);
    case Rect(l, t, r, b) =>
      TwiceSlotIsIdentity(l);
      TwiceSlotIsIdentity(t);
      TwiceSlotIsIdentity(r);
      TwiceSlotIsIdentity(b);
    case PropList(ps, vs) =>
      assert Once(v) == PropList([] + TwiceAll(ps), [] + TwiceAll(vs));
      assert Once(v).PropList? && |Once(v).properties| == |ps|;
      assert Twice(v) == PropList(Once(v).properties + TwiceAll(ps), Once(v).values + TwiceAll(vs));
      assert ps != [] ==> |Once(v).properties + TwiceAll(ps)| != |ps|;
    case _ =>
  }

  lemma {:induction false} TwiceAllIsIdentity(vs: seq<LValue>)
    requires forall x | x in vs :: Printable(x)
    ensures TwiceAll(vs) == vs <==> forall x | x in vs :: PropFree(x)
    decreases vs
  {
    if vs != [] {
      TwiceIsIdentity(vs[0]);
      TwiceAllIsIdentity(vs[1..]);
      assert vs == [vs[0]] + vs[1..];
      assert TwiceAll(vs)[1..] == TwiceAll(vs[1..]);
    }
  }

  lemma {:induction false} TwiceSlotIsIdentity(s: Slot)
    requires PrintableSlot(s)
    ensures TwiceSlot(s) == s <==> PropFreeSlot(s)
    decreases s
  {
    TwiceIsIdentity(s.value);
  }

  lemma OnceIsIdentity(v: LValue)
    requires Printable(v)
    ensures Once(v) == v <==> InnerPropFree(v)
  {
    if v.PropList? {
      TwiceAllIsIdentity(v.properties);
      TwiceAllIsIdentity(v.values);
      assert Once(v) == PropList([] + TwiceAll(v.properties), [] + TwiceAll(v.values));
      assert [] + TwiceAll(v.properties) == TwiceAll(v.properties);
      assert [] + TwiceAll(v.values) == TwiceAll(v.values);
    } else {
      TwiceIsIdentity(v);
      assert Once(v) == Twice(v);
    }
  }

  /** The round trip, exactly: between any bytes, the printed value parses back to itself if and only
    * if no non-empty property list lies strictly inside it. */
  lemma RoundTrip(v: LValue, before: seq<byte>, after: seq<byte>)
    requires Printable(v) && Encodable(v)
    ensures FromRaw(before + Print(v) + after, |before|) == v <==> InnerPropFree(v)
  {
    ParsePrinted(v, before, after);
    OnceIsIdentity(v);
  }

  /** The smallest value that does not survive: a list holding a one-pair property list, whose pair
    * comes back twice. */
  lemma NestedPropListDoubles()
    ensures
      var inner := PropList([Void], [Void]);
      FromRaw(Print(List([inner])), 0) == List([PropList([Void, Void], [Void, Void])])
  {
    var inner := PropList([Void], [Void]);
    var v := List([inner]);
    DoubledOnce();
    assert Printable(Void) && Encodable(Void);
    assert Printable(inner) && Encodable(inner);
    assert Printable(v) && Encodable(v);
    hide Once, Print, FromRaw;
    ParsePrinted(v, [], []);
    assert [] + Print(v) + [] == Print(v);
  }

  lemma DoubledOnce()
    ensures
      var inner := PropList([Void], [Void]);
      Once(List([inner])) == List([PropList([Void, Void], [Void, Void])])
  {
    var inner := PropList([Void], [Void]);
    assert TwiceAll([Void]) == [Twice(Void)] == [Void];
    assert Once(inner) == PropList([Void], [Void]);
    assert Twice(inner) == PropList([Void, Void], [Void, Void]);
    assert TwiceAll([inner]) == [Twice(inner)];
    assert Once(List([inner])) == List(TwiceAll([inner]));
  }

  /** A Media prints no bytes: on its own it parses back as a Void; a list of one is still counted and parses
    * back empty; and in a longer list the next element is read in its place. */
  lemma MediaIsLost(data: seq<byte>, rest: seq<LValue>)
    requires forall x | x in rest :: Printable(x)
    ensures FromRaw(Print(Media(data)), 0) == Void
    ensures FromRaw(Print(List([Media(data)])), 0) == List([])
    ensures PrintAll([Media(data)] + rest) == PrintAll(rest)
  {
    assert ([Media(data)] + rest)[1..] == rest;
    MediaListIsRejected(data);
  }

  lemma MediaListIsRejected(data: seq<byte>)
    ensures FromRaw(Print(List([Media(data)])), 0) == List([])
  {
    var vs := [Media(data)];
    var v := List(vs);
    assert vs[1..] == [];
    assert PrintAll(vs) == Print(Media(data)) + PrintAll([]) == [];
    assert Body(v) == PutLength(|vs|) + PrintAll(vs);
    var raw := Print(v);
    assert raw == Put16(v.Tag()) + Body(v);
    assert raw == Put16(v.Tag()) + PutLength(1) && |raw| == 6;
    AtSplit(raw, 0, Put16(v.Tag()), PutLength(1));
    Get32Put32(raw, 2, 1);
    Get16Put16(raw, 0, v.Tag());
    FreshTag(v);
    hide Get32, Get16, Print, Elements;
    ExtractCases(Fresh(v.Tag()), raw, 2);
  }
}
