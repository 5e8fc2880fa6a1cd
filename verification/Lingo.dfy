/** Lingo values, their wire form, and the parser that reads it back.
  *
  * A Go value object is modelled by the value it holds. `ExtractFromBytes` fills an object in
  * place, so `Extract` takes the object's state and returns its new state with the bytes consumed.
  */
module Lingo {
  import opened Bytes

  /** The leaves whose wire form is a tag and a fixed number of bytes; floats are bit patterns. */
  datatype LeafKind = Integer | Float | Date | Vector3d | Transform3d {
    function Width(): nat {
      match this
      case Integer => 4
      case Float => 8
      case Date => 8
      case Vector3d => 12
      case Transform3d => 64
    }

    function Tag(): nat {
      match this
      case Integer => 1
      case Float => 6
      case Date => 19
      case Vector3d => 22
      case Transform3d => 23
    }
  }

  datatype LValue =
    | Void
    | Leaf(kind: LeafKind, bits: seq<byte>)
    | Color(red: byte, green: byte, blue: byte)
    | Symbol(text: seq<byte>)
    | Str(text: seq<byte>)
    | Picture(data: seq<byte>)
    | Media(data: seq<byte>)
    | List(values: seq<LValue>)
    | Point(locH: Slot, locV: Slot)
    | Rect(left: Slot, top: Slot, right: Slot, bottom: Slot)
    | PropList(properties: seq<LValue>, values: seq<LValue>)
  {
    function Tag(): nat {
      match this
      case Void => 0
      case Leaf(k, _) => k.Tag()
      case Symbol(_) => 2
      case Str(_) => 3
      case Picture(_) => 5
      case List(_) => 7
      case Point(_, _) => 8
      case Rect(_, _, _, _) => 9
      case PropList(_, _) => 10
      case Color(_, _, _) => 18
      case Media(_) => 20
    }
  }

  /** An interface-typed field: nil until something is assigned. */
  datatype Slot = Nil | Some(value: LValue)

  function Zeros(n: nat): (z: seq<byte>)
    ensures |z| == n
  {
    seq(n, _ => 0)
  }

  /** The empty object `FromRawBytes` allocates for a type tag; an unknown tag yields a Void. */
  function Fresh(tag: int): LValue {
    if tag == 1 then Leaf(Integer, Zeros(4))
    else if tag == 2 then Symbol([])
    else if tag == 3 then Str([])
    else if tag == 5 then Picture([])
    else if tag == 6 then Leaf(Float, Zeros(8))
    else if tag == 7 then List([])
    else if tag == 8 then Point(Nil, Nil)
    else if tag == 9 then Rect(Nil, Nil, Nil, Nil)
    else if tag == 10 then PropList([], [])
    else if tag == 18 then Color(0, 0, 0)
    else if tag == 19 then Leaf(Date, Zeros(8))
    else if tag == 20 then Media([])
    else if tag == 22 then Leaf(Vector3d, Zeros(12))
    else if tag == 23 then Leaf(Transform3d, Zeros(64))
    else Void
  }

  // ---------------------------------------------------------------------------
  // Parsing
  // ---------------------------------------------------------------------------

  /** What is left of the input at an offset; list offsets may run past the end. */
  function Remaining(raw: seq<byte>, off: nat): nat {
    if off <= |raw| then |raw| - off else 0
  }

  function FromRaw(raw: seq<byte>, off: nat): (v: LValue)
    ensures off + 2 > |raw| ==> v == Void
    decreases Remaining(raw, off), 0, 1
  {
    if off + 2 > |raw| then Void
    else Extract(Fresh(Get16(raw, off)), raw, off + 2).0
  }

  /** How a container reads one child: `FromRawBytes` extracts it, and extracting the same object
    * a second time yields the size. */
  function Child(raw: seq<byte>, off: nat): (r: (LValue, nat))
    decreases Remaining(raw, off), 1, 0
  {
    Extract(FromRaw(raw, off), raw, off + 2)
  }

  function Extract(v: LValue, raw: seq<byte>, off: nat): (r: (LValue, nat))
    ensures v.Void? ==> r == (v, 0)
    decreases Remaining(raw, off), if v.Void? then 0 else 3, 0
  {
    match v
    case List(_) =>
      if off + 4 > |raw| || Get32(raw, off) > (|raw| - off - 4) / 2 then (v, 0)
      else
        var (elems, end) := Elements(raw, off + 4, Get32(raw, off));
        (List(elems), end - off)
    case Point(h, w) =>
      var (f, consumed) := Fields(raw, off, 0, [h, w], 0);
      (Point(f[0], f[1]), consumed)
    case Rect(l, t, r, b) =>
      var (f, consumed) := Fields(raw, off, 0, [l, t, r, b], 0);
      (Rect(f[0], f[1], f[2], f[3]), consumed)
    case PropList(ps, vs) =>
      if off + 4 > |raw| then (v, 0)
      else
        var (ps', vs', consumed) := Pairs(raw, off, 4, Get32(raw, off), ps, vs);
        (PropList(ps', vs'), consumed)
    case _ => ExtractScalar(v, raw, off)
  }

  predicate Scalar(v: LValue) {
    !v.List? && !v.Point? && !v.Rect? && !v.PropList?
  }

  /** The values without children. Void and Media keep the default that reads nothing. */
  function ExtractScalar(v: LValue, raw: seq<byte>, off: nat): (r: (LValue, nat))
    requires Scalar(v)
  {
    match v
    case Leaf(k, _) =>
      if off + k.Width() > |raw| then (v, 0)
      else (Leaf(k, raw[off..off + k.Width()]), k.Width())
    case Color(_, _, _) =>
      if off + 4 > |raw| then (v, 0)
      else (Color(raw[off], raw[off + 1], raw[off + 2]), 4)
    case Symbol(_) => ExtractText(v, raw, off, true)
    case Str(_) => ExtractText(v, raw, off, true)
    case Picture(_) => ExtractText(v, raw, off, false)
    case _ => (v, 0)
  }

  /** Length-prefixed bytes, padded to an even length for strings and symbols. */
  function ExtractText(v: LValue, raw: seq<byte>, off: nat, pad: bool): (r: (LValue, nat))
    requires v.Symbol? || v.Str? || v.Picture?
  {
    if off + 4 > |raw| then (v, 0)
    else
      var length := Get32(raw, off);
      if off + 4 + length > |raw| then (v, 0)
      else
        var text := raw[off + 4..off + 4 + length];
        (if v.Symbol? then Symbol(text) else if v.Str? then Str(text) else Picture(text),
         4 + if pad then Padded(length) else length)
  }

  /** A list's elements from `cur` on, with the offset after the last one. */
  function Elements(raw: seq<byte>, cur: nat, count: nat): (r: (seq<LValue>, nat))
    ensures |r.0| == count && r.1 >= cur + 2 * count
    decreases Remaining(raw, cur), 2, count
  {
    if count == 0 then ([], cur)
    else
      var (elem, consumed) := Child(raw, cur);
      var (rest, end) := Elements(raw, cur + 2 + consumed, count - 1);
      ([elem] + rest, end)
  }

  /** Fill the fields from index `i` on; a field cut short ends the extraction with size 0. */
  function Fields(raw: seq<byte>, off: nat, consumed: nat, fields: seq<Slot>, i: nat): (r: (seq<Slot>, nat))
    requires i <= |fields|
    ensures |r.0| == |fields|
    decreases Remaining(raw, off + consumed), 2, |fields| - i
  {
    if i == |fields| then (fields, consumed)
    else if off + consumed + 2 > |raw| then (fields, 0)
    else
      var (field, size) := Child(raw, off + consumed);
      Fields(raw, off, consumed + 2 + size, fields[i := Some(field)], i + 1)
  }

  /** Append up to `n` property/value pairs; a pair cut short is dropped whole. */
  function Pairs(raw: seq<byte>, off: nat, chunk: nat, n: nat, ps: seq<LValue>, vs: seq<LValue>)
    : (r: (seq<LValue>, seq<LValue>, nat))
    ensures r.2 >= chunk
    decreases Remaining(raw, off + chunk), 2, n
  {
    if n == 0 || off + chunk + 2 > |raw| then (ps, vs, chunk)
    else
      var (prop, propSize) := Child(raw, off + chunk);
      var next := chunk + 2 + propSize;
      if off + next + 2 > |raw| then (ps, vs, chunk)
      else
        var (elem, elemSize) := Child(raw, off + next);
        Pairs(raw, off, next + 2 + elemSize, n - 1, ps + [prop], vs + [elem])
  }

  // ---------------------------------------------------------------------------
  // The shape every parsed value has
  // ---------------------------------------------------------------------------

  /** At every depth: leaves have their width, and a property list
    * as many properties as values. Fields may be nil. */
  predicate Shaped(v: LValue) {
    match v
    case Leaf(k, bits) => |bits| == k.Width()
    case List(vs) => forall x | x in vs :: Shaped(x)
    case Point(h, w) => ShapedSlot(h) && ShapedSlot(w)
    case Rect(l, t, r, b) => ShapedSlot(l) && ShapedSlot(t) && ShapedSlot(r) && ShapedSlot(b)
    case PropList(ps, vs) =>
      && |ps| == |vs|
      && (forall x | x in ps :: Shaped(x))
      && (forall x | x in vs :: Shaped(x))
    case _ => true
  }

  predicate ShapedSlot(s: Slot) {
    s.Some? ==> Shaped(s.value)
  }

  lemma FreshShaped(tag: int)
    ensures Shaped(Fresh(tag))
  {
  }

  /** Any bytes at any offset parse to a shaped value. */
  lemma {:induction false} FromRawShaped(raw: seq<byte>, off: nat)
    ensures Shaped(FromRaw(raw, off))
    decreases Remaining(raw, off), 0, 1
  {
    if off + 2 <= |raw| {
      FreshShaped(Get16(raw, off));
      ExtractShaped(Fresh(Get16(raw, off)), raw, off + 2);
    }
  }

  lemma {:induction false} ChildShaped(raw: seq<byte>, off: nat)
    ensures Shaped(Child(raw, off).0)
    decreases Remaining(raw, off), 1, 0
  {
    FromRawShaped(raw, off);
    ExtractShaped(FromRaw(raw, off), raw, off + 2);
  }

  lemma {:induction false} ExtractShaped(v: LValue, raw: seq<byte>, off: nat)
    requires Shaped(v)
    ensures Shaped(Extract(v, raw, off).0)
    decreases Remaining(raw, off), if v.Void? then 0 else 3, 0
  {
    match v
    case List(_) =>
      if !(off + 4 > |raw| || Get32(raw, off) > (|raw| - off - 4) / 2) {
        ElementsShaped(raw, off + 4, Get32(raw, off));
      }
    case Point(h, w) => FieldsShaped(raw, off, 0, [h, w], 0);
    case Rect(l, t, r, b) => FieldsShaped(raw, off, 0, [l, t, r, b], 0);
    case PropList(ps, vs) =>
      if off + 4 <= |raw| {
        PairsShaped(raw, off, 4, Get32(raw, off), ps, vs);
      }
    case _ =>
  }

  lemma {:induction false} ElementsShaped(raw: seq<byte>, cur: nat, count: nat)
    ensures forall x | x in Elements(raw, cur, count).0 :: Shaped(x)
    decreases Remaining(raw, cur), 2, count
  {
    if count > 0 {
      ChildShaped(raw, cur);
      ElementsShaped(raw, cur + 2 + Child(raw, cur).1, count - 1);
    }
  }

  lemma {:induction false} FieldsShaped(raw: seq<byte>, off: nat, consumed: nat, fields: seq<Slot>, i: nat)
    requires i <= |fields|
    requires forall s | s in fields :: ShapedSlot(s)
    ensures forall s | s in Fields(raw, off, consumed, fields, i).0 :: ShapedSlot(s)
    decreases Remaining(raw, off + consumed), 2, |fields| - i
  {
    if i < |fields| && off + consumed + 2 <= |raw| {
      var (field, size) := Child(raw, off + consumed);
      ChildShaped(raw, off + consumed);
      FieldsShaped(raw, off, consumed + 2 + size, fields[i := Some(field)], i + 1);
    }
  }

  lemma {:induction false} PairsShaped(raw: seq<byte>, off: nat, chunk: nat, n: nat, ps: seq<LValue>, vs: seq<LValue>)
    requires |ps| == |vs|
    requires (forall x | x in ps :: Shaped(x)) && (forall x | x in vs :: Shaped(x))
    ensures
      var (ps', vs', _) := Pairs(raw, off, chunk, n, ps, vs);
      |ps'| == |vs'| && (forall x | x in ps' :: Shaped(x)) && (forall x | x in vs' :: Shaped(x))
    decreases Remaining(raw, off + chunk), 2, n
  {
    if n > 0 && off + chunk + 2 <= |raw| {
      var (prop, propSize) := Child(raw, off + chunk);
      ChildShaped(raw, off + chunk);
      var next := chunk + 2 + propSize;
      if off + next + 2 <= |raw| {
        var (elem, elemSize) := Child(raw, off + next);
        ChildShaped(raw, off + next);
        PairsShaped(raw, off, next + 2 + elemSize, n - 1, ps + [prop], vs + [elem]);
      }
    }
  }
}
