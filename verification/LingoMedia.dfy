/** Media in values: they print no bytes, so what follows is read in their place and no value that holds one
  * comes back. */
module LingoMedia {
  import opened Bytes
  import opened Lingo
  import opened LingoRoundTrip
  import opened LingoCodec

  // ---------------------------------------------------------------------------
  // Values with and without Media
  // ---------------------------------------------------------------------------

  predicate HoldsMedia(v: LValue) {
    match v
    case Media(_) => true
    case List(vs) => exists x | x in vs :: HoldsMedia(x)
    case Point(h, w) => SlotHoldsMedia(h) || SlotHoldsMedia(w)
    case Rect(l, t, r, b) => SlotHoldsMedia(l) || SlotHoldsMedia(t) || SlotHoldsMedia(r) || SlotHoldsMedia(b)
    case PropList(ps, vs) => (exists x | x in ps :: HoldsMedia(x)) || (exists x | x in vs :: HoldsMedia(x))
    case _ => false
  }

  predicate SlotHoldsMedia(s: Slot) {
    s.Some? && HoldsMedia(s.value)
  }

  /** Every length and count is below 2^32. */
  predicate Sized(v: LValue)
    requires Printable(v)
  {
    match v
    case Symbol(text) => |text| < TWO_32
    case Str(text) => |text| < TWO_32
    case Picture(data) => |data| < TWO_32
    case List(vs) => |vs| < TWO_32 && forall x | x in vs :: Sized(x)
    case Point(h, w) => SizedSlot(h) && SizedSlot(w)
    case Rect(l, t, r, b) => SizedSlot(l) && SizedSlot(t) && SizedSlot(r) && SizedSlot(b)
    case PropList(ps, vs) =>
      && |ps| < TWO_32
      && (forall x | x in ps :: Sized(x))
      && (forall x | x in vs :: Sized(x))
    case _ => true
  }

  predicate SizedSlot(s: Slot)
    requires PrintableSlot(s)
  {
    Sized(s.value)
  }

  lemma {:induction false} EncodableIffMediaFree(v: LValue)
    requires Printable(v) && Sized(v)
    ensures Encodable(v) <==> !HoldsMedia(v)
    decreases v
  {
    match v
    case List(vs) =>
      forall x | x in vs
        ensures Encodable(x) <==> !HoldsMedia(x)
      {
        EncodableIffMediaFree(x);
      }
    case Point(h, w) =>
      EncodableIffMediaFree(h.value);
      EncodableIffMediaFree(w.value);
    case Rect(l, t, r, b) =>
      EncodableIffMediaFree(l.value);
      EncodableIffMediaFree(t.value);
      EncodableIffMediaFree(r.value);
      EncodableIffMediaFree(b.value);
    case PropList(ps, vs) =>
      forall x | x in ps
        ensures Encodable(x) <==> !HoldsMedia(x)
      {
        EncodableIffMediaFree(x);
      }
      forall x | x in vs
        ensures Encodable(x) <==> !HoldsMedia(x)
      {
        EncodableIffMediaFree(x);
      }
    case _ =>
  }

  /** A value without Media is read back without any. */
  lemma {:induction false} TwiceIsMediaFree(v: LValue)
    requires !HoldsMedia(v)
    ensures !HoldsMedia(Twice(v))
    decreases v, 1
  {
    match v
    case List(vs) => TwiceAllIsMediaFree(vs);
    case Point(h, w) =>
      SlotIsMediaFree(h);
      SlotIsMediaFree(w);
    case Rect(l, t, r, b) =>
      SlotIsMediaFree(l);
      SlotIsMediaFree(t);
      SlotIsMediaFree(r);
      SlotIsMediaFree(b);
    case PropList(ps, vs) =>
      TwiceAllIsMediaFree(ps);
      TwiceAllIsMediaFree(vs);
      assert Once(v) == PropList([] + TwiceAll(ps), [] + TwiceAll(vs));
      assert Twice(v) == PropList([] + TwiceAll(ps) + TwiceAll(ps), [] + TwiceAll(vs) + TwiceAll(vs));
    case _ =>
  }

  lemma {:induction false} SlotIsMediaFree(s: Slot)
    requires !SlotHoldsMedia(s)
    ensures !SlotHoldsMedia(TwiceSlot(s))
    decreases s
  {
    if s.Some? {
      TwiceIsMediaFree(s.value);
    }
  }

  lemma {:induction false} TwiceAllIsMediaFree(vs: seq<LValue>)
    requires forall x | x in vs :: !HoldsMedia(x)
    ensures forall x | x in TwiceAll(vs) :: !HoldsMedia(x)
    decreases vs
  {
    hide HoldsMedia, Twice;
    if vs != [] {
      TwiceIsMediaFree(vs[0]);
      TwiceAllIsMediaFree(vs[1..]);
    }
  }

  // ---------------------------------------------------------------------------
  // What stands where a Media was printed
  // ---------------------------------------------------------------------------

  const MEDIA_TAG := 20

  /** The end of the input, or a tag that is not that of a Media. */
  predicate NoMediaTag(raw: seq<byte>, off: nat) {
    off + 2 > |raw| || Get16(raw, off) != MEDIA_TAG
  }

  /** Before a printed value there is no Media tag if there is none behind it. */
  lemma NoMediaTagBefore(raw: seq<byte>, off: nat, v: LValue)
    requires Printable(v) && At(raw, off, Print(v)) && NoMediaTag(raw, off + |Print(v)|)
    ensures NoMediaTag(raw, off)
  {
    if !v.Media? {
      AtSplit(raw, off, Put16(v.Tag()), Body(v));
      Get16Put16(raw, off, v.Tag());
    }
  }

  lemma {:induction false} NoMediaTagBeforeAll(raw: seq<byte>, off: nat, vs: seq<LValue>)
    requires forall x | x in vs :: Printable(x)
    requires At(raw, off, PrintAll(vs)) && NoMediaTag(raw, off + |PrintAll(vs)|)
    ensures NoMediaTag(raw, off)
    decreases |vs|
  {
    hide Print, Printable, NoMediaTag;
    if vs != [] {
      AtSplit(raw, off, Print(vs[0]), PrintAll(vs[1..]));
      NoMediaTagBeforeAll(raw, off + |Print(vs[0])|, vs[1..]);
      NoMediaTagBefore(raw, off, vs[0]);
    }
  }

  lemma {:induction false} NoMediaTagBeforePairs(raw: seq<byte>, off: nat, v: LValue, i: nat)
    requires v.PropList? && Printable(v) && i <= |v.properties|
    requires At(raw, off, PrintPairs(v, i)) && NoMediaTag(raw, off + |PrintPairs(v, i)|)
    ensures NoMediaTag(raw, off)
    decreases |v.properties| - i
  {
    hide Print, NoMediaTag;
    if i < |v.properties| {
      var p, w := v.properties[i], v.values[i];
      AtSplit(raw, off, Print(p), Print(w) + PrintPairs(v, i + 1));
      AtSplit(raw, off + |Print(p)|, Print(w), PrintPairs(v, i + 1));
      NoMediaTagBeforePairs(raw, off + |Print(p)| + |Print(w)|, v, i + 1);
      NoMediaTagBefore(raw, off + |Print(p)|, w);
      NoMediaTagBefore(raw, off, p);
    }
  }

  lemma ExtractIsNoMedia(was: LValue, raw: seq<byte>, off: nat)
    requires !was.Media?
    ensures !Extract(was, raw, off).0.Media?
  {
  }

  // ---------------------------------------------------------------------------
  // No container with a Media in it comes back
  // ---------------------------------------------------------------------------

  /** Where a value that holds a Media was printed, and no Media tag follows, neither extraction yields it. */
  lemma {:induction false} MediaChildIsLost(raw: seq<byte>, off: nat, v: LValue)
    requires Printable(v) && Sized(v) && HoldsMedia(v)
    requires At(raw, off, Print(v)) && NoMediaTag(raw, off + |Print(v)|)
    ensures FromRaw(raw, off) != v && Child(raw, off).0 != v
    decreases v, 4
  {
    hide FromRaw, Child, Extract, Print, Sized, NoMediaTag;
    match v
    case Media(_) =>
      PrintsNothing(v);
      NotReadAsMedia(raw, off);
    case List(_) =>
      ReadsOf(raw, off, v);
      MediaListIsLost(List([]), v, raw, off + 2);
      MediaListIsLost(FromRaw(raw, off), v, raw, off + 2);
    case Point(_, _) =>
      ReadsOf(raw, off, v);
      MediaPointIsLost(raw, off + 2, v);
    case Rect(_, _, _, _) =>
      ReadsOf(raw, off, v);
      MediaRectIsLost(raw, off + 2, v);
    case PropList(_, _) =>
      ReadsOf(raw, off, v);
      MediaPropListIsLost(raw, off + 2, v);
  }

  lemma PrintsNothing(v: LValue)
    requires v.Media?
    ensures Print(v) == []
  {
  }

  lemma NotReadAsMedia(raw: seq<byte>, off: nat)
    requires NoMediaTag(raw, off)
    ensures !FromRaw(raw, off).Media? && !Child(raw, off).0.Media?
  {
    hide Extract;
    if off + 2 <= |raw| {
      ExtractIsNoMedia(Fresh(Get16(raw, off)), raw, off + 2);
    }
    ExtractIsNoMedia(FromRaw(raw, off), raw, off + 2);
  }

  /** The two extractions of a printed value, into an empty object and into what that gives. */
  lemma ReadsOf(raw: seq<byte>, off: nat, v: LValue)
    requires Printable(v) && !v.Media? && At(raw, off, Print(v))
    ensures At(raw, off + 2, Body(v)) && |Print(v)| == 2 + |Body(v)|
    ensures FromRaw(raw, off) == Extract(Fresh(v.Tag()), raw, off + 2).0
    ensures Child(raw, off) == Extract(FromRaw(raw, off), raw, off + 2)
  {
    hide Extract, Body;
    AtSplit(raw, off, Put16(v.Tag()), Body(v));
    Get16Put16(raw, off, v.Tag());
  }

  // Lists

  lemma {:induction false} MediaListIsLost(was: LValue, v: LValue, raw: seq<byte>, off: nat)
    requires v.List? && was.List? && was != v && Printable(v) && Sized(v) && HoldsMedia(v)
    requires At(raw, off, Body(v)) && NoMediaTag(raw, off + |Body(v)|)
    ensures Extract(was, raw, off).0.List? && Extract(was, raw, off).0 != v
    decreases v, 2
  {
    ListBody(v);
    hide Elements, PrintAll, Extract, Get32, Put32, Body, NoMediaTag, Printable, Sized, HoldsMedia;
    ExtractCases(was, raw, off);
    AtSplit(raw, off, Put32(|v.values|), PrintAll(v.values));
    Get32Put32(raw, off, |v.values|);
    MediaElementsAreLost(raw, off + 4, v.values);
  }

  lemma ListBody(v: LValue)
    requires v.List? && Printable(v) && Sized(v)
    ensures forall x | x in v.values :: Printable(x) && Sized(x)
    ensures HoldsMedia(v) <==> exists x | x in v.values :: HoldsMedia(x)
    ensures |v.values| < TWO_32 && Body(v) == Put32(|v.values|) + PrintAll(v.values)
  {
    hide PrintAll, Put32;
  }

  lemma {:induction false} MediaElementsAreLost(raw: seq<byte>, cur: nat, vs: seq<LValue>)
    requires forall x | x in vs :: Printable(x) && Sized(x)
    requires exists x | x in vs :: HoldsMedia(x)
    requires At(raw, cur, PrintAll(vs)) && NoMediaTag(raw, cur + |PrintAll(vs)|)
    ensures Elements(raw, cur, |vs|).0 != vs
    decreases vs
  {
    hide Child, Print, Printable, Sized, HoldsMedia, NoMediaTag;
    AtSplit(raw, cur, Print(vs[0]), PrintAll(vs[1..]));
    var next := cur + |Print(vs[0])|;
    var elem := Child(raw, cur).0;
    assert Elements(raw, cur, |vs|).0[0] == elem;
    if HoldsMedia(vs[0]) {
      NoMediaTagBeforeAll(raw, next, vs[1..]);
      MediaChildIsLost(raw, cur, vs[0]);
    } else {
      EncodableIffMediaFree(vs[0]);
      ChildPrinted(raw, cur, vs[0]);
      PrintedSize(vs[0]);
      MediaElementsAreLost(raw, next, vs[1..]);
      assert Elements(raw, cur, |vs|).0[1..] == Elements(raw, next, |vs| - 1).0;
    }
  }

  // Points and rectangles

  function Slots(v: LValue): seq<Slot>
    requires v.Point? || v.Rect?
  {
    match v
    case Point(h, w) => [h, w]
    case Rect(l, t, r, b) => [l, t, r, b]
  }

  ghost predicate GoodSlots(slots: seq<Slot>) {
    forall i | 0 <= i < |slots| :: PrintableSlot(slots[i]) && SizedSlot(slots[i])
  }

  function PrintSlots(slots: seq<Slot>): seq<byte>
    requires GoodSlots(slots)
  {
    if slots == [] then [] else PrintSlot(slots[0]) + PrintSlots(slots[1..])
  }

  lemma BodyIsSlots(v: LValue)
    requires (v.Point? || v.Rect?) && Printable(v) && Sized(v)
    ensures GoodSlots(Slots(v)) && Body(v) == PrintSlots(Slots(v))
  {
    GoodParts(v);
    PartsOfBody(v);
    hide PrintSlot, PrintSlots, GoodSlots, PrintableSlot, SizedSlot, Body, Printable, Sized;
    match v
    case Point(h, w) => TwoSlots(h, w);
    case Rect(l, t, r, b) => FourSlots(l, t, r, b);
  }

  lemma PartsOfBody(v: LValue)
    requires (v.Point? || v.Rect?) && Printable(v)
    ensures v.Point? ==> PrintableSlot(v.locH) && PrintableSlot(v.locV)
    ensures v.Point? ==> Body(v) == PrintSlot(v.locH) + PrintSlot(v.locV)
    ensures v.Rect? ==>
              && PrintableSlot(v.left) && PrintableSlot(v.top) && PrintableSlot(v.right) && PrintableSlot(v.bottom)
              && Body(v)
                 == PrintSlot(v.left) + (PrintSlot(v.top) + (PrintSlot(v.right) + PrintSlot(v.bottom)))
  {
    hide PrintSlot;
  }

  lemma FourSlots(l: Slot, t: Slot, r: Slot, b: Slot)
    requires PrintableSlot(l) && PrintableSlot(t) && PrintableSlot(r) && PrintableSlot(b)
    requires GoodSlots([l, t, r, b]) && GoodSlots([t, r, b]) && GoodSlots([r, b])
    ensures PrintSlots([l, t, r, b]) == PrintSlot(l) + (PrintSlot(t) + (PrintSlot(r) + PrintSlot(b)))
  {
    hide PrintSlot, PrintSlots, GoodSlots, PrintableSlot;
    TwoSlots(r, b);
    assert [t] + [r, b] == [t, r, b] && [l] + [t, r, b] == [l, t, r, b];
    MoreSlots(t, [r, b]);
    MoreSlots(l, [t, r, b]);
  }

  lemma GoodParts(v: LValue)
    requires (v.Point? || v.Rect?) && Printable(v) && Sized(v)
    ensures GoodSlots(Slots(v))
    ensures v.Rect? ==> GoodSlots([v.right, v.bottom]) && GoodSlots([v.top, v.right, v.bottom])
  {
  }

  lemma MoreSlots(s: Slot, slots: seq<Slot>)
    requires PrintableSlot(s) && GoodSlots(slots) && GoodSlots([s] + slots)
    ensures PrintSlots([s] + slots) == PrintSlot(s) + PrintSlots(slots)
  {
    hide PrintSlot, PrintableSlot, SizedSlot;
    assert ([s] + slots)[1..] == slots;
  }

  lemma TwoSlots(s: Slot, t: Slot)
    requires PrintableSlot(s) && PrintableSlot(t) && GoodSlots([s, t])
    ensures PrintSlots([s, t]) == PrintSlot(s) + PrintSlot(t)
  {
    hide PrintSlot, PrintableSlot, SizedSlot;
    assert [s, t][1] == t;
    assert GoodSlots([t]) && PrintSlots([t]) == PrintSlot(t) + PrintSlots([]);
    assert [s] + [t] == [s, t];
    MoreSlots(s, [t]);
  }

  lemma SlotsStep(slots: seq<Slot>, i: nat)
    requires GoodSlots(slots) && i < |slots|
    ensures GoodSlots(slots[i..]) && GoodSlots(slots[i + 1..])
    ensures PrintSlots(slots[i..]) == PrintSlot(slots[i]) + PrintSlots(slots[i + 1..])
  {
    hide PrintSlot, PrintableSlot, SizedSlot;
    assert slots[i..][1..] == slots[i + 1..];
  }

  lemma {:induction false} NoMediaTagBeforeSlots(raw: seq<byte>, off: nat, slots: seq<Slot>)
    requires GoodSlots(slots) && At(raw, off, PrintSlots(slots)) && NoMediaTag(raw, off + |PrintSlots(slots)|)
    ensures NoMediaTag(raw, off)
    decreases |slots|
  {
    hide NoMediaTag, Print;
    if slots != [] {
      AtSplit(raw, off, PrintSlot(slots[0]), PrintSlots(slots[1..]));
      NoMediaTagBeforeSlots(raw, off + |PrintSlot(slots[0])|, slots[1..]);
      NoMediaTagBefore(raw, off, slots[0].value);
    }
  }

  /** The first slot from `i` on that holds a Media. */
  function FirstMedia(slots: seq<Slot>, i: nat): (k: nat)
    requires i <= |slots|
    ensures i <= k <= |slots|
    ensures k < |slots| ==> SlotHoldsMedia(slots[k])
    ensures k == |slots| ==> forall j | i <= j < |slots| :: !SlotHoldsMedia(slots[j])
    decreases |slots| - i
  {
    if i == |slots| || SlotHoldsMedia(slots[i]) then i else FirstMedia(slots, i + 1)
  }

  lemma {:induction false} FieldsKeep(raw: seq<byte>, off: nat, consumed: nat, fields: seq<Slot>, i: nat, k: nat)
    requires k < i <= |fields|
    ensures Fields(raw, off, consumed, fields, i).0[k] == fields[k]
    decreases |fields| - i
  {
    hide Child;
    if i < |fields| && off + consumed + 2 <= |raw| {
      var (field, size) := Child(raw, off + consumed);
      FieldsKeep(raw, off, consumed + 2 + size, fields[i := Some(field)], i + 1, k);
    }
  }

  /** The first field that holds a Media is not read back, nor is it there unless it was before. */
  lemma {:induction false} MediaFieldIsLost(
    raw: seq<byte>, off: nat, consumed: nat, fields: seq<Slot>, i: nat, v: LValue, k: nat)
    requires (v.Point? || v.Rect?) && GoodSlots(Slots(v)) && |fields| == |Slots(v)| && i <= k < |fields|
    requires k == FirstMedia(Slots(v), i) && fields[k] != Slots(v)[k]
    requires At(raw, off + consumed, PrintSlots(Slots(v)[i..]))
    requires NoMediaTag(raw, off + consumed + |PrintSlots(Slots(v)[i..])|)
    ensures Fields(raw, off, consumed, fields, i).0[k] != Slots(v)[k]
    decreases v, 1, |fields| - i
  {
    hide Child, Print, PrintSlot, PrintSlots, NoMediaTag, HoldsMedia, Printable, Sized, Fields;
    var slots := Slots(v);
    var s := slots[i];
    SlotIsPart(v, i);
    SlotsStep(slots, i);
    AtSplit(raw, off + consumed, PrintSlot(s), PrintSlots(slots[i + 1..]));
    if i < k {
      EncodableIffMediaFree(s.value);
      FieldPrinted(raw, off, consumed, fields, i, s);
      MediaFieldIsLost(raw, off, consumed + |PrintSlot(s)|, fields[i := TwiceSlot(s)], i + 1, v, k);
    } else {
      NoMediaTagBeforeSlots(raw, off + consumed + |PrintSlot(s)|, slots[i + 1..]);
      PrintSlotIs(s);
      MediaChildIsLost(raw, off + consumed, s.value);
      FieldWritten(raw, off, consumed, fields, i);
    }
  }

  /** What the field is after its turn: as it was at the end of the input, else what was read. */
  lemma FieldWritten(raw: seq<byte>, off: nat, consumed: nat, fields: seq<Slot>, i: nat)
    requires i < |fields|
    ensures
      var r := Fields(raw, off, consumed, fields, i).0[i];
      r == fields[i] || r == Slot.Some(Child(raw, off + consumed).0)
  {
    hide Child, Fields;
    if off + consumed + 2 > |raw| {
      FieldsEnd(raw, off, consumed, fields, i);
    } else {
      var (field, size) := Child(raw, off + consumed);
      FieldsStep(raw, off, consumed, fields, i, field, size);
      FieldsKeep(raw, off, consumed + 2 + size, fields[i := Slot.Some(field)], i + 1, i);
    }
  }

  lemma PrintSlotIs(s: Slot)
    requires PrintableSlot(s)
    ensures PrintSlot(s) == Print(s.value)
  {
  }

  /** A slot's value is smaller than the value the slot is of. */
  lemma SlotIsPart(v: LValue, i: nat)
    requires (v.Point? || v.Rect?) && i < |Slots(v)| && Slots(v)[i].Some?
    ensures Slots(v)[i].value < v
  {
    match v
    case Point(h, w) => assert Slots(v)[i] == h || Slots(v)[i] == w;
    case Rect(l, t, r, b) =>
      assert Slots(v)[i] == l || Slots(v)[i] == t || Slots(v)[i] == r || Slots(v)[i] == b;
  }

  lemma {:induction false} MediaFieldsAreLost(raw: seq<byte>, off: nat, v: LValue, fields: seq<Slot>)
    requires (v.Point? || v.Rect?) && Printable(v) && Sized(v) && HoldsMedia(v) && |fields| == |Slots(v)|
    requires At(raw, off, Body(v)) && NoMediaTag(raw, off + |Body(v)|)
    requires
      var k := FirstMedia(Slots(v), 0);
      k < |Slots(v)| ==> fields[k] != Slots(v)[k]
    ensures
      var k, r := FirstMedia(Slots(v), 0), Fields(raw, off, 0, fields, 0).0;
      k < |Slots(v)| && r[k] != Slots(v)[k]
    decreases v, 2
  {
    BodyIsSlots(v);
    var slots := Slots(v);
    SomeSlotHoldsMedia(v);
    hide Fields, HoldsMedia, PrintSlots, NoMediaTag, Body, Printable, Sized;
    assert slots[0..] == slots;
    MediaFieldIsLost(raw, off, 0, fields, 0, v, FirstMedia(slots, 0));
  }

  lemma SomeSlotHoldsMedia(v: LValue)
    requires (v.Point? || v.Rect?) && HoldsMedia(v)
    ensures FirstMedia(Slots(v), 0) < |Slots(v)|
  {
    var slots := Slots(v);
    hide FirstMedia;
    assert exists j :: 0 <= j < |slots| && SlotHoldsMedia(slots[j]) by {
      assert v.Point? ==> slots[0] == v.locH && slots[1] == v.locV;
      assert v.Rect? ==> slots[0] == v.left && slots[1] == v.top && slots[2] == v.right && slots[3] == v.bottom;
    }
  }

  lemma {:induction false} MediaPointIsLost(raw: seq<byte>, off: nat, v: LValue)
    requires v.Point? && Printable(v) && Sized(v) && HoldsMedia(v)
    requires At(raw, off, Body(v)) && NoMediaTag(raw, off + |Body(v)|)
    ensures
      var first := Extract(Point(Nil, Nil), raw, off).0;
      first != v && Extract(first, raw, off).0 != v
    decreases v, 3
  {
    hide Fields, Extract, Body, Printable, Sized, HoldsMedia, NoMediaTag;
    ExtractCases(Point(Nil, Nil), raw, off);
    MediaFieldsAreLost(raw, off, v, [Nil, Nil]);
    var first := Extract(Point(Nil, Nil), raw, off).0;
    var f := Fields(raw, off, 0, [Nil, Nil], 0).0;
    assert f == [first.locH, first.locV];
    ExtractCases(first, raw, off);
    MediaFieldsAreLost(raw, off, v, f);
  }

  lemma {:induction false} MediaRectIsLost(raw: seq<byte>, off: nat, v: LValue)
    requires v.Rect? && Printable(v) && Sized(v) && HoldsMedia(v)
    requires At(raw, off, Body(v)) && NoMediaTag(raw, off + |Body(v)|)
    ensures
      var first := Extract(Rect(Nil, Nil, Nil, Nil), raw, off).0;
      first != v && Extract(first, raw, off).0 != v
    decreases v, 3
  {
    hide Fields, Extract, Body, Printable, Sized, HoldsMedia, NoMediaTag;
    ExtractCases(Rect(Nil, Nil, Nil, Nil), raw, off);
    MediaFieldsAreLost(raw, off, v, [Nil, Nil, Nil, Nil]);
    var first := Extract(Rect(Nil, Nil, Nil, Nil), raw, off).0;
    var f := Fields(raw, off, 0, [Nil, Nil, Nil, Nil], 0).0;
    assert f == [first.left, first.top, first.right, first.bottom];
    ExtractCases(first, raw, off);
    MediaFieldsAreLost(raw, off, v, f);
  }

  // Property lists

  /** What a pass appends does not depend on what was there. */
  lemma {:induction false} PairsAppend(
    raw: seq<byte>, off: nat, chunk: nat, n: nat, ps: seq<LValue>, vs: seq<LValue>)
    ensures
      var r := Pairs(raw, off, chunk, n, [], []);
      && Pairs(raw, off, chunk, n, ps, vs) == (ps + r.0, vs + r.1, r.2)
      && |r.0| == |r.1| <= n
    decreases n
  {
    hide Child;
    assert ps + [] == ps && vs + [] == vs;
    if n > 0 && off + chunk + 2 <= |raw| {
      var (prop, propSize) := Child(raw, off + chunk);
      var next := chunk + 2 + propSize;
      if off + next + 2 <= |raw| {
        var (elem, elemSize) := Child(raw, off + next);
        PairsAppend(raw, off, next + 2 + elemSize, n - 1, ps + [prop], vs + [elem]);
        PairsAppend(raw, off, next + 2 + elemSize, n - 1, [] + [prop], [] + [elem]);
        var rest := Pairs(raw, off, next + 2 + elemSize, n - 1, [], []);
        assert (ps + [prop]) + rest.0 == ps + ([prop] + rest.0) && (vs + [elem]) + rest.1 == vs + ([elem] + rest.1);
        assert [] + [prop] == [prop] && [] + [elem] == [elem];
      }
    }
  }

  predicate PairHoldsMedia(v: LValue, i: nat)
    requires v.PropList? && i < |v.properties| == |v.values|
  {
    HoldsMedia(v.properties[i]) || HoldsMedia(v.values[i])
  }

  /** One pass over the pairs from `i` on, the first of which to hold a Media is `k`: before it, values free of
    * Media; at it, if the pass gets there, a pair that is not the one printed. */
  ghost predicate Spoiled(v: LValue, i: nat, k: nat, ps: seq<LValue>, vs: seq<LValue>)
    requires v.PropList? && |v.properties| == |v.values| && i <= k < |v.properties|
  {
    && |ps| == |vs|
    && PairHoldsMedia(v, k)
    && (forall j | 0 <= j < |ps| && j < k - i :: !HoldsMedia(ps[j]) && !HoldsMedia(vs[j]))
    && (k - i < |ps| ==> ps[k - i] != v.properties[k] || vs[k - i] != v.values[k])
  }

  lemma {:induction false} PassIsSpoiled(raw: seq<byte>, off: nat, chunk: nat, v: LValue, i: nat, k: nat)
    requires v.PropList? && Printable(v) && Sized(v) && i <= k < |v.properties| && PairHoldsMedia(v, k)
    requires forall j | i <= j < k :: !PairHoldsMedia(v, j)
    requires At(raw, off + chunk, PrintPairs(v, i)) && NoMediaTag(raw, off + chunk + |PrintPairs(v, i)|)
    ensures
      var r := Pairs(raw, off, chunk, |v.properties| - i, [], []);
      Spoiled(v, i, k, r.0, r.1)
    decreases v, 1, |v.properties| - i
  {
    hide Child, Print, Printable, Sized, HoldsMedia, NoMediaTag, Pairs, Spoiled, PrintPairs, At;
    PairLayout(raw, off + chunk, v, i);
    var n := |v.properties| - i;
    var p, w := v.properties[i], v.values[i];
    PairRead(raw, off, chunk, n);
    var (prop, propSize) := Child(raw, off + chunk);
    var next := chunk + 2 + propSize;
    var (elem, elemSize) := Child(raw, off + next);
    var r := Pairs(raw, off, chunk, n, [], []);
    if r.0 == [] {
      CutShort(v, i, k, r.0, r.1);
    } else if HoldsMedia(p) {
      MediaChildIsLost(raw, off + chunk, p);
      WrongPair(v, i, r.0, r.1);
    } else {
      PropIsRead(raw, off + chunk, p);
      if HoldsMedia(w) {
        MediaChildIsLost(raw, off + next, w);
        WrongPair(v, i, r.0, r.1);
      } else {
        PropIsRead(raw, off + next, w);
        var rest := Pairs(raw, off, next + 2 + elemSize, n - 1, [], []);
        PassIsSpoiled(raw, off, next + 2 + elemSize, v, i + 1, k);
        FurtherPair(v, i, k, prop, elem, rest.0, rest.1);
      }
    }
  }

  lemma PairLayout(raw: seq<byte>, at: nat, v: LValue, i: nat)
    requires v.PropList? && Printable(v) && Sized(v) && i < |v.properties|
    requires At(raw, at, PrintPairs(v, i)) && NoMediaTag(raw, at + |PrintPairs(v, i)|)
    ensures |v.properties| == |v.values|
    ensures
      var p, w := v.properties[i], v.values[i];
      && Printable(p) && Printable(w) && Sized(p) && Sized(w)
      && var m := at + |Print(p)|;
         && At(raw, at, Print(p)) && NoMediaTag(raw, m)
         && At(raw, m, Print(w)) && NoMediaTag(raw, m + |Print(w)|)
         && At(raw, m + |Print(w)|, PrintPairs(v, i + 1))
         && NoMediaTag(raw, m + |Print(w)| + |PrintPairs(v, i + 1)|)
  {
    hide Print, HoldsMedia, NoMediaTag;
    var p, w := v.properties[i], v.values[i];
    AtSplit(raw, at, Print(p), Print(w) + PrintPairs(v, i + 1));
    AtSplit(raw, at + |Print(p)|, Print(w), PrintPairs(v, i + 1));
    NoMediaTagBeforePairs(raw, at + |Print(p)| + |Print(w)|, v, i + 1);
    NoMediaTagBefore(raw, at + |Print(p)|, w);
  }

  /** One pair of a pass: nothing more, or what the two children give and the rest of the pass. */
  lemma PairRead(raw: seq<byte>, off: nat, chunk: nat, n: nat)
    requires n > 0
    ensures
      var (prop, propSize) := Child(raw, off + chunk);
      var next := chunk + 2 + propSize;
      var (elem, elemSize) := Child(raw, off + next);
      var r := Pairs(raw, off, chunk, n, [], []);
      var rest := Pairs(raw, off, next + 2 + elemSize, n - 1, [], []);
      && ((r.0 == [] && r.1 == []) || (r.0 == [prop] + rest.0 && r.1 == [elem] + rest.1))
      && |r.0| == |r.1|
  {
    hide Child, Pairs;
    PairsStep(raw, off, chunk, n, [], []);
    var (prop, propSize) := Child(raw, off + chunk);
    var next := chunk + 2 + propSize;
    var (elem, elemSize) := Child(raw, off + next);
    PairsAppend(raw, off, next + 2 + elemSize, n - 1, [] + [prop], [] + [elem]);
    PairsAppend(raw, off, chunk, n, [], []);
    assert [] + [prop] == [prop] && [] + [elem] == [elem];
  }

  lemma CutShort(v: LValue, i: nat, k: nat, ps: seq<LValue>, vs: seq<LValue>)
    requires v.PropList? && |v.properties| == |v.values| && i <= k < |v.properties| && PairHoldsMedia(v, k)
    requires ps == [] && vs == []
    ensures Spoiled(v, i, k, ps, vs)
  {
  }

  lemma WrongPair(v: LValue, k: nat, ps: seq<LValue>, vs: seq<LValue>)
    requires v.PropList? && k < |v.properties| == |v.values| && PairHoldsMedia(v, k) && |ps| == |vs| > 0
    requires ps[0] != v.properties[k] || vs[0] != v.values[k]
    ensures Spoiled(v, k, k, ps, vs)
  {
  }

  lemma FurtherPair(v: LValue, i: nat, k: nat, p: LValue, w: LValue, ps: seq<LValue>, vs: seq<LValue>)
    requires v.PropList? && |v.properties| == |v.values| && i < k < |v.properties|
    requires Spoiled(v, i + 1, k, ps, vs) && !HoldsMedia(p) && !HoldsMedia(w)
    ensures Spoiled(v, i, k, [p] + ps, [w] + vs)
  {
    hide HoldsMedia;
  }

  /** A part without Media is read, as one without Media, and consumed exactly. */
  lemma PropIsRead(raw: seq<byte>, off: nat, x: LValue)
    requires Printable(x) && Sized(x) && !HoldsMedia(x) && At(raw, off, Print(x))
    ensures !HoldsMedia(Child(raw, off).0) && Child(raw, off).1 == |Print(x)| - 2
  {
    EncodableIffMediaFree(x);
    ChildPrinted(raw, off, x);
    TwiceIsMediaFree(x);
  }

  lemma SomePair(v: LValue) returns (j: nat)
    requires v.PropList? && |v.properties| == |v.values| && HoldsMedia(v)
    ensures j < |v.properties| && PairHoldsMedia(v, j)
  {
    if x :| x in v.properties && HoldsMedia(x) {
      j :| 0 <= j < |v.properties| && v.properties[j] == x;
    } else {
      var x :| x in v.values && HoldsMedia(x);
      j :| 0 <= j < |v.values| && v.values[j] == x;
    }
  }

  lemma FirstPair(v: LValue) returns (k: nat)
    requires v.PropList? && Printable(v) && HoldsMedia(v)
    ensures k < |v.properties| == |v.values| && PairHoldsMedia(v, k)
    ensures forall j | 0 <= j < k :: !PairHoldsMedia(v, j)
  {
    var some := SomePair(v);
    hide HoldsMedia, PairHoldsMedia;
    k := 0;
    while !PairHoldsMedia(v, k)
      invariant k <= some
      invariant forall j | 0 <= j < k :: !PairHoldsMedia(v, j)
      decreases some - k
    {
      k := k + 1;
    }
  }

  /** Neither one pass nor two give the pairs printed. */
  lemma SpoiledIsNotAll(v: LValue, k: nat, ps: seq<LValue>, vs: seq<LValue>)
    requires v.PropList? && |v.properties| == |v.values| && k < |v.properties| && Spoiled(v, 0, k, ps, vs)
    ensures PropList(ps, vs) != v && PropList(ps + ps, vs + vs) != v
  {
    hide HoldsMedia;
    var m := |ps|;
    if k < m {
      assert (ps + ps)[k] == ps[k] && (vs + vs)[k] == vs[k];
    } else if k < 2 * m {
      assert (ps + ps)[k] == ps[k - m] && (vs + vs)[k] == vs[k - m];
    }
  }

  lemma PropListLayout(raw: seq<byte>, off: nat, v: LValue)
    requires v.PropList? && Printable(v) && Sized(v) && At(raw, off, Body(v))
    ensures |Body(v)| == 4 + |PrintPairs(v, 0)| && At(raw, off + 4, PrintPairs(v, 0))
    ensures off + 4 <= |raw| && Get32(raw, off) == |v.properties|
  {
    PropListBody(v);
    hide PrintPairs, Get32, Put32, Body, Printable, Sized;
    AtSplit(raw, off, Put32(|v.properties|), PrintPairs(v, 0));
    Get32Put32(raw, off, |v.properties|);
  }

  lemma PropListBody(v: LValue)
    requires v.PropList? && Printable(v) && Sized(v)
    ensures |v.properties| < TWO_32 && Body(v) == Put32(|v.properties|) + PrintPairs(v, 0)
  {
    hide PrintPairs, Put32;
  }

  lemma {:induction false} MediaPropListIsLost(raw: seq<byte>, off: nat, v: LValue)
    requires v.PropList? && Printable(v) && Sized(v) && HoldsMedia(v)
    requires At(raw, off, Body(v)) && NoMediaTag(raw, off + |Body(v)|)
    ensures
      var first := Extract(PropList([], []), raw, off).0;
      first != v && Extract(first, raw, off).0 != v
    decreases v, 2
  {
    var k := FirstPair(v);
    PropListLayout(raw, off, v);
    hide Pairs, PrintPairs, Extract, Get32, HoldsMedia, NoMediaTag, Body, Printable, Sized, At;
    PassIsSpoiled(raw, off, 4, v, 0, k);
    var (ps, vs, end) := Pairs(raw, off, 4, |v.properties|, [], []);
    SpoiledIsNotAll(v, k, ps, vs);
    ExtractCases(PropList([], []), raw, off);
    ExtractCases(PropList(ps, vs), raw, off);
    PairsAppend(raw, off, 4, |v.properties|, ps, vs);
  }

  // ---------------------------------------------------------------------------
  // The round trip of every printable value
  // ---------------------------------------------------------------------------

  /** Any value the server can print comes back, if the bytes behind it are not a Media tag, exactly when it
    * holds no Media and no non-empty property list lies strictly inside it. */
  lemma RoundTripOfAll(v: LValue, before: seq<byte>, after: seq<byte>)
    requires Printable(v) && Sized(v) && NoMediaTag(after, 0)
    ensures FromRaw(before + Print(v) + after, |before|) == v <==> !HoldsMedia(v) && InnerPropFree(v)
  {
    hide Print, Printable, Sized, Encodable, HoldsMedia, InnerPropFree, FromRaw, NoMediaTag;
    EncodableIffMediaFree(v);
    if HoldsMedia(v) {
      StandsAt(before, Print(v), after);
      TagAfter(before + Print(v), after);
      MediaChildIsLost(before + Print(v) + after, |before|, v);
    } else {
      RoundTrip(v, before, after);
    }
  }

  lemma StandsAt(before: seq<byte>, part: seq<byte>, after: seq<byte>)
    ensures At(before + part + after, |before|, part)
  {
  }

  lemma TagAfter(front: seq<byte>, after: seq<byte>)
    requires NoMediaTag(after, 0)
    ensures NoMediaTag(front + after, |front|)
  {
    if |after| >= 2 {
      var raw := front + after;
      assert raw[|front|] == after[0] && raw[|front| + 1] == after[1];
    }
  }

  /** Before a Media tag it is different: an empty Media followed by one reads back as itself. */
  lemma MediaBeforeMediaTag()
    ensures FromRaw(Print(Media([])) + Put16(MEDIA_TAG), 0) == Media([])
  {
    var raw := Put16(MEDIA_TAG);
    assert [] + raw == raw;
    assert At(raw, 0, Put16(MEDIA_TAG));
    Get16Put16(raw, 0, MEDIA_TAG);
  }
}
