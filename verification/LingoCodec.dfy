/** The codec as the server runs it: cursor-moving loops that fill an object, and printers that
  * append to a buffer, each against its specification in `Lingo` and `LingoRoundTrip`. */
module LingoCodec {
  import opened Bytes
  import opened Lingo
  import opened LingoRoundTrip

  // ---------------------------------------------------------------------------
  // ExtractFromBytes, by type
  // ---------------------------------------------------------------------------

  method FromRawBytes(raw: seq<byte>, offset: nat) returns (v: LValue)
    ensures v == FromRaw(raw, offset)
    decreases Remaining(raw, offset), 0, 1
  {
    if offset + 2 > |raw| {
      return Void;
    }
    var newVal := Fresh(Get16(raw, offset));
    var consumed;
    v, consumed := ExtractFromBytes(newVal, raw, offset + 2);
  }

  method ExtractFromBytes(target: LValue, raw: seq<byte>, offset: nat) returns (v: LValue, consumed: nat)
    ensures (v, consumed) == Extract(target, raw, offset)
    decreases Remaining(raw, offset), if target.Void? then 0 else 3, 0
  {
    match target
    case List(_) => v, consumed := ExtractList(target, raw, offset);
    case Point(_, _) => v, consumed := ExtractPoint(target, raw, offset);
    case Rect(_, _, _, _) => v, consumed := ExtractRect(target, raw, offset);
    case PropList(_, _) => v, consumed := ExtractPropList(target, raw, offset);
    case _ => var r := Extract(target, raw, offset); v, consumed := r.0, r.1;
  }

  method ExtractList(target: LValue, raw: seq<byte>, offset: nat) returns (v: LValue, size: nat)
    requires target.List?
    ensures (v, size) == Extract(target, raw, offset)
    decreases Remaining(raw, offset), 2, 0
  {
    hide Extract, FromRaw, Elements;
    ExtractCases(target, raw, offset);
    if offset + 4 > |raw| {
      return target, 0;
    }
    var count := Get32(raw, offset);
    if count > (|raw| - offset - 4) / 2 {
      return target, 0;
    }
    var values: seq<LValue> := [];
    var currentOffset := offset + 4;
    ghost var all := Elements(raw, offset + 4, count);
    for i := 0 to count
      invariant currentOffset >= offset + 4
      invariant all.0 == values + Elements(raw, currentOffset, count - i).0
      invariant all.1 == Elements(raw, currentOffset, count - i).1
    {
      var elem := FromRawBytes(raw, currentOffset);
      var consumed;
      elem, consumed := ExtractFromBytes(elem, raw, currentOffset + 2);
      OneElement(raw, currentOffset, count - i, values, elem, consumed);
      values := values + [elem];
      currentOffset := currentOffset + 2 + consumed;
    }
    ElementsStep(raw, currentOffset, 0);
    assert values + [] == values;
    return List(values), currentOffset - offset;
  }

  lemma ElementsStep(raw: seq<byte>, cur: nat, count: nat)
    ensures Elements(raw, cur, count) ==
      if count == 0 then ([], cur)
      else
        var (elem, consumed) := Child(raw, cur);
        var rest := Elements(raw, cur + 2 + consumed, count - 1);
        ([elem] + rest.0, rest.1)
  {
    hide Extract, FromRaw, Child;
  }

  /** One round of the list loop. */
  lemma OneElement(raw: seq<byte>, cur: nat, count: nat, values: seq<LValue>, elem: LValue, consumed: nat)
    requires count > 0 && Child(raw, cur) == (elem, consumed)
    ensures
      var next := Elements(raw, cur + 2 + consumed, count - 1);
      && values + Elements(raw, cur, count).0 == (values + [elem]) + next.0
      && Elements(raw, cur, count).1 == next.1
  {
    hide Elements, Child;
    ElementsStep(raw, cur, count);
  }

  lemma PairsStep(raw: seq<byte>, off: nat, chunk: nat, n: nat, ps: seq<LValue>, vs: seq<LValue>)
    ensures Pairs(raw, off, chunk, n, ps, vs) ==
      if n == 0 || off + chunk + 2 > |raw| then (ps, vs, chunk)
      else
        var (prop, propSize) := Child(raw, off + chunk);
        var next := chunk + 2 + propSize;
        if off + next + 2 > |raw| then (ps, vs, chunk)
        else
          var (elem, elemSize) := Child(raw, off + next);
          Pairs(raw, off, next + 2 + elemSize, n - 1, ps + [prop], vs + [elem])
  {
    hide Extract, FromRaw, Child;
  }

  method ExtractPoint(target: LValue, raw: seq<byte>, offset: nat) returns (v: LValue, size: nat)
    requires target.Point?
    ensures (v, size) == Extract(target, raw, offset)
    decreases Remaining(raw, offset), 2, 0
  {
    hide Extract, FromRaw, Fields;
    ExtractCases(target, raw, offset);
    FieldsEnd(raw, offset, 0, [target.locH, target.locV], 0);
    if offset + 2 > |raw| {
      return target, 0;
    }
    ghost var fields := [target.locH, target.locV];
    var locH := FromRawBytes(raw, offset);
    var sizeH;
    locH, sizeH := ExtractFromBytes(locH, raw, offset + 2);
    var consumedH := 2 + sizeH;
    FieldsStep(raw, offset, 0, fields, 0, locH, sizeH);
    fields := fields[0 := Some(locH)];
    FieldsEnd(raw, offset, consumedH, fields, 1);
    if offset + consumedH + 2 > |raw| {
      return Point(Some(locH), target.locV), 0;
    }
    var locV := FromRawBytes(raw, offset + consumedH);
    var sizeV;
    locV, sizeV := ExtractFromBytes(locV, raw, offset + consumedH + 2);
    FieldsStep(raw, offset, consumedH, fields, 1, locV, sizeV);
    FieldsEnd(raw, offset, consumedH + 2 + sizeV, fields[1 := Some(locV)], 2);
    return Point(Some(locH), Some(locV)), consumedH + 2 + sizeV;
  }

  lemma FieldsEnd(raw: seq<byte>, off: nat, consumed: nat, fields: seq<Slot>, i: nat)
    requires i <= |fields|
    ensures i == |fields| ==> Fields(raw, off, consumed, fields, i) == (fields, consumed)
    ensures i < |fields| && off + consumed + 2 > |raw| ==> Fields(raw, off, consumed, fields, i) == (fields, 0)
  {
    hide Extract, FromRaw, Child;
  }

  lemma FieldsStep(raw: seq<byte>, off: nat, consumed: nat, fields: seq<Slot>, i: nat, field: LValue, size: nat)
    requires i < |fields| && off + consumed + 2 <= |raw|
    requires Child(raw, off + consumed) == (field, size)
    ensures Fields(raw, off, consumed, fields, i)
         == Fields(raw, off, consumed + 2 + size, fields[i := Some(field)], i + 1)
  {
    hide Extract, FromRaw, Child;
  }

  method ExtractRect(target: LValue, raw: seq<byte>, offset: nat) returns (v: LValue, size: nat)
    requires target.Rect?
    ensures (v, size) == Extract(target, raw, offset)
    decreases Remaining(raw, offset), 2, 0
  {
    var consumed := 0;
    var fields := [target.left, target.top, target.right, target.bottom];
    ghost var start := fields;
    for i := 0 to 4
      invariant |fields| == 4
      invariant Fields(raw, offset, consumed, fields, i) == Fields(raw, offset, 0, start, 0)
    {
      hide Extract, FromRaw;
      if offset + consumed + 2 > |raw| {
        return Rect(fields[0], fields[1], fields[2], fields[3]), 0;
      }
      var field := FromRawBytes(raw, offset + consumed);
      var c;
      field, c := ExtractFromBytes(field, raw, offset + consumed + 2);
      fields := fields[i := Some(field)];
      consumed := consumed + 2 + c;
    }
    return Rect(fields[0], fields[1], fields[2], fields[3]), consumed;
  }

  method ExtractPropList(target: LValue, raw: seq<byte>, offset: nat) returns (v: LValue, size: nat)
    requires target.PropList?
    ensures (v, size) == Extract(target, raw, offset)
    decreases Remaining(raw, offset), 2, 0
  {
    hide Extract, FromRaw, Pairs;
    ExtractCases(target, raw, offset);
    if offset + 4 > |raw| {
      return target, 0;
    }
    var numElements := Get32(raw, offset);
    var chunkSize := 4;
    var properties, values := target.properties, target.values;
    var i := 0;
    while i < numElements
      invariant 0 <= i <= numElements && chunkSize >= 4
      invariant Pairs(raw, offset, chunkSize, numElements - i, properties, values)
             == Pairs(raw, offset, 4, numElements, target.properties, target.values)
    {
      PairsStep(raw, offset, chunkSize, numElements - i, properties, values);
      if offset + chunkSize + 2 > |raw| {
        break;
      }
      var prop := FromRawBytes(raw, offset + chunkSize);
      var propSize;
      prop, propSize := ExtractFromBytes(prop, raw, offset + chunkSize + 2);
      var nextChunk := chunkSize + 2 + propSize;
      if offset + nextChunk + 2 > |raw| {
        break;
      }
      var elem := FromRawBytes(raw, offset + nextChunk);
      var elemSize;
      elem, elemSize := ExtractFromBytes(elem, raw, offset + nextChunk + 2);
      properties := properties + [prop];
      values := values + [elem];
      chunkSize := nextChunk + 2 + elemSize;
      i := i + 1;
    }
    PairsStep(raw, offset, chunkSize, numElements - i, properties, values);
    return PropList(properties, values), chunkSize;
  }

  // ---------------------------------------------------------------------------
  // GetBytes
  // ---------------------------------------------------------------------------

  method GetBytes(v: LValue) returns (buf: seq<byte>)
    requires Printable(v)
    ensures buf == Print(v)
    decreases v, 1
  {
    match v
    case Media(_) => buf := [];
    case List(values) =>
      var body := ElementBytes(values);
      buf := Put16(v.Tag()) + (PutLength(|values|) + body);
    case Point(locH, locV) =>
      var hBytes := FieldBytes(locH);
      var vBytes := FieldBytes(locV);
      buf := Put16(v.Tag()) + (hBytes + vBytes);
    case Rect(left, top, right, bottom) =>
      var part1 := FieldBytes(left);
      var part2 := FieldBytes(top);
      var part3 := FieldBytes(right);
      var part4 := FieldBytes(bottom);
      buf := Put16(v.Tag()) + (part1 + (part2 + (part3 + part4)));
    case PropList(properties, _) =>
      var body := PairBytes(v);
      buf := Put16(v.Tag()) + (PutLength(|properties|) + body);
    case Void => buf := Put16(v.Tag());
    case Leaf(_, bits) => buf := Put16(v.Tag()) + bits;
    case Color(red, green, blue) => buf := Put16(v.Tag()) + [red, green, blue, 0];
    case Symbol(text) => buf := TextBytes(v.Tag(), text, true);
    case Str(text) => buf := TextBytes(v.Tag(), text, true);
    case Picture(data) => buf := TextBytes(v.Tag(), data, false);
  }

  /** Tag, length and text, and a zero after an odd length where the type is padded. */
  method TextBytes(tag: int, text: seq<byte>, padded: bool) returns (buf: seq<byte>)
    requires 0 <= tag < TWO_16
    ensures buf == Put16(tag) + (PutLength(|text|) + if padded then text + Padding(|text|) else text)
  {
    buf := Put16(tag) + PutLength(|text|) + text;
    if padded && |text| % 2 != 0 {
      buf := buf + [0];
    }
  }

  method ElementBytes(values: seq<LValue>) returns (buf: seq<byte>)
    requires forall x | x in values :: Printable(x)
    ensures buf == PrintAll(values)
    decreases values
  {
    hide Print, Printable;
    buf := [];
    assert values[0..] == values;
    for i := 0 to |values|
      invariant buf + PrintAll(values[i..]) == PrintAll(values)
    {
      var elem := GetBytes(values[i]);
      assert values[i..][0] == values[i] && values[i..][1..] == values[i + 1..];
      assert buf + (elem + PrintAll(values[i + 1..])) == (buf + elem) + PrintAll(values[i + 1..]);
      buf := buf + elem;
    }
  }

  method PairBytes(v: LValue) returns (buf: seq<byte>)
    requires v.PropList? && Printable(v)
    ensures buf == PrintPairs(v, 0)
    decreases v, 0
  {
    PrintableParts(v);
    hide Print, PrintPairs, Printable;
    buf := [];
    for i := 0 to |v.properties|
      invariant buf + PrintPairs(v, i) == PrintPairs(v, 0)
    {
      OnePair(v, i, buf);
      var prop := GetBytes(v.properties[i]);
      var value := GetBytes(v.values[i]);
      buf := buf + prop + value;
    }
    NoMorePairs(v);
  }

  lemma PrintableParts(v: LValue)
    requires v.PropList? && Printable(v)
    ensures |v.properties| == |v.values|
    ensures forall i | 0 <= i < |v.properties| :: Printable(v.properties[i]) && Printable(v.values[i])
  {
  }

  /** One round of the pair printer. */
  lemma OnePair(v: LValue, i: nat, buf: seq<byte>)
    requires v.PropList? && Printable(v) && i < |v.properties| == |v.values|
    requires Printable(v.properties[i]) && Printable(v.values[i])
    ensures buf + PrintPairs(v, i) == (buf + Print(v.properties[i]) + Print(v.values[i])) + PrintPairs(v, i + 1)
  {
    hide Print, Printable;
  }

  lemma NoMorePairs(v: LValue)
    requires v.PropList? && Printable(v)
    ensures PrintPairs(v, |v.properties|) == []
  {
  }

  method FieldBytes(field: Slot) returns (buf: seq<byte>)
    requires PrintableSlot(field)
    ensures buf == PrintSlot(field)
    decreases field
  {
    buf := GetBytes(field.value);
  }
}
