/** The MUS message envelope: header strings, the parser, the printer and their round trip. */
module Message {
  import opened Bytes
  import opened Wrappers
  import Lingo
  import LingoMedia
  import LingoRoundTrip

  type LValue = Lingo.LValue

  const HEADER: seq<byte> := [0x72, 0x00]
  const LOGON: seq<byte> := [76, 111, 103, 111, 110]

  datatype HeaderString = HeaderString(length: int, value: seq<byte>)

  datatype HeaderStringList = HeaderStringList(count: int, strings: seq<HeaderString>)

  datatype Message = Message(
    contentSize: int32,
    errCode: int32,
    timeStamp: int32,
    subject: HeaderString,
    senderID: HeaderString,
    recptID: HeaderStringList,
    rawContents: seq<byte>,
    decryptedContents: seq<byte>,
    msgContent: Lingo.Slot
  )

  datatype Error = TooShort | InvalidHeader | InvalidSize | NoStringLength | NoStringContent | NoListCount | ListTooLong

  /** The decrypting half of a cipher, or none when the server runs unencrypted. */
  type Decrypt = Option<seq<byte> -> seq<byte>>

  // ---------------------------------------------------------------------------
  // Header strings
  // ---------------------------------------------------------------------------

  /** One header string and the bytes it takes, padding included. */
  function ExtractString(data: seq<byte>, off: nat): Result<(HeaderString, nat), Error> {
    if off + 4 > |data| then Err(NoStringLength)
    else
      var length := Get32(data, off);
      if off + 4 + length > |data| then Err(NoStringContent)
      else Ok((HeaderString(length, data[off + 4..off + 4 + length]), 4 + Padded(length)))
  }

  /** `count` header strings from `cur` on, with the offset after the last. */
  function ExtractStrings(data: seq<byte>, cur: nat, count: nat): (r: Result<(seq<HeaderString>, nat), Error>)
    ensures r.Ok? ==> |r.value.0| == count && r.value.1 >= cur
    decreases count
  {
    if count == 0 then Ok(([], cur))
    else
      var (str, consumed) :- ExtractString(data, cur);
      var (rest, end) :- ExtractStrings(data, cur + consumed, count - 1);
      Ok(([str] + rest, end))
  }

  function ExtractStringList(data: seq<byte>, off: nat): Result<(HeaderStringList, nat), Error> {
    if off + 4 > |data| then Err(NoListCount)
    else
      var count := Get32(data, off);
      if count > (|data| - off - 4) / 4 then Err(ListTooLong)
      else
        var (strings, end) :- ExtractStrings(data, off + 4, count);
        Ok((HeaderStringList(count, strings), end - off))
  }

  /** Each string takes at least its length field. */
  lemma {:induction false} StringsTakeRoom(data: seq<byte>, cur: nat, count: nat)
    requires ExtractStrings(data, cur, count).Ok? && count > 0
    ensures cur + 4 * count <= |data|
    decreases count
  {
    hide Get32;
    var (str, consumed) := ExtractString(data, cur).value;
    if count > 1 {
      StringsTakeRoom(data, cur + consumed, count - 1);
    }
  }

  /** The bound on the count refuses, at once, only lists that could not be read anyway. */
  lemma BoundRefusesUnreadable(data: seq<byte>, off: nat)
    ensures
      ExtractStringList(data, off).Ok?
      <==> off + 4 <= |data| && ExtractStrings(data, off + 4, Get32(data, off)).Ok?
    ensures
      ExtractStringList(data, off) == Err(ListTooLong)
      <==> off + 4 <= |data| && off + 4 + 4 * Get32(data, off) > |data|
  {
    hide Get32, ExtractStrings;
    if off + 4 <= |data| {
      var count := Get32(data, off);
      StringsErrors(data, off + 4, count);
      if count > 0 && ExtractStrings(data, off + 4, count).Ok? {
        StringsTakeRoom(data, off + 4, count);
      }
    }
  }

  lemma {:induction false} StringsErrors(data: seq<byte>, cur: nat, count: nat)
    ensures ExtractStrings(data, cur, count) != Err(ListTooLong)
    ensures ExtractStrings(data, cur, count) != Err(InvalidSize)
    decreases count
  {
    hide Get32;
    if count > 0 && ExtractString(data, cur).Ok? {
      StringsErrors(data, cur + ExtractString(data, cur).value.1, count - 1);
    }
  }

  method ExtractMUSMsgHeaderStringList(data: seq<byte>, offset: nat)
    returns (r: Result<(HeaderStringList, nat), Error>)
    ensures r == ExtractStringList(data, offset)
  {
    hide ExtractString, Get32;
    if offset + 4 > |data| {
      return Err(NoListCount);
    }
    var count := Get32(data, offset);
    if count > (|data| - offset - 4) / 4 {
      return Err(ListTooLong);
    }
    var strings: seq<HeaderString> := [];
    var bytesConsumed := 4;
    var currentOffset := offset + 4;
    ghost var all := ExtractStrings(data, offset + 4, count);
    assert all.Ok? ==> strings + all.value.0 == all.value.0;
    for i := 0 to count
      invariant bytesConsumed == currentOffset - offset && currentOffset >= offset + 4
      invariant
        var rest := ExtractStrings(data, currentOffset, count - i);
        if rest.Ok? then all == Ok((strings + rest.value.0, rest.value.1)) else all == rest
    {
      var next := ExtractString(data, currentOffset);
      if next.Err? {
        return Err(next.error);
      }
      var (str, consumed) := next.value;
      ghost var rest := ExtractStrings(data, currentOffset + consumed, count - i - 1);
      assert rest.Ok? ==> strings + ([str] + rest.value.0) == strings + [str] + rest.value.0;
      strings := strings + [str];
      currentOffset := currentOffset + consumed;
      bytesConsumed := bytesConsumed + consumed;
    }
    assert strings + [] == strings;
    return Ok((HeaderStringList(count, strings), bytesConsumed));
  }

  function PrintString(s: HeaderString): seq<byte> {
    LingoRoundTrip.PutLength(|s.value|) + (s.value + Padding(|s.value|))
  }

  function PrintStrings(strings: seq<HeaderString>): seq<byte> {
    if strings == [] then [] else PrintString(strings[0]) + PrintStrings(strings[1..])
  }

  function PrintStringList(l: HeaderStringList): seq<byte> {
    LingoRoundTrip.PutLength(|l.strings|) + PrintStrings(l.strings)
  }

  method WriteBytes(l: HeaderStringList, buf: seq<byte>) returns (out: seq<byte>)
    ensures out == buf + PrintStringList(l)
  {
    out := buf + LingoRoundTrip.PutLength(|l.strings|);
    assert l.strings[0..] == l.strings;
    for i := 0 to |l.strings|
      invariant out + PrintStrings(l.strings[i..]) == buf + PrintStringList(l)
    {
      assert l.strings[i..][1..] == l.strings[i + 1..];
      out := out + PrintString(l.strings[i]);
    }
  }

  // ---------------------------------------------------------------------------
  // The whole message
  // ---------------------------------------------------------------------------

  predicate HasHeader(raw: seq<byte>) {
    |raw| >= 14 && raw[0] == HEADER[0] && raw[1] == HEADER[1]
  }

  /** The plain packet: a packet without the MUS header is taken to be wholly encrypted. */
  function PlainPacket(raw: seq<byte>, decrypt: Decrypt): Result<seq<byte>, Error> {
    if |raw| < 14 then Err(TooShort)
    else if HasHeader(raw) then Ok(raw)
    else if decrypt.None? then Err(InvalidHeader)
    else
      var plain := decrypt.value(raw);
      if HasHeader(plain) then Ok(plain) else Err(InvalidHeader)
  }

  /** The fields before the content, and the offset at which they end. */
  function ParseHead(packet: seq<byte>): (r: Result<(Message, nat), Error>)
    requires |packet| >= 14
  {
    var contentSize := GetI32(packet, 2);
    if contentSize < 0 || |packet| < 6 + contentSize then Err(InvalidSize)
    else
      var (subject, n1) :- ExtractString(packet, 14);
      var (sender, n2) :- ExtractString(packet, 14 + n1);
      var (recipients, n3) :- ExtractStringList(packet, 14 + n1 + n2);
      var msg := Message(contentSize, GetI32(packet, 6), GetI32(packet, 10),
                         subject, sender, recipients, [], [], Lingo.Nil);
      Ok((msg, 14 + n1 + n2 + n3))
  }

  /** The content is what remains of the packet, decrypted first in a Logon. */
  function WithContent(msg: Message, remaining: seq<byte>, decrypt: Decrypt): Message {
    if remaining == [] then msg
    else
      var content := if msg.subject.value == LOGON && decrypt.Some? then decrypt.value(remaining) else remaining;
      msg.(rawContents := remaining, decryptedContents := content,
           msgContent := Lingo.Some(Lingo.FromRaw(content, 0)))
  }

  function Parse(raw: seq<byte>, decrypt: Decrypt): Result<Message, Error> {
    var packet :- PlainPacket(raw, decrypt);
    var (msg, readPtr) :- ParseHead(packet);
    Ok(WithContent(msg, if readPtr < |packet| then packet[readPtr..] else [], decrypt))
  }

  /** The fields before the content. */
  function PrintHead(m: Message): seq<byte> {
    PutI32(m.errCode) + (PutI32(m.timeStamp) +
    (PrintString(m.subject) + (PrintString(m.senderID) + PrintStringList(m.recptID))))
  }

  /** A packet with the header fields of `m` around any content bytes, as a client that encrypts its
    * content sends it. */
  function Packet(m: Message, content: seq<byte>): (p: seq<byte>)
    ensures |p| == 6 + |PrintHead(m)| + |content|
  {
    HEADER + (LingoRoundTrip.PutLength(|PrintHead(m)| + |content|) + (PrintHead(m) + content))
  }

  predicate Printable(m: Message) {
    m.msgContent.Some? ==> LingoRoundTrip.Printable(m.msgContent.value)
  }

  function ContentBytes(m: Message): seq<byte>
    requires Printable(m)
  {
    if m.msgContent.Some? then LingoRoundTrip.Print(m.msgContent.value) else []
  }

  /** MUSMessage.GetBytes: the content is never encrypted on the way out. */
  function Print(m: Message): seq<byte>
    requires Printable(m)
  {
    Packet(m, ContentBytes(m))
  }

  // ---------------------------------------------------------------------------
  // Round trip
  // ---------------------------------------------------------------------------

  /** Every length and count of the header fits its four bytes. */
  predicate HeadFits(m: Message) {
    && |m.subject.value| < TWO_32
    && |m.senderID.value| < TWO_32
    && |m.recptID.strings| < TWO_32
    && forall s | s in m.recptID.strings :: |s.value| < TWO_32
  }

  /** A header string as it is read back: its length field is that of its value. */
  function Measured(s: HeaderString): HeaderString {
    HeaderString(|s.value|, s.value)
  }

  function MeasuredAll(strings: seq<HeaderString>): (r: seq<HeaderString>)
    ensures |r| == |strings|
    ensures forall i | 0 <= i < |r| :: r[i] == Measured(strings[i])
  {
    if strings == [] then [] else [Measured(strings[0])] + MeasuredAll(strings[1..])
  }

  /** `m` as the receiver sees it around the given content bytes. */
  function Received(m: Message, content: seq<byte>, decrypt: Decrypt): Message
    requires |PrintHead(m)| + |content| < TWO_31
  {
    WithContent(ReceivedHead(m, |PrintHead(m)| + |content|), content, decrypt)
  }

  function ReceivedHead(m: Message, size: nat): Message
    requires size < TWO_31
  {
    Message(
      size, m.errCode, m.timeStamp, Measured(m.subject), Measured(m.senderID),
      HeaderStringList(|m.recptID.strings|, MeasuredAll(m.recptID.strings)), [], [], Lingo.Nil)
  }

  lemma StringPrinted(data: seq<byte>, off: nat, s: HeaderString)
    requires |s.value| < TWO_32
    requires At(data, off, PrintString(s))
    ensures ExtractString(data, off) == Ok((Measured(s), |PrintString(s)|))
  {
    LingoRoundTrip.TextPrinted(data, off, s.value, Padding(|s.value|));
  }

  lemma {:induction false} StringsPrinted(data: seq<byte>, cur: nat, strings: seq<HeaderString>)
    requires forall s | s in strings :: |s.value| < TWO_32
    requires At(data, cur, PrintStrings(strings))
    ensures ExtractStrings(data, cur, |strings|) == Ok((MeasuredAll(strings), cur + |PrintStrings(strings)|))
    ensures |PrintStrings(strings)| >= 4 * |strings|
    decreases |strings|
  {
    hide ExtractString, PrintString;
    if strings != [] {
      var n := |PrintString(strings[0])|;
      AtSplit(data, cur, PrintString(strings[0]), PrintStrings(strings[1..]));
      StringPrinted(data, cur, strings[0]);
      StringSize(strings[0]);
      StringsPrinted(data, cur + n, strings[1..]);
    }
  }

  lemma StringSize(s: HeaderString)
    ensures |PrintString(s)| >= 4
  {
  }

  lemma Quarter(count: nat, room: int)
    requires 4 * count <= room
    ensures count <= room / 4
  {
  }

  lemma StringListPrinted(data: seq<byte>, off: nat, l: HeaderStringList)
    requires |l.strings| < TWO_32 && forall s | s in l.strings :: |s.value| < TWO_32
    requires At(data, off, PrintStringList(l))
    ensures ExtractStringList(data, off)
         == Ok((HeaderStringList(|l.strings|, MeasuredAll(l.strings)), |PrintStringList(l)|))
  {
    hide ExtractStringList, ExtractStrings, PrintStrings, Get32, MeasuredAll, LingoRoundTrip.PutLength, At;
    var count, strings := LingoRoundTrip.PutLength(|l.strings|), PrintStrings(l.strings);
    AtSplit(data, off, count, strings);
    LingoRoundTrip.LengthPrinted(data, off, |l.strings|);
    StringsPrinted(data, off + 4, l.strings);
    AtFits(data, off + 4, strings);
    ListRead(data, off, |l.strings|, MeasuredAll(l.strings), off + 4 + |strings|);
  }

  lemma AtFits(data: seq<byte>, off: nat, part: seq<byte>)
    requires At(data, off, part)
    ensures off + |part| <= |data|
  {
  }

  lemma ListRead(data: seq<byte>, off: nat, count: nat, strings: seq<HeaderString>, end: nat)
    requires off + 4 + 4 * count <= |data| && Get32(data, off) == count
    requires ExtractStrings(data, off + 4, count) == Ok((strings, end))
    ensures ExtractStringList(data, off) == Ok((HeaderStringList(count, strings), end - off))
  {
    hide ExtractStrings, Get32;
    Quarter(count, |data| - off - 4);
  }

  lemma ParseReceived(m: Message, content: seq<byte>, decrypt: Decrypt)
    requires HeadFits(m)
    requires |PrintHead(m)| + |content| < TWO_31
    ensures Parse(Packet(m, content), decrypt) == Ok(Received(m, content, decrypt))
  {
    hide ParseHead, WithContent, PrintHead, Packet;
    var p := Packet(m, content);
    PacketLayout(m, content);
    HeadPrinted(p, m, |PrintHead(m)| + |content|);
    assert p[6 + |PrintHead(m)|..] == content;
  }

  /** Every header field of `m`, whatever the length fields of its strings say. */
  ghost predicate SameHead(r: Message, m: Message) {
    && r.errCode == m.errCode
    && r.timeStamp == m.timeStamp
    && r.subject == HeaderString(|m.subject.value|, m.subject.value)
    && r.senderID == HeaderString(|m.senderID.value|, m.senderID.value)
    && |r.recptID.strings| == r.recptID.count == |m.recptID.strings|
    && forall i | 0 <= i < |m.recptID.strings| ::
         r.recptID.strings[i] == HeaderString(|m.recptID.strings[i].value|, m.recptID.strings[i].value)
  }

  /** The bytes as they came, the bytes they stand for, and the value parsed from the latter; no bytes, no value. */
  ghost predicate HasContent(r: Message, sent: seq<byte>, plain: seq<byte>) {
    && r.rawContents == sent
    && if sent == [] then r.decryptedContents == [] && r.msgContent == Lingo.Nil
       else r.decryptedContents == plain && r.msgContent == Lingo.Some(Lingo.FromRaw(plain, 0))
  }

  /** `m` parsed from a packet around the given content bytes: under a cipher a Logon's value is parsed from
    * the decryption of those bytes, any other message's from the bytes. */
  ghost predicate ParsedAs(r: Result<Message, Error>, m: Message, content: seq<byte>, decrypt: Decrypt) {
    && r.Ok? && SameHead(r.value, m) && r.value.contentSize == |PrintHead(m)| + |content|
    && (decrypt.None? || m.subject.value != LOGON ==> HasContent(r.value, content, content))
    && (decrypt.Some? && m.subject.value == LOGON ==> HasContent(r.value, content, decrypt.value(content)))
  }

  /** Parsing a packet recovers every header field, and the content bytes as they were sent. */
  lemma ParsePacket(m: Message, content: seq<byte>, decrypt: Decrypt)
    requires HeadFits(m)
    requires |PrintHead(m)| + |content| < TWO_31
    ensures ParsedAs(Parse(Packet(m, content), decrypt), m, content, decrypt)
  {
    hide Parse, PrintHead, Packet, MeasuredAll;
    ParseReceived(m, content, decrypt);
  }

  /** A client's Logon with encrypted content, read under a cipher that undoes the encryption: the value comes
    * back exactly when it is in the domain of the Lingo round trip. */
  lemma LogonDecrypted(
    m: Message, v: LValue, encrypt: seq<byte> -> seq<byte>, decrypt: seq<byte> -> seq<byte>)
    requires HeadFits(m) && m.subject.value == [76, 111, 103, 111, 110]  // "Logon"
    requires LingoRoundTrip.Printable(v) && LingoMedia.Sized(v)
    requires decrypt(encrypt(LingoRoundTrip.Print(v))) == LingoRoundTrip.Print(v)
    requires encrypt(LingoRoundTrip.Print(v)) != []
    requires |PrintHead(m)| + |encrypt(LingoRoundTrip.Print(v))| < TWO_31
    ensures
      var r := Parse(Packet(m, encrypt(LingoRoundTrip.Print(v))), Some(decrypt));
      && r.Ok? && SameHead(r.value, m)
      && r.value.decryptedContents == LingoRoundTrip.Print(v)
      && (r.value.msgContent == Lingo.Some(v) <==> !LingoMedia.HoldsMedia(v) && LingoRoundTrip.InnerPropFree(v))
  {
    hide Parse, PrintHead, Packet, HeadFits, SameHead, LingoRoundTrip.Print, LingoRoundTrip.Printable,
         LingoRoundTrip.InnerPropFree, LingoMedia.Sized, LingoMedia.HoldsMedia, Lingo.FromRaw;
    ParsePacket(m, encrypt(LingoRoundTrip.Print(v)), Some(decrypt));
    LingoMedia.RoundTripOfAll(v, [], []);
    assert [] + LingoRoundTrip.Print(v) + [] == LingoRoundTrip.Print(v);
  }

  /** A packet encrypted as a whole parses like the packet, so that a Logon's content is decrypted twice. */
  lemma EncryptedPacketParsed(raw: seq<byte>, m: Message, content: seq<byte>, decrypt: seq<byte> -> seq<byte>)
    requires HeadFits(m)
    requires |PrintHead(m)| + |content| < TWO_31
    requires |raw| >= 14 && !HasHeader(raw) && decrypt(raw) == Packet(m, content)
    ensures ParsedAs(Parse(raw, Some(decrypt)), m, content, Some(decrypt))
  {
    ParsePacket(m, content, Some(decrypt));
    PacketLayout(m, content);
    hide ParseHead, WithContent, PrintHead, Packet, ParsedAs;
  }

  /** Bytes that do not begin like a packet are refused, unless a cipher makes them do so. */
  lemma HeaderlessIsRefused(raw: seq<byte>, decrypt: Decrypt)
    requires |raw| >= 14 && (raw[0] != 0x72 || raw[1] != 0x00)
    requires decrypt.None? || var p := decrypt.value(raw); |p| < 14 || p[0] != 0x72 || p[1] != 0x00
    ensures Parse(raw, decrypt) == Err(InvalidHeader)
  {
  }

  /** A plain packet's size field is refused exactly when it is negative or announces more than there is; any
    * smaller size, zero included, is passed over. */
  lemma SizeIsChecked(raw: seq<byte>, decrypt: Decrypt)
    requires HasHeader(raw)
    ensures Parse(raw, decrypt) == Err(InvalidSize) <==> GetI32(raw, 2) < 0 || |raw| < 6 + GetI32(raw, 2)
  {
    hide ExtractString, ExtractStringList, GetI32;
    ErrorsOfStrings(raw, 14);
    var subject := ExtractString(raw, 14);
    if subject.Ok? {
      ErrorsOfStrings(raw, 14 + subject.value.1);
      var sender := ExtractString(raw, 14 + subject.value.1);
      if sender.Ok? {
        ErrorsOfStrings(raw, 14 + subject.value.1 + sender.value.1);
      }
    }
  }

  lemma ErrorsOfStrings(data: seq<byte>, off: nat)
    ensures ExtractString(data, off) != Err(InvalidSize) && ExtractStringList(data, off) != Err(InvalidSize)
  {
    hide Get32;
    if off + 4 <= |data| {
      StringsErrors(data, off + 4, Get32(data, off));
    }
  }

  /** A packet cut short is refused, wherever it is cut. */
  lemma TruncatedIsRefused(m: Message, content: seq<byte>, k: nat, decrypt: Decrypt)
    requires |PrintHead(m)| + |content| < TWO_31 && k < |Packet(m, content)|
    ensures Parse(Packet(m, content)[..k], decrypt) == Err(if k < 14 then TooShort else InvalidSize)
  {
    hide PrintHead, Packet;
    PacketLayout(m, content);
  }

  lemma PacketLayout(m: Message, content: seq<byte>)
    requires |PrintHead(m)| + |content| < TWO_31
    ensures
      var p := Packet(m, content);
      && |p| >= 6 && p[0] == HEADER[0] && p[1] == HEADER[1]
      && GetI32(p, 2) == |PrintHead(m)| + |content|
      && At(p, 6, PrintHead(m))
      && At(p, 6 + |PrintHead(m)|, content)
  {
    hide PrintHead, GetI32;
    var p := Packet(m, content);
    var size := |PrintHead(m)| + |content|;
    var sizeBytes := LingoRoundTrip.PutLength(size);
    assert sizeBytes == PutI32(size);
    hide PutI32;
    PacketParts(HEADER, sizeBytes, PrintHead(m), content);
    GetI32PutI32(p, 2, size);
  }

  lemma PacketParts(header: seq<byte>, sizeBytes: seq<byte>, head: seq<byte>, content: seq<byte>)
    ensures
      var p := header + (sizeBytes + (head + content));
      var n := |header| + |sizeBytes|;
      At(p, 0, header) && At(p, |header|, sizeBytes) && At(p, n, head) && At(p, n + |head|, content)
  {
    var p := header + (sizeBytes + (head + content));
    assert p[0..|p|] == p;
    AtSplit(p, 0, header, sizeBytes + (head + content));
    AtSplit(p, |header|, sizeBytes, head + content);
    AtSplit(p, |header| + |sizeBytes|, head, content);
  }

  /** Where the fields of a packet stand: the header, the size of what follows it, the error code, the time
    * stamp, then subject, sender and recipients, each where the one before ends. */
  lemma PacketFields(m: Message, content: seq<byte>)
    requires |PrintHead(m)| + |content| < TWO_31
    ensures
      var p := Packet(m, content);
      var subject, sender := 14, 14 + |PrintString(m.subject)|;
      var recipients := sender + |PrintString(m.senderID)|;
      && At(p, 0, [0x72, 0x00])
      && At(p, 2, LingoRoundTrip.PutLength(|p| - 6))
      && At(p, 6, PutI32(m.errCode))
      && At(p, 10, PutI32(m.timeStamp))
      && At(p, subject, PrintString(m.subject))
      && At(p, sender, PrintString(m.senderID))
      && At(p, recipients, PrintStringList(m.recptID))
      && At(p, recipients + |PrintStringList(m.recptID)|, content)
  {
    hide PrintString, PrintStringList, PutI32, LingoRoundTrip.PutLength;
    var p, head := Packet(m, content), PrintHead(m);
    PacketParts(HEADER, LingoRoundTrip.PutLength(|head| + |content|), head, content);
    hide Packet;
    HeadFields(p, m);
  }

  lemma HeadFields(p: seq<byte>, m: Message)
    requires At(p, 6, PrintHead(m))
    ensures
      var subject, sender, list := PrintString(m.subject), PrintString(m.senderID), PrintStringList(m.recptID);
      && At(p, 6, PutI32(m.errCode)) && At(p, 10, PutI32(m.timeStamp))
      && At(p, 14, subject) && At(p, 14 + |subject|, sender) && At(p, 14 + |subject| + |sender|, list)
      && |PrintHead(m)| == 8 + |subject| + |sender| + |list|
  {
    hide PrintString, PrintStringList, PutI32, At;
    var subject, sender, list := PrintString(m.subject), PrintString(m.senderID), PrintStringList(m.recptID);
    AtSplit(p, 6, PutI32(m.errCode), PutI32(m.timeStamp) + (subject + (sender + list)));
    AtSplit(p, 10, PutI32(m.timeStamp), subject + (sender + list));
    AtSplit(p, 14, subject, sender + list);
    AtSplit(p, 14 + |subject|, sender, list);
  }

  lemma HeadPrinted(p: seq<byte>, m: Message, size: nat)
    requires HeadFits(m)
    requires At(p, 6, PrintHead(m))
    requires size < TWO_31 && |p| == 6 + size && GetI32(p, 2) == size
    ensures |p| >= 14 && ParseHead(p) == Ok((ReceivedHead(m, size), 6 + |PrintHead(m)|))
  {
    hide ExtractString, ExtractStringList, PrintString, PrintStringList, PrintHead, GetI32;
    var subject, sender := PrintString(m.subject), PrintString(m.senderID);
    HeadFields(p, m);
    GetI32PutI32(p, 6, m.errCode);
    GetI32PutI32(p, 10, m.timeStamp);
    StringPrinted(p, 14, m.subject);
    StringPrinted(p, 14 + |subject|, m.senderID);
    StringListPrinted(p, 14 + |subject| + |sender|, m.recptID);
  }

  /** Messages the receiver is promised to recover: contents in the domain of the Lingo round trip,
    * a payload below 2^31 bytes, and no content encryption in force. */
  predicate Sendable(m: Message, decrypt: Decrypt) {
    && Printable(m)
    && HeadFits(m)
    && (m.msgContent.Some? ==> LingoRoundTrip.Encodable(m.msgContent.value))
    && |PrintHead(m)| + |ContentBytes(m)| < TWO_31
    && (decrypt.Some? ==> m.subject.value != LOGON)
  }

  /** A parse result that carries everything `m` does: every header field, and the content exactly when
    * it is in the domain of the Lingo round trip. */
  ghost predicate Recovers(r: Result<Message, Error>, m: Message)
    requires Printable(m)
  {
    && r.Ok?
    && r.value.contentSize == |Print(m)| - 6
    && SameHead(r.value, m)
    && r.value.rawContents == r.value.decryptedContents == ContentBytes(m)
    && (r.value.msgContent == m.msgContent <==>
        (m.msgContent.Some? ==> LingoRoundTrip.InnerPropFree(m.msgContent.value)))
  }

  lemma ParsePrinted(m: Message, decrypt: Decrypt)
    requires Sendable(m, decrypt)
    ensures Recovers(Parse(Print(m), decrypt), m)
  {
    hide Parse, PrintHead, SameHead;
    var content := ContentBytes(m);
    ParsePacket(m, content, decrypt);
    if m.msgContent.Some? {
      var v := m.msgContent.value;
      LingoRoundTrip.PrintedSize(v);
      LingoRoundTrip.RoundTrip(v, [], []);
      assert [] + LingoRoundTrip.Print(v) + [] == content;
    }
  }
}
