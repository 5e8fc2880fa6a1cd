/** Cutting the TCP byte stream into MUS frames, however the reads happen to split it. */
module Framing {
  import opened Bytes
  import Message
  import LingoRoundTrip

  type Buffer = seq<byte>

  const FRAME_HEADER_LEN: int := 6

  datatype Next = NeedMore | Malformed | Frame(frame: Buffer, rest: Buffer)

  function NextFrame(buf: Buffer, maxSize: int): (r: Next)
    ensures r.Frame? ==> r.frame + r.rest == buf && |r.frame| >= FRAME_HEADER_LEN
  {
    if |buf| < FRAME_HEADER_LEN then NeedMore
    else if buf[0] != Message.HEADER[0] || buf[1] != Message.HEADER[1] then Malformed
    else
      var total := FRAME_HEADER_LEN + Get32(buf, 2);
      if maxSize > 0 && total > maxSize then Malformed
      else if |buf| < total then NeedMore
      else Frame(buf[..total], buf[total..])
  }

  /** What a byte stream amounts to: the frames in it, whether it runs into a malformed frame, and, if
    * it does not, the incomplete rest. */
  datatype Stream = Stream(frames: seq<Buffer>, malformed: bool, leftover: Buffer)

  function Drain(buf: Buffer, maxSize: int): Stream
    decreases |buf|
  {
    match NextFrame(buf, maxSize)
    case NeedMore => Stream([], false, buf)
    case Malformed => Stream([], true, [])
    case Frame(frame, rest) =>
      var d := Drain(rest, maxSize);
      Stream([frame] + d.frames, d.malformed, d.leftover)
  }

  function Flatten(parts: seq<Buffer>): Buffer {
    if parts == [] then [] else parts[0] + Flatten(parts[1..])
  }

  // ---------------------------------------------------------------------------
  // The stream does not depend on the reads
  // ---------------------------------------------------------------------------

  /** More bytes behind the buffer never change what its front already decided. */
  lemma NextFrameExtends(buf: Buffer, more: Buffer, maxSize: int)
    ensures
      match NextFrame(buf, maxSize)
      case NeedMore => true
      case Malformed => NextFrame(buf + more, maxSize) == Malformed
      case Frame(frame, rest) => NextFrame(buf + more, maxSize) == Frame(frame, rest + more)
  {
    if |buf| >= FRAME_HEADER_LEN {
      var total := FRAME_HEADER_LEN + Get32(buf, 2);
      assert Get32(buf + more, 2) == Get32(buf, 2);
      if |buf| >= total {
        assert (buf + more)[..total] == buf[..total];
        assert (buf + more)[total..] == buf[total..] + more;
      }
    }
  }

  /** `first` continued by `more` bytes. */
  function Continue(first: Stream, more: Buffer, maxSize: int): Stream {
    if first.malformed then first
    else
      var d := Drain(first.leftover + more, maxSize);
      Stream(first.frames + d.frames, d.malformed, d.leftover)
  }

  lemma {:induction false} DrainAppend(buf: Buffer, more: Buffer, maxSize: int)
    ensures Drain(buf + more, maxSize) == Continue(Drain(buf, maxSize), more, maxSize)
    decreases |buf|
  {
    hide NextFrame;
    NextFrameExtends(buf, more, maxSize);
    match NextFrame(buf, maxSize)
    case NeedMore =>
      var d := Drain(buf + more, maxSize);
      assert [] + d.frames == d.frames;
    case Malformed =>
    case Frame(frame, rest) =>
      DrainAppend(rest, more, maxSize);
      var d := Drain(rest, maxSize);
      if !d.malformed {
        var tail := Drain(d.leftover + more, maxSize).frames;
        assert [frame] + (d.frames + tail) == [frame] + d.frames + tail;
      }
  }

  lemma {:induction false} FlattenAppend(parts: seq<Buffer>, part: Buffer)
    ensures Flatten(parts + [part]) == Flatten(parts) + part
  {
    if parts == [] {
      assert Flatten([part]) == part + Flatten([]) == part;
      assert parts + [part] == [part];
    } else {
      FlattenAppend(parts[1..], part);
      assert (parts + [part])[1..] == parts[1..] + [part];
    }
  }

  /** The read loop of a connection: accumulate each read, then drain the accumulated bytes. The frames
    * it hands on, whether and where it drops the connection, and the bytes it still holds are those of
    * the concatenated stream, whatever the reads were. */
  method HandleConnection(chunks: seq<Buffer>, maxSize: int)
    returns (frames: seq<Buffer>, dropped: bool, acc: Buffer)
    ensures var s := Drain(Flatten(chunks), maxSize);
      frames == s.frames && dropped == s.malformed && (!dropped ==> acc == s.leftover)
    ensures !dropped && maxSize >= FRAME_HEADER_LEN ==> |acc| < maxSize
  {
    frames, dropped, acc := [], false, [];
    for i := 0 to |chunks|
      invariant Drain(Flatten(chunks[..i]), maxSize) == Stream(frames, false, acc)
      invariant maxSize >= FRAME_HEADER_LEN ==> |acc| < maxSize
    {
      hide NextFrame, Drain;
      ghost var before := Stream(frames, false, acc);
      assert chunks[..i + 1] == chunks[..i] + [chunks[i]];
      FlattenAppend(chunks[..i], chunks[i]);
      DrainAppend(Flatten(chunks[..i]), chunks[i], maxSize);
      acc := acc + chunks[i];
      ghost var target := Drain(acc, maxSize);
      frames, dropped, acc := DrainAccumulated(frames, acc, maxSize);
      if dropped {
        assert chunks == chunks[..i + 1] + chunks[i + 1..];
        FlattenSplit(chunks, i + 1);
        DrainAppend(Flatten(chunks[..i + 1]), Flatten(chunks[i + 1..]), maxSize);
        return;
      }
    }
    assert chunks[..|chunks|] == chunks;
  }

  /** The inner loop: take frames off the front until one is incomplete or malformed. */
  method DrainAccumulated(seen: seq<Buffer>, buf: Buffer, maxSize: int)
    returns (frames: seq<Buffer>, dropped: bool, acc: Buffer)
    ensures var s := Drain(buf, maxSize);
      frames == seen + s.frames && dropped == s.malformed && (!dropped ==> acc == s.leftover)
    ensures !dropped && maxSize >= FRAME_HEADER_LEN ==> |acc| < maxSize
  {
    frames, acc := seen, buf;
    while true
      invariant
        var s, t := Drain(buf, maxSize), Drain(acc, maxSize);
        seen + s.frames == frames + t.frames && s.malformed == t.malformed && s.leftover == t.leftover
      decreases |acc|
    {
      var next := NextFrame(acc, maxSize);
      match next
      case Malformed =>
        return frames, true, acc;
      case NeedMore =>
        return frames, false, acc;
      case Frame(frame, rest) =>
        assert frames + ([frame] + Drain(rest, maxSize).frames) == (frames + [frame]) + Drain(rest, maxSize).frames;
        frames := frames + [frame];
        acc := rest;
    }
  }

  lemma {:induction false} FlattenSplit(parts: seq<Buffer>, k: nat)
    requires k <= |parts|
    ensures Flatten(parts) == Flatten(parts[..k]) + Flatten(parts[k..])
    decreases k
  {
    if k == 0 {
      assert parts[..0] == [] && parts[0..] == parts;
    } else {
      FlattenSplit(parts[1..], k - 1);
      assert parts[1..][..k - 1] == parts[..k][1..];
      assert parts[1..][k - 1..] == parts[k..];
    }
  }

  /** Stopping after any number of reads and resuming with the rest changes nothing. */
  lemma DrainResumes(chunks: seq<Buffer>, k: nat, maxSize: int)
    requires k <= |chunks|
    ensures Drain(Flatten(chunks), maxSize)
         == Continue(Drain(Flatten(chunks[..k]), maxSize), Flatten(chunks[k..]), maxSize)
  {
    FlattenSplit(chunks, k);
    DrainAppend(Flatten(chunks[..k]), Flatten(chunks[k..]), maxSize);
  }

  /** The frames and the leftover are the stream, cut up; a malformed stream is cut up to the point where
    * the malformed frame begins. */
  lemma {:induction false} FramesReassemble(buf: Buffer, maxSize: int)
    ensures
      var s := Drain(buf, maxSize);
      if s.malformed then
        exists bad :: buf == Flatten(s.frames) + bad && NextFrame(bad, maxSize).Malformed?
      else
        buf == Flatten(s.frames) + s.leftover && NextFrame(s.leftover, maxSize).NeedMore?
    decreases |buf|
  {
    hide NextFrame;
    match NextFrame(buf, maxSize)
    case NeedMore =>
    case Malformed => assert buf == Flatten([]) + buf;
    case Frame(frame, rest) =>
      FramesReassemble(rest, maxSize);
      var s, d := Drain(buf, maxSize), Drain(rest, maxSize);
      assert s.frames[1..] == d.frames;
      if d.malformed {
        var bad :| rest == Flatten(d.frames) + bad && NextFrame(bad, maxSize).Malformed?;
        assert buf == Flatten(s.frames) + bad;
      } else {
        assert buf == Flatten(s.frames) + s.leftover;
      }
  }

  /** A frame as announced: the header, and as many bytes as its length field says, within the limit. */
  predicate IsWhole(frame: Buffer, maxSize: int) {
    && |frame| >= 6 && frame[0] == 0x72 && frame[1] == 0x00
    && |frame| == 6 + Get32(frame, 2)
    && (maxSize > 0 ==> |frame| <= maxSize)
  }

  lemma {:induction false} EveryFrameIsWhole(buf: Buffer, maxSize: int)
    ensures forall frame | frame in Drain(buf, maxSize).frames :: IsWhole(frame, maxSize)
    decreases |buf|
  {
    match NextFrame(buf, maxSize)
    case NeedMore =>
    case Malformed =>
    case Frame(frame, rest) =>
      assert Get32(frame, 2) == Get32(buf, 2);
      EveryFrameIsWhole(rest, maxSize);
  }

  /** Why the stream ends where it does: fewer bytes than a header, or than the frame announced, or bytes that
    * cannot begin a frame. */
  lemma StreamEnds(buf: Buffer, maxSize: int)
    ensures
      var s := Drain(buf, maxSize);
      exists rest ::
        && buf == Flatten(s.frames) + rest
        && if s.malformed then
             && |rest| >= 6
             && (rest[0] != 0x72 || rest[1] != 0x00 || (maxSize > 0 && 6 + Get32(rest, 2) > maxSize))
           else
             && rest == s.leftover
             && (|rest| >= 6 ==>
                   && rest[0] == 0x72 && rest[1] == 0x00
                   && |rest| < 6 + Get32(rest, 2) && (maxSize > 0 ==> 6 + Get32(rest, 2) <= maxSize))
  {
    FramesReassemble(buf, maxSize);
  }

  // ---------------------------------------------------------------------------
  // Messages end to end
  // ---------------------------------------------------------------------------

  predicate Deliverable(m: Message.Message, maxSize: int, decrypt: Message.Decrypt) {
    Message.Sendable(m, decrypt) && (maxSize > 0 ==> |Message.Print(m)| <= maxSize)
  }

  function Printed(ms: seq<Message.Message>): (r: seq<Buffer>)
    requires forall i | 0 <= i < |ms| :: Message.Printable(ms[i])
    ensures |r| == |ms|
    ensures forall i | 0 <= i < |ms| :: r[i] == Message.Print(ms[i])
  {
    if ms == [] then [] else [Message.Print(ms[0])] + Printed(ms[1..])
  }

  /** A printed message at the front of the buffer is cut off exactly. */
  lemma PrintedIsAFrame(m: Message.Message, rest: Buffer, maxSize: int, decrypt: Message.Decrypt)
    requires Deliverable(m, maxSize, decrypt)
    ensures NextFrame(Message.Print(m) + rest, maxSize) == Frame(Message.Print(m), rest)
  {
    hide Message.PrintHead, Message.ContentBytes, Message.Packet;
    var frame := Message.Print(m);
    Message.PacketLayout(m, Message.ContentBytes(m));
    var buf := frame + rest;
    assert Get32(buf, 2) == Get32(frame, 2);
    assert buf[..|frame|] == frame && buf[|frame|..] == rest;
  }

  lemma {:induction false} DrainPrinted(ms: seq<Message.Message>, maxSize: int, decrypt: Message.Decrypt)
    requires forall i | 0 <= i < |ms| :: Message.Printable(ms[i]) && Deliverable(ms[i], maxSize, decrypt)
    ensures Drain(Flatten(Printed(ms)), maxSize) == Stream(Printed(ms), false, [])
  {
    hide NextFrame, Message.Print, Message.Printable, Deliverable;
    if ms == [] {
      EmptyNeedsMore(maxSize);
    } else {
      assert ms[0] in ms && Printed(ms)[1..] == Printed(ms[1..]);
      PrintedIsAFrame(ms[0], Flatten(Printed(ms[1..])), maxSize, decrypt);
      DrainPrinted(ms[1..], maxSize, decrypt);
    }
  }

  lemma EmptyNeedsMore(maxSize: int)
    ensures NextFrame([], maxSize) == NeedMore
  {
  }

  /** However the bytes of a list of messages arrive, the connection yields one frame per message, in
    * order, with nothing left over, and parsing each frame recovers its message. */
  lemma MessagesDelivered(ms: seq<Message.Message>, chunks: seq<Buffer>, maxSize: int, decrypt: Message.Decrypt)
    requires forall i | 0 <= i < |ms| :: Message.Printable(ms[i]) && Deliverable(ms[i], maxSize, decrypt)
    requires Flatten(chunks) == Flatten(Printed(ms))
    ensures
      var s := Drain(Flatten(chunks), maxSize);
      && !s.malformed && s.leftover == [] && |s.frames| == |ms|
      && forall i | 0 <= i < |ms| ::
           s.frames[i] == Message.Print(ms[i]) && Message.Recovers(Message.Parse(s.frames[i], decrypt), ms[i])
  {
    hide Message.Parse, Message.Print, Message.Recovers, Message.Printable, Drain, Flatten;
    DrainPrinted(ms, maxSize, decrypt);
    forall i | 0 <= i < |ms|
      ensures Message.Recovers(Message.Parse(Message.Print(ms[i]), decrypt), ms[i])
    {
      Message.ParsePrinted(ms[i], decrypt);
    }
  }
}
