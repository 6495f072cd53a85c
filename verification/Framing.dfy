/**
 Frames on a session: CFdbMessage builds prefix, header and payload in one buffer
 with the header right-justified before the payload; CFdbSession sends the frame in
 pieces and reads it back in pieces.
 */
module Framing {
  import opened Common
  import opened Serializer
  import H = Header

  const PREFIX_SIZE := 8
  const MAX_HEAD_SIZE := 128
  const RESERVED_SIZE := PREFIX_SIZE + MAX_HEAD_SIZE
  const RETRIES := 1024 * 10
  const INT32_SPAN := 0x8000_0000

  /** Kinds of message a session dispatches; any other kind is fatal. */
  predicate KnownKind(kind: nat) { 1 <= kind <= 7 }

  datatype Message = Message(header: H.Header, payload: seq<byte>)

  /** A message a sender can put on the wire. */
  predicate Sendable(m: Message) {
    && H.Valid(H.InUse, m.header) && KnownKind(m.header.kind)
    && m.header.payloadSize == |m.payload|
    && |Head(m)| <= MAX_HEAD_SIZE
    && RESERVED_SIZE + |m.payload| < INT32_SPAN
  }

  function Head(m: Message): seq<byte> {
    H.Encode(H.InUse, m.header)
  }

  function Prefix(total: nat, head: nat): seq<byte> {
    LeBytes(total, 4) + LeBytes(head, 4)
  }

  function Frame(m: Message): seq<byte> {
    Prefix(PREFIX_SIZE + |Head(m)| + |m.payload|, |Head(m)|) + Head(m) + m.payload
  }

  function Concat(frames: seq<seq<byte>>): seq<byte> {
    if frames == [] then [] else frames[0] + Concat(frames[1..])
  }

  /** The bytes of several messages sent one after the other. */
  function Frames(ms: seq<Message>): seq<byte> {
    Concat(seq(|ms|, i requires 0 <= i < |ms| => Frame(ms[i])))
  }

  lemma FramesFirst(ms: seq<Message>)
    requires ms != []
    ensures Frames(ms) == Frame(ms[0]) + Frames(ms[1..])
  {
    assert seq(|ms|, i requires 0 <= i < |ms| => Frame(ms[i]))[1..] ==
           seq(|ms[1..]|, i requires 0 <= i < |ms[1..]| => Frame(ms[1..][i]));
  }

  // ------------------------------------------------------------------- building

  /** The buffer of an outgoing CFdbMessage. */
  class OutMessage {
    var buffer: array<byte>
    var payloadSize: nat
    var headSize: nat
    var offset: nat

    ghost predicate Valid()
      reads this
    {
      && buffer.Length == RESERVED_SIZE + payloadSize
      && headSize <= MAX_HEAD_SIZE && offset == MAX_HEAD_SIZE - headSize
    }

    ghost function Payload(): seq<byte>
      requires Valid()
      reads this, buffer
    {
      buffer[RESERVED_SIZE..]
    }

    /** getRawBuffer and getRawDataSize: what is handed to the socket. */
    ghost function Raw(): seq<byte>
      requires Valid()
      reads this, buffer
    {
      buffer[offset..]
    }

    /** serialize: copies the payload behind the space reserved for prefix and header. */
    constructor (payload: seq<byte>)
      ensures Valid() && fresh(buffer) && Payload() == payload && payloadSize == |payload|
    {
      payloadSize, headSize, offset := |payload|, MAX_HEAD_SIZE, 0;
      buffer := new byte[RESERVED_SIZE + |payload|](i => if RESERVED_SIZE <= i < RESERVED_SIZE + |payload| then payload[i - RESERVED_SIZE] else 0);
    }

    /** buildHeader: refuses a header that is too long; otherwise the buffer holds the frame. */
    method BuildHeader(header: H.Header) returns (ok: bool)
      requires Valid() && header.payloadSize == payloadSize
      modifies this`headSize, this`offset, buffer
      ensures Valid() && Payload() == old(Payload())
      ensures ok <==> |H.Encode(H.InUse, header)| <= MAX_HEAD_SIZE
      ensures ok ==> Raw() == Frame(Message(header, Payload()))
    {
      hide H.Encode;
      var head := H.Encode(H.InUse, header);
      if |head| > MAX_HEAD_SIZE {
        return false;
      }
      Justify(head);
      ok := true;
    }

    /** Puts header bytes right before the payload and the prefix right before the header. */
    method Justify(head: seq<byte>)
      requires Valid() && |head| <= MAX_HEAD_SIZE
      modifies this`headSize, this`offset, buffer
      ensures Valid() && Payload() == old(Payload())
      ensures Raw() == Prefix(PREFIX_SIZE + |head| + payloadSize, |head|) + head + Payload()
    {
      headSize := |head|;
      offset := MAX_HEAD_SIZE - headSize;
      var prefix := Prefix(PREFIX_SIZE + headSize + payloadSize, headSize);
      assert |prefix| == PREFIX_SIZE;
      WriteBefore(buffer, RESERVED_SIZE, prefix, head);
    }
  }

  /** Writes `first` and `second` one after the other, ending right before position `end`. */
  method WriteBefore(a: array<byte>, end: nat, first: seq<byte>, second: seq<byte>)
    requires |first| + |second| <= end <= a.Length
    modifies a
    ensures a[end - |first| - |second|..] == first + second + old(a[end..])
    ensures a[end..] == old(a[end..])
  {
    var at := end - |second|;
    CopyAt(a, at, second);
    assert a[at..] == second + old(a[end..]) by {
      assert a[at..] == a[at..at + |second|] + a[at + |second|..];
    }
    ghost var tail := a[at..];
    CopyAt(a, at - |first|, first);
    assert a[at - |first|..] == a[at - |first|..at] + a[at..];
    assert a[at..] == tail;
    assert a[end..] == tail[|second|..];
  }

  method CopyAt(a: array<byte>, at: nat, data: seq<byte>)
    requires at + |data| <= a.Length
    modifies a
    ensures a[at..at + |data|] == data
    ensures a[..at] == old(a[..at]) && a[at + |data|..] == old(a[at + |data|..])
  {
    var i := 0;
    while i < |data|
      invariant 0 <= i <= |data|
      invariant forall k :: 0 <= k < a.Length ==> a[k] == if at <= k < at + i then data[k - at] else old(a[k])
    {
      a[at + i] := data[i];
      i := i + 1;
    }
  }

  // ------------------------------------------------------------------- receiving

  function TotalLength(stream: seq<byte>): nat
    requires |stream| >= PREFIX_SIZE
  {
    LeValue(stream[..4])
  }

  function HeadLength(stream: seq<byte>): nat
    requires |stream| >= PREFIX_SIZE
  {
    LeValue(stream[4..8])
  }

  /** The stream holds a whole frame, as far as its prefix tells. */
  predicate Complete(stream: seq<byte>) {
    |stream| >= PREFIX_SIZE && PREFIX_SIZE <= TotalLength(stream) < PREFIX_SIZE + INT32_SPAN && TotalLength(stream) <= |stream|
  }

  /** The lengths the peer wrote stay inside the frame; onInput relies on this. */
  predicate InBounds(stream: seq<byte>) {
    Complete(stream) ==>
      && 0 < HeadLength(stream) <= TotalLength(stream) - PREFIX_SIZE
      && match H.Decode(H.InUse, stream[PREFIX_SIZE..PREFIX_SIZE + HeadLength(stream)])
         case None => true
         case Some((h, _)) => HeadLength(stream) + h.payloadSize <= TotalLength(stream) - PREFIX_SIZE
  }

  /** What onInput makes of a stream when the socket delivers every byte it is asked for. */
  function Deframe(stream: seq<byte>): Option<(Message, seq<byte>)>
    requires InBounds(stream)
  {
    if !Complete(stream) then None
    else
      var start := PREFIX_SIZE + HeadLength(stream);
      var (h, _) :- H.Decode(H.InUse, stream[PREFIX_SIZE..start]);
      if !KnownKind(h.kind) then None
      else Some((Message(h, stream[start..start + h.payloadSize]), stream[TotalLength(stream)..]))
  }

  lemma PrefixValues(total: nat, head: nat, rest: seq<byte>)
    requires total < UINT32_SPAN && head < UINT32_SPAN
    ensures var s := Prefix(total, head) + rest;
            |Prefix(total, head)| == PREFIX_SIZE && LeValue(s[..4]) == total && LeValue(s[4..8]) == head
  {
    H.Powers();
    var s := Prefix(total, head) + rest;
    assert s[..4] == LeBytes(total, 4) && s[4..8] == LeBytes(head, 4);
    LeRoundTrip(total, 4);
    LeRoundTrip(head, 4);
  }

  /** On the wire: the length of the frame and of its header in four bytes each, low byte first, header, payload. */
  lemma FrameLayout(m: Message)
    ensures var s, h := Frame(m), H.Encode(H.InUse, m.header);
            && s[..4] == LeBytes(8 + |h| + |m.payload|, 4) && s[4..8] == LeBytes(|h|, 4)
            && s[8..8 + |h|] == h && s[8 + |h|..] == m.payload
  {
    hide LeBytes;
  }

  /** The prefix of a frame announces its own length and its header's. */
  lemma FramePrefix(m: Message, rest: seq<byte>)
    requires Sendable(m)
    ensures var s := Frame(m) + rest;
            && |Frame(m)| == PREFIX_SIZE + |Head(m)| + |m.payload| < INT32_SPAN
            && TotalLength(s) == |Frame(m)| && HeadLength(s) == |Head(m)|
            && s[PREFIX_SIZE..PREFIX_SIZE + |Head(m)|] == Head(m)
            && s[PREFIX_SIZE + |Head(m)|..|Frame(m)|] == m.payload
            && s[|Frame(m)|..] == rest
  {
    hide Prefix, Head;
    var total := PREFIX_SIZE + |Head(m)| + |m.payload|;
    PrefixValues(total, |Head(m)|, Head(m) + m.payload + rest);
    assert Frame(m) + rest == Prefix(total, |Head(m)|) + (Head(m) + m.payload + rest);
  }

  lemma HeadDecodes(m: Message)
    requires Sendable(m)
    ensures |Head(m)| >= 22 && H.Decode(H.InUse, Head(m)) == Some((m.header, []))
  {
    H.HeaderRoundTrip(H.InUse, m.header, []);
    assert Head(m) + [] == Head(m);
    assert |H.PutFixed(H.InUse, H.FixedOf(m.header))| == 22;
  }

  /** The next message of a stream of frames is exactly the one sent, and exactly its frame is consumed. */
  lemma DeframeNext(m: Message, rest: seq<byte>)
    requires Sendable(m)
    ensures InBounds(Frame(m) + rest) && Deframe(Frame(m) + rest) == Some((m, rest))
  {
    FramePrefix(m, rest);
    HeadDecodes(m);
  }

  /**
   A frame within bounds whose header can be read is taken for a message if and only if its
   kind is one of request, reply, subscription, broadcast, sideband request, sideband reply
   and status.
   */
  lemma KindDecides(stream: seq<byte>)
    requires InBounds(stream) && Complete(stream)
    requires H.Decode(H.InUse, stream[PREFIX_SIZE..PREFIX_SIZE + HeadLength(stream)]).Some?
    ensures Deframe(stream).Some? <==>
            H.Decode(H.InUse, stream[PREFIX_SIZE..PREFIX_SIZE + HeadLength(stream)]).value.0.kind in {1, 2, 3, 4, 5, 6, 7}
  {
  }

  /** A cut frame is never taken for a message. */
  lemma DeframeCut(m: Message, n: nat)
    requires Sendable(m) && n < |Frame(m)|
    ensures !Complete(Frame(m)[..n]) && InBounds(Frame(m)[..n]) && Deframe(Frame(m)[..n]) == None
  {
    FramePrefix(m, []);
    assert Frame(m) + [] == Frame(m);
    if n >= PREFIX_SIZE {
      assert Frame(m)[..n][..4] == Frame(m)[..4];
    }
  }

  ghost predicate AllSendable(ms: seq<Message>) {
    forall i :: 0 <= i < |ms| ==> Sendable(ms[i])
  }

  /** A stream that starts a sequence of frames yields its first message, or nothing while it is incomplete. */
  lemma DeframePrefix(stream: seq<byte>, ms: seq<Message>)
    requires AllSendable(ms) && stream <= Frames(ms)
    ensures InBounds(stream)
    ensures match Deframe(stream)
            case None => ms == [] || |stream| < |Frame(ms[0])|
            case Some((m, rest)) => ms != [] && m == ms[0] && stream == Frame(m) + rest && rest <= Frames(ms[1..])
  {
    if ms != [] {
      FramesFirst(ms);
      var f := Frame(ms[0]);
      PrefixSplit(stream, f, Frames(ms[1..]));
      if |stream| < |f| {
        DeframeCut(ms[0], |stream|);
      } else {
        DeframeNext(ms[0], stream[|f|..]);
      }
    }
  }

  lemma PrefixSplit(s: seq<byte>, f: seq<byte>, rest: seq<byte>)
    requires s <= f + rest
    ensures |s| < |f| ==> s == f[..|s|]
    ensures |s| >= |f| ==> s == f + s[|f|..] && s[|f|..] <= rest
  {
    if |s| >= |f| {
      assert s[|f|..] == (f + rest)[|f|..|s|];
      assert s[..|f|] == f;
    }
  }

  /** One onInput call takes `m` off the stream and leaves `rest`. */
  predicate DeliversOne(stream: seq<byte>, m: Message, rest: seq<byte>) {
    InBounds(stream) && Deframe(stream) == Some((m, rest))
  }

  /** `msgs` are what successive onInput calls deliver from `stream`, and `rest` what they leave. */
  ghost predicate Delivers(stream: seq<byte>, msgs: seq<Message>, rest: seq<byte>)
    decreases |msgs|
  {
    if msgs == [] then stream == rest
    else exists next :: DeliversOne(stream, msgs[0], next) && Delivers(next, msgs[1..], rest)
  }

  lemma OneIsNext(stream: seq<byte>, sent: seq<Message>, m: Message, rest: seq<byte>)
    requires AllSendable(sent) && stream <= Frames(sent) && DeliversOne(stream, m, rest)
    ensures sent != [] && m == sent[0] && rest <= Frames(sent[1..])
  {
    DeframePrefix(stream, sent);
  }

  /** Never mis-framed: what is delivered is always a prefix of what was sent, frame by frame. */
  lemma {:induction false} DeliveredIsSentPrefix(stream: seq<byte>, sent: seq<Message>, msgs: seq<Message>, rest: seq<byte>)
    requires AllSendable(sent) && stream <= Frames(sent) && Delivers(stream, msgs, rest)
    ensures msgs <= sent && rest <= Frames(sent[|msgs|..])
    decreases |msgs|
  {
    hide DeliversOne, Frames;
    if msgs == [] {
      assert sent[0..] == sent;
    } else {
      var next :| DeliversOne(stream, msgs[0], next) && Delivers(next, msgs[1..], rest);
      OneIsNext(stream, sent, msgs[0], next);
      DeliveredIsSentPrefix(next, sent[1..], msgs[1..], rest);
      assert sent[1..][|msgs[1..]|..] == sent[|msgs|..];
      assert msgs == [msgs[0]] + msgs[1..] && sent == [sent[0]] + sent[1..];
    }
  }

  /** A complete stream of frames delivers every message and leaves nothing. */
  lemma {:induction false} StreamRoundTrip(ms: seq<Message>)
    requires AllSendable(ms)
    ensures Delivers(Frames(ms), ms, [])
    decreases |ms|
  {
    if ms != [] {
      FramesFirst(ms);
      DeframeNext(ms[0], Frames(ms[1..]));
      assert DeliversOne(Frames(ms), ms[0], Frames(ms[1..]));
      StreamRoundTrip(ms[1..]);
    }
  }

  /** The receiving side of a session; `stream` is what the socket has not delivered yet. */
  class Receiver {
    var stream: seq<byte>
    var fatal: bool

    constructor (stream: seq<byte>)
      ensures this.stream == stream && !fatal
    {
      this.stream, fatal := stream, false;
    }

    /** recv: an error, or between nothing and what is asked for and available. */
    method Recv(wish: int, size: nat) returns (cnt: int, data: seq<byte>)
      modifies this`stream
      ensures cnt < 0 ==> stream == old(stream)
      ensures cnt >= 0 ==> cnt <= size && cnt <= |old(stream)| && data == old(stream)[..cnt] && stream == old(stream)[cnt..]
    {
      if wish < 0 {
        return -1, [];
      }
      cnt := if wish <= size then wish else size;
      cnt := if cnt <= |stream| then cnt else |stream|;
      data, stream := stream[..cnt], stream[cnt..];
    }

    /** receiveData: retries until all bytes are in; `socket` says what each recv does. */
    method ReceiveData(size: nat, socket: nat -> int) returns (ok: bool, data: seq<byte>)
      modifies this`stream, this`fatal
      ensures ok ==> fatal == old(fatal) && size <= |old(stream)| && data == old(stream)[..size] && stream == old(stream)[size..]
      ensures !ok ==> fatal
    {
      data := [];
      var left, retries, k := size, RETRIES, 0;
      while true
        invariant 0 <= left <= size && 0 < retries && fatal == old(fatal)
        invariant |data| == size - left <= |old(stream)| && data == old(stream)[..|data|] && stream == old(stream)[|data|..]
        decreases retries
      {
        var cnt, more := Recv(socket(k), left);
        k := k + 1;
        if cnt < 0 {
          fatal := true;
          return false, data;
        }
        data, left, retries := data + more, left - cnt, retries - 1;
        if left <= 0 || retries <= 0 {
          break;
        }
      }
      if left > 0 {
        fatal := true;
        return false, data;
      }
      ok := true;
    }

    /** The reading half of onInput: one frame's header length and data, or a fatal session. */
    method ReceiveFrame(socket1: nat -> int, socket2: nat -> int) returns (ok: bool, headLength: nat, data: seq<byte>)
      requires !fatal
      modifies this
      ensures ok <==> !fatal
      ensures ok ==>
                && Complete(old(stream)) && headLength == HeadLength(old(stream))
                && data == old(stream)[PREFIX_SIZE..TotalLength(old(stream))]
                && stream == old(stream)[TotalLength(old(stream))..]
    {
      var prefix;
      ok, prefix := ReceiveData(PREFIX_SIZE, socket1);
      headLength, data := 0, [];
      if !ok {
        return;
      }
      assert prefix[..4] == old(stream)[..4] && prefix[4..8] == old(stream)[4..8];
      var total := LeValue(prefix[..4]);
      headLength := LeValue(prefix[4..8]);
      // the data size is a signed 32-bit number: out of range reads as negative
      if total < PREFIX_SIZE || total - PREFIX_SIZE >= INT32_SPAN {
        fatal := true;
        return false, headLength, data;
      }
      ok, data := ReceiveData(total - PREFIX_SIZE, socket2);
    }

    /** onInput: delivers one message and consumes exactly its frame, or marks the session fatal. */
    method OnInput(socket1: nat -> int, socket2: nat -> int) returns (msg: Option<Message>)
      requires !fatal && InBounds(stream)
      modifies this
      ensures !fatal ==> msg.Some? && DeliversOne(old(stream), msg.value, stream)
      ensures fatal ==> msg == None
    {
      hide H.Decode;
      var ok, headLength, data := ReceiveFrame(socket1, socket2);
      if !ok {
        return None;
      }
      SliceOfSlice(old(stream), PREFIX_SIZE, TotalLength(old(stream)), 0, headLength);
      var header := H.Decode(H.InUse, data[..headLength]);
      if header == None || !KnownKind(header.value.0.kind) {
        fatal := true;
        return None;
      }
      var h := header.value.0;
      SliceOfSlice(old(stream), PREFIX_SIZE, TotalLength(old(stream)), headLength, headLength + h.payloadSize);
      msg := Some(Message(h, data[headLength..headLength + h.payloadSize]));
    }
  }

  // --------------------------------------------------------------------- sending

  lemma {:induction false} ConcatAppend(frames: seq<seq<byte>>, f: seq<byte>)
    ensures Concat(frames + [f]) == Concat(frames) + f
  {
    if frames == [] {
      assert Concat([f]) == f + Concat([f][1..]);
    } else {
      ConcatAppend(frames[1..], f);
      assert (frames + [f])[1..] == frames[1..] + [f];
    }
  }

  /**
   The sending side of a session. `wire` is what the socket has taken so far: always
   the frames offered, and after a failure only part of the last one.
   */
  class Sender {
    var wire: seq<byte>
    var fatal: bool
    ghost var frames: seq<seq<byte>>

    ghost predicate Valid()
      reads this
    {
      if fatal then wire <= Concat(frames) else wire == Concat(frames)
    }

    constructor ()
      ensures Valid() && !fatal && frames == []
    {
      wire, fatal, frames := [], false, [];
    }

    /** sendMessage: pushes the frame piece by piece; a failure is fatal for the session. */
    method Send(frame: seq<byte>, socket: nat -> int) returns (ok: bool)
      requires Valid()
      modifies this
      ensures Valid()
      ensures old(fatal) ==> !ok && fatal && wire == old(wire) && frames == old(frames)
      ensures !old(fatal) ==> frames == old(frames) + [frame] && ok == !fatal
    {
      if fatal {
        return false;
      }
      var done;
      done, ok := Push(frame, socket);
      ConcatAppend(frames, frame);
      frames := frames + [frame];
      fatal := !ok;
    }

    /** The send loop: how much of the frame the socket took, and whether it took all of it. */
    method Push(frame: seq<byte>, socket: nat -> int) returns (done: nat, ok: bool)
      modifies this`wire
      ensures done <= |frame| && wire == old(wire) + frame[..done]
      ensures ok ==> done == |frame|
    {
      done := 0;
      var retries, k := RETRIES, 0;
      while true
        invariant done <= |frame| && 0 < retries
        invariant wire == old(wire) + frame[..done]
        decreases retries
      {
        var wish := socket(k);
        k := k + 1;
        if wish < 0 {
          return done, false;
        }
        var cnt := if wish <= |frame| - done then wish else |frame| - done;
        assert frame[..done] + frame[done..done + cnt] == frame[..done + cnt];
        wire := wire + frame[done..done + cnt];
        done, retries := done + cnt, retries - 1;
        if done == |frame| || retries <= 0 {
          break;
        }
      }
      ok := done == |frame|;
    }
  }

  /**
   Sender and receiver together: if the frames offered are those of sendable messages,
   then from any part of the wire that has arrived, whatever the fragmentation and the
   failures on either side, the messages delivered are the first ones sent, unchanged and
   in order; and without a failure the whole wire delivers them all.
   */
  lemma SentIsReceived(sender: Sender, sent: seq<Message>, stream: seq<byte>, msgs: seq<Message>, rest: seq<byte>)
    requires sender.Valid() && AllSendable(sent) && sender.frames == seq(|sent|, i requires 0 <= i < |sent| => Frame(sent[i]))
    requires stream <= sender.wire && Delivers(stream, msgs, rest)
    ensures msgs <= sent
    ensures !sender.fatal ==> Delivers(sender.wire, sent, [])
  {
    hide Frame, Delivers;
    assert Concat(sender.frames) == Frames(sent);
    DeliveredIsSentPrefix(stream, sent, msgs, rest);
    StreamRoundTrip(sent);
  }
}
