/**
 The message header. Two layouts exist in the sources: the one sessions use
 (CFdbIfMessageHeader.h), and one with a sender name and a four-byte type
 (CFdbMessageHeader.h).
 */
module Header {
  import opened Common
  import opened Serializer

  datatype Layout = InUse | WithSender

  datatype Header = Header(
    kind: nat, sn: nat, code: int, flag: nat, obj: nat, payloadSize: nat,
    sender: Option<seq<byte>>, filter: Option<seq<byte>>, arrive: Option<nat>, reply: Option<nat>)

  predicate Fits32(v: int) { 0 <= v < UINT32_SPAN }

  predicate Fits64(v: Option<nat>) { v.Some? ==> v.value < UINT32_SPAN * UINT32_SPAN }

  predicate FitsString(s: Option<seq<byte>>) { s.Some? ==> NulFree(s.value) && |s.value| < STRING_SPAN - 1 }

  predicate Valid(layout: Layout, h: Header) {
    && h.kind < 256 && Fits32(h.sn) && Fits32(h.flag) && Fits32(h.obj) && Fits32(h.payloadSize)
    && -0x8000_0000 <= h.code < 0x8000_0000
    && FitsString(h.sender) && FitsString(h.filter) && Fits64(h.arrive) && Fits64(h.reply)
    && (layout == InUse ==> h.sender == None)
  }

  function TypeWidth(layout: Layout): nat {
    if layout == InUse then 1 else 4
  }

  /** Two's complement of a signed 32-bit number, and back. */
  function ToU32(v: int): nat {
    v % UINT32_SPAN
  }

  function FromU32(u: nat): int {
    if u < 0x8000_0000 then u else u - UINT32_SPAN
  }

  // ------------------------------------------------------------------ option mask

  function Bit(o: Option<seq<byte>>, weight: nat): nat {
    if o.Some? then weight else 0
  }

  function Options(h: Header): nat {
    Bit(h.sender, 1) + Bit(h.filter, 2) + (if h.arrive.Some? then 4 else 0) + (if h.reply.Some? then 8 else 0)
  }

  predicate HasBit(options: nat, weight: nat)
    requires weight > 0
  {
    (options / weight) % 2 == 1
  }

  lemma OptionBits(h: Header)
    ensures Options(h) < 16
    ensures HasBit(Options(h), 1) <==> h.sender.Some?
    ensures HasBit(Options(h), 2) <==> h.filter.Some?
    ensures HasBit(Options(h), 4) <==> h.arrive.Some?
    ensures HasBit(Options(h), 8) <==> h.reply.Some?
  {
  }

  // --------------------------------------------------------------------- encoding

  /** The seven scalars every header has. */
  datatype Fixed = Fixed(kind: nat, sn: nat, code: nat, flag: nat, obj: nat, payloadSize: nat, options: nat)

  function FixedOf(h: Header): Fixed {
    Fixed(h.kind, h.sn, ToU32(h.code), h.flag, h.obj, h.payloadSize, Options(h))
  }

  function PutFixed(layout: Layout, f: Fixed): seq<byte> {
    LeBytes(f.kind, TypeWidth(layout)) + (LeBytes(f.sn, 4) + (LeBytes(f.code, 4) + (LeBytes(f.flag, 4) +
      (LeBytes(f.obj, 4) + (LeBytes(f.payloadSize, 4) + LeBytes(f.options, 1))))))
  }

  function GetFixed(layout: Layout, bs: seq<byte>): Option<(Fixed, seq<byte>)> {
    var (kind, bs1) :- GetScalar(bs, TypeWidth(layout));
    var (sn, bs2) :- GetScalar(bs1, 4);
    var (code, bs3) :- GetScalar(bs2, 4);
    var (flag, bs4) :- GetScalar(bs3, 4);
    var (obj, bs5) :- GetScalar(bs4, 4);
    var (payloadSize, bs6) :- GetScalar(bs5, 4);
    var (options, bs7) :- GetScalar(bs6, 1);
    Some((Fixed(kind, sn, code, flag, obj, payloadSize, options), bs7))
  }

  function PutOptString(s: Option<seq<byte>>): seq<byte> {
    if s.Some? then PutString(s.value) else []
  }

  function PutOptTime(t: Option<nat>): seq<byte> {
    if t.Some? then LeBytes(t.value, 8) else []
  }

  function PutOptional(h: Header): seq<byte> {
    PutOptString(h.sender) + (PutOptString(h.filter) + (PutOptTime(h.arrive) + PutOptTime(h.reply)))
  }

  /** CFdbMessageHeader::serialize. */
  function Encode(layout: Layout, h: Header): seq<byte> {
    PutFixed(layout, FixedOf(h)) + PutOptional(h)
  }

  /**
   The layout in use: the type in one byte, five 32-bit numbers and the option mask, 22
   bytes in all; then the filter, the arrival time and the reply time, where present.
   */
  lemma HeaderLayout(h: Header)
    requires Valid(InUse, h)
    ensures var bs := Encode(InUse, h);
            && |bs| >= 22
            && bs[..1] == LeBytes(h.kind, 1) && bs[1..5] == LeBytes(h.sn, 4) && bs[5..9] == LeBytes(h.code % UINT32_SPAN, 4)
            && bs[9..13] == LeBytes(h.flag, 4) && bs[13..17] == LeBytes(h.obj, 4) && bs[17..21] == LeBytes(h.payloadSize, 4)
            && bs[21..22] == LeBytes((if h.filter.Some? then 2 else 0) + (if h.arrive.Some? then 4 else 0) + (if h.reply.Some? then 8 else 0), 1)
            && bs[22..] == (if h.filter.Some? then PutString(h.filter.value) else []) +
                           ((if h.arrive.Some? then LeBytes(h.arrive.value, 8) else []) + (if h.reply.Some? then LeBytes(h.reply.value, 8) else []))
  {
    hide LeBytes, PutString;
    var f := FixedOf(h);
    var fixed, rest := PutFixed(InUse, f), PutOptional(h);
    FixedLayout(f);
    var bs := Encode(InUse, h);
    assert bs == fixed + rest && bs[..22] == fixed && bs[22..] == rest;
    assert bs[..1] == fixed[..1] && bs[1..5] == fixed[1..5] && bs[5..9] == fixed[5..9];
    assert bs[9..13] == fixed[9..13] && bs[13..17] == fixed[13..17] && bs[17..21] == fixed[17..21] && bs[21..22] == fixed[21..22];
    assert [] + PutOptString(h.filter) == PutOptString(h.filter);
  }

  lemma FixedLayout(f: Fixed)
    ensures var bs := PutFixed(InUse, f);
            && |bs| == 22 && bs[..1] == LeBytes(f.kind, 1) && bs[1..5] == LeBytes(f.sn, 4) && bs[5..9] == LeBytes(f.code, 4)
            && bs[9..13] == LeBytes(f.flag, 4) && bs[13..17] == LeBytes(f.obj, 4) && bs[17..21] == LeBytes(f.payloadSize, 4)
            && bs[21..22] == LeBytes(f.options, 1)
  {
    hide LeBytes;
  }

  function GetOptString(bs: seq<byte>, present: bool): Option<(Option<seq<byte>>, seq<byte>)> {
    if present then
      var (s, rest) :- GetString(bs);
      Some((Some(s), rest))
    else Some((None, bs))
  }

  function GetOptTime(bs: seq<byte>, present: bool): Option<(Option<nat>, seq<byte>)> {
    if present then
      var (t, rest) :- GetScalar(bs, 8);
      Some((Some(t), rest))
    else Some((None, bs))
  }

  datatype Optional = Optional(sender: Option<seq<byte>>, filter: Option<seq<byte>>, arrive: Option<nat>, reply: Option<nat>)

  /** The fields whose presence the option mask announces. */
  function GetOptional(layout: Layout, options: nat, bs: seq<byte>): Option<(Optional, seq<byte>)> {
    var (sender, bs1) :- GetOptString(bs, layout == WithSender && HasBit(options, 1));
    var (filter, bs2) :- GetOptString(bs1, HasBit(options, 2));
    var (arrive, bs3) :- GetOptTime(bs2, HasBit(options, 4));
    var (reply, bs4) :- GetOptTime(bs3, HasBit(options, 8));
    Some((Optional(sender, filter, arrive, reply), bs4))
  }

  /** CFdbMessageHeader::deserialize: the header and the bytes after it. */
  function Decode(layout: Layout, bs: seq<byte>): Option<(Header, seq<byte>)> {
    var (f, bs1) :- GetFixed(layout, bs);
    var (o, bs2) :- GetOptional(layout, f.options, bs1);
    Some((Header(f.kind, f.sn, FromU32(f.code), f.flag, f.obj, f.payloadSize, o.sender, o.filter, o.arrive, o.reply), bs2))
  }

  lemma GetPutOptString(s: Option<seq<byte>>, rest: seq<byte>)
    requires FitsString(s)
    ensures GetOptString(PutOptString(s) + rest, s.Some?) == Some((s, rest))
  {
    if s.Some? {
      GetPutString(s.value, rest);
    } else {
      assert PutOptString(s) + rest == rest;
    }
  }

  lemma Powers()
    ensures Pow256(1) == 256 && Pow256(4) == UINT32_SPAN && Pow256(8) == UINT32_SPAN * UINT32_SPAN
  {
    assert Pow256(2) == 256 * 256 && Pow256(3) == 256 * Pow256(2);
    assert Pow256(5) == 256 * Pow256(4) && Pow256(6) == 256 * Pow256(5) && Pow256(7) == 256 * Pow256(6);
  }

  lemma GetPutOptTime(t: Option<nat>, rest: seq<byte>)
    requires Fits64(t)
    ensures GetOptTime(PutOptTime(t) + rest, t.Some?) == Some((t, rest))
  {
    if t.Some? {
      Powers();
      GetPutScalar(t.value, 8, rest);
    } else {
      assert PutOptTime(t) + rest == rest;
    }
  }

  lemma Assoc(a: seq<byte>, b: seq<byte>, c: seq<byte>)
    ensures (a + b) + c == a + (b + c)
  {
  }

  lemma Assoc7(a: seq<byte>, b: seq<byte>, c: seq<byte>, d: seq<byte>, e: seq<byte>, f: seq<byte>, g: seq<byte>, rest: seq<byte>)
    ensures (a + (b + (c + (d + (e + (f + g)))))) + rest == a + (b + (c + (d + (e + (f + (g + rest))))))
  {
    Assoc(f, g, rest);
    Assoc(e, f + g, rest);
    Assoc(d, e + (f + g), rest);
    Assoc(c, d + (e + (f + g)), rest);
    Assoc(b, c + (d + (e + (f + g))), rest);
    Assoc(a, b + (c + (d + (e + (f + g)))), rest);
  }

  lemma FixedRoundTrip(layout: Layout, h: Header, rest: seq<byte>)
    requires Valid(layout, h)
    ensures GetFixed(layout, PutFixed(layout, FixedOf(h)) + rest) == Some((FixedOf(h), rest))
  {
    var f := FixedOf(h);
    assert f.kind < Pow256(TypeWidth(layout)) && f.options < Pow256(1) && Pow256(4) == UINT32_SPAN by {
      Powers();
      OptionBits(h);
    }
    hide LeBytes, GetScalar;
    var t6 := LeBytes(f.options, 1) + rest;
    var t5 := LeBytes(f.payloadSize, 4) + t6;
    var t4 := LeBytes(f.obj, 4) + t5;
    var t3 := LeBytes(f.flag, 4) + t4;
    var t2 := LeBytes(f.code, 4) + t3;
    var t1 := LeBytes(f.sn, 4) + t2;
    Assoc7(LeBytes(f.kind, TypeWidth(layout)), LeBytes(f.sn, 4), LeBytes(f.code, 4), LeBytes(f.flag, 4),
           LeBytes(f.obj, 4), LeBytes(f.payloadSize, 4), LeBytes(f.options, 1), rest);
    GetPutScalar(f.kind, TypeWidth(layout), t1);
    GetPutScalar(f.sn, 4, t2);
    GetPutScalar(f.code, 4, t3);
    GetPutScalar(f.flag, 4, t4);
    GetPutScalar(f.obj, 4, t5);
    GetPutScalar(f.payloadSize, 4, t6);
    GetPutScalar(f.options, 1, rest);
  }

  lemma OptionalRoundTrip(layout: Layout, h: Header, rest: seq<byte>)
    requires Valid(layout, h)
    ensures GetOptional(layout, Options(h), PutOptional(h) + rest) == Some((Optional(h.sender, h.filter, h.arrive, h.reply), rest))
  {
    var t3 := PutOptTime(h.reply) + rest;
    var t2 := PutOptTime(h.arrive) + t3;
    var t1 := PutOptString(h.filter) + t2;
    assert PutOptional(h) + rest == PutOptString(h.sender) + t1;
    OptionBits(h);
    GetPutOptString(h.sender, t1);
    GetPutOptString(h.filter, t2);
    GetPutOptTime(h.arrive, t3);
    GetPutOptTime(h.reply, rest);
  }

  /** Whatever the options and whatever follows, decoding an encoded header gives it back. */
  lemma HeaderRoundTrip(layout: Layout, h: Header, rest: seq<byte>)
    requires Valid(layout, h)
    ensures Decode(layout, Encode(layout, h) + rest) == Some((h, rest))
  {
    hide PutFixed, PutOptional, GetFixed, GetOptional;
    Assoc(PutFixed(layout, FixedOf(h)), PutOptional(h), rest);
    FixedRoundTrip(layout, h, PutOptional(h) + rest);
    OptionalRoundTrip(layout, h, rest);
    assert FromU32(ToU32(h.code)) == h.code;
  }

  // ------------------------------------------------------- through the serializer

  /** serialize: appends the encoding, on any host. */
  method Serialize(ser: SimpleSerializer, layout: Layout, h: Header)
    requires ser.Valid() && ser.totalSize + 0x9_0000 < UINT32_SPAN
    modifies ser, ser.buffer
    ensures ser.Valid() && ser.Contents() == old(ser.Contents()) + Encode(layout, h)
  {
    ghost var start := ser.Contents();
    SerializeFixed(ser, layout, h);
    SerializeOptional(ser, h);
    Assoc(start, PutFixed(layout, FixedOf(h)), PutOptional(h));
  }

  method SerializeOptional(ser: SimpleSerializer, h: Header)
    requires ser.Valid() && ser.totalSize + 0x8_0000 < UINT32_SPAN
    modifies ser, ser.buffer
    ensures ser.Valid() && ser.Contents() == old(ser.Contents()) + PutOptional(h)
  {
    ghost var start := ser.Contents();
    AddOptString(ser, h.sender);
    AddOptString(ser, h.filter);
    AddOptTime(ser, h.arrive);
    AddOptTime(ser, h.reply);
    Assoc(start + PutOptString(h.sender) + PutOptString(h.filter), PutOptTime(h.arrive), PutOptTime(h.reply));
    Assoc(start + PutOptString(h.sender), PutOptString(h.filter), PutOptTime(h.arrive) + PutOptTime(h.reply));
    Assoc(start, PutOptString(h.sender), PutOptString(h.filter) + (PutOptTime(h.arrive) + PutOptTime(h.reply)));
  }

  method AddOptString(ser: SimpleSerializer, s: Option<seq<byte>>)
    requires ser.Valid() && ser.totalSize + 0x2_0000 < UINT32_SPAN
    modifies ser, ser.buffer
    ensures ser.Valid() && (ser.buffer == old(ser.buffer) || fresh(ser.buffer))
    ensures ser.Contents() == old(ser.Contents()) + PutOptString(s)
    ensures ser.totalSize <= old(ser.totalSize) + 0x2_0000
  {
    if s.Some? {
      ser.AddString(s.value);
    }
  }

  method AddOptTime(ser: SimpleSerializer, t: Option<nat>)
    requires ser.Valid() && ser.totalSize + 0x2_0000 < UINT32_SPAN
    modifies ser, ser.buffer
    ensures ser.Valid() && (ser.buffer == old(ser.buffer) || fresh(ser.buffer))
    ensures ser.Contents() == old(ser.Contents()) + PutOptTime(t)
    ensures ser.totalSize <= old(ser.totalSize) + 0x2_0000
  {
    if t.Some? {
      ser.AddScalar(t.value, 8);
    }
  }

  method SerializeFixed(ser: SimpleSerializer, layout: Layout, h: Header)
    requires ser.Valid() && ser.totalSize + 0x1_0000 < UINT32_SPAN
    modifies ser, ser.buffer
    ensures ser.Valid() && (ser.buffer == old(ser.buffer) || fresh(ser.buffer))
    ensures ser.Contents() == old(ser.Contents()) + PutFixed(layout, FixedOf(h))
    ensures ser.totalSize <= old(ser.totalSize) + 0x1_0000
  {
    hide LeBytes;
    ghost var start := ser.Contents();
    ser.AddScalar(h.kind, TypeWidth(layout));
    ser.AddScalar(h.sn, 4);
    ser.AddScalar(ToU32(h.code), 4);
    ser.AddScalar(h.flag, 4);
    ser.AddScalar(h.obj, 4);
    ser.AddScalar(h.payloadSize, 4);
    ser.AddScalar(Options(h), 1);
    FixedLeft(layout, FixedOf(h), start);
  }

  /** Seven scalars appended one by one are the fixed part. */
  lemma FixedLeft(layout: Layout, f: Fixed, start: seq<byte>)
    ensures start + LeBytes(f.kind, TypeWidth(layout)) + LeBytes(f.sn, 4) + LeBytes(f.code, 4) + LeBytes(f.flag, 4) +
            LeBytes(f.obj, 4) + LeBytes(f.payloadSize, 4) + LeBytes(f.options, 1) == start + PutFixed(layout, f)
  {
    hide LeBytes;
  }

  /** deserialize: the decoded header, or the error flag, on any host. */
  method Deserialize(des: SimpleDeserializer, layout: Layout) returns (h: Header)
    requires des.Valid() && !des.error
    modifies des
    ensures des.Valid()
    ensures match Decode(layout, old(des.Rest()))
            case None => des.error
            case Some((x, rest)) => !des.error && h == x && des.Rest() == rest
  {
    var f := DeserializeFixed(des, layout);
    var sender, filter: Option<seq<byte>> := None, None;
    var arrive, reply: Option<nat> := None, None;
    if layout == WithSender && HasBit(f.options, 1) {
      var s := des.String();
      sender := Some(s);
    }
    if HasBit(f.options, 2) {
      var s := des.String();
      filter := Some(s);
    }
    if HasBit(f.options, 4) {
      var t := des.Scalar(8);
      arrive := Some(t);
    }
    if HasBit(f.options, 8) {
      var t := des.Scalar(8);
      reply := Some(t);
    }
    h := Header(f.kind, f.sn, FromU32(f.code), f.flag, f.obj, f.payloadSize, sender, filter, arrive, reply);
  }

  method DeserializeFixed(des: SimpleDeserializer, layout: Layout) returns (f: Fixed)
    requires des.Valid() && !des.error
    modifies des
    ensures des.Valid()
    ensures match GetFixed(layout, old(des.Rest()))
            case None => des.error
            case Some((x, rest)) => !des.error && f == x && des.Rest() == rest
  {
    var kind := des.Scalar(TypeWidth(layout));
    var sn := des.Scalar(4);
    var code := des.Scalar(4);
    var flag := des.Scalar(4);
    var obj := des.Scalar(4);
    var payloadSize := des.Scalar(4);
    var options := des.Scalar(1);
    f := Fixed(kind, sn, code, flag, obj, payloadSize, options);
  }
}
