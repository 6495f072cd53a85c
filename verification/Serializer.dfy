/**
 CFdbSimpleSerializer and CFdbSimpleDeserializer: an endian-neutral encoding of
 scalars and strings in a growing buffer.
 */
module Serializer {
  import opened Common

  // ------------------------------------------------------------ scalars as bytes

  function Pow256(w: nat): nat {
    if w == 0 then 1 else 256 * Pow256(w - 1)
  }

  /** Least significant byte first. */
  function LeBytes(v: nat, w: nat): (bs: seq<byte>)
    ensures |bs| == w
  {
    if w == 0 then [] else [(v % 256) as byte] + LeBytes(v / 256, w - 1)
  }

  function LeValue(bs: seq<byte>): nat {
    if bs == [] then 0 else bs[0] as nat + 256 * LeValue(bs[1..])
  }

  lemma {:induction false} LeRoundTrip(v: nat, w: nat)
    requires v < Pow256(w)
    ensures LeValue(LeBytes(v, w)) == v
  {
    if w > 0 {
      assert v / 256 < Pow256(w - 1);
      LeRoundTrip(v / 256, w - 1);
      assert LeBytes(v, w)[1..] == LeBytes(v / 256, w - 1);
    }
  }

  /** Byte `i` of the encoding is the one of weight 256^i, whatever the width. */
  lemma {:induction false} LeByteAt(v: nat, w: nat, i: nat)
    requires i < w
    ensures Pow256(i) > 0 && LeBytes(v, w)[i] as nat == v / Pow256(i) % 256
    decreases i
  {
    if i > 0 {
      LeByteAt(v / 256, w - 1, i - 1);
      DivideTwice(v, Pow256(i - 1));
    }
  }

  lemma DivideTwice(v: nat, p: nat)
    requires p > 0
    ensures v / 256 / p == v / (256 * p)
  {
    var q, r := v / 256 / p, v / 256 % p;
    assert v / 256 == p * q + r;
    assert v == (256 * p) * q + (256 * r + v % 256);
    QuotientUnique(v, 256 * p, q, 256 * r + v % 256);
  }

  lemma QuotientUnique(v: nat, m: nat, q: nat, r: nat)
    requires m > 0 && v == m * q + r && r < m
    ensures v / m == q
  {
    var d := q - v / m;
    Distribute(m, v / m, d);
    assert m * d == v % m - r;
    if d > 0 {
      Distribute(m, 1, d - 1);
    } else if d < 0 {
      Distribute(m, -1, d + 1);
    }
  }

  lemma Distribute(m: nat, a: int, b: int)
    ensures m * (a + b) == m * a + m * b
    ensures b >= 0 ==> m * b >= 0
    ensures b <= 0 ==> m * b <= 0
  {
  }

  function Reverse(bs: seq<byte>): (r: seq<byte>)
    ensures |r| == |bs| && forall i :: 0 <= i < |bs| ==> r[i] == bs[|bs| - 1 - i]
  {
    seq(|bs|, i requires 0 <= i < |bs| => bs[|bs| - 1 - i])
  }

  datatype Host = LittleEndian | BigEndian

  /** The bytes a host keeps a scalar in. */
  function Native(host: Host, v: nat, w: nat): (bs: seq<byte>)
    ensures |bs| == w
  {
    if host == LittleEndian then LeBytes(v, w) else Reverse(LeBytes(v, w))
  }

  /** The scalar a host reads from its native bytes. */
  function NativeValue(host: Host, data: seq<byte>): nat {
    LeValue(if host == LittleEndian then data else Reverse(data))
  }

  /** Reading bytes into the host's order and then as a native scalar is endian-neutral. */
  lemma NativeRead(host: Host, bs: seq<byte>)
    ensures NativeValue(host, if host == LittleEndian then bs else Reverse(bs)) == LeValue(bs)
  {
    assert Reverse(Reverse(bs)) == bs;
  }

  // ------------------------------------------------------------------- strings

  const STRING_SPAN := 0x1_0000

  const NUL: byte := 0

  predicate NulFree(s: seq<byte>) {
    forall i :: 0 <= i < |s| ==> s[i] != NUL
  }

  /** The C string in a buffer: up to its first NUL. */
  function CString(s: seq<byte>): seq<byte> {
    if s == [] || s[0] == NUL then [] else [s[0]] + CString(s[1..])
  }

  lemma {:induction false} CStringOf(s: seq<byte>, rest: seq<byte>)
    requires NulFree(s)
    ensures CString(s + [NUL] + rest) == s
  {
    var t := s + [NUL] + rest;
    if s != [] {
      CStringOf(s[1..], rest);
      assert t[1..] == s[1..] + [NUL] + rest;
    }
  }

  lemma {:induction false} CStringNulFree(s: seq<byte>)
    ensures NulFree(CString(s))
  {
    if s != [] && s[0] != NUL {
      CStringNulFree(s[1..]);
    }
  }

  /** The 16-bit length that addString writes, counting the terminator. */
  function StringLength(s: seq<byte>): nat {
    (|s| % STRING_SPAN + 1) % STRING_SPAN
  }

  /** addString: length, then that many bytes of the terminated string. */
  function PutString(s: seq<byte>): seq<byte> {
    LeBytes(StringLength(s), 2) + (s + [NUL])[..StringLength(s)]
  }

  /** On the wire: the length with the terminator in two bytes, low byte first, then the string and a NUL. */
  lemma StringLayout(s: seq<byte>)
    requires |s| < STRING_SPAN - 1
    ensures var bs := PutString(s);
            && |bs| == |s| + 3 && bs[0] as nat == (|s| + 1) % 256 && bs[1] as nat == (|s| + 1) / 256
            && bs[2..|s| + 2] == s && bs[|s| + 2] == 0
  {
    var bs := PutString(s);
    assert StringLength(s) == |s| + 1;
    assert LeBytes(|s| + 1, 2) == [((|s| + 1) % 256) as byte] + LeBytes((|s| + 1) / 256, 1);
    assert LeBytes((|s| + 1) / 256, 1) == [((|s| + 1) / 256 % 256) as byte] + LeBytes((|s| + 1) / 256 / 256, 0);
    assert (s + [NUL])[..|s| + 1] == s + [NUL];
  }

  function GetScalar(bs: seq<byte>, w: nat): Option<(nat, seq<byte>)> {
    if |bs| < w then None else Some((LeValue(bs[..w]), bs[w..]))
  }

  /** operator>> for std::string: an empty length leaves the string empty. */
  function GetString(bs: seq<byte>): Option<(seq<byte>, seq<byte>)> {
    var r := GetScalar(bs, 2);
    if r == None then None
    else
      var (len, rest) := r.value;
      if len == 0 then Some(([], rest))
      else if len > |rest| || rest[len - 1] != NUL then None
      else Some((CString(rest), rest[len..]))
  }

  lemma GetPutScalar(v: nat, w: nat, rest: seq<byte>)
    requires v < Pow256(w)
    ensures GetScalar(LeBytes(v, w) + rest, w) == Some((v, rest))
  {
    var bs := LeBytes(v, w) + rest;
    assert bs[..w] == LeBytes(v, w) && bs[w..] == rest;
    LeRoundTrip(v, w);
  }

  lemma Pow256Two()
    ensures Pow256(2) == STRING_SPAN
  {
    assert Pow256(1) == 256;
  }

  /** A string survives exactly when it is free of NULs and its length fits 16 bits with the terminator. */
  lemma GetPutString(s: seq<byte>, rest: seq<byte>)
    ensures NulFree(s) && |s| < STRING_SPAN - 1 ==> GetString(PutString(s) + rest) == Some((s, rest))
    ensures !(NulFree(s) && |s| < STRING_SPAN - 1) ==> forall r :: GetString(PutString(s) + rest) != Some((s, r))
  {
    Pow256Two();
    var len := StringLength(s);
    var body := (s + [NUL])[..len];
    assert PutString(s) + rest == LeBytes(len, 2) + (body + rest);
    GetPutScalar(len, 2, body + rest);
    if NulFree(s) && |s| < STRING_SPAN - 1 {
      assert body == s + [NUL];
      CStringOf(s, rest);
      assert (body + rest)[len..] == rest;
    } else if !NulFree(s) {
      CStringNulFree(body + rest);
    } else {
      LongString(s);
    }
  }

  lemma LongString(s: seq<byte>)
    requires NulFree(s) && |s| >= STRING_SPAN - 1
    ensures StringLength(s) == 0 || (s + [NUL])[..StringLength(s)][StringLength(s) - 1] != NUL
  {
  }

  // --------------------------------------------------------------- the serializer

  const SCRATCH_SIZE := 2048
  const BLOCK_SIZE := 1024

  class SimpleSerializer {
    const host: Host
    var buffer: array<byte>
    var inScratch: bool
    var totalSize: nat
    var pos: nat

    ghost predicate Valid()
      reads this
    {
      && pos <= totalSize == buffer.Length
      && (inScratch ==> totalSize == SCRATCH_SIZE)
    }

    ghost function Contents(): seq<byte>
      requires Valid()
      reads this, buffer
    {
      buffer[..pos]
    }

    constructor (host: Host)
      ensures Valid() && Contents() == [] && fresh(buffer) && this.host == host
    {
      this.host := host;
      buffer := new byte[SCRATCH_SIZE](_ => 0);
      inScratch, totalSize, pos := true, SCRATCH_SIZE, 0;
    }

    /** addMemory: room for `size` more bytes; what was written stays. Sizes fit 32 bits. */
    method AddMemory(size: nat)
      requires Valid()
      requires totalSize + size + BLOCK_SIZE < UINT32_SPAN
      modifies this`buffer, this`inScratch, this`totalSize
      ensures Valid() && pos + size <= totalSize && Contents() == old(Contents())
      ensures buffer == old(buffer) || fresh(buffer)
      ensures totalSize <= old(totalSize) + size + BLOCK_SIZE
    {
      var newPos := pos + size;
      if inScratch {
        if newPos > SCRATCH_SIZE {
          totalSize := totalSize + size + BLOCK_SIZE;
          Reallocate();
          inScratch := false;
        }
        return;
      }
      var oldTotal := totalSize;
      if newPos > totalSize {
        totalSize := totalSize + if size < BLOCK_SIZE then BLOCK_SIZE else size + BLOCK_SIZE;
      }
      if totalSize > oldTotal {
        Reallocate();
      }
    }

    /** malloc and memcpy, or realloc: a larger buffer with the same contents. */
    method Reallocate()
      requires pos <= buffer.Length <= totalSize
      modifies this`buffer
      ensures fresh(buffer) && buffer.Length == totalSize && buffer[..pos] == old(buffer[..pos])
    {
      var bigger := new byte[totalSize](_ => 0);
      var i := 0;
      while i < pos
        invariant 0 <= i <= pos
        invariant bigger[..i] == buffer[..i]
        modifies bigger
      {
        bigger[i] := buffer[i];
        i := i + 1;
      }
      buffer := bigger;
    }

    /** addBasicType: copies a scalar's native bytes in little-endian order. */
    method AddBasicType(data: seq<byte>)
      requires Valid() && totalSize + |data| + BLOCK_SIZE < UINT32_SPAN
      modifies this, buffer
      ensures Valid() && (buffer == old(buffer) || fresh(buffer))
      ensures Contents() == old(Contents()) + if host == LittleEndian then data else Reverse(data)
      ensures totalSize <= old(totalSize) + |data| + BLOCK_SIZE
    {
      AddMemory(|data|);
      if host == LittleEndian {
        CopyIn(data);
      } else {
        CopyReversed(data);
      }
    }

    method AddRawData(data: seq<byte>)
      requires Valid() && totalSize + |data| + BLOCK_SIZE < UINT32_SPAN
      modifies this, buffer
      ensures Valid() && (buffer == old(buffer) || fresh(buffer))
      ensures Contents() == old(Contents()) + data
      ensures totalSize <= old(totalSize) + |data| + BLOCK_SIZE
    {
      AddMemory(|data|);
      CopyIn(data);
    }

    method CopyIn(data: seq<byte>)
      requires Valid() && pos + |data| <= totalSize
      modifies this`pos, buffer
      ensures Valid() && Contents() == old(Contents()) + data
    {
      ghost var before := Contents();
      var i := 0;
      while i < |data|
        invariant 0 <= i <= |data|
        invariant buffer[..pos + i] == before + data[..i]
        modifies buffer
      {
        buffer[pos + i] := data[i];
        assert buffer[..pos + i + 1] == buffer[..pos + i] + [data[i]];
        i := i + 1;
      }
      pos := pos + |data|;
      assert data[..i] == data;
    }

    method CopyReversed(data: seq<byte>)
      requires Valid() && pos + |data| <= totalSize
      modifies this`pos, buffer
      ensures Valid() && Contents() == old(Contents()) + Reverse(data)
    {
      ghost var before := Contents();
      ghost var out := Reverse(data);
      var i := 0;
      while i < |data|
        invariant 0 <= i <= |data|
        invariant buffer[..pos + i] == before + out[..i]
        modifies buffer
      {
        buffer[pos + i] := data[|data| - 1 - i];
        assert buffer[..pos + i + 1] == buffer[..pos + i] + [out[i]];
        i := i + 1;
      }
      pos := pos + |data|;
      assert out[..i] == out;
    }

    /** operator<< for a scalar: the bytes written do not depend on the host. */
    method AddScalar(v: nat, w: nat)
      requires Valid() && totalSize + w + BLOCK_SIZE < UINT32_SPAN
      modifies this, buffer
      ensures Valid() && (buffer == old(buffer) || fresh(buffer))
      ensures Contents() == old(Contents()) + LeBytes(v, w)
      ensures totalSize <= old(totalSize) + w + BLOCK_SIZE
    {
      AddBasicType(Native(host, v, w));
      assert Reverse(Reverse(LeBytes(v, w))) == LeBytes(v, w);
    }

    method AddString(s: seq<byte>)
      requires Valid() && totalSize + STRING_SPAN + 2 * BLOCK_SIZE + 2 < UINT32_SPAN
      modifies this, buffer
      ensures Valid() && (buffer == old(buffer) || fresh(buffer))
      ensures Contents() == old(Contents()) + PutString(s)
      ensures totalSize <= old(totalSize) + STRING_SPAN + 2 * BLOCK_SIZE + 2
    {
      var len := StringLength(s);
      AddScalar(len, 2);
      AddRawData((s + [NUL])[..len]);
    }
  }

  // ------------------------------------------------------------- the deserializer

  class SimpleDeserializer {
    const host: Host
    const buffer: seq<byte>
    var pos: nat
    var error: bool

    ghost predicate Valid()
      reads this
    {
      pos <= |buffer|
    }

    ghost function Rest(): seq<byte>
      requires Valid()
      reads this
    {
      buffer[pos..]
    }

    constructor (host: Host, buffer: seq<byte>)
      ensures Valid() && Rest() == buffer && !error && this.host == host
    {
      this.host, this.buffer := host, buffer;
      pos, error := 0, false;
    }

    /** retrieveBasicData: the next bytes in the host's own order. */
    method RetrieveBasicData(size: nat) returns (data: seq<byte>)
      requires Valid() && pos + size <= |buffer|
      modifies this`pos
      ensures pos == old(pos) + size
      ensures data == if host == LittleEndian then buffer[old(pos)..pos] else Reverse(buffer[old(pos)..pos])
    {
      data := [];
      var i := 0;
      while i < size
        invariant 0 <= i <= size == |buffer[pos..pos + size]| && |data| == i
        invariant forall k :: 0 <= k < i ==>
                    data[k] == if host == LittleEndian then buffer[pos + k] else buffer[pos + size - 1 - k]
      {
        data := data + [if host == LittleEndian then buffer[pos + i] else buffer[pos + size - 1 - i]];
        i := i + 1;
      }
      pos := pos + size;
    }

    /** deserializeScalar: after an error nothing is read; a short buffer is an error. */
    method Scalar(w: nat) returns (v: nat)
      requires Valid()
      modifies this
      ensures Valid()
      ensures old(error) ==> error && pos == old(pos)
      ensures !old(error) ==>
                match GetScalar(old(Rest()), w)
                case None => error
                case Some((x, rest)) => !error && v == x && Rest() == rest
    {
      v := 0;
      if error {
        return;
      }
      if pos + w > |buffer| {
        error := true;
        return;
      }
      ghost var rest := Rest();
      assert rest[..w] == buffer[pos..pos + w] && rest[w..] == buffer[pos + w..];
      NativeRead(host, rest[..w]);
      var data := RetrieveBasicData(w);
      v := NativeValue(host, data);
    }

    /** operator>> for a string. */
    method String() returns (s: seq<byte>)
      requires Valid()
      modifies this
      ensures Valid()
      ensures old(error) ==> error
      ensures !old(error) ==>
                match GetString(old(Rest()))
                case None => error
                case Some((x, rest)) => !error && s == x && Rest() == rest
    {
      s := [];
      var len := Scalar(2);
      if error || len == 0 {
        return;
      }
      if pos + len > |buffer| || buffer[pos + len - 1] != NUL {
        error := true;
        return;
      }
      s := CString(buffer[pos..]);
      pos := pos + len;
    }
  }
}
