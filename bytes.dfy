/** Byte-level encodings used by the snapshot writer: little-endian 32-bit
    integers as packed by `struct.pack('<I')` and `struct.pack('<i')`,
    fixed-width float encoders, and the symmetric record
    `[u32 nbytes][payload][u32 nbytes]` of a Fortran-unformatted file. */
module Bytes {
  import opened Outcomes

  type byte = b: int | 0 <= b < 256
  type uint32 = x: int | 0 <= x < 0x1_0000_0000
  type int32 = x: int | -0x8000_0000 <= x < 0x8000_0000

  predicate IsUint32(x: int) {
    0 <= x < 0x1_0000_0000
  }

  /** `struct.pack('<I', v)`: least significant byte first. */
  function U32LE(v: uint32): (r: seq<byte>)
    ensures |r| == 4
  {
    var q1 := v / 256;
    var q2 := q1 / 256;
    [v % 256, q1 % 256, q2 % 256, q2 / 256]
  }

  /** `struct.unpack('<I', b)`. */
  function DecodeU32(b: seq<byte>): (v: uint32)
    requires |b| == 4
  {
    var b0: int, b1: int, b2: int, b3: int := b[0], b[1], b[2], b[3];
    b0 + 256 * (b1 + 256 * (b2 + 256 * b3))
  }

  /** Euclidean division by 256 is determined by quotient and remainder. */
  lemma Split256(x: int, q: int, r: int)
    requires x == 256 * q + r && 0 <= r < 256
    ensures x / 256 == q && x % 256 == r
  {
  }

  lemma U32RoundTrip(v: uint32)
    ensures DecodeU32(U32LE(v)) == v
  {
    var q1 := v / 256;
    var q2 := q1 / 256;
    assert v == v % 256 + 256 * q1;
    assert q1 == q1 % 256 + 256 * q2;
    assert q2 == q2 % 256 + 256 * (q2 / 256);
  }

  /** Every 4-byte string is the encoding of exactly one value. */
  lemma U32Canonical(b: seq<byte>)
    requires |b| == 4
    ensures U32LE(DecodeU32(b)) == b
  {
    var b0: int, b1: int, b2: int, b3: int := b[0], b[1], b[2], b[3];
    var v := DecodeU32(b);
    Split256(v, b1 + 256 * (b2 + 256 * b3), b0);
    Split256(b1 + 256 * (b2 + 256 * b3), b2 + 256 * b3, b1);
    Split256(b2 + 256 * b3, b3, b2);
  }

  /** `struct.pack('<i', v)`: two's complement, least significant byte first. */
  function I32LE(v: int32): (r: seq<byte>)
    ensures |r| == 4
  {
    U32LE(if v < 0 then v + 0x1_0000_0000 else v)
  }

  function DecodeI32(b: seq<byte>): (v: int32)
    requires |b| == 4
  {
    var u := DecodeU32(b);
    if u < 0x8000_0000 then u else u - 0x1_0000_0000
  }

  lemma I32RoundTrip(v: int32)
    ensures DecodeI32(I32LE(v)) == v
  {
    U32RoundTrip(if v < 0 then v + 0x1_0000_0000 else v);
  }

  /** Float semantics are not modelled: a float is a `real`, and its
      encodings are supplied by the caller. `double` stands for
      `struct.pack('<d')`, `single` for `astype('f')` followed by
      `tostring()` (the narrowing to 32 bits included). */
  datatype FloatCodec = FloatCodec(double: real -> seq<byte>, single: real -> seq<byte>) {
    ghost predicate Sound() {
      && (forall x: real :: |double(x)| == 8)
      && (forall x: real :: |single(x)| == 4)
    }
  }

  /** The concatenated encodings of `xs`, each `w` bytes wide
      (`struct.pack('<6I', ...)`, `array.tostring()`). */
  function EncodeAll<T(!new)>(xs: seq<T>, enc: T -> seq<byte>, w: nat): (r: seq<byte>)
    requires forall x :: |enc(x)| == w
    ensures |r| == w * |xs|
  {
    if xs == [] then [] else enc(xs[0]) + EncodeAll(xs[1..], enc, w)
  }

  /** Element `i` of the input sits at bytes `w*i .. w*i+w` of the output. */
  lemma {:induction false} EncodeAllAt<T(!new)>(xs: seq<T>, enc: T -> seq<byte>, w: nat, i: nat)
    requires forall x :: |enc(x)| == w
    requires i < |xs|
    ensures w * i + w <= |EncodeAll(xs, enc, w)|
    ensures EncodeAll(xs, enc, w)[w * i .. w * i + w] == enc(xs[i])
  {
    var r := EncodeAll(xs, enc, w);
    assert r == enc(xs[0]) + EncodeAll(xs[1..], enc, w);
    if i > 0 {
      EncodeAllAt(xs[1..], enc, w, i - 1);
      assert w * i == w + w * (i - 1);
    }
  }

  function U32s(xs: seq<uint32>): (r: seq<byte>)
    ensures |r| == 4 * |xs|
  {
    EncodeAll(xs, U32LE, 4)
  }

  /** Entry `i` of packed u32s reads back from bytes `4 * i` to `4 * i + 4`. */
  lemma U32sAt(xs: seq<uint32>, i: nat)
    requires i < |xs|
    ensures DecodeU32(U32s(xs)[4 * i .. 4 * i + 4]) == xs[i]
  {
    EncodeAllAt(xs, U32LE, 4, i);
    U32RoundTrip(xs[i]);
  }

  /** Bytes `i..j` of the slice `s[lo..hi]` are bytes `lo + i .. lo + j` of `s`. */
  lemma SliceOfSlice(s: seq<byte>, lo: nat, hi: nat, i: nat, j: nat)
    requires lo <= hi <= |s| && i <= j <= hi - lo
    ensures s[lo..hi][i..j] == s[lo + i .. lo + j]
  {
    var l, r := s[lo..hi][i..j], s[lo + i .. lo + j];
    assert |l| == |r|;
    forall t | 0 <= t < |l| ensures l[t] == r[t] {
      assert l[t] == s[lo..hi][i + t] == s[lo + i + t];
    }
  }

  function Doubles(xs: seq<real>, c: FloatCodec): (r: seq<byte>)
    requires c.Sound()
    ensures |r| == 8 * |xs|
  {
    EncodeAll(xs, c.double, 8)
  }

  function Singles(xs: seq<real>, c: FloatCodec): (r: seq<byte>)
    requires c.Sound()
    ensures |r| == 4 * |xs|
  {
    EncodeAll(xs, c.single, 4)
  }

  /** `struct.pack('<x')` repeated `n` times. */
  function Zeros(n: nat): (r: seq<byte>)
    ensures |r| == n && forall i :: 0 <= i < n ==> r[i] == 0
  {
    seq(n, _ => 0)
  }

  /** A Fortran-unformatted record: the payload framed by its byte count. */
  function Block(nbytes: uint32, payload: seq<byte>): (r: seq<byte>)
    ensures |r| == |payload| + 8
  {
    U32LE(nbytes) + payload + U32LE(nbytes)
  }

  /** Reads one record from the front of `bytes`: the leading count,
      that many payload bytes, and a trailing count equal to the leading
      one; returns the payload and what follows the record. */
  function ReadBlock(bytes: seq<byte>): (r: Option<(seq<byte>, seq<byte>)>)
    ensures r.Some? ==> |r.value.0| + 8 + |r.value.1| == |bytes|
  {
    if |bytes| < 8 then None
    else
      var n := DecodeU32(bytes[..4]);
      if |bytes| < n + 8 || DecodeU32(bytes[n + 4 .. n + 8]) != n then None
      else Some((bytes[4 .. n + 4], bytes[n + 8 ..]))
  }

  /** A record whose count matches its payload reads back as that payload. */
  lemma BlockRoundTrip(payload: seq<byte>, rest: seq<byte>)
    requires IsUint32(|payload|)
    ensures ReadBlock(Block(|payload|, payload) + rest) == Some((payload, rest))
  {
    var n := |payload|;
    var bytes := Block(n, payload) + rest;
    assert bytes[..4] == U32LE(n);
    assert bytes[n + 4 .. n + 8] == U32LE(n);
    U32RoundTrip(n);
    assert bytes[4 .. n + 4] == payload;
    assert bytes[n + 8 ..] == rest;
  }

  /** A record whose count disagrees with its payload does not read back. */
  lemma BlockMismatchUnreadable(nbytes: uint32, payload: seq<byte>)
    requires nbytes != |payload|
    ensures ReadBlock(Block(nbytes, payload)) != Some((payload, []))
  {
    assert Block(nbytes, payload)[..4] == U32LE(nbytes);
    U32RoundTrip(nbytes);
  }

  /** A record read from behind the count `n` is `n` bytes long. */
  lemma CountedRead(n: uint32, tail: seq<byte>)
    ensures ReadBlock(U32LE(n) + tail).Some? ==> |ReadBlock(U32LE(n) + tail).value.0| == n
  {
    assert (U32LE(n) + tail)[..4] == U32LE(n);
    U32RoundTrip(n);
  }

  /** Records whose counts are their payloads' lengths, one after another. */
  function Framed(payloads: seq<seq<byte>>): seq<byte>
    requires forall k :: 0 <= k < |payloads| ==> IsUint32(|payloads[k]|)
  {
    if payloads == [] then []
    else
      assert IsUint32(|payloads[0]|);
      Block(|payloads[0]|, payloads[0]) + Framed(payloads[1..])
  }

  /** Reads records until the bytes run out; None if one is malformed. */
  function ReadRecords(bytes: seq<byte>): Option<seq<seq<byte>>>
    decreases |bytes|
  {
    if bytes == [] then Some([])
    else
      match ReadBlock(bytes)
      case None => None
      case Some((payload, rest)) =>
        match ReadRecords(rest)
        case None => None
        case Some(payloads) => Some([payload] + payloads)
  }

  /** A sequence of well-framed records reads back as its payloads. */
  lemma {:induction false} FramedReadBack(payloads: seq<seq<byte>>)
    requires forall k :: 0 <= k < |payloads| ==> IsUint32(|payloads[k]|)
    ensures ReadRecords(Framed(payloads)) == Some(payloads)
  {
    if payloads != [] {
      var rest := Framed(payloads[1..]);
      BlockRoundTrip(payloads[0], rest);
      FramedReadBack(payloads[1..]);
      assert [payloads[0]] + payloads[1..] == payloads;
    }
  }

  /** Reading records past one record that reads back. */
  lemma ReadRecordsStep(bytes: seq<byte>, payload: seq<byte>, tail: seq<byte>)
    requires ReadBlock(bytes) == Some((payload, tail))
    ensures ReadRecords(tail).None? ==> ReadRecords(bytes).None?
    ensures ReadRecords(tail).Some? ==> ReadRecords(bytes) == Some([payload] + ReadRecords(tail).value)
  {
  }

  lemma PrependAppend<T>(x: T, xs: seq<T>, ys: seq<T>)
    ensures [x] + (xs + ys) == ([x] + xs) + ys
  {
  }

  /** Well-framed records in front of other bytes read back as their
      payloads, followed by whatever those bytes read as. */
  lemma {:induction false} FramedThen(payloads: seq<seq<byte>>, rest: seq<byte>)
    requires forall k :: 0 <= k < |payloads| ==> IsUint32(|payloads[k]|)
    ensures ReadRecords(rest).None? ==> ReadRecords(Framed(payloads) + rest).None?
    ensures ReadRecords(rest).Some? ==>
      ReadRecords(Framed(payloads) + rest) == Some(payloads + ReadRecords(rest).value)
  {
    if payloads == [] {
      assert Framed(payloads) + rest == rest;
      assert ReadRecords(rest).Some? ==> payloads + ReadRecords(rest).value == ReadRecords(rest).value;
    } else {
      var first, others := payloads[0], payloads[1..];
      var tail := Framed(others) + rest;
      assert Framed(payloads) + rest == Block(|first|, first) + tail;
      BlockRoundTrip(first, tail);
      ReadRecordsStep(Framed(payloads) + rest, first, tail);
      FramedThen(others, rest);
      if ReadRecords(rest).Some? {
        var more := ReadRecords(rest).value;
        PrependAppend(first, others, more);
        assert [first] + others == payloads;
      }
    }
  }

  /** Framing distributes over concatenation of the payload lists. */
  lemma {:induction false} FramedAppend(front: seq<seq<byte>>, back: seq<seq<byte>>)
    requires forall k :: 0 <= k < |front| ==> IsUint32(|front[k]|)
    requires forall k :: 0 <= k < |back| ==> IsUint32(|back[k]|)
    ensures forall k :: 0 <= k < |front + back| ==> IsUint32(|(front + back)[k]|)
    ensures Framed(front + back) == Framed(front) + Framed(back)
  {
    if front == [] {
      assert front + back == back;
    } else {
      var both, rest := front + back, front[1..];
      assert both[0] == front[0] && both[1..] == rest + back;
      FramedAppend(rest, back);
      Associative(Block(|front[0]|, front[0]), Framed(rest), Framed(back));
    }
  }

  /** Appending byte strings regroups freely; the writer appends one
      packed field at a time and regroups its running prefix with this. */
  lemma Associative(a: seq<byte>, b: seq<byte>, c: seq<byte>)
    ensures a + b + c == a + (b + c)
  {
  }

  /** Bytes that start with a record whose count is `nbytes` read, if at
      all, with a first record of `nbytes` bytes. */
  lemma LeadingCount(nbytes: uint32, payload: seq<byte>, back: seq<byte>)
    ensures var r := ReadRecords(Block(nbytes, payload) + back);
      r.Some? ==> |r.value| > 0 && |r.value[0]| == nbytes
  {
    var bytes := Block(nbytes, payload) + back;
    if ReadRecords(bytes).Some? {
      assert bytes == U32LE(nbytes) + (payload + U32LE(nbytes) + back);
      CountedRead(nbytes, payload + U32LE(nbytes) + back);
      var read := ReadBlock(bytes).value;
      ReadRecordsStep(bytes, read.0, read.1);
    }
  }

  /** Behind well-framed records, a record whose count is `nbytes` reads,
      if the file reads at all, as `nbytes` bytes, whatever its payload:
      a count that disagrees with its payload spoils the whole read-back. */
  lemma MiscountedRecord(front: seq<seq<byte>>, nbytes: uint32, payload: seq<byte>, back: seq<byte>)
    requires forall k :: 0 <= k < |front| ==> IsUint32(|front[k]|)
    ensures var r := ReadRecords(Framed(front) + (Block(nbytes, payload) + back));
      r.Some? ==> |r.value| > |front| && r.value[..|front|] == front && |r.value[|front|]| == nbytes
  {
    var rest := Block(nbytes, payload) + back;
    FramedThen(front, rest);
    LeadingCount(nbytes, payload, back);
    if ReadRecords(rest).Some? {
      var more := ReadRecords(rest).value;
      assert (front + more)[..|front|] == front && (front + more)[|front|] == more[0];
    }
  }
}
