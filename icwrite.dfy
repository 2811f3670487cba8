/** The binary writer of initial_condition/write.py: `write_header`,
    `write_body` with its `write_block`, and `dump_ic`, producing a
    GADGET-2 "format 1" snapshot (Fortran-unformatted records, little
    endian): a 264-byte header record followed by one record per body field. */
module IcWrite {
  import opened Bytes
  import opened NdArrays
  import opened Outcomes
  import opened IcRecords
  import opened IcCheck
  import opened IcFiles

  /** What a write procedure leaves behind: the bytes it appended and how it ended. */
  datatype Written = Written(bytes: seq<byte>, outcome: Outcome)

  const HeaderFormatError: Error := IOError("Header has wrong format")

  /** `write_header` reads entries 0..5 of the three per-type arrays. */
  predicate Indexable(h: Header) {
    |h.numPartThisFile| >= 6 && |h.numPartTotal| >= 6 && |h.massTable| >= 6
  }

  /** The first six writes of named fields: 6 x u32, 6 x f64, f64, f64, i32, i32. */
  function HeaderFront(h: Header, c: FloatCodec): (r: seq<byte>)
    requires c.Sound() && |h.numPartThisFile| >= 6 && |h.massTable| >= 6
    ensures |r| == 96
  {
    U32s(h.numPartThisFile[..6]) + Doubles(h.massTable[..6], c)
    + c.double(h.time) + c.double(h.redshift)
    + I32LE(h.flagSfr) + I32LE(h.flagFeedback)
  }

  /** The remaining writes: 6 x u32, i32, i32, 4 x f64, i32, i32. */
  function HeaderBack(h: Header, c: FloatCodec): (r: seq<byte>)
    requires c.Sound() && |h.numPartTotal| >= 6
    ensures |r| == 72
  {
    U32s(h.numPartTotal[..6])
    + I32LE(h.flagCooling) + I32LE(h.numFilesPerSnapshot)
    + c.double(h.boxSize) + c.double(h.omega0) + c.double(h.omegaLambda) + c.double(h.hubbleParam)
    + I32LE(h.flagStellarAge) + I32LE(h.flagMetals)
  }

  /** The named header fields, in the order and widths they are packed. */
  function HeaderFields(h: Header, c: FloatCodec): (r: seq<byte>)
    requires c.Sound() && Indexable(h)
    ensures |r| == 168
  {
    HeaderFront(h, c) + HeaderBack(h, c)
  }

  /** The named-field writes when an array is shorter than six: the
      arguments of each `struct.pack` are evaluated before it writes, so the
      IndexError comes before the pack that reads the short array. */
  function FieldsWritten(h: Header, c: FloatCodec): Written
    requires c.Sound()
  {
    if |h.numPartThisFile| < 6 then Written([], Fail(IndexError))
    else if |h.massTable| < 6 then Written(U32s(h.numPartThisFile[..6]), Fail(IndexError))
    else if |h.numPartTotal| < 6 then Written(HeaderFront(h, c), Fail(IndexError))
    else Written(HeaderFields(h, c), Pass)
  }

  /** Number of zero bytes padded: `260 - IcFile.tell()` taken after the
      named fields, where the file position counts from the start of the
      FILE, not of the header; `range` of a negative number is empty. */
  function PadLength(start: nat): nat {
    if start + 172 < 260 then 260 - (start + 172) else 0
  }

  /** The bytes `write_header` appends to a file already holding `start` bytes. */
  function HeaderBlock(h: Header, c: FloatCodec, start: nat): (r: seq<byte>)
    requires c.Sound() && Indexable(h)
  {
    U32LE(256) + HeaderFields(h, c) + Zeros(PadLength(start)) + U32LE(256)
  }

  /** The closing check `IcFile.tell() - 8 == 256`, again on the absolute position. */
  predicate HeaderAccepted(h: Header, c: FloatCodec, start: nat)
    requires c.Sound() && Indexable(h)
  {
    start + |HeaderBlock(h, c, start)| - 8 == 256
  }

  /** A header whose arrays are too short: the preamble and the fields
      packed before the failing index, then IndexError. */
  function Truncated(h: Header, c: FloatCodec): Written
    requires c.Sound()
  {
    Written(U32LE(256) + FieldsWritten(h, c).bytes, Fail(IndexError))
  }

  /** What `write_header` appends to a file already holding `start`
      bytes, and how it ends: always the 256 preamble first; a success
      exactly for full arrays and a start no later than 88; otherwise an
      IndexError or the header-length IOError. */
  function HeaderWrite(h: Header, c: FloatCodec, start: nat): (r: Written)
    requires c.Sound()
    ensures |r.bytes| >= 4 && r.bytes[..4] == U32LE(256)
    ensures r.outcome.Pass? <==> Indexable(h) && start <= 88
    ensures r.outcome.Fail? ==> r.outcome.error == IndexError || r.outcome.error == HeaderFormatError
  {
    if !Indexable(h) then Truncated(h, c)
    else
      Written(HeaderBlock(h, c, start),
              if HeaderAccepted(h, c, start) then Pass else Fail(HeaderFormatError))
  }

  /** The first six field writes of `write_header`, each stopped by an
      IndexError when the array it packs is too short. */
  method WriteHeaderFront(h: Header, f: IcFile, c: FloatCodec) returns (r: Outcome)
    requires c.Sound() && !f.closed
    modifies f
    ensures !f.closed
    ensures |h.numPartThisFile| < 6 ==> r == Fail(IndexError) && f.bytes == old(f.bytes)
    ensures |h.numPartThisFile| >= 6 && |h.massTable| < 6 ==>
      r == Fail(IndexError) && f.bytes == old(f.bytes) + U32s(h.numPartThisFile[..6])
    ensures |h.numPartThisFile| >= 6 && |h.massTable| >= 6 ==>
      r == Pass && f.bytes == old(f.bytes) + HeaderFront(h, c)
  {
    if |h.numPartThisFile| < 6 {
      return Fail(IndexError);
    }
    ghost var start := f.bytes;
    f.Write(U32s(h.numPartThisFile[..6]));
    if |h.massTable| < 6 {
      return Fail(IndexError);
    }
    ghost var acc := U32s(h.numPartThisFile[..6]);
    f.Write(Doubles(h.massTable[..6], c));
    Associative(start, acc, Doubles(h.massTable[..6], c));
    acc := acc + Doubles(h.massTable[..6], c);
    f.Write(c.double(h.time));
    Associative(start, acc, c.double(h.time));
    acc := acc + c.double(h.time);
    f.Write(c.double(h.redshift));
    Associative(start, acc, c.double(h.redshift));
    acc := acc + c.double(h.redshift);
    f.Write(I32LE(h.flagSfr));
    Associative(start, acc, I32LE(h.flagSfr));
    acc := acc + I32LE(h.flagSfr);
    f.Write(I32LE(h.flagFeedback));
    Associative(start, acc, I32LE(h.flagFeedback));
    acc := acc + I32LE(h.flagFeedback);
    assert f.bytes == start + acc;
    r := Pass;
  }

  /** The last nine field writes of `write_header`. */
  method WriteHeaderBack(h: Header, f: IcFile, c: FloatCodec)
    requires c.Sound() && |h.numPartTotal| >= 6 && !f.closed
    modifies f
    ensures f.bytes == old(f.bytes) + HeaderBack(h, c) && !f.closed
  {
    ghost var start := f.bytes;
    f.Write(U32s(h.numPartTotal[..6]));
    ghost var acc := U32s(h.numPartTotal[..6]);
    f.Write(I32LE(h.flagCooling));
    Associative(start, acc, I32LE(h.flagCooling));
    acc := acc + I32LE(h.flagCooling);
    f.Write(I32LE(h.numFilesPerSnapshot));
    Associative(start, acc, I32LE(h.numFilesPerSnapshot));
    acc := acc + I32LE(h.numFilesPerSnapshot);
    f.Write(c.double(h.boxSize));
    Associative(start, acc, c.double(h.boxSize));
    acc := acc + c.double(h.boxSize);
    f.Write(c.double(h.omega0));
    Associative(start, acc, c.double(h.omega0));
    acc := acc + c.double(h.omega0);
    f.Write(c.double(h.omegaLambda));
    Associative(start, acc, c.double(h.omegaLambda));
    acc := acc + c.double(h.omegaLambda);
    f.Write(c.double(h.hubbleParam));
    Associative(start, acc, c.double(h.hubbleParam));
    acc := acc + c.double(h.hubbleParam);
    f.Write(I32LE(h.flagStellarAge));
    Associative(start, acc, I32LE(h.flagStellarAge));
    acc := acc + I32LE(h.flagStellarAge);
    f.Write(I32LE(h.flagMetals));
    Associative(start, acc, I32LE(h.flagMetals));
    acc := acc + I32LE(h.flagMetals);
    assert f.bytes == start + acc;
  }

  /** The writes of `write_header` that pack the named fields, one
      `IcFile.write(struct.pack(...))` each. */
  method WriteHeaderFields(h: Header, f: IcFile, c: FloatCodec) returns (r: Outcome)
    requires c.Sound() && !f.closed
    modifies f
    ensures f.bytes == old(f.bytes) + FieldsWritten(h, c).bytes && !f.closed
    ensures r == FieldsWritten(h, c).outcome
  {
    r := WriteHeaderFront(h, f, c);
    if r.Fail? {
      return;
    }
    if |h.numPartTotal| < 6 {
      return Fail(IndexError);
    }
    WriteHeaderBack(h, f, c);
    Associative(old(f.bytes), HeaderFront(h, c), HeaderBack(h, c));
  }

  /** `for j in range(count): IcFile.write(struct.pack('<x'))`. */
  method WritePadding(count: int, f: IcFile)
    requires !f.closed
    modifies f
    ensures f.bytes == old(f.bytes) + Zeros(if count < 0 then 0 else count) && !f.closed
  {
    var j := 0;
    while j < count
      invariant 0 <= j <= if count < 0 then 0 else count
      invariant f.bytes == old(f.bytes) + Zeros(j) && !f.closed
    {
      f.Write([0]);
      assert Zeros(j) + [0] == Zeros(j + 1);
      j := j + 1;
    }
  }

  /** The writes of `write_header` up to and including the postamble;
      on success, whether the closing position check holds. */
  method WriteHeaderBlock(h: Header, f: IcFile, c: FloatCodec) returns (r: Outcome, accepted: bool)
    requires c.Sound() && !f.closed
    modifies f
    ensures !f.closed
    ensures !Indexable(h) ==> f.bytes == old(f.bytes) + Truncated(h, c).bytes && r == Truncated(h, c).outcome
    ensures Indexable(h) ==> f.bytes == old(f.bytes) + HeaderBlock(h, c, old(|f.bytes|)) && r == Pass
    ensures Indexable(h) ==> (accepted <==> HeaderAccepted(h, c, old(|f.bytes|)))
  {
    ghost var start := |f.bytes|;
    f.Write(U32LE(256));
    r := WriteHeaderFields(h, f, c);
    accepted := false;
    if r.Fail? {
      Associative(old(f.bytes), U32LE(256), FieldsWritten(h, c).bytes);
      return;
    }
    ghost var fields := f.bytes;
    assert |fields| == start + 172;
    var headerBytesLeft := 260 - f.Tell();
    WritePadding(headerBytesLeft, f);
    assert f.bytes == fields + Zeros(PadLength(start));
    f.Write(U32LE(256));
    accepted := f.Tell() - 8 == 256;
  }

  /** `write_header(Header, IcFile)` */
  method WriteHeader(h: Header, f: IcFile, c: FloatCodec) returns (r: Outcome)
    requires c.Sound() && !f.closed
    modifies f
    ensures f.bytes == old(f.bytes) + HeaderWrite(h, c, old(|f.bytes|)).bytes && !f.closed
    ensures r == HeaderWrite(h, c, old(|f.bytes|)).outcome
  {
    var accepted;
    r, accepted := WriteHeaderBlock(h, f, c);
    if r.Fail? {
      return;
    }
    if !accepted {
      return Fail(HeaderFormatError);
    }
  }

  /** A header array shorter than six entries makes `write_header` raise
      IndexError part-way: after the preamble alone (NumPart_ThisFile),
      after 28 bytes (MassTable) or after 100 bytes (NumPart_Total); the
      bytes written are then a prefix of what a complete header writes. */
  lemma ShortHeaderTruncates(h: Header, c: FloatCodec, start: nat)
    requires c.Sound() && !Indexable(h)
    ensures HeaderWrite(h, c, start).outcome == Fail(IndexError)
    ensures var w := HeaderWrite(h, c, start).bytes;
      && w[..4] == U32LE(256)
      && |w| == (if |h.numPartThisFile| < 6 then 4 else if |h.massTable| < 6 then 28 else 100)
  {
  }

  /** The bytes a short header leaves are exactly the start of the record
      of any complete header that agrees with it on the fields written. */
  lemma ShortHeaderPrefix(h: Header, full: Header, c: FloatCodec, start: nat)
    requires c.Sound() && !Indexable(h) && Indexable(full)
    requires |h.numPartThisFile| >= 6 ==> h.numPartThisFile[..6] == full.numPartThisFile[..6]
    requires |h.numPartThisFile| >= 6 && |h.massTable| >= 6 ==>
      h.massTable[..6] == full.massTable[..6] && h.time == full.time && h.redshift == full.redshift
      && h.flagSfr == full.flagSfr && h.flagFeedback == full.flagFeedback
    ensures var w := HeaderWrite(h, c, start).bytes;
      w == HeaderBlock(full, c, start)[..|w|]
  {
    var w := HeaderWrite(h, c, start).bytes;
    var front := U32s(full.numPartThisFile[..6]);
    assert HeaderFront(full, c) == front + HeaderFront(full, c)[24..];
    if |h.numPartThisFile| >= 6 && |h.massTable| >= 6 {
      assert HeaderFront(h, c) == HeaderFront(full, c);
    }
    assert HeaderBlock(full, c, start) == U32LE(256) + HeaderFront(full, c)
      + (HeaderBack(full, c) + Zeros(PadLength(start)) + U32LE(256));
  }

  /** The header record is 176 bytes plus the padding, and the closing
      check holds exactly when it was started within the first 88 bytes. */
  lemma HeaderAcceptedIff(h: Header, c: FloatCodec, start: nat)
    requires c.Sound() && Indexable(h)
    ensures |HeaderBlock(h, c, start)| == 176 + PadLength(start)
    ensures HeaderAccepted(h, c, start) <==> start <= 88
  {
  }

  /** Written at the start of a file, the header record is exactly 264
      bytes: preamble 256, the 168 bytes of named fields, 88 zero bytes,
      postamble 256, and no error is raised. */
  lemma HeaderAtFileStart(h: Header, c: FloatCodec)
    requires c.Sound() && Indexable(h)
    ensures |HeaderBlock(h, c, 0)| == 264
    ensures HeaderWrite(h, c, 0).outcome == Pass
    ensures HeaderBlock(h, c, 0)[..4] == U32LE(256) && HeaderBlock(h, c, 0)[260..] == U32LE(256)
    ensures HeaderBlock(h, c, 0)[4..172] == HeaderFields(h, c)
    ensures forall i :: 172 <= i < 260 ==> HeaderBlock(h, c, 0)[i] == 0
  {
    var b := HeaderBlock(h, c, 0);
    assert b[172..260] == Zeros(88);
    forall i | 172 <= i < 260 ensures b[i] == 0 {
      assert b[i] == b[172..260][i - 172];
    }
  }

  /** Started anywhere but the file's start, the header record comes out
      short by the offset: still accepted up to offset 88, rejected beyond. */
  lemma HeaderAfterOffset(h: Header, c: FloatCodec, start: nat)
    requires c.Sound() && Indexable(h) && start > 0
    ensures start <= 88 ==> |HeaderBlock(h, c, start)| == 264 - start < 264
                            && HeaderWrite(h, c, start).outcome == Pass
    ensures start > 88 ==> |HeaderBlock(h, c, start)| == 176
                           && HeaderWrite(h, c, start).outcome == Fail(HeaderFormatError)
  {
    HeaderAcceptedIff(h, c, start);
  }

  /** Where each named field lies within the 168 bytes of `HeaderFields`. */
  lemma HeaderFieldsLayout(h: Header, c: FloatCodec)
    requires c.Sound() && Indexable(h)
    ensures var r := HeaderFields(h, c);
      && r[0..24] == U32s(h.numPartThisFile[..6]) && r[24..72] == Doubles(h.massTable[..6], c)
      && r[72..80] == c.double(h.time) && r[80..88] == c.double(h.redshift)
      && r[88..92] == I32LE(h.flagSfr) && r[92..96] == I32LE(h.flagFeedback)
      && r[96..120] == U32s(h.numPartTotal[..6])
      && r[120..124] == I32LE(h.flagCooling) && r[124..128] == I32LE(h.numFilesPerSnapshot)
      && r[128..136] == c.double(h.boxSize) && r[136..144] == c.double(h.omega0)
      && r[144..152] == c.double(h.omegaLambda) && r[152..160] == c.double(h.hubbleParam)
      && r[160..164] == I32LE(h.flagStellarAge) && r[164..168] == I32LE(h.flagMetals)
  {
  }

  /** Reading the header record back at its GADGET-2 offsets yields the
      particle counts that were written. */
  lemma HeaderCountsReadBack(h: Header, c: FloatCodec)
    requires c.Sound() && Indexable(h)
    ensures var b := HeaderBlock(h, c, 0);
      && |b| == 264
      && DecodeU32(b[0..4]) == 256 && DecodeU32(b[260..264]) == 256
      && (forall i :: 0 <= i < 6 ==> DecodeU32(b[4 + 4 * i .. 8 + 4 * i]) == h.numPartThisFile[i])
      && (forall i :: 0 <= i < 6 ==> DecodeU32(b[100 + 4 * i .. 104 + 4 * i]) == h.numPartTotal[i])
  {
    var b := HeaderBlock(h, c, 0);
    assert |b| == 264 && DecodeU32(b[0..4]) == 256 && DecodeU32(b[260..264]) == 256 by {
      HeaderAtFileStart(h, c);
      U32RoundTrip(256);
    }
    ThisFileCountsAt(h, c);
    TotalCountsAt(h, c);
  }

  lemma ThisFileCountsAt(h: Header, c: FloatCodec)
    requires c.Sound() && Indexable(h)
    ensures |HeaderBlock(h, c, 0)| == 264
    ensures forall i :: 0 <= i < 6 ==> DecodeU32(HeaderBlock(h, c, 0)[4 + 4 * i .. 8 + 4 * i]) == h.numPartThisFile[i]
  {
    HeaderAtFileStart(h, c);
    assert HeaderFields(h, c)[0..24] == U32s(h.numPartThisFile[..6]);
    forall i | 0 <= i < 6 ensures DecodeU32(HeaderBlock(h, c, 0)[4 + 4 * i .. 8 + 4 * i]) == h.numPartThisFile[i] {
      CountAt(h, c, 0, h.numPartThisFile, i);
    }
  }

  lemma TotalCountsAt(h: Header, c: FloatCodec)
    requires c.Sound() && Indexable(h)
    ensures |HeaderBlock(h, c, 0)| == 264
    ensures forall i :: 0 <= i < 6 ==> DecodeU32(HeaderBlock(h, c, 0)[100 + 4 * i .. 104 + 4 * i]) == h.numPartTotal[i]
  {
    HeaderAtFileStart(h, c);
    assert HeaderFields(h, c)[96..120] == U32s(h.numPartTotal[..6]) by {
      assert HeaderFields(h, c) == HeaderFront(h, c) + HeaderBack(h, c);
      assert HeaderBack(h, c)[..24] == U32s(h.numPartTotal[..6]);
    }
    forall i | 0 <= i < 6 ensures DecodeU32(HeaderBlock(h, c, 0)[100 + 4 * i .. 104 + 4 * i]) == h.numPartTotal[i] {
      CountAt(h, c, 96, h.numPartTotal, i);
    }
  }

  /** Count i of a count array packed at field offset `off` lies at record offset 4 + off + 4i. */
  lemma CountAt(h: Header, c: FloatCodec, off: nat, counts: seq<uint32>, i: nat)
    requires c.Sound() && Indexable(h) && i < 6 && |counts| >= 6
    requires off + 24 <= 168 && HeaderFields(h, c)[off..off + 24] == U32s(counts[..6])
    ensures DecodeU32(HeaderBlock(h, c, 0)[4 + off + 4 * i .. 8 + off + 4 * i]) == counts[i]
  {
    var b, fields := HeaderBlock(h, c, 0), HeaderFields(h, c);
    HeaderAtFileStart(h, c);
    SliceOfSlice(b, 4, 172, off + 4 * i, off + 4 * i + 4);
    SliceOfSlice(fields, off, off + 24, 4 * i, 4 * i + 4);
    U32sAt(counts[..6], i);
  }

  /** Reading the header record back at its GADGET-2 offsets yields the
      integer flags that were written. */
  lemma HeaderFlagsReadBack(h: Header, c: FloatCodec)
    requires c.Sound() && Indexable(h)
    ensures var b := HeaderBlock(h, c, 0);
      && |b| == 264
      && DecodeI32(b[92..96]) == h.flagSfr && DecodeI32(b[96..100]) == h.flagFeedback
      && DecodeI32(b[124..128]) == h.flagCooling && DecodeI32(b[128..132]) == h.numFilesPerSnapshot
      && DecodeI32(b[164..168]) == h.flagStellarAge && DecodeI32(b[168..172]) == h.flagMetals
  {
    var b := HeaderBlock(h, c, 0);
    HeaderAtFileStart(h, c);
    HeaderFieldsLayout(h, c);
    var fields := HeaderFields(h, c);
    SliceOfSlice(b, 4, 172, 88, 92);
    SliceOfSlice(b, 4, 172, 92, 96);
    SliceOfSlice(b, 4, 172, 120, 124);
    SliceOfSlice(b, 4, 172, 124, 128);
    SliceOfSlice(b, 4, 172, 160, 164);
    SliceOfSlice(b, 4, 172, 164, 168);
    I32RoundTrip(h.flagSfr);
    I32RoundTrip(h.flagFeedback);
    I32RoundTrip(h.flagCooling);
    I32RoundTrip(h.numFilesPerSnapshot);
    I32RoundTrip(h.flagStellarAge);
    I32RoundTrip(h.flagMetals);
  }

  /** The float fields sit at their GADGET-2 offsets, each as its 8-byte encoding. */
  lemma HeaderFloatsAtOffsets(h: Header, c: FloatCodec)
    requires c.Sound() && Indexable(h)
    ensures var b := HeaderBlock(h, c, 0);
      && |b| == 264
      && (forall i :: 0 <= i < 6 ==> b[28 + 8 * i .. 36 + 8 * i] == c.double(h.massTable[i]))
      && b[76..84] == c.double(h.time) && b[84..92] == c.double(h.redshift)
      && b[132..140] == c.double(h.boxSize) && b[140..148] == c.double(h.omega0)
      && b[148..156] == c.double(h.omegaLambda) && b[156..164] == c.double(h.hubbleParam)
  {
    HeaderAtFileStart(h, c);
    HeaderFieldsLayout(h, c);
    forall i | 0 <= i < 6 ensures HeaderBlock(h, c, 0)[28 + 8 * i .. 36 + 8 * i] == c.double(h.massTable[i]) {
      MassAt(h, c, i);
    }
    FieldAt(h, c, 72, 80);
    FieldAt(h, c, 80, 88);
    FieldAt(h, c, 128, 136);
    FieldAt(h, c, 136, 144);
    FieldAt(h, c, 144, 152);
    FieldAt(h, c, 152, 160);
  }

  /** Field bytes lo..hi lie at record offsets 4 + lo..4 + hi. */
  lemma FieldAt(h: Header, c: FloatCodec, lo: nat, hi: nat)
    requires c.Sound() && Indexable(h) && lo <= hi <= 168
    ensures |HeaderBlock(h, c, 0)| == 264
    ensures HeaderBlock(h, c, 0)[4 + lo .. 4 + hi] == HeaderFields(h, c)[lo..hi]
  {
    HeaderAtFileStart(h, c);
    SliceOfSlice(HeaderBlock(h, c, 0), 4, 172, lo, hi);
  }

  /** The mass of type i lies at record offset 28 + 8i. */
  lemma MassAt(h: Header, c: FloatCodec, i: nat)
    requires c.Sound() && Indexable(h) && i < 6
    ensures |HeaderBlock(h, c, 0)| == 264
    ensures HeaderBlock(h, c, 0)[28 + 8 * i .. 36 + 8 * i] == c.double(h.massTable[i])
  {
    var fields := HeaderFields(h, c);
    assert fields[24..72] == Doubles(h.massTable[..6], c);
    assert forall x :: |c.double(x)| == 8;
    EncodeAllAt(h.massTable[..6], c.double, 8, i);
    FieldAt(h, c, 24 + 8 * i, 32 + 8 * i);
    SliceOfSlice(fields, 24, 72, 8 * i, 8 * i + 8);
  }

  /** `write_block(block, nbytes, IcFile)`: count, payload, count. Packing
      a count outside the u32 range raises before anything is written. */
  method WriteBlock(payload: seq<byte>, nbytes: int, f: IcFile) returns (r: Outcome)
    requires !f.closed
    modifies f
    ensures r == (if IsUint32(nbytes) then Pass else Fail(StructError))
    ensures f.bytes == old(f.bytes) + (if IsUint32(nbytes) then Block(nbytes, payload) else [])
    ensures !f.closed
  {
    if !IsUint32(nbytes) {
      return Fail(StructError);
    }
    f.Write(U32LE(nbytes));
    f.Write(payload);
    f.Write(U32LE(nbytes));
    r := Pass;
  }

  /** Records written in order until one count cannot be packed. */
  function Blocks(records: seq<(seq<byte>, int)>): (r: Written)
    ensures r.outcome == Pass || r.outcome == Fail(StructError)
    ensures r.outcome.Pass? ==> forall k :: 0 <= k < |records| ==> IsUint32(records[k].1)
  {
    if records == [] then Written([], Pass)
    else if !IsUint32(records[0].1) then Written([], Fail(StructError))
    else
      var rest := Blocks(records[1..]);
      Written(Block(records[0].1, records[0].0) + rest.bytes, rest.outcome)
  }

  /** `np.size(Body.pos[:,0])`: the rows of a 2-D array (times any further
      extents); indexing column 0 fails for fewer than two dimensions or an
      empty second one. */
  function PosRows(pos: Array<real>): Result<nat> {
    if |pos.shape| < 2 || pos.shape[1] == 0 then Err(IndexError)
    else Ok(pos.shape[0] * Product(pos.shape[2..]))
  }

  /** The five records `write_body` writes, as (payload, count) pairs:
      pos, vel, id, mass, u, narrowed to 4-byte floats and ids. */
  function BodyRecords(b: Body, c: FloatCodec, n: nat, u: Array<real>): seq<(seq<byte>, int)>
    requires c.Sound()
  {
    [ (Singles(b.pos.flat, c), 3 * 4 * n),
      (Singles(b.vel.flat, c), 3 * 4 * n),
      (U32s(b.id.flat), 4 * n),
      (Singles(b.mass.flat, c), 4 * n),
      (Singles(u.flat, c), 4 * |u.flat|) ]
  }

  /** What `write_body` appends: nothing if the particle counts cannot be
      taken (no column 0 of pos, no `u` attribute), else the records. */
  function BodyWrite(b: Body, c: FloatCodec): (r: Written)
    requires c.Sound()
    ensures r.outcome.Fail? ==> r.outcome.error in {IndexError, AttributeError("u"), StructError}
    ensures r.outcome.Fail? && r.outcome.error != StructError ==> r.bytes == []
    ensures r.outcome.Pass? ==> b.u.Some?
  {
    match PosRows(b.pos)
    case Err(e) => Written([], Fail(e))
    case Ok(n) =>
      if b.u.None? then Written([], Fail(AttributeError("u")))
      else Blocks(BodyRecords(b, c, n, b.u.value))
  }

  /** Writing the next record of `records` (if it can be packed) leaves the
      rest to write: how `write_body` advances through its records. */
  lemma BlocksStep(records: seq<(seq<byte>, int)>, k: nat)
    requires k < |records|
    ensures IsUint32(records[k].1) ==>
      Blocks(records[k..]).bytes == Block(records[k].1, records[k].0) + Blocks(records[k + 1..]).bytes
      && Blocks(records[k..]).outcome == Blocks(records[k + 1..]).outcome
    ensures !IsUint32(records[k].1) ==> Blocks(records[k..]) == Written([], Fail(StructError))
  {
    assert records[k..][1..] == records[k + 1..];
  }

  /** After `now` was appended to `start` while writing `records`, what is
      left to write is `Blocks(records[k..])`. */
  ghost predicate BlocksLeft(records: seq<(seq<byte>, int)>, k: nat, start: seq<byte>, now: seq<byte>) {
    && k <= |records|
    && start + Blocks(records).bytes == now + Blocks(records[k..]).bytes
    && Blocks(records).outcome == Blocks(records[k..]).outcome
  }

  /** One `write_block` call of `write_body`, for record `k`. */
  method WriteBlockStep(ghost records: seq<(seq<byte>, int)>, ghost k: nat, ghost start: seq<byte>,
                        payload: seq<byte>, nbytes: int, f: IcFile) returns (r: Outcome)
    requires k < |records| && records[k] == (payload, nbytes) && !f.closed
    requires BlocksLeft(records, k, start, f.bytes)
    modifies f
    ensures !f.closed
    ensures r.Fail? ==> f.bytes == start + Blocks(records).bytes && r == Blocks(records).outcome
    ensures r.Pass? ==> BlocksLeft(records, k + 1, start, f.bytes)
  {
    BlocksStep(records, k);
    ghost var now := f.bytes;
    r := WriteBlock(payload, nbytes, f);
    if r.Pass? {
      Associative(now, Block(nbytes, payload), Blocks(records[k + 1..]).bytes);
    } else {
      assert now + [] == now;
    }
  }

  /** `write_body(Body, IcFile)` */
  method WriteBody(b: Body, f: IcFile, c: FloatCodec) returns (r: Outcome)
    requires c.Sound() && !f.closed
    modifies f
    ensures f.bytes == old(f.bytes) + BodyWrite(b, c).bytes && !f.closed
    ensures r == BodyWrite(b, c).outcome
  {
    var rows := PosRows(b.pos);
    if rows.Err? {
      return Fail(rows.error);
    }
    if b.u.None? {
      return Fail(AttributeError("u"));
    }
    var n, u := rows.value, b.u.value;
    r := WriteRecords(Singles(b.pos.flat, c), Singles(b.vel.flat, c), U32s(b.id.flat),
                      Singles(b.mass.flat, c), Singles(u.flat, c), n, |u.flat|, f);
  }

  /** The five `write_block` calls of `write_body`: pos, vel, id, mass and
      u with the counts it computes from N and G. */
  method WriteRecords(pos: seq<byte>, vel: seq<byte>, id: seq<byte>, mass: seq<byte>, gas: seq<byte>,
                      n: nat, g: nat, f: IcFile) returns (r: Outcome)
    requires !f.closed
    modifies f
    ensures var w := Blocks([(pos, 3 * 4 * n), (vel, 3 * 4 * n), (id, 4 * n), (mass, 4 * n), (gas, 4 * g)]);
      f.bytes == old(f.bytes) + w.bytes && r == w.outcome && !f.closed
  {
    ghost var records := [(pos, 3 * 4 * n), (vel, 3 * 4 * n), (id, 4 * n), (mass, 4 * n), (gas, 4 * g)];
    assert records[0..] == records;
    r := WriteBlockStep(records, 0, f.bytes, pos, 3 * 4 * n, f);
    if r.Fail? {
      return;
    }
    r := WriteBlockStep(records, 1, old(f.bytes), vel, 3 * 4 * n, f);
    if r.Fail? {
      return;
    }
    r := WriteBlockStep(records, 2, old(f.bytes), id, 4 * n, f);
    if r.Fail? {
      return;
    }
    r := WriteBlockStep(records, 3, old(f.bytes), mass, 4 * n, f);
    if r.Fail? {
      return;
    }
    r := WriteBlockStep(records, 4, old(f.bytes), gas, 4 * g, f);
    if r.Fail? {
      return;
    }
    assert records[5..] == [];
    assert f.bytes + [] == f.bytes;
  }

  /** The three checks of `dump_ic`, the first failure winning. */
  function Checks(h: Header, b: Body): Outcome {
    CheckHeader(h).Then(CheckBody(b)).Then(CheckConsistency(h, b))
  }

  /** What `dump_ic` leaves in the freshly opened file, and how it ends. */
  function Dump(h: Header, b: Body, c: FloatCodec): (r: Written)
    requires c.Sound()
    ensures r.bytes != [] || r.outcome.Pass? ==> Checks(h, b).Pass?
    ensures r.outcome.Pass? ==> b.u.Some? && |r.bytes| >= 264
  {
    var checks := Checks(h, b);
    if checks.Fail? then Written([], checks)
    else
      CheckHeaderAccepts(h);
      var hw := HeaderWrite(h, c, 0);
      if hw.outcome.Fail? then hw
      else
        var bw := BodyWrite(b, c);
        Written(hw.bytes + bw.bytes, bw.outcome)
  }

  /** `dump_ic(Header, Body, destination_file)`: open (the existence check
      is a stub, so the file is always opened and truncated), check, write,
      close. A failure raises out of it with the file left open. */
  method DumpIc(h: Header, b: Body, c: FloatCodec, destinationFile: string := "ic.dat")
    returns (f: IcFile, r: Outcome)
    requires c.Sound()
    ensures fresh(f)
    ensures f.bytes == Dump(h, b, c).bytes && r == Dump(h, b, c).outcome
    ensures f.closed <==> r.Pass?
  {
    var found := CheckIfFileExists(destinationFile);
    f := new IcFile.Open();
    r := CheckHeader(h);
    if r.Fail? {
      return;
    }
    r := CheckBody(b);
    if r.Fail? {
      return;
    }
    r := CheckConsistency(h, b);
    if r.Fail? {
      return;
    }
    CheckHeaderAccepts(h);
    r := WriteHeader(h, f, c);
    if r.Fail? {
      return;
    }
    r := WriteBody(b, f, c);
    if r.Fail? {
      return;
    }
    f.Close();
  }

  /** A failing check stops `dump_ic` before anything is written: an
      invalid header is reported first, then an inconsistent body. */
  lemma DumpRejects(h: Header, b: Body, c: FloatCodec)
    requires c.Sound()
    ensures !HeaderValid(h) ==> CheckHeader(h).Fail? && Dump(h, b, c) == Written([], CheckHeader(h))
    ensures HeaderValid(h) && !(ShapesAgree(h, b) && NoDuplicates(b.id.flat)) ==>
      CheckConsistency(h, b).Fail? && Dump(h, b, c) == Written([], CheckConsistency(h, b))
  {
    CheckHeaderAccepts(h);
    CheckConsistencyAccepts(h, b);
  }

  /** What the checks accept and the body records can carry: a valid
      header, a consistent body with internal energies, and byte counts
      that `struct.pack('<I')` can pack. */
  ghost predicate Writable(h: Header, b: Body) {
    && HeaderValid(h) && ShapesAgree(h, b) && NoDuplicates(b.id.flat)
    && b.u.Some?
    && IsUint32(3 * 4 * Sum(h.numPartThisFile)) && IsUint32(4 * |b.u.value.flat|)
  }

  /** A body whose positions are N rows of 3 and which has internal
      energies is written as its five records, in order, when their counts
      can be packed. */
  lemma BodyWriteLayout(b: Body, c: FloatCodec, n: nat)
    requires c.Sound() && b.pos.shape == [n, 3] && b.u.Some?
    requires IsUint32(3 * 4 * n) && IsUint32(4 * |b.u.value.flat|)
    ensures var u := b.u.value;
      BodyWrite(b, c) == Written(
        Block(3 * 4 * n, Singles(b.pos.flat, c)) + (Block(3 * 4 * n, Singles(b.vel.flat, c))
        + (Block(4 * n, U32s(b.id.flat)) + (Block(4 * n, Singles(b.mass.flat, c))
        + Block(4 * |u.flat|, Singles(u.flat, c))))),
        Pass)
  {
    assert Product(b.pos.shape) == n * Product([3]);
    assert PosRows(b.pos) == Ok(n);
    BlocksFive(BodyRecords(b, c, n, b.u.value));
  }

  /** Five records whose counts can all be packed, unfolded. */
  lemma BlocksFive(records: seq<(seq<byte>, int)>)
    requires |records| == 5
    requires IsUint32(records[0].1) && IsUint32(records[1].1) && IsUint32(records[2].1)
    requires IsUint32(records[3].1) && IsUint32(records[4].1)
    ensures Blocks(records) == Written(
      Block(records[0].1, records[0].0) + (Block(records[1].1, records[1].0)
      + (Block(records[2].1, records[2].0) + (Block(records[3].1, records[3].0)
      + Block(records[4].1, records[4].0)))),
      Pass)
  {
    var last := Block(records[4].1, records[4].0);
    assert Blocks(records[4..]) == Written(last, Pass) by {
      assert records[4..][1..] == [];
      assert last + [] == last;
    }
    forall k | 0 <= k < 4
      ensures Blocks(records[k..]).bytes == Block(records[k].1, records[k].0) + Blocks(records[k + 1..]).bytes
      ensures Blocks(records[k..]).outcome == Blocks(records[k + 1..]).outcome
    {
      BlocksStep(records, k);
    }
    assert records[0..] == records;
  }

  /** For a writable snapshot `dump_ic` succeeds and the file holds the
      264-byte header record followed by the pos, vel, id, mass and u
      records, each framed by the count `write_body` computes. */
  lemma DumpLayout(h: Header, b: Body, c: FloatCodec)
    requires c.Sound() && Writable(h, b)
    ensures var n, u := Sum(h.numPartThisFile), b.u.value;
      Dump(h, b, c) == Written(
        HeaderBlock(h, c, 0)
        + (Block(3 * 4 * n, Singles(b.pos.flat, c)) + (Block(3 * 4 * n, Singles(b.vel.flat, c))
        + (Block(4 * n, U32s(b.id.flat)) + (Block(4 * n, Singles(b.mass.flat, c))
        + Block(4 * |u.flat|, Singles(u.flat, c)))))),
        Pass)
  {
    CheckHeaderAccepts(h);
    CheckConsistencyAccepts(h, b);
    HeaderAtFileStart(h, c);
    SumOfCounts(h.numPartThisFile);
    BodyWriteLayout(b, c, Sum(h.numPartThisFile));
  }

  /** The six payloads of a snapshot: the 256 bytes of header fields and
      padding, then pos, vel, id, mass and u. */
  function Payloads(h: Header, b: Body, c: FloatCodec): (p: seq<seq<byte>>)
    requires c.Sound() && Indexable(h) && b.u.Some?
    ensures |p| == 6 && |p[0]| == 256
  {
    [ HeaderFields(h, c) + Zeros(88),
      Singles(b.pos.flat, c), Singles(b.vel.flat, c), U32s(b.id.flat),
      Singles(b.mass.flat, c), Singles(b.u.value.flat, c) ]
  }

  /** The sizes of the six payloads of a writable snapshot: 256 bytes of
      header, then 12, 12, 4 bytes per particle, 4 per mass and 4 per
      energy; there are N masses or, for a 0-D mass, one. */
  lemma PayloadSizes(h: Header, b: Body, c: FloatCodec)
    requires c.Sound() && Writable(h, b)
    ensures var p, n := Payloads(h, b, c), Sum(h.numPartThisFile);
      && n >= 1 && 1 <= |b.mass.flat| <= n
      && |p[1]| == 3 * 4 * n && |p[2]| == 3 * 4 * n && |p[3]| == 4 * n
      && |p[4]| == 4 * |b.mass.flat| && |p[5]| == 4 * |b.u.value.flat|
      && HeaderBlock(h, c, 0) == Block(256, p[0])
  {
    SumOfCounts(h.numPartThisFile);
    var n := Sum(h.numPartThisFile);
    RowsOfThree(b.pos, n);
    RowsOfThree(b.vel, n);
    assert Product([n]) == n * Product([]);
    HeaderAtFileStart(h, c);
    Associative(U32LE(256), HeaderFields(h, c), Zeros(88));
  }

  /** Every record of a writable snapshot carries the count of its own
      payload except the masses: their record carries 4 N, which is the
      length of the mass payload only when there are N masses (a 0-D mass
      passes the checks and is one value, 4 bytes). */
  lemma DumpFramed(h: Header, b: Body, c: FloatCodec)
    requires c.Sound() && Writable(h, b)
    ensures forall k :: 0 <= k < 6 ==> IsUint32(|Payloads(h, b, c)[k]|)
    ensures var p, n := Payloads(h, b, c), Sum(h.numPartThisFile);
      IsUint32(4 * n) &&
      Dump(h, b, c).bytes == Framed(p[..4]) + (Block(4 * n, p[4]) + Block(|p[5]|, p[5]))
    ensures |b.mass.flat| == Sum(h.numPartThisFile) ==> Dump(h, b, c).bytes == Framed(Payloads(h, b, c))
  {
    var p, n := Payloads(h, b, c), Sum(h.numPartThisFile);
    PayloadSizes(h, b, c);
    var front := p[..4];
    DumpRegrouped(h, b, c, p, n);
    if |b.mass.flat| == n {
      FramedAppend(front, p[4..]);
      assert front + p[4..] == p;
      FramedTwo(p[4..]);
    }
  }

  /** `DumpLayout` regrouped: the first four records, then the last two. */
  lemma DumpRegrouped(h: Header, b: Body, c: FloatCodec, p: seq<seq<byte>>, n: nat)
    requires c.Sound() && Writable(h, b) && p == Payloads(h, b, c) && n == Sum(h.numPartThisFile)
    requires |p[1]| == 3 * 4 * n && |p[2]| == 3 * 4 * n && |p[3]| == 4 * n && |p[4]| <= 4 * n
    requires HeaderBlock(h, c, 0) == Block(256, p[0])
    ensures forall k :: 0 <= k < 4 ==> IsUint32(|p[k]|)
    ensures IsUint32(4 * n) && IsUint32(|p[5]|)
    ensures Dump(h, b, c).bytes == Framed(p[..4]) + (Block(4 * n, p[4]) + Block(|p[5]|, p[5]))
  {
    var front, rest := p[..4], Block(4 * n, p[4]) + Block(|p[5]|, p[5]);
    DumpLayout(h, b, c);
    var b0, b1, b2, b3 := Block(256, p[0]), Block(3 * 4 * n, p[1]), Block(3 * 4 * n, p[2]), Block(4 * n, p[3]);
    FramedFour(front);
    Associative(b2, b3, rest);
    Associative(b1, b2 + b3, rest);
    Associative(b0, b1 + (b2 + b3), rest);
  }

  /** The snapshot reads back record by record as its six payloads
      exactly when there are N masses. */
  lemma DumpReadsBack(h: Header, b: Body, c: FloatCodec)
    requires c.Sound() && Writable(h, b)
    ensures ReadRecords(Dump(h, b, c).bytes) == Some(Payloads(h, b, c))
            <==> |b.mass.flat| == Sum(h.numPartThisFile)
  {
    DumpFramed(h, b, c);
    var p, n := Payloads(h, b, c), Sum(h.numPartThisFile);
    if |b.mass.flat| == n {
      FramedReadBack(p);
    } else {
      MiscountedRecord(p[..4], 4 * n, p[4], Block(|p[5]|, p[5]));
      assert |p[4]| != 4 * n;
    }
  }

  /** With the masses checked against (N,), every snapshot whose header
      and body pass the checks and whose counts can be packed is written
      whole and reads back as its six payloads. */
  lemma FixedCheckReadsBack(h: Header, b: Body, c: FloatCodec)
    requires c.Sound() && HeaderValid(h) && CheckConsistencyFixed(h, b).Pass? && b.u.Some?
    requires IsUint32(3 * 4 * Sum(h.numPartThisFile)) && IsUint32(4 * |b.u.value.flat|)
    ensures Dump(h, b, c).outcome == Pass
    ensures ReadRecords(Dump(h, b, c).bytes) == Some(Payloads(h, b, c))
  {
    CheckConsistencyAccepts(h, b);
    assert Writable(h, b);
    assert Product([Sum(h.numPartThisFile)]) == Sum(h.numPartThisFile) * Product([]);
    DumpLayout(h, b, c);
    DumpReadsBack(h, b, c);
  }

  /** A writable snapshot is 304 + 28 N + 4 M + 4 G bytes long (N
      particles, M masses, G internal energies): 264 bytes of header
      record, then 8 bytes of counts per record and 12, 12, 4 bytes per
      particle, 4 per mass and 4 per energy; with N masses that is
      304 + 32 N + 4 G. */
  lemma DumpSize(h: Header, b: Body, c: FloatCodec)
    requires c.Sound() && Writable(h, b)
    ensures |Dump(h, b, c).bytes| == 304 + 28 * Sum(h.numPartThisFile) + 4 * |b.mass.flat| + 4 * |b.u.value.flat|
    ensures b.mass.shape == [Sum(h.numPartThisFile)] ==>
      |Dump(h, b, c).bytes| == 304 + 32 * Sum(h.numPartThisFile) + 4 * |b.u.value.flat|
  {
    SumOfCounts(h.numPartThisFile);
    var n := Sum(h.numPartThisFile);
    DumpLayout(h, b, c);
    HeaderAtFileStart(h, c);
    RowsOfThree(b.pos, n);
    RowsOfThree(b.vel, n);
    assert Product([n]) == n * Product([]);
  }

  /** Four well-framed records, unfolded. */
  lemma FramedFour(p: seq<seq<byte>>)
    requires |p| == 4 && forall k :: 0 <= k < 4 ==> IsUint32(|p[k]|)
    ensures Framed(p) == Block(|p[0]|, p[0]) + (Block(|p[1]|, p[1]) + (Block(|p[2]|, p[2]) + Block(|p[3]|, p[3])))
  {
    var last := Block(|p[3]|, p[3]);
    assert Framed(p[3..]) == last by {
      assert p[3..][1..] == [];
      assert last + [] == last;
    }
    forall k | 0 <= k < 3 ensures Framed(p[k..]) == Block(|p[k]|, p[k]) + Framed(p[k + 1..]) {
      assert p[k..][0] == p[k] && p[k..][1..] == p[k + 1..];
    }
    assert p[0..] == p;
  }

  /** Two well-framed records, unfolded. */
  lemma FramedTwo(p: seq<seq<byte>>)
    requires |p| == 2 && IsUint32(|p[0]|) && IsUint32(|p[1]|)
    ensures Framed(p) == Block(|p[0]|, p[0]) + Block(|p[1]|, p[1])
  {
    var last := Block(|p[1]|, p[1]);
    assert Framed(p[1..]) == last by {
      assert p[1..][1..] == [];
      assert last + [] == last;
    }
  }

  /** A body without the `u` attribute (a `Body` built without gas) gets
      past the checks when the header has no gas either: `dump_ic` then
      writes the header record and fails on `Body.u` before any body record. */
  lemma DumpGasFreeBody(h: Header, b: Body, c: FloatCodec)
    requires c.Sound() && HeaderValid(h) && ShapesAgree(h, b) && NoDuplicates(b.id.flat) && b.u.None?
    ensures h.numPartThisFile[0] == 0
    ensures Dump(h, b, c) == Written(HeaderBlock(h, c, 0), Fail(AttributeError("u")))
    ensures |Dump(h, b, c).bytes| == 264
  {
    CheckHeaderAccepts(h);
    CheckConsistencyAccepts(h, b);
    HeaderAtFileStart(h, c);
    assert Product(b.pos.shape) == Sum(h.numPartThisFile) * Product([3]);
  }
}
