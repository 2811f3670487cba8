/** The scenario of initial_condition/example.py: one gas particle and two
    halo particles, written with `dump_ic`; and the same snapshot spoiled
    in the two ways the checks catch. */
module IcExample {
  import opened Bytes
  import opened NdArrays
  import opened Outcomes
  import opened IcRecords
  import opened IcCheck
  import opened IcWrite

  const Counts: seq<uint32> := [1, 2, 0, 0, 0, 0]

  /** `Header()` with both count arrays set to `npart`. */
  function ExampleHeader(): Header {
    NewHeader().(numPartThisFile := Counts, numPartTotal := Counts)
  }

  /** `Body(npart)` with positions (0,0,0), (1,1,1), (-1,0,1), zero
      velocities, ids 0, 1, 2 and unit masses. */
  function ExampleBody(): Body {
    var built := NewBody(Counts);
    assert built.Ok?;
    built.value.(
      pos := NdArray([3, 3], [0.0, 0.0, 0.0, 1.0, 1.0, 1.0, -1.0, 0.0, 1.0]),
      id := NdArray([3], [0, 1, 2]),
      mass := NdArray([3], [1.0, 1.0, 1.0]))
  }

  /** The example snapshot passes the checks and its counts can be packed. */
  lemma ExampleWritable()
    ensures Sum(ExampleHeader().numPartThisFile) == 3
    ensures Writable(ExampleHeader(), ExampleBody())
    ensures ExampleBody().mass.shape == [3] && |ExampleBody().u.value.flat| == 1
  {
    var h, b := ExampleHeader(), ExampleBody();
    assert Sum(Counts) == 3;
    assert SomeParticles(Counts) by { assert Counts[0] > 0; }
    assert NoDuplicates(b.id.flat);
  }

  /** The example writes a 404-byte file: the 264-byte header record and
      records of 36, 36, 12, 12 and 4 payload bytes, each read back. */
  lemma ExampleDump(c: FloatCodec)
    requires c.Sound()
    ensures Dump(ExampleHeader(), ExampleBody(), c).outcome == Pass
    ensures |Dump(ExampleHeader(), ExampleBody(), c).bytes| == 404
    ensures ReadRecords(Dump(ExampleHeader(), ExampleBody(), c).bytes)
            == Some(Payloads(ExampleHeader(), ExampleBody(), c))
    ensures var p := Payloads(ExampleHeader(), ExampleBody(), c);
      |p[1]| == 36 && |p[2]| == 36 && |p[3]| == 12 && |p[4]| == 12 && |p[5]| == 4
  {
    ExampleWritable();
    ThreeParticleDump(ExampleHeader(), ExampleBody(), c);
  }

  /** The sizes of `ExampleDump` for any writable snapshot of three
      particles, one of them gas: 392 bytes and 4 per mass. With three
      masses that is 404 bytes that read back record by record; with a
      0-D mass it is 396 bytes that do not. */
  lemma ThreeParticleDump(h: Header, b: Body, c: FloatCodec)
    requires c.Sound() && Writable(h, b) && Sum(h.numPartThisFile) == 3 && |b.u.value.flat| == 1
    ensures Dump(h, b, c).outcome == Pass
    ensures |Dump(h, b, c).bytes| == 392 + 4 * |b.mass.flat|
    ensures var p := Payloads(h, b, c);
      |p[1]| == 36 && |p[2]| == 36 && |p[3]| == 12 && |p[4]| == 4 * |b.mass.flat| && |p[5]| == 4
    ensures b.mass.shape == [3] ==>
      |Dump(h, b, c).bytes| == 404 && ReadRecords(Dump(h, b, c).bytes) == Some(Payloads(h, b, c))
    ensures b.mass.shape == [] ==>
      |Dump(h, b, c).bytes| == 396 && ReadRecords(Dump(h, b, c).bytes) != Some(Payloads(h, b, c))
  {
    DumpLayout(h, b, c);
    DumpSize(h, b, c);
    DumpReadsBack(h, b, c);
    PayloadSizes(h, b, c);
  }

  /** The example body with its masses given as one 0-D value. */
  function ScalarMassBody(): Body {
    ExampleBody().(mass := NdArray([], [1.0]))
  }

  /** A 0-D mass passes every check, yet its record is counted for three
      masses and holds one: the 396-byte file does not read back, where
      checking the masses against (3,) rejects the body. */
  lemma ExampleScalarMass(c: FloatCodec)
    requires c.Sound()
    ensures Writable(ExampleHeader(), ScalarMassBody())
    ensures Dump(ExampleHeader(), ScalarMassBody(), c).outcome == Pass
    ensures |Dump(ExampleHeader(), ScalarMassBody(), c).bytes| == 396
    ensures ReadRecords(Dump(ExampleHeader(), ScalarMassBody(), c).bytes)
            != Some(Payloads(ExampleHeader(), ScalarMassBody(), c))
    ensures CheckConsistencyFixed(ExampleHeader(), ScalarMassBody()) == Fail(UnexpectedDimensions)
  {
    ExampleWritable();
    var h, b := ExampleHeader(), ScalarMassBody();
    assert ShapesAgree(h, b);
    assert b.id.flat == ExampleBody().id.flat;
    ThreeParticleDump(h, b, c);
  }

  /** Repeating an id makes `dump_ic` fail before writing anything. */
  lemma ExampleDuplicateIds(c: FloatCodec)
    requires c.Sound()
    ensures Dump(ExampleHeader(), ExampleBody().(id := NdArray([3], [0, 0, 2])), c)
            == Written([], Fail(IdsNotUnique))
  {
    ExampleWritable();
    var h, b := ExampleHeader(), ExampleBody().(id := NdArray([3], [0, 0, 2]));
    assert ShapesAgree(h, b);
    assert b.id.flat[0] == b.id.flat[1];
    DuplicateIdsRejected(h, b);
    DumpRejects(h, b, c);
  }

  /** Forgetting to fill in the header's counts makes `dump_ic` fail
      before writing anything. */
  lemma ExampleUnfilledHeader(c: FloatCodec)
    requires c.Sound()
    ensures Dump(NewHeader(), ExampleBody(), c) == Written([], Fail(NoParticlesInHeader))
  {
    NewHeaderRejected();
  }
}
