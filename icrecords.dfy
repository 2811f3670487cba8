/** The two records of an initial-condition file, as defined by the
    `Header` and `Body` classes of initial_condition/write.py, and their
    constructors. Field names follow the GADGET-2 users guide. */
module IcRecords {
  import opened Bytes
  import opened NdArrays
  import opened Outcomes

  /** The snapshot header. Particle counts are per particle type
      (0 = gas, 1 = halo, ..., 5 = boundary). Integer fields carry the widths
      they are packed with; floats are `real`. */
  datatype Header = Header(
    numPartThisFile: seq<uint32>,
    massTable: seq<real>,
    time: real,
    redshift: real,
    flagSfr: int32,
    flagFeedback: int32,
    numPartTotal: seq<uint32>,
    flagCooling: int32,
    numFilesPerSnapshot: int32,
    boxSize: real,
    omega0: real,
    omegaLambda: real,
    hubbleParam: real,
    flagStellarAge: int32,
    flagMetals: int32)

  /** `Header()`: six zero counts and masses, one file per snapshot,
      everything else zero. */
  function NewHeader(): (h: Header)
    ensures |h.numPartThisFile| == 6 && |h.numPartTotal| == 6 && |h.massTable| == 6
    ensures Sum(h.numPartThisFile) == 0 && Sum(h.numPartTotal) == 0
    ensures h.numFilesPerSnapshot == 1
  {
    Header(
      numPartThisFile := [0, 0, 0, 0, 0, 0],
      massTable := [0.0, 0.0, 0.0, 0.0, 0.0, 0.0],
      time := 0.0,
      redshift := 0.0,
      flagSfr := 0,
      flagFeedback := 0,
      numPartTotal := [0, 0, 0, 0, 0, 0],
      flagCooling := 0,
      numFilesPerSnapshot := 1,
      boxSize := 0.0,
      omega0 := 0.0,
      omegaLambda := 0.0,
      hubbleParam := 0.0,
      flagStellarAge := 0,
      flagMetals := 0)
  }

  /** The per-particle arrays. `u` is an attribute that exists only when the
      body was built with gas particles (or was set afterwards), hence the Option. */
  datatype Body = Body(
    pos: Array<real>,
    vel: Array<real>,
    id: Array<uint32>,
    mass: Array<real>,
    u: Option<Array<real>>)

  /** `Body(npart)`: zero arrays sized from the particle counts,
      N = sum(npart) total particles and G = npart[0] gas particles.
      The optional-field flags of the constructor are accepted and ignored. */
  function NewBody(npart: seq<int>): (r: Result<Body>)
    ensures r.Ok? <==> |npart| > 0 && Sum(npart) > 0 && npart[0] >= 0
    ensures |npart| == 0 ==> r == Err(IndexError)
    ensures |npart| > 0 && Sum(npart) == 0 ==> r == Err(ValueError("There are no particles !"))
    ensures |npart| > 0 && Sum(npart) != 0 && (Sum(npart) < 0 || npart[0] < 0) ==> r == Err(NegativeDimensions)
    ensures r.Ok? ==>
      var n, g, b := Sum(npart), npart[0], r.value;
      && b.pos.shape == [n, 3] && b.vel.shape == [n, 3]
      && b.id.shape == [n] && b.mass.shape == [n]
      && (b.u.Some? <==> g != 0)
      && (b.u.Some? ==> b.u.value.shape == [g])
      && (forall i :: 0 <= i < |b.id.flat| ==> b.id.flat[i] == 0)
      && (forall i :: 0 <= i < |b.pos.flat| ==> b.pos.flat[i] == 0.0)
      && (forall i :: 0 <= i < |b.vel.flat| ==> b.vel.flat[i] == 0.0)
      && (forall i :: 0 <= i < |b.mass.flat| ==> b.mass.flat[i] == 0.0)
      && (b.u.Some? ==> forall i :: 0 <= i < |b.u.value.flat| ==> b.u.value.flat[i] == 0.0)
  {
    if |npart| == 0 then Err(IndexError)  // `npart[0]` of an empty array
    else
      var n, g := Sum(npart), npart[0];
      if n == 0 then Err(ValueError("There are no particles !"))
      else if n < 0 then Err(NegativeDimensions)
      else if g < 0 then Err(NegativeDimensions)
      else
        Ok(Body(
          pos := Filled([n, 3], 0.0),
          vel := Filled([n, 3], 0.0),
          id := Filled([n], 0),
          mass := Filled([n], 0.0),
          u := if g != 0 then Some(Filled([g], 0.0)) else None))
  }
}
