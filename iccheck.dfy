/** The sanity checks of initial_condition/check.py, run before anything is
    written: each returns None (Pass) or raises (Fail) at the first
    violation it meets. */
module IcCheck {
  import opened Bytes
  import opened NdArrays
  import opened Outcomes
  import opened IcRecords

  const UnexpectedDimensions: Error := Exception("Unexpected dimensions")
  const NoParticlesInHeader: Error := ValueError("No particles in header !")
  const NegativeMassTable: Error := ValueError("MassTable contains negative values")
  const BadFileCount: Error := ValueError("NumFilesPerSnapshot is less or equal 0")
  const IdsNotUnique: Error := Exception("IDs are not unique")
  /** numpy's complaint when an array of two or more booleans is used as a condition. */
  const AmbiguousTruth: Error :=
    ValueError("The truth value of an array with more than one element is ambiguous. Use a.any() or a.all()")

  /** `check_dimension(x, dim)`: raises unless the shape of `x` is `dim`. */
  function CheckDimension<T>(x: Array<T>, dim: seq<nat>): (r: Outcome)
    ensures r.Pass? <==> x.shape == dim
    ensures r.Fail? ==> r.error == UnexpectedDimensions
  {
    if x.shape != dim then Fail(UnexpectedDimensions) else Pass
  }

  /** `check_dimension(x, (n))` where `(n)` is a bare number rather than a
      1-tuple (check.py line 99). numpy then compares the shape tuple with
      `n` entry by entry and `if` tests the resulting boolean array: a 1-D
      array passes exactly when its length is `n`, a 0-D array gives an
      empty (false) comparison and passes, and two or more dimensions give
      an ambiguous truth value. */
  function CheckBareDimension<T>(x: Array<T>, n: nat): (r: Outcome)
    ensures |x.shape| == 1 ==> (r.Pass? <==> x.shape[0] == n)
    ensures |x.shape| == 1 && r.Fail? ==> r.error == UnexpectedDimensions
    ensures r.Pass? <==> x.shape == [n] || x.shape == []
  {
    if |x.shape| == 0 then Pass
    else if |x.shape| == 1 then (if x.shape[0] != n then Fail(UnexpectedDimensions) else Pass)
    else Fail(AmbiguousTruth)
  }

  /** `check_if_file_exists(filename)`: a stub that returns None, which
      the caller reads as "does not exist". */
  function CheckIfFileExists(filename: string): (found: bool)
    ensures !found
  {
    false
  }

  /** `check_header(header)`: particle counts first, then masses, then the
      file count, and the array shapes last. */
  function CheckHeader(h: Header): (r: Outcome)
    ensures r.Fail? ==> r.error in {NoParticlesInHeader, NegativeMassTable, BadFileCount, UnexpectedDimensions}
    ensures r.Pass? ==> h.numFilesPerSnapshot >= 1 && |h.massTable| == 6
  {
    if Sum(h.numPartThisFile) == 0 || Sum(h.numPartTotal) == 0 then Fail(NoParticlesInHeader)
    else if exists i :: 0 <= i < |h.massTable| && h.massTable[i] < 0.0 then Fail(NegativeMassTable)
    else if h.numFilesPerSnapshot <= 0 then Fail(BadFileCount)
    else
      CheckDimension(Vector(h.numPartThisFile), [6])
        .Then(CheckDimension(Vector(h.numPartTotal), [6]))
        .Then(CheckDimension(Vector(h.massTable), [6]))
  }

  /** Some particle type has particles. */
  ghost predicate SomeParticles(counts: seq<uint32>) {
    exists i :: 0 <= i < |counts| && counts[i] > 0
  }

  ghost predicate MassesNonNegative(h: Header) {
    forall i :: 0 <= i < |h.massTable| ==> h.massTable[i] >= 0.0
  }

  ghost predicate SixTypes(h: Header) {
    |h.numPartThisFile| == 6 && |h.numPartTotal| == 6 && |h.massTable| == 6
  }

  /** The header invariant the checks enforce. */
  ghost predicate HeaderValid(h: Header) {
    && SomeParticles(h.numPartThisFile)
    && SomeParticles(h.numPartTotal)
    && MassesNonNegative(h)
    && h.numFilesPerSnapshot >= 1
    && SixTypes(h)
  }

  /** A sum of counts is zero exactly when every count is zero. */
  lemma {:induction false} SumOfCounts(counts: seq<uint32>)
    ensures Sum(counts) >= 0
    ensures Sum(counts) != 0 <==> SomeParticles(counts)
  {
    if counts != [] {
      SumOfCounts(counts[1..]);
      if SomeParticles(counts[1..]) {
        var i :| 0 <= i < |counts[1..]| && counts[1..][i] > 0;
        assert counts[i + 1] > 0;
      }
      if SomeParticles(counts) && counts[0] == 0 {
        var i :| 0 <= i < |counts| && counts[i] > 0;
        assert counts[1..][i - 1] > 0;
      }
    }
  }

  /** `check_header` accepts exactly the valid headers. */
  lemma CheckHeaderAccepts(h: Header)
    ensures CheckHeader(h).Pass? <==> HeaderValid(h)
  {
    SumOfCounts(h.numPartThisFile);
    SumOfCounts(h.numPartTotal);
  }

  /** The first failing check decides the error: an empty snapshot is
      reported whatever else is wrong, a negative mass whatever the file
      count and shapes, and the shapes only once every value check passed. */
  lemma CheckHeaderFirstFailure(h: Header)
    ensures !SomeParticles(h.numPartThisFile) || !SomeParticles(h.numPartTotal) ==>
      CheckHeader(h) == Fail(NoParticlesInHeader)
    ensures SomeParticles(h.numPartThisFile) && SomeParticles(h.numPartTotal) && !MassesNonNegative(h) ==>
      CheckHeader(h) == Fail(NegativeMassTable)
    ensures (SomeParticles(h.numPartThisFile) && SomeParticles(h.numPartTotal) && MassesNonNegative(h)
             && h.numFilesPerSnapshot <= 0) ==>
      CheckHeader(h) == Fail(BadFileCount)
    ensures (SomeParticles(h.numPartThisFile) && SomeParticles(h.numPartTotal) && MassesNonNegative(h)
             && h.numFilesPerSnapshot >= 1 && !SixTypes(h)) ==>
      CheckHeader(h) == Fail(UnexpectedDimensions)
  {
    SumOfCounts(h.numPartThisFile);
    SumOfCounts(h.numPartTotal);
  }

  /** A freshly constructed header is rejected: it has no particles. */
  lemma NewHeaderRejected()
    ensures CheckHeader(NewHeader()) == Fail(NoParticlesInHeader)
  {
  }

  /** `check_body(body)`: accepts every body. */
  function CheckBody(b: Body): (r: Outcome)
    ensures r == Pass
  {
    Pass
  }

  /** The distinct values of a sequence (`np.unique`). */
  function Elems<T>(s: seq<T>): set<T> {
    set x | x in s
  }

  ghost predicate NoDuplicates<T>(s: seq<T>) {
    forall i, j :: 0 <= i < j < |s| ==> s[i] != s[j]
  }

  /** There are as many distinct values as entries exactly when no value repeats. */
  lemma {:induction false} DistinctCount<T>(s: seq<T>)
    ensures |Elems(s)| <= |s|
    ensures |Elems(s)| == |s| <==> NoDuplicates(s)
  {
    if s != [] {
      var t := s[1..];
      DistinctCount(t);
      assert Elems(s) == {s[0]} + Elems(t) by {
        assert forall x :: x in s <==> x == s[0] || x in t;
      }
      if s[0] in t {
        var k :| 0 <= k < |t| && t[k] == s[0];
        assert s[k + 1] == s[0];
        assert Elems(s) == Elems(t);
      } else {
        assert |Elems(s)| == |Elems(t)| + 1;
        if NoDuplicates(t) {
          forall i, j | 0 <= i < j < |s| ensures s[i] != s[j] {
            assert s[j] == t[j - 1];
            if i > 0 { assert s[i] == t[i - 1]; }
          }
        }
        if NoDuplicates(s) {
          forall i, j | 0 <= i < j < |t| ensures t[i] != t[j] {
            assert t[i] == s[i + 1] && t[j] == s[j + 1];
          }
        }
      }
    }
  }

  /** `check_consistency(header, body)`: the body's arrays against the
      header's counts for this file (N = sum of NumPart_ThisFile, G = its
      gas entry), then the uniqueness of the ids. The masses are checked
      against the bare number N (check.py line 99), or, with `massAsTuple`,
      against the 1-tuple (N,) that the other checks use. */
  function Consistency(h: Header, b: Body, massAsTuple: bool): Outcome {
    var npart := h.numPartThisFile;
    if |npart| == 0 then Fail(IndexError)  // `npart[0]` of an empty array
    else
      SumOfCounts(npart);
      var g: nat, n: nat := npart[0], Sum(npart);
      CheckDimension(b.pos, [n, 3])
        .Then(CheckDimension(b.vel, [n, 3]))
        .Then(if massAsTuple then CheckDimension(b.mass, [n]) else CheckBareDimension(b.mass, n))
        .Then(CheckDimension(b.id, [n]))
        .Then(
          if g == 0 then Pass
          else if b.u.None? then Fail(AttributeError("u"))  // `body.u` was never set
          else CheckDimension(b.u.value, [g]))
        .Then(if |Elems(b.id.flat)| != |b.id.flat| then Fail(IdsNotUnique) else Pass)
  }

  /** `check_consistency` as written: it raises only for a missing gas
      count, a shape, a missing `u` or a repeated id, and passes only with
      N ids. */
  function CheckConsistency(h: Header, b: Body): (r: Outcome)
    ensures r.Fail? ==>
      r.error in {IndexError, UnexpectedDimensions, AmbiguousTruth, AttributeError("u"), IdsNotUnique}
    ensures r.Pass? ==> |h.numPartThisFile| > 0 && b.id.shape == [Sum(h.numPartThisFile)]
  {
    Consistency(h, b, false)
  }

  /** `check_consistency` with the masses checked against (N,): it accepts
      exactly the bodies `check_consistency` accepts that hold N masses,
      and rejects a 0-D mass unless N is 1. */
  function CheckConsistencyFixed(h: Header, b: Body): (r: Outcome)
    ensures r.Pass? <==>
      ShapesAgree(h, b) && b.mass.shape == [Sum(h.numPartThisFile)] && NoDuplicates(b.id.flat)
    ensures r.Pass? <==> CheckConsistency(h, b).Pass? && b.mass.shape == [Sum(h.numPartThisFile)]
  {
    DistinctCount(b.id.flat);
    if |h.numPartThisFile| > 0 then
      SumOfCounts(h.numPartThisFile);
      Consistency(h, b, true)
    else Consistency(h, b, true)
  }

  /** The shapes `check_consistency` demands of a body for a header. */
  ghost predicate ShapesAgree(h: Header, b: Body) {
    && |h.numPartThisFile| > 0
    && var n, g := Sum(h.numPartThisFile), h.numPartThisFile[0];
    && b.pos.shape == [n, 3]
    && b.vel.shape == [n, 3]
    && (b.mass.shape == [n] || b.mass.shape == [])
    && b.id.shape == [n]
    && (g != 0 ==> b.u.Some? && b.u.value.shape == [g])
  }

  /** `check_consistency` accepts exactly the bodies of the right shapes
      whose ids are pairwise distinct. */
  lemma CheckConsistencyAccepts(h: Header, b: Body)
    ensures CheckConsistency(h, b).Pass? <==> ShapesAgree(h, b) && NoDuplicates(b.id.flat)
  {
    DistinctCount(b.id.flat);
    if |h.numPartThisFile| > 0 {
      SumOfCounts(h.numPartThisFile);
    }
  }

  /** A body of the right shapes is rejected for a repeated id, and only for that. */
  lemma DuplicateIdsRejected(h: Header, b: Body)
    requires ShapesAgree(h, b)
    ensures CheckConsistency(h, b).Fail? <==> !NoDuplicates(b.id.flat)
    ensures CheckConsistency(h, b).Fail? ==> CheckConsistency(h, b).error == IdsNotUnique
  {
    DistinctCount(b.id.flat);
    SumOfCounts(h.numPartThisFile);
  }

  /** A body fresh from `Body(npart)` holds only zero ids, so with two or
      more particles it cannot pass `check_consistency` until its ids are set. */
  lemma FreshBodyRejected(h: Header, npart: seq<int>)
    requires NewBody(npart).Ok? && Sum(npart) >= 2
    ensures CheckConsistency(h, NewBody(npart).value).Fail?
  {
    var b := NewBody(npart).value;
    CheckConsistencyAccepts(h, b);
    assert Product([Sum(npart)]) == Sum(npart) * Product([]);
    assert b.id.flat[0] == 0 == b.id.flat[1];
  }
}
