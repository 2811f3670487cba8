/** The older writer of initial_condition/io.py: a `Body` constructor that
    allocates optional per-particle fields through a cascade of flags, and a
    `write_header` with the same record layout as write.py's. */
module IcLegacy {
  import opened Bytes
  import opened NdArrays
  import opened Outcomes
  import opened IcFiles
  import opened IcRecords
  import opened IcWrite

  /** The optional body fields, in the order of the GADGET-2 snapshot blocks. */
  datatype Field = Rho | Ne | Nh | Hsml | Pot | Acce | Endt | Tstp

  const AllFields: set<Field> := {Rho, Ne, Nh, Hsml, Pot, Acce, Endt, Tstp}

  /** Position in the cascade: a field needs every field of lower rank. */
  function Rank(f: Field): nat {
    match f
    case Rho => 0
    case Ne => 1
    case Nh => 2
    case Hsml => 3
    case Pot => 4
    case Acce => 5
    case Endt => 6
    case Tstp => 7
  }

  /** `tstp`, `acce` and `pot` hold one value per particle (N); the others
      one per gas particle (G). */
  function Extent(f: Field, n: nat, g: nat): nat {
    if f == Tstp || f == Acce || f == Pot then n else g
  }

  /** The fields switched on by the constructor's keyword arguments. */
  function Requested(rho: bool, ne: bool, nh: bool, hsml: bool, acce: bool, endt: bool, tstp: bool): set<Field> {
    (if rho then {Rho} else {}) + (if ne then {Ne} else {}) + (if nh then {Nh} else {})
    + (if hsml then {Hsml} else {}) + (if acce then {Acce} else {})
    + (if endt then {Endt} else {}) + (if tstp then {Tstp} else {})
  }

  /** The highest rank requested, -1 for none. */
  function Top(req: set<Field>): int {
    if Tstp in req then 7 else if Endt in req then 6 else if Acce in req then 5
    else if Pot in req then 4 else if Hsml in req then 3 else if Nh in req then 2
    else if Ne in req then 1 else if Rho in req then 0 else -1
  }

  /** Every field at or below a requested one. */
  function Closure(req: set<Field>): set<Field> {
    set f | f in AllFields && Rank(f) <= Top(req)
  }

  ghost predicate DownwardClosed(s: set<Field>) {
    forall f, g :: f in s && Rank(g) <= Rank(f) ==> g in s
  }

  /** The closure contains the request, is downward closed, and is the
      smallest such set. */
  lemma ClosureIsLeast(req: set<Field>, s: set<Field>)
    ensures req <= Closure(req)
    ensures DownwardClosed(Closure(req))
    ensures req <= s && DownwardClosed(s) ==> Closure(req) <= s
  {
    forall f | f in req ensures f in Closure(req) {
      match f
      case Rho => case Ne => case Nh => case Hsml => case Pot => case Acce => case Endt => case Tstp =>
    }
    if req <= s && DownwardClosed(s) && Top(req) >= 0 {
      var g := match Top(req)
        case 7 => Tstp case 6 => Endt case 5 => Acce case 4 => Pot
        case 3 => Hsml case 2 => Nh case 1 => Ne case _ => Rho;
      assert g in req && Rank(g) == Top(req);
      forall f | f in Closure(req) ensures f in s {
        assert Rank(f) <= Rank(g) && g in s;
      }
    }
  }

  /** A body of io.py: the arrays write.py's `Body` has (with float ids and
      an always-present `u`), plus the allocated optional fields. */
  datatype LegacyBody = LegacyBody(
    pos: Array<real>,
    vel: Array<real>,
    id: Array<real>,
    mass: Array<real>,
    u: Array<real>,
    optional: map<Field, Array<real>>)

  /** The optional fields allocated for `req`: zero arrays over the closure. */
  function Allocated(req: set<Field>, n: nat, g: nat): map<Field, Array<real>> {
    map f | f in Closure(req) :: Filled([Extent(f, n, g)], 0.0)
  }

  /** A map of zero arrays whose keys are the fields up to the top
      requested rank is the allocation for that request. */
  lemma AllocatedExactly(m: map<Field, Array<real>>, req: set<Field>, n: nat, g: nat)
    requires forall f :: f in m <==> Rank(f) <= Top(req)
    requires forall f :: f in m ==> m[f] == Filled([Extent(f, n, g)], 0.0)
    ensures m == Allocated(req, n, g)
  {
    var want := Allocated(req, n, g);
    forall f ensures f in m <==> f in want {
      match f
      case Rho => case Ne => case Nh => case Hsml => case Pot => case Acce => case Endt => case Tstp =>
    }
  }

  /** Zero arrays, each of its field's extent. */
  ghost predicate ZeroFilled(m: map<Field, Array<real>>, n: nat, g: nat) {
    forall f :: f in m ==> m[f] == Filled([Extent(f, n, g)], 0.0)
  }

  /** What the constructor evidently intends: no zero-particle check, the
      base arrays always allocated, and the closure of the requested fields. */
  function IntendedBody(npart: seq<int>, req: set<Field>): (r: Result<LegacyBody>)
    ensures r.Ok? <==> |npart| > 0 && Sum(npart) >= 0 && npart[0] >= 0
    ensures r.Err? && |npart| > 0 ==> r.error == NegativeDimensions
    ensures r.Ok? ==> r.value.optional.Keys == Closure(req)
  {
    if |npart| == 0 then Err(IndexError)  // `npart[0]` of an empty list
    else
      var n, g := Sum(npart), npart[0];
      if n < 0 || g < 0 then Err(NegativeDimensions)
      else
        Ok(LegacyBody(Filled([n, 3], 0.0), Filled([n, 3], 0.0), Filled([n], 0.0), Filled([n], 0.0),
                      Filled([g], 0.0), Allocated(req, n, g)))
  }

  /** The constructor as written: `pot` is neither a parameter nor assigned
      unless `tstp`, `endt` or `acce` is set, so `if pot:` then fails. */
  function BodyAsWritten(npart: seq<int>, req: set<Field>): (r: Result<LegacyBody>)
    ensures r.Ok? <==> IntendedBody(npart, req).Ok? && Top(req) >= 5
    ensures r.Ok? ==> r == IntendedBody(npart, req)
  {
    var built := IntendedBody(npart, req);
    if built.Ok? && Tstp !in req && Endt !in req && Acce !in req then Err(UnboundLocalError("pot"))
    else built
  }

  /** `Body(npart, rho, ne, nh, hsml, acce, endt, tstp)` as written:
      each set flag switches on every flag below it and allocates its
      field. A local never assigned is `None`. */
  method NewBody(npart: seq<int>, rho: bool, ne: bool, nh: bool, hsml: bool, acce: bool, endt: bool, tstp: bool)
    returns (r: Result<LegacyBody>)
    ensures r == BodyAsWritten(npart, Requested(rho, ne, nh, hsml, acce, endt, tstp))
  {
    var pot: Option<bool> := None;
    r := Allocate(npart, rho, ne, nh, hsml, pot, acce, endt, tstp);
  }

  /** The constructor with `pot` as a keyword argument like the others. */
  method NewBodyWithPot(npart: seq<int>, rho: bool, ne: bool, nh: bool, hsml: bool, pot: bool,
                        acce: bool, endt: bool, tstp: bool)
    returns (r: Result<LegacyBody>)
    ensures r == IntendedBody(npart, Requested(rho, ne, nh, hsml, acce, endt, tstp) + (if pot then {Pot} else {}))
  {
    r := Allocate(npart, rho, ne, nh, hsml, Some(pot), acce, endt, tstp);
  }

  /** The body of the constructor, with `pot` bound (`Some`) or not (`None`). */
  method Allocate(npart: seq<int>, rho: bool, ne: bool, nh: bool, hsml: bool, pot: Option<bool>,
                  acce: bool, endt: bool, tstp: bool)
    returns (r: Result<LegacyBody>)
    ensures var req := Requested(rho, ne, nh, hsml, acce, endt, tstp);
      && (pot.None? ==> r == BodyAsWritten(npart, req))
      && (pot.Some? ==> r == IntendedBody(npart, req + (if pot.value then {Pot} else {})))
  {
    if |npart| == 0 {
      return Err(IndexError);
    }
    var n, g := Sum(npart), npart[0];
    if n < 0 {
      return Err(NegativeDimensions);
    }
    var pos, vel, id, mass := Filled([n, 3], 0.0), Filled([n, 3], 0.0), Filled([n], 0.0), Filled([n], 0.0);
    if g < 0 {
      return Err(NegativeDimensions);
    }
    var u := Filled([g], 0.0);
    var optional := EnableChain(n, g, rho, ne, nh, hsml, pot, acce, endt, tstp);
    ghost var req := Requested(rho, ne, nh, hsml, acce, endt, tstp);
    assert req + {} == req;
    if optional.Err? {
      return Err(optional.error);
    }
    r := Ok(LegacyBody(pos, vel, id, mass, u, optional.value));
  }

  /** The cascade of `if` statements of the constructor: each set flag
      switches on the flags below it and allocates its own field. */
  method EnableChain(n: nat, g: nat, rho: bool, ne: bool, nh: bool, hsml: bool, pot: Option<bool>,
                     acce: bool, endt: bool, tstp: bool)
    returns (r: Result<map<Field, Array<real>>>)
    ensures var req := Requested(rho, ne, nh, hsml, acce, endt, tstp) + (if pot == Some(true) then {Pot} else {});
      r == if pot.None? && !tstp && !endt && !acce then Err(UnboundLocalError("pot"))
           else Ok(Allocated(req, n, g))
  {
    ghost var req := Requested(rho, ne, nh, hsml, acce, endt, tstp) + (if pot == Some(true) then {Pot} else {});
    ghost var top := Top(req);
    RequestedTop(rho, ne, nh, hsml, pot == Some(true), acce, endt, tstp);
    var rhoOn, neOn, nhOn, hsmlOn, potOn, upper := EnableUpper(n, g, rho, ne, nh, hsml, pot, acce, endt, tstp);
    if potOn.None? {
      return Err(UnboundLocalError("pot"));
    }
    var optional := EnableLower(n, g, rhoOn, neOn, nhOn, hsmlOn, potOn.value, upper);
    forall f ensures f in optional <==> Rank(f) <= top {
      match f
      case Rho => case Ne => case Nh => case Hsml => case Pot => case Acce => case Endt => case Tstp =>
    }
    AllocatedExactly(optional, req, n, g);
    r := Ok(optional);
  }

  /** The highest rank requested by the flags. */
  lemma RequestedTop(rho: bool, ne: bool, nh: bool, hsml: bool, pot: bool, acce: bool, endt: bool, tstp: bool)
    ensures Top(Requested(rho, ne, nh, hsml, acce, endt, tstp) + (if pot then {Pot} else {}))
         == if tstp then 7 else if endt then 6 else if acce then 5 else if pot then 4
            else if hsml then 3 else if nh then 2 else if ne then 1 else if rho then 0 else -1
  {
  }

  /** The `if tstp`, `if endt` and `if acce` steps of the cascade: each
      switches on every flag below it (`pot` becoming bound) and allocates
      its field. */
  method EnableUpper(n: nat, g: nat, rho: bool, ne: bool, nh: bool, hsml: bool, pot: Option<bool>,
                     acce: bool, endt: bool, tstp: bool)
    returns (rhoOn: bool, neOn: bool, nhOn: bool, hsmlOn: bool, potOn: Option<bool>,
             optional: map<Field, Array<real>>)
    ensures var forced := tstp || endt || acce;
      && rhoOn == (rho || forced) && neOn == (ne || forced) && nhOn == (nh || forced)
      && hsmlOn == (hsml || forced) && potOn == (if forced then Some(true) else pot)
      && (Tstp in optional <==> tstp) && (Endt in optional <==> tstp || endt) && (Acce in optional <==> forced)
      && (forall f :: f in optional ==> Rank(f) >= 5)
      && ZeroFilled(optional, n, g)
  {
    optional := map[];
    rhoOn, neOn, nhOn, hsmlOn, potOn := rho, ne, nh, hsml, pot;
    var acceOn, endtOn := acce, endt;
    if tstp {
      rhoOn, neOn, nhOn, hsmlOn, potOn, acceOn, endtOn := true, true, true, true, Some(true), true, true;
      optional := optional[Tstp := Filled([n], 0.0)];
    }
    if endtOn {
      rhoOn, neOn, nhOn, hsmlOn, potOn, acceOn := true, true, true, true, Some(true), true;
      optional := optional[Endt := Filled([g], 0.0)];
    }
    if acceOn {
      rhoOn, neOn, nhOn, hsmlOn, potOn := true, true, true, true, Some(true);
      optional := optional[Acce := Filled([n], 0.0)];
    }
  }

  /** The `if pot`, `if hsml`, `if nh`, `if ne` and `if rho` steps, on
      top of what the upper steps allocated. */
  method EnableLower(n: nat, g: nat, rho: bool, ne: bool, nh: bool, hsml: bool, pot: bool,
                     upper: map<Field, Array<real>>)
    returns (optional: map<Field, Array<real>>)
    requires (forall f :: f in upper ==> Rank(f) >= 5) && ZeroFilled(upper, n, g)
    ensures var low := if pot then 4 else if hsml then 3 else if nh then 2 else if ne then 1 else if rho then 0 else -1;
      forall f :: f in optional <==> f in upper || Rank(f) <= low
    ensures ZeroFilled(optional, n, g)
  {
    optional := upper;
    var rhoOn, neOn, nhOn, hsmlOn := rho, ne, nh, hsml;
    if pot {
      rhoOn, neOn, nhOn, hsmlOn := true, true, true, true;
      optional := optional[Pot := Filled([n], 0.0)];
    }
    if hsmlOn {
      rhoOn, neOn, nhOn := true, true, true;
      optional := optional[Hsml := Filled([g], 0.0)];
    }
    if nhOn {
      rhoOn, neOn := true, true;
      optional := optional[Nh := Filled([g], 0.0)];
    }
    if neOn {
      rhoOn := true;
      optional := optional[Ne := Filled([g], 0.0)];
    }
    if rhoOn {
      optional := optional[Rho := Filled([g], 0.0)];
    }
    forall f ensures f in optional <==> f in upper || Rank(f) <= (if pot then 4 else if hsml then 3 else if nh then 2 else if ne then 1 else if rho then 0 else -1) {
      match f
      case Rho => case Ne => case Nh => case Hsml => case Pot => case Acce => case Endt => case Tstp =>
    }
  }

  /** A successful construction allocates the base arrays at their sizes
      (no zero-particle check in this variant) and exactly the closure of
      the requested fields, each at its extent. */
  lemma BodyAllocation(npart: seq<int>, req: set<Field>)
    requires BodyAsWritten(npart, req).Ok?
    ensures var b, n, g := BodyAsWritten(npart, req).value, Sum(npart), npart[0];
      && b.pos.shape == [n, 3] && b.vel.shape == [n, 3] && b.id.shape == [n] && b.mass.shape == [n]
      && b.u.shape == [g]
      && b.optional.Keys == Closure(req)
      && (forall f :: f in b.optional ==> b.optional[f].shape == [Extent(f, n, g)])
  {
  }

  /** Whatever was requested, a constructed body holds the potential and
      every field below it: `pot` is only ever bound by a flag above it. */
  lemma AsWrittenAllocatesPot(npart: seq<int>, req: set<Field>)
    requires BodyAsWritten(npart, req).Ok?
    ensures {Rho, Ne, Nh, Hsml, Pot, Acce} <= BodyAsWritten(npart, req).value.optional.Keys
    ensures DownwardClosed(BodyAsWritten(npart, req).value.optional.Keys)
    ensures req <= BodyAsWritten(npart, req).value.optional.Keys
  {
    BodyAllocation(npart, req);
    ClosureIsLeast(req, {});
    assert Top(req) >= 5;
    forall f | f in {Rho, Ne, Nh, Hsml, Pot, Acce} ensures f in Closure(req) {
      assert Rank(f) <= 5;
    }
  }

  /** Requesting `tstp` allocates all eight optional fields: tstp, acce
      and pot with N entries, endt, hsml, nh, ne and rho with G. */
  lemma TstpAllocatesAll(npart: seq<int>, req: set<Field>)
    requires |npart| > 0 && Sum(npart) >= 0 && npart[0] >= 0 && Tstp in req
    ensures BodyAsWritten(npart, req).Ok?
    ensures BodyAsWritten(npart, req).value.optional.Keys == AllFields
  {
    assert BodyAsWritten(npart, req).Ok?;
    BodyAllocation(npart, req);
    FullClosure(req);
  }

  /** Below the top rank lies every field. */
  lemma FullClosure(req: set<Field>)
    requires Tstp in req
    ensures Closure(req) == AllFields
  {
    assert Top(req) == 7;
    forall f | f in AllFields ensures f in Closure(req) {
      assert Rank(f) <= 7;
    }
  }

  /** Construction fails on the unbound `pot` exactly when none of tstp,
      endt and acce is requested (once the arrays could be allocated). */
  lemma PotUnboundIff(npart: seq<int>, req: set<Field>)
    requires |npart| > 0 && Sum(npart) >= 0 && npart[0] >= 0
    ensures BodyAsWritten(npart, req).Err? <==> Tstp !in req && Endt !in req && Acce !in req
    ensures BodyAsWritten(npart, req).Err? ==> BodyAsWritten(npart, req).error == UnboundLocalError("pot")
    ensures BodyAsWritten(npart, req).Ok? ==> BodyAsWritten(npart, req) == IntendedBody(npart, req)
  {
  }

  /** The example's counts with only the density requested: the written
      constructor fails, the intended one allocates just `rho`. */
  lemma PotUnboundExample()
    ensures BodyAsWritten([1, 2, 0, 0, 0, 0], {Rho}) == Err(UnboundLocalError("pot"))
    ensures IntendedBody([1, 2, 0, 0, 0, 0], {Rho}).Ok?
    ensures IntendedBody([1, 2, 0, 0, 0, 0], {Rho}).value.optional.Keys == {Rho}
  {
    var keys := IntendedBody([1, 2, 0, 0, 0, 0], {Rho}).value.optional.Keys;
    assert Rho in keys;
    forall f | f in keys ensures f == Rho {
      match f
      case Rho => case Ne => case Nh => case Hsml => case Pot => case Acce => case Endt => case Tstp =>
    }
  }

  /** A zero-particle request is not rejected here, unlike write.py's `Body`. */
  lemma NoZeroParticleCheck()
    ensures BodyAsWritten([0, 0, 0, 0, 0, 0], {Tstp}).Ok?
    ensures BodyAsWritten([0, 0, 0, 0, 0, 0], {Tstp}).value.pos.shape == [0, 3]
  {
  }

  /** The legacy `write_header` as written: io.py never imports `struct`,
      so the first `struct.pack` raises and nothing reaches the file. */
  function HeaderWriteAsWritten(h: Header, c: FloatCodec, start: nat): Written {
    Written([], Fail(NameError("struct")))
  }

  /** The legacy `write_header` with `struct` imported: the record of
      write.py, but on a failed position check the message
      `'... %d' % icfile.tell()-8` formats first and subtracts 8 from the
      string, raising TypeError before `sys.exit` is reached. */
  function HeaderWriteWithStruct(h: Header, c: FloatCodec, start: nat): Written
    requires c.Sound()
  {
    if !Indexable(h) then Truncated(h, c)
    else Written(HeaderBlock(h, c, start), if HeaderAccepted(h, c, start) then Pass else Fail(TypeError))
  }

  /** The legacy `write_header` as intended: on a failed check it prints
      the header length and exits. */
  function HeaderWriteFixed(h: Header, c: FloatCodec, start: nat): Written
    requires c.Sound()
  {
    if !Indexable(h) then Truncated(h, c)
    else Written(HeaderBlock(h, c, start), if HeaderAccepted(h, c, start) then Pass else Fail(SystemExit))
  }

  /** `write_header(header, icfile)` of io.py as written. */
  method WriteHeader(h: Header, f: IcFile, c: FloatCodec) returns (r: Outcome)
    requires c.Sound() && !f.closed
    modifies f
    ensures f.bytes == old(f.bytes) + HeaderWriteAsWritten(h, c, old(|f.bytes|)).bytes
    ensures r == HeaderWriteAsWritten(h, c, old(|f.bytes|)).outcome
  {
    r := Fail(NameError("struct"));
  }

  /** io.py's `write_header` with `struct` imported. */
  method WriteHeaderWithStruct(h: Header, f: IcFile, c: FloatCodec) returns (r: Outcome)
    requires c.Sound() && !f.closed
    modifies f
    ensures f.bytes == old(f.bytes) + HeaderWriteWithStruct(h, c, old(|f.bytes|)).bytes && !f.closed
    ensures r == HeaderWriteWithStruct(h, c, old(|f.bytes|)).outcome
  {
    var accepted;
    r, accepted := WriteHeaderBlock(h, f, c);
    if r.Fail? {
      return;
    }
    if !accepted {
      return Fail(TypeError);
    }
  }

  /** io.py's `write_header` with `struct` imported and the message fixed. */
  method WriteHeaderFixed(h: Header, f: IcFile, c: FloatCodec) returns (r: Outcome)
    requires c.Sound() && !f.closed
    modifies f
    ensures f.bytes == old(f.bytes) + HeaderWriteFixed(h, c, old(|f.bytes|)).bytes && !f.closed
    ensures r == HeaderWriteFixed(h, c, old(|f.bytes|)).outcome
  {
    var accepted;
    r, accepted := WriteHeaderBlock(h, f, c);
    if r.Fail? {
      return;
    }
    if !accepted {
      return Fail(SystemExit);
    }
  }

  /** As written, the legacy header writer never writes: at the start of
      a file it leaves zero bytes and a NameError, where the fixed one
      writes the 264-byte record and returns normally. */
  lemma MissingStructImport(h: Header, c: FloatCodec)
    requires c.Sound() && Indexable(h)
    ensures HeaderWriteAsWritten(h, c, 0) == Written([], Fail(NameError("struct")))
    ensures |HeaderWriteFixed(h, c, 0).bytes| == 264 && HeaderWriteFixed(h, c, 0).outcome == Pass
  {
    HeaderAtFileStart(h, c);
  }

  /** The fixed legacy writer lays out the same record as write.py's and
      accepts the same start offsets; only the failure differs: exit
      instead of "Header has wrong format". */
  lemma LegacyHeaderSameLayout(h: Header, c: FloatCodec, start: nat)
    requires c.Sound()
    ensures HeaderWriteFixed(h, c, start).bytes == HeaderWrite(h, c, start).bytes
    ensures HeaderWriteFixed(h, c, start).outcome.Pass? <==> Indexable(h) && start <= 88
    ensures HeaderWrite(h, c, start).outcome.Pass? <==> Indexable(h) && start <= 88
    ensures Indexable(h) && start > 88 ==> HeaderWriteFixed(h, c, start).outcome == Fail(SystemExit)
    ensures !Indexable(h) ==> HeaderWriteFixed(h, c, start) == HeaderWrite(h, c, start)
  {
    if Indexable(h) {
      HeaderAcceptedIff(h, c, start);
    }
  }

  /** With `struct` imported, a header started past offset 88 raises
      TypeError from the error message itself instead of exiting. */
  lemma MessagePrecedence(h: Header, c: FloatCodec, start: nat)
    requires c.Sound()
    ensures Indexable(h) && start > 88 ==> HeaderWriteWithStruct(h, c, start).outcome == Fail(TypeError)
    ensures Indexable(h) && start > 88 ==> HeaderWriteFixed(h, c, start).outcome == Fail(SystemExit)
    ensures !Indexable(h) || start <= 88 ==> HeaderWriteWithStruct(h, c, start) == HeaderWriteFixed(h, c, start)
    ensures HeaderWriteWithStruct(h, c, start).bytes == HeaderWriteFixed(h, c, start).bytes
  {
    if Indexable(h) {
      HeaderAcceptedIff(h, c, start);
    }
  }
}
