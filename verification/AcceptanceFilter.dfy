/** The acceptance filter of the PEAK driver: one code/mask pair that stands for a whole set
    of node ids, recomputed and programmed as ids are added and deleted. */
module AcceptanceFilter {
  import opened Wrappers

  /** A message passes if it differs from the code in masked bits only. */
  datatype Filter = Filter(code: bv32, mask: bv32) {
    predicate Passes(cob: bv32) { Part(cob, Cared()) == code }

    /** The bits that matter. */
    function Cared(): bv32 { !mask }
  }

  /** The function code of an 11-bit COB-ID, above the 7 bits of the node id. */
  const FUNCTION_BITS: bv32 := 0x780

  const ID_BITS: bv32 := 0x7F

  const COB_BITS: bv32 := 0x7FF

  /** A COB-ID that carries a node id. */
  predicate Carries(cob: bv32, id: bv32) { cob <= COB_BITS && cob & ID_BITS == id & ID_BITS }

  // ---------------------------------------------------------------- bits of words

  function Part(w: bv32, m: bv32): bv32 { w & m }

  /** All bits of `m` are set in `w`. */
  predicate Covers(w: bv32, m: bv32) { w & m == m }

  predicate Clear(w: bv32, m: bv32) { w & m == 0 }

  predicate Agree(v: bv32, w: bv32, m: bv32) { v & m == w & m }

  predicate AllCover(ids: set<bv32>, m: bv32) { forall x | x in ids :: Covers(x, m) }

  predicate AllAgree(ids: set<bv32>, m: bv32) { forall x, y | x in ids && y in ids :: Agree(x, y, m) }

  /** The code has the bits that all ids have. */
  ghost predicate IsCode(ids: set<bv32>, code: bv32) {
    forall m: bv32 :: Covers(code, m) <==> AllCover(ids, m)
  }

  /** The mask has the bits of the function code and those on which two ids differ. */
  ghost predicate IsMask(ids: set<bv32>, mask: bv32) {
    forall m: bv32 :: Clear(mask, m) <==> Clear(FUNCTION_BITS, m) && AllAgree(ids, m)
  }

  ghost predicate IsFilter(ids: set<bv32>, f: Filter) {
    if ids == {} then f == Filter(0, FUNCTION_BITS) else IsCode(ids, f.code) && IsMask(ids, f.mask)
  }

  lemma AndIsAssociative(u: bv32, v: bv32, w: bv32)
    ensures (u & v) & w == u & (v & w)
  {
  }

  lemma AndIsIdempotent(v: bv32, w: bv32, m: bv32)
    ensures v & ((v & w) & m) == (v & w) & m
    ensures w & ((v & w) & m) == (v & w) & m
  {
  }

  lemma AndOverOr(v: bv32, w: bv32, m: bv32)
    ensures (v | w) & m == (v & m) | (w & m)
  {
  }

  lemma AndOverXor(v: bv32, w: bv32, m: bv32)
    ensures (v ^ w) & m == (v & m) ^ (w & m)
  {
  }

  lemma OrIsZero(v: bv32, w: bv32)
    ensures v | w == 0 <==> v == 0 && w == 0
  {
  }

  lemma XorIsZero(v: bv32, w: bv32)
    ensures v ^ w == 0 <==> v == w
  {
  }

  lemma SplitBy(mask: bv32, m: bv32)
    ensures m == (mask & m) | (!mask & m)
    ensures mask & m == 0 ==> !mask & m == m
  {
  }

  lemma {:induction false} CoversBoth(v: bv32, w: bv32, m: bv32)
    ensures Covers(v & w, m) <==> Covers(v, m) && Covers(w, m)
  {
    if Covers(v & w, m) {
      CoversEach(v, w, m);
    } else if Covers(w, m) {
      AndIsAssociative(v, w, m);
    }
  }

  lemma CoversEach(v: bv32, w: bv32, m: bv32)
    requires Covers(v & w, m)
    ensures Covers(v, m) && Covers(w, m)
  {
    AndIsIdempotent(v, w, m);
  }

  lemma CoversMutually(v: bv32, w: bv32)
    requires Covers(v, w) && Covers(w, v)
    ensures v == w
  {
  }

  lemma ClearMutually(v: bv32, w: bv32)
    requires Clear(v, !w) && Clear(w, !v)
    ensures v == w
  {
  }

  lemma Reflexive(v: bv32)
    ensures Covers(v, v) && Clear(v, !v)
  {
  }

  /** The step of the loop, on the bits that are not masked yet. */
  lemma {:induction false} MaskStepBits(mask: bv32, prev: bv32, id: bv32, m: bv32)
    ensures Clear(mask | ((prev & !mask) ^ id), m) <==> Clear(mask, m) && Agree(prev, id, m)
  {
    var d := (prev & !mask) ^ id;
    AndOverOr(mask, d, m);
    OrIsZero(mask & m, d & m);
    if Clear(mask, m) {
      SplitBy(mask, m);
      AndIsAssociative(prev, !mask, m);
      AndOverXor(prev & !mask, id, m);
      XorIsZero(prev & m, id & m);
    }
  }

  /** A set of ids determines its filter: the order in which they are visited is irrelevant. */
  lemma FilterIsUnique(ids: set<bv32>, f: Filter, g: Filter)
    requires IsFilter(ids, f) && IsFilter(ids, g)
    ensures f == g
  {
    hide Covers, Clear, AllCover, AllAgree;
    if ids != {} {
      Reflexive(f.code);
      Reflexive(g.code);
      Reflexive(f.mask);
      Reflexive(g.mask);
      CoversMutually(f.code, g.code);
      ClearMutually(f.mask, g.mask);
    }
  }

  lemma CodeStep(ids: set<bv32>, code: bv32, id: bv32)
    requires IsCode(ids, code)
    ensures IsCode(ids + {id}, code & id)
  {
    hide Covers;
    forall m: bv32 ensures Covers(code & id, m) <==> AllCover(ids + {id}, m) {
      CoversBoth(code, id, m);
      assert Covers(code, m) <==> AllCover(ids, m);
      assert AllCover(ids + {id}, m) ==> AllCover(ids, m) && id in ids + {id};
    }
  }

  lemma AgreementIsTransitive(v: bv32, w: bv32, x: bv32, m: bv32)
    requires Agree(v, w, m) && Agree(v, x, m)
    ensures Agree(w, x, m) && Agree(w, w, m) && Agree(w, v, m)
  {
  }

  lemma {:induction false} AgreementJoins(ids: set<bv32>, prev: bv32, id: bv32, m: bv32)
    requires prev in ids
    ensures AllAgree(ids + {id}, m) <==> AllAgree(ids, m) && Agree(prev, id, m)
  {
    hide Agree;
    if AllAgree(ids + {id}, m) {
      assert prev in ids + {id} && id in ids + {id};
    }
    if AllAgree(ids, m) && Agree(prev, id, m) {
      forall x, y | x in ids + {id} && y in ids + {id} ensures Agree(x, y, m) {
        assert Agree(prev, x, m) && Agree(prev, y, m);
        AgreementIsTransitive(prev, x, y, m);
      }
    }
  }

  lemma {:induction false} MaskStep(ids: set<bv32>, mask: bv32, prev: bv32, id: bv32)
    requires IsMask(ids, mask) && prev in ids
    ensures IsMask(ids + {id}, mask | ((prev & !mask) ^ id))
  {
    hide Clear, Agree, AllAgree;
    var mask' := mask | ((prev & !mask) ^ id);
    forall m: bv32 ensures Clear(mask', m) <==> Clear(FUNCTION_BITS, m) && AllAgree(ids + {id}, m) {
      MaskStepBits(mask, prev, id, m);
      AgreementJoins(ids, prev, id, m);
      assert Clear(mask, m) <==> Clear(FUNCTION_BITS, m) && AllAgree(ids, m);
    }
  }

  lemma NothingVisited()
    ensures IsCode({}, !0)
  {
    forall m: bv32 ensures Covers(!0, m) <==> AllCover({}, m) { assert !0 & m == m; }
  }

  lemma OneVisited(id: bv32)
    ensures IsMask({id}, FUNCTION_BITS)
  {
    hide Agree, Clear;
    forall m: bv32 ensures AllAgree({id}, m) {
      forall x, y | x in {id} && y in {id} ensures Agree(x, y, m) { AgreesWithItself(x, m); }
    }
  }

  lemma AgreesWithItself(x: bv32, m: bv32)
    ensures Agree(x, x, m)
  {
  }

  lemma NotEmpty(ids: set<bv32>)
    requires ids != {}
    ensures exists id :: id in ids
  {
    assert (forall id: bv32 :: id !in ids) ==> ids == {};
  }

  /** Visits the ids in any order, comparing each with the one before. */
  method ComputeAcceptanceCodeAndMask(ids: set<bv32>) returns (f: Filter)
    ensures IsFilter(ids, f)
  {
    hide IsCode, IsMask;
    var mask: bv32 := !0x7F & 0x07FF;
    assert mask == FUNCTION_BITS;
    if ids == {} { return Filter(0, mask); }
    var code: bv32 := !0;
    var prev: bv32 := 0;
    var firstRun := true;
    var rest := ids;
    NothingVisited();
    assert ids - rest == {};
    while rest != {}
      invariant rest <= ids && IsCode(ids - rest, code)
      invariant firstRun <==> rest == ids
      invariant if firstRun then mask == FUNCTION_BITS else prev in ids - rest && IsMask(ids - rest, mask)
      decreases rest
    {
      NotEmpty(rest);
      var id :| id in rest;
      CodeStep(ids - rest, code, id);
      code := code & id;
      if !firstRun {
        MaskStep(ids - rest, mask, prev, id);
        mask := mask | ((prev & !mask) ^ id);
      } else {
        OneVisited(id);
        assert ids - rest + {id} == {id};
      }
      assert ids - (rest - {id}) == ids - rest + {id};
      rest := rest - {id};
      prev := id;
      firstRun := false;
    }
    assert ids - rest == ids;
    f := Filter(code, mask);
  }

  // ---------------------------------------------------------------- what passes

  lemma DifferencesAreMasked(ids: set<bv32>, f: Filter)
    requires ids != {} && IsFilter(ids, f)
    ensures Clear(FUNCTION_BITS, f.Cared()) && AllAgree(ids, f.Cared())
  {
    Reflexive(f.mask);
  }

  lemma AgreeWhereCared(ids: set<bv32>, f: Filter, x: bv32, y: bv32)
    requires x in ids && y in ids && IsFilter(ids, f)
    ensures Agree(x, y, f.Cared())
  {
    hide Clear, Agree, IsFilter, Filter.Cared;
    DifferencesAreMasked(ids, f);
  }

  lemma CodeIsCommon(ids: set<bv32>, f: Filter, id: bv32)
    requires id in ids && IsFilter(ids, f)
    ensures Covers(id, f.code)
  {
    Reflexive(f.code);
    assert AllCover(ids, f.code);
  }

  lemma AgreeingPart(v: bv32, w: bv32, m: bv32)
    requires Agree(v, w, m)
    ensures Covers(w, Part(v, m))
  {
    assert w & (w & m) == w & m;
  }

  lemma Sandwich(id: bv32, code: bv32, m: bv32)
    requires Covers(id, code) && Covers(code, Part(id, m))
    ensures Agree(id, code, m)
  {
    assert code & (id & m) == (id & code) & m;
  }

  /** Where it matters, the code and any id are the same. */
  lemma AgreesWithCode(ids: set<bv32>, f: Filter, id: bv32)
    requires id in ids && IsFilter(ids, f)
    ensures Agree(id, f.code, f.Cared())
  {
    hide Clear, Covers, Agree, AllAgree, IsFilter, Part, Filter.Cared;
    var m := Part(id, f.Cared());
    CodeIsCommon(ids, f, id);
    forall x | x in ids ensures Covers(x, m) {
      AgreeWhereCared(ids, f, id, x);
      AgreeingPart(id, x, f.Cared());
    }
    CodeCovers(ids, f, m);
    Sandwich(id, f.code, f.Cared());
  }

  /** The code is that of a node id. */
  predicate Sound(f: Filter) { f.code & !ID_BITS == 0 }

  /** The masked bits of the code outside the function code. */
  function Stray(f: Filter): bv32 { (f.code & f.mask) & !FUNCTION_BITS }

  /** There are none: the bits of the code are common to all ids. */
  predicate MaskedInFunction(f: Filter) { Stray(f) == 0 }

  lemma CodeIsCared(ids: set<bv32>, f: Filter)
    requires ids != {} && IsFilter(ids, f)
    ensures MaskedInFunction(f)
  {
    hide *;
    StrayIsCode(f);
    CodeCovers(ids, f, Stray(f));
    CoveringAgree(ids, Stray(f));
    AgreementIsUnmasked(ids, f, Stray(f));
    StrayIsZero(f);
  }

  lemma StrayIsCode(f: Filter)
    ensures Covers(f.code, Stray(f)) && Clear(FUNCTION_BITS, Stray(f))
  {
  }

  lemma CodeCovers(ids: set<bv32>, f: Filter, m: bv32)
    requires ids != {} && IsFilter(ids, f)
    ensures Covers(f.code, m) <==> AllCover(ids, m)
  {
    hide Covers, AllCover;
  }

  lemma AgreementIsUnmasked(ids: set<bv32>, f: Filter, m: bv32)
    requires ids != {} && IsFilter(ids, f)
    ensures Clear(f.mask, m) <==> Clear(FUNCTION_BITS, m) && AllAgree(ids, m)
  {
    hide Clear, AllAgree;
  }

  lemma StrayIsZero(f: Filter)
    requires Clear(f.mask, Stray(f))
    ensures MaskedInFunction(f)
  {
    var code, mask := f.code, f.mask;
    assert mask & ((code & mask) & !FUNCTION_BITS) == (code & mask) & !FUNCTION_BITS;
  }

  lemma CoveringAgree(ids: set<bv32>, m: bv32)
    requires AllCover(ids, m)
    ensures AllAgree(ids, m)
  {
  }

  lemma CarriedBits(cob: bv32, id: bv32, cared: bv32)
    requires Carries(cob, id) && Clear(FUNCTION_BITS, cared)
    ensures Part(cob, cared) == Part(Part(id, cared), ID_BITS)
  {
    assert cob == (cob & ID_BITS) | (cob & FUNCTION_BITS);
    AndOverOr(cob & ID_BITS, cob & FUNCTION_BITS, cared);
    assert (cob & FUNCTION_BITS) & cared == cob & (FUNCTION_BITS & cared);
    assert (cob & ID_BITS) & cared == ((cob & ID_BITS) & cared) & ID_BITS;
    assert ((id & ID_BITS) & cared) & ID_BITS == (id & cared) & ID_BITS;
  }

  lemma SoundCode(f: Filter)
    requires Sound(f) && MaskedInFunction(f)
    ensures Part(Part(f.code, f.Cared()), ID_BITS) == f.code
  {
    var code, mask := f.code, f.mask;
    assert code & ID_BITS == code by { SplitBy(ID_BITS, code); }
    assert (code & mask) & ID_BITS == ((code & mask) & !FUNCTION_BITS) & ID_BITS;
    assert code & ID_BITS == ((code & mask) & ID_BITS) | ((code & !mask) & ID_BITS);
  }

  lemma UnsoundCode(cob: bv32, f: Filter)
    requires cob <= COB_BITS && Clear(FUNCTION_BITS, f.Cared()) && Part(cob, f.Cared()) == f.code
    ensures Sound(f)
  {
    var cared := f.Cared();
    assert cob & !ID_BITS == cob & FUNCTION_BITS;
    assert (cob & cared) & !ID_BITS == (cob & !ID_BITS) & cared;
    assert (cob & FUNCTION_BITS) & cared == cob & (FUNCTION_BITS & cared);
  }

  lemma SoundPass(ids: set<bv32>, f: Filter, id: bv32, cob: bv32)
    requires IsFilter(ids, f) && id in ids
    ensures Carries(cob, id) && Sound(f) ==> f.Passes(cob)
    ensures cob <= COB_BITS && f.Passes(cob) ==> Sound(f)
  {
    hide *;
    DifferencesAreMasked(ids, f);
    if Carries(cob, id) && Sound(f) {
      CarriedBits(cob, id, f.Cared());
      AgreesWithCode(ids, f, id);
      CodeIsCared(ids, f);
      SoundCode(f);
      ThroughCode(id, f.code, f.Cared());
      PassesMeans(f, cob);
    }
    if cob <= COB_BITS && f.Passes(cob) {
      PassesMeans(f, cob);
      UnsoundCode(cob, f);
    }
  }

  lemma PassesMeans(f: Filter, cob: bv32)
    ensures f.Passes(cob) <==> Part(cob, f.Cared()) == f.code
  {
  }

  lemma ThroughCode(id: bv32, code: bv32, cared: bv32)
    requires Agree(id, code, cared)
    ensures Part(Part(id, cared), ID_BITS) == Part(Part(code, cared), ID_BITS)
  {
  }

  /** No bit above those of a node id is common to all ids. */
  ghost predicate NoCommonHighBit(ids: set<bv32>) {
    forall m: bv32 :: AllCover(ids, m) && Part(m, ID_BITS) == 0 ==> m == 0
  }

  /** The bits of a code above those of a node id. */
  function HighPart(f: Filter): bv32 { f.code & !ID_BITS }

  lemma HighPartIsHigh(f: Filter)
    ensures Covers(f.code, HighPart(f)) && Part(HighPart(f), ID_BITS) == 0 && (HighPart(f) == 0 <==> Sound(f))
  {
  }

  lemma NothingHigh(f: Filter, m: bv32)
    requires Sound(f) && Covers(f.code, m) && Part(m, ID_BITS) == 0
    ensures m == 0
  {
    SplitBy(ID_BITS, f.code);
    assert (f.code & ID_BITS) & m == f.code & (m & ID_BITS);
    AndOverOr(ID_BITS & f.code, !ID_BITS & f.code, m);
  }

  /** Whether the filter works at all can be told from the ids. */
  lemma SoundIff(ids: set<bv32>, f: Filter)
    requires ids != {} && IsFilter(ids, f)
    ensures Sound(f) <==> NoCommonHighBit(ids)
  {
    hide Covers, AllCover, Part, Sound, HighPart, IsFilter;
    if Sound(f) {
      forall m: bv32 | AllCover(ids, m) && Part(m, ID_BITS) == 0 ensures m == 0 {
        CodeCovers(ids, f, m);
        NothingHigh(f, m);
      }
    }
    HighPartIsHigh(f);
    CodeCovers(ids, f, HighPart(f));
  }

  /** A message that carries a listed id passes if and only if no bit above those of a node id
      is common to all ids; otherwise no message passes at all. */
  lemma ListedPass(ids: set<bv32>, f: Filter, id: bv32, cob: bv32)
    requires IsFilter(ids, f) && id in ids
    ensures Carries(cob, id) ==> (f.Passes(cob) <==> NoCommonHighBit(ids))
    ensures cob <= COB_BITS && f.Passes(cob) ==> NoCommonHighBit(ids)
  {
    hide *;
    SoundPass(ids, f, id, cob);
    SoundIff(ids, f);
    CarriesMeans(cob, id);
  }

  /** Node ids have 7 bits; one of them is enough. */
  lemma NodeIdsAreSound(ids: set<bv32>, id: bv32)
    requires id in ids && id <= ID_BITS
    ensures NoCommonHighBit(ids)
  {
    hide Covers, Part;
    forall m: bv32 | AllCover(ids, m) && Part(m, ID_BITS) == 0 ensures m == 0 {
      assert Covers(id, m);
      LowCover(id, m);
    }
  }

  lemma LowCover(id: bv32, m: bv32)
    requires id <= ID_BITS && Covers(id, m) && Part(m, ID_BITS) == 0
    ensures m == 0
  {
    assert id & ID_BITS == id;
    assert (id & ID_BITS) & m == id & (m & ID_BITS);
  }

  /** The message agrees with a listed id on every bit, but for the function code, on which all
      listed ids agree. */
  ghost predicate AgreesWhereAllDo(ids: set<bv32>, id: bv32, cob: bv32) {
    forall m: bv32 :: Clear(FUNCTION_BITS, m) && AllAgree(ids, m) ==> Agree(cob, id, m)
  }

  lemma CodeThroughMask(f: Filter)
    requires Sound(f) && MaskedInFunction(f)
    ensures Part(f.code, f.Cared()) == f.code
  {
    var code, mask := f.code, f.mask;
    SplitBy(ID_BITS, code);
    assert code & mask == ((ID_BITS & code) & mask) | ((!ID_BITS & code) & mask) by {
      AndOverOr(ID_BITS & code, !ID_BITS & code, mask);
    }
    assert (ID_BITS & code) & mask == ID_BITS & ((code & mask) & !FUNCTION_BITS);
    SplitBy(mask, code);
  }

  lemma CaredAgree(f: Filter, v: bv32, w: bv32, m: bv32)
    requires Agree(v, w, f.Cared()) && Clear(f.mask, m)
    ensures Agree(v, w, m)
  {
    hide Part, Agree;
    CaredTwice(f, v, m);
    CaredTwice(f, w, m);
    AgreeMeansPart(v, w, f.Cared());
    AgreeMeansPart(v, w, m);
  }

  lemma AgreeMeansPart(v: bv32, w: bv32, m: bv32)
    ensures Agree(v, w, m) <==> Part(v, m) == Part(w, m)
  {
  }

  lemma PartTwice(w: bv32, m: bv32)
    ensures Part(Part(w, m), m) == Part(w, m)
  {
  }

  /** Exactly which messages pass. */
  lemma PassesExactly(ids: set<bv32>, f: Filter, id: bv32, cob: bv32)
    requires IsFilter(ids, f) && id in ids && cob <= COB_BITS
    ensures f.Passes(cob) <==> NoCommonHighBit(ids) && AgreesWhereAllDo(ids, id, cob)
  {
    hide *;
    SoundIff(ids, f);
    DifferencesAreMasked(ids, f);
    AgreesWithCode(ids, f, id);
    AgreeMeansPart(id, f.code, f.Cared());
    AgreeMeansPart(cob, id, f.Cared());
    PassesMeans(f, cob);
    if f.Passes(cob) {
      SoundPass(ids, f, id, cob);
      PartTwice(cob, f.Cared());
      AgreesFromCared(ids, f, id, cob);
    }
    if Sound(f) && AgreesWhereAllDo(ids, id, cob) {
      CodeIsCared(ids, f);
      CodeThroughMask(f);
      AgreesAtCared(ids, f, id, cob);
    }
  }

  lemma AgreesFromCared(ids: set<bv32>, f: Filter, id: bv32, cob: bv32)
    requires ids != {} && IsFilter(ids, f) && Agree(cob, id, f.Cared())
    ensures AgreesWhereAllDo(ids, id, cob)
  {
    hide Clear, AllAgree, Agree, IsFilter;
    forall m: bv32 | Clear(FUNCTION_BITS, m) && AllAgree(ids, m) ensures Agree(cob, id, m) {
      AgreementIsUnmasked(ids, f, m);
      CaredAgree(f, cob, id, m);
    }
  }

  lemma AgreesAtCared(ids: set<bv32>, f: Filter, id: bv32, cob: bv32)
    requires ids != {} && IsFilter(ids, f) && AgreesWhereAllDo(ids, id, cob)
    ensures Agree(cob, id, f.Cared())
  {
    hide Clear, AllAgree, Agree, IsFilter, Filter.Cared;
    DifferencesAreMasked(ids, f);
  }

  // ---------------------------------------------------------------- no filter is tighter

  ghost predicate AdmitsAll(g: Filter, ids: set<bv32>) {
    forall id, cob: bv32 | id in ids && Carries(cob, id) :: g.Passes(cob)
  }

  function Bare(id: bv32): bv32 { id & ID_BITS }

  lemma BareCarries(id: bv32)
    ensures Carries(Bare(id), id) && Carries(Bare(id) | FUNCTION_BITS, id)
  {
    assert (id & ID_BITS) & ID_BITS == id & ID_BITS;
    AndOverOr(id & ID_BITS, FUNCTION_BITS, ID_BITS);
  }

  /** What two messages that pass have in common. */
  lemma BothPass(g: Filter, v: bv32, w: bv32)
    requires g.Passes(v) && g.Passes(w)
    ensures Agree(v, w, g.Cared())
  {
  }

  /** A filter that admits every message of an id cannot care about function codes. */
  lemma FunctionIsMasked(g: Filter, id: bv32)
    requires Agree(Bare(id), Bare(id) | FUNCTION_BITS, g.Cared())
    ensures Clear(FUNCTION_BITS, g.Cared())
  {
    var c, v := g.Cared(), id & ID_BITS;
    AndOverOr(v, FUNCTION_BITS, c);
    assert FUNCTION_BITS & v == 0;
    assert FUNCTION_BITS & c == FUNCTION_BITS & ((v & c) | (FUNCTION_BITS & c));
    assert FUNCTION_BITS & (v & c) == (FUNCTION_BITS & v) & c;
  }

  /** The bits of an id that a filter cares about. */
  function IdPart(g: Filter): bv32 { g.Cared() & ID_BITS }

  lemma AgreeOnIdPart(g: Filter, x: bv32, y: bv32)
    requires Agree(Bare(x), Bare(y), g.Cared())
    ensures Agree(x, y, IdPart(g))
  {
    var c := g.Cared();
    assert x & (c & ID_BITS) == (x & ID_BITS) & c;
    assert y & (c & ID_BITS) == (y & ID_BITS) & c;
  }

  lemma IdPartIsNoFunction(g: Filter)
    ensures Clear(FUNCTION_BITS, IdPart(g))
  {
    assert FUNCTION_BITS & (g.Cared() & ID_BITS) == (FUNCTION_BITS & ID_BITS) & g.Cared();
  }

  /** Two messages that agree where one filter cares pass another that cares about less. */
  lemma LessCaring(f: Filter, g: Filter, v: bv32, w: bv32)
    requires v <= COB_BITS && w <= COB_BITS
    requires f.Passes(v) && f.Passes(w) && g.Passes(w)
    requires Clear(f.mask, IdPart(g)) && Clear(FUNCTION_BITS, g.Cared())
    ensures g.Passes(v)
  {
    hide Filter.Passes;
    BothPass(f, v, w);
    OnIdPart(f, g, v);
    OnIdPart(f, g, w);
    LessCaringBits(f, g, v, w);
  }

  lemma CaredOfId(g: Filter, v: bv32)
    requires v <= COB_BITS && Clear(FUNCTION_BITS, g.Cared())
    ensures Part(v, g.Cared()) == Part(v, IdPart(g))
  {
    var c := g.Cared();
    assert v == (v & ID_BITS) | (v & FUNCTION_BITS);
    AndOverOr(v & ID_BITS, v & FUNCTION_BITS, c);
    assert (v & FUNCTION_BITS) & c == v & (FUNCTION_BITS & c);
    assert (v & ID_BITS) & c == v & (c & ID_BITS);
  }

  lemma CaredTwice(f: Filter, v: bv32, m: bv32)
    requires Clear(f.mask, m)
    ensures Part(v, m) == Part(Part(v, f.Cared()), m)
  {
    SplitBy(f.mask, m);
    AndIsAssociative(v, !f.mask, m);
  }

  lemma OnIdPart(f: Filter, g: Filter, v: bv32)
    requires v <= COB_BITS && Clear(f.mask, IdPart(g)) && Clear(FUNCTION_BITS, g.Cared())
    ensures Part(v, g.Cared()) == Part(Part(v, f.Cared()), IdPart(g))
  {
    hide *;
    CaredOfId(g, v);
    CaredTwice(f, v, IdPart(g));
  }

  lemma LessCaringBits(f: Filter, g: Filter, v: bv32, w: bv32)
    requires Agree(v, w, f.Cared()) && g.Passes(w)
    requires Part(v, g.Cared()) == Part(Part(v, f.Cared()), IdPart(g))
    requires Part(w, g.Cared()) == Part(Part(w, f.Cared()), IdPart(g))
    ensures g.Passes(v)
  {
  }

  lemma AdmitsBare(g: Filter, ids: set<bv32>, id: bv32)
    requires AdmitsAll(g, ids) && id in ids
    ensures g.Passes(Bare(id)) && g.Passes(Bare(id) | FUNCTION_BITS)
  {
    hide Filter.Passes, Carries, Bare;
    BareCarries(id);
  }

  /** A filter that admits every message of every listed id admits whatever the computed one
      does. */
  lemma NoFilterIsTighter(ids: set<bv32>, f: Filter, g: Filter, cob: bv32)
    requires ids != {} && IsFilter(ids, f) && AdmitsAll(g, ids)
    requires cob <= COB_BITS && f.Passes(cob)
    ensures g.Passes(cob)
  {
    hide *;
    NotEmpty(ids);
    var id :| id in ids;
    SoundPass(ids, f, id, cob);
    BareCarries(id);
    CarriesMeans(Bare(id), id);
    SoundPass(ids, f, id, Bare(id));
    AdmitsBare(g, ids, id);
    BothPass(g, Bare(id), Bare(id) | FUNCTION_BITS);
    FunctionIsMasked(g, id);
    AdmittedAgree(g, ids);
    IdPartIsNoFunction(g);
    AgreementIsUnmasked(ids, f, IdPart(g));
    LessCaring(f, g, cob, Bare(id));
  }

  lemma CarriesMeans(cob: bv32, id: bv32)
    ensures Carries(cob, id) ==> cob <= COB_BITS
  {
  }

  lemma AdmittedAgree(g: Filter, ids: set<bv32>)
    requires AdmitsAll(g, ids)
    ensures AllAgree(ids, IdPart(g))
  {
    hide Filter.Passes, Carries, Bare, Agree, IdPart, AdmitsAll;
    forall x, y | x in ids && y in ids ensures Agree(x, y, IdPart(g)) {
      AdmitsBare(g, ids, x);
      AdmitsBare(g, ids, y);
      BothPass(g, Bare(x), Bare(y));
      AgreeOnIdPart(g, x, y);
    }
  }

  /** A tight filter is not an exact one: an id that is not listed may pass. */
  lemma StrangerPasses(f: Filter)
    requires IsFilter({1, 2}, f)
    ensures f.Passes(3)
  {
    var none: set<bv32>, one: set<bv32> := {}, {1};
    var code: bv32 := !0;
    NothingVisited();
    CodeStep(none, code, 1);
    assert none + {1} == one;
    CodeStep(one, code & 1, 2);
    OneVisited(1);
    MaskStep(one, FUNCTION_BITS, 1, 2);
    assert one + {2} == {1, 2};
    FilterIsUnique({1, 2}, f, Filter(0, 0x783));
  }

  // ---------------------------------------------------------------- the device

  class CanBusPeak {
    var activeFilters: set<bv32>
    /** What the driver is programmed with; without a filter, every message passes. */
    var programmed: Option<Filter>
    /** Outcomes of the calls to the driver; a call that fails changes nothing there. */
    var outcomes: seq<bool>

    /** The programmed filter is that of the listed ids. */
    ghost predicate Valid()
      reads this
    {
      if programmed.None? then activeFilters == {} else IsFilter(activeFilters, programmed.value)
    }

    constructor (outcomes: seq<bool>)
      ensures Valid() && activeFilters == {} && programmed.None? && this.outcomes == outcomes
    {
      activeFilters, programmed, this.outcomes := {}, None, outcomes;
    }

    method CallDriver(setting: Option<Filter>) returns (ok: bool)
      modifies this`programmed, this`outcomes
      ensures ok <==> old(outcomes == [] || outcomes[0])
      ensures programmed == if ok then setting else old(programmed)
    {
      ok := outcomes == [] || outcomes[0];
      if outcomes != [] { outcomes := outcomes[1..]; }
      if ok { programmed := setting; }
    }

    /** True means that the id is listed, and the filter is that of the set; otherwise nothing
        changes. */
    method CanIdAdd(id: bv32) returns (ok: bool)
      requires Valid()
      modifies this
      ensures Valid()
      ensures ok <==> old(id in activeFilters || outcomes == [] || outcomes[0])
      ensures activeFilters == if ok then old(activeFilters) + {id} else old(activeFilters)
      ensures ok && id !in old(activeFilters) ==> programmed.Some?
      ensures !ok || id in old(activeFilters) ==> programmed == old(programmed)
    {
      hide IsFilter;
      if id in activeFilters { return true; }
      activeFilters := activeFilters + {id};
      var acc := ComputeAcceptanceCodeAndMask(activeFilters);
      ok := CallDriver(Some(acc));
      if !ok {
        activeFilters := activeFilters - {id};
        assert activeFilters == old(activeFilters);
      }
    }

    /** Id 0 stands for all ids: every message passes again. */
    method CanIdDelete(id: bv32) returns (ok: bool)
      requires Valid()
      modifies this
      ensures Valid()
      ensures ok <==> old(id != 0 && id !in activeFilters) || old(outcomes == [] || outcomes[0])
      ensures activeFilters == if !ok then old(activeFilters) else if id == 0 then {} else old(activeFilters) - {id}
      ensures ok && id == 0 ==> programmed.None?
      ensures ok && id != 0 && id in old(activeFilters) ==> programmed.Some?
      ensures !ok || (id != 0 && id !in old(activeFilters)) ==> programmed == old(programmed)
    {
      hide IsFilter;
      if id == 0 {
        ok := CallDriver(None);
        if ok { activeFilters := {}; }
        return;
      }
      if id !in activeFilters { return true; }
      activeFilters := activeFilters - {id};
      var acc := ComputeAcceptanceCodeAndMask(activeFilters);
      ok := CallDriver(Some(acc));
      if !ok {
        activeFilters := activeFilters + {id};
        assert activeFilters == old(activeFilters);
      }
    }
  }

  /** Deleting the ids one by one is not the same as clearing them: after the last one, only
      messages without a node id pass. */
  lemma NothingListed(f: Filter, cob: bv32)
    requires IsFilter({}, f) && cob <= COB_BITS
    ensures f.Passes(cob) <==> cob & ID_BITS == 0
  {
    NoFunction(cob);
  }

  lemma NoFunction(cob: bv32)
    requires cob <= COB_BITS
    ensures cob & !FUNCTION_BITS == cob & ID_BITS
  {
  }
}
