/**
 * Instrumentation of valid programs: fragments that pass the wrapper's validation, put where the
 * validator finds their context, need no further assumption about the runs they end up in.
 */
module ValidatedMeaning {
  import opened Values
  import opened Machine
  import opened Nesting
  import opened Embedding
  import opened Fragments
  import opened Simulation
  import opened Runs
  import opened Rewriter
  import opened Validation
  import opened Transplant
  import opened WrapperMarkers
  import opened Typing
  import opened TypedFrames
  import opened Soundness
  import opened Meaning
  import Instrumenting

  // ----- fragments -----

  /** What every wrapper is validated against; it brings its own locals and results. */
  function ModuleCtx(P2: Program, gt2: seq<ValType>): Ctx {
    Ctx([], gt2, FuncTypes(P2), [])
  }

  ghost predicate Validated(P2: Program, gt2: seq<ValType>, f: Fragment) {
    WrapperValid(ModuleCtx(P2, gt2), f)
  }

  ghost predicate OpsValidated(P2: Program, gt2: seq<ValType>, ops: seq<Operation>) {
    forall k :: 0 <= k < |ops| ==> Validated(P2, gt2, ops[k].pre) && Validated(P2, gt2, ops[k].post)
  }

  lemma {:induction false} CheckedCalls(C: Ctx, code: Code, s: VState)
    requires Check(C, code, s).Some?
    ensures forall k :: 0 <= k < |code| && code[k].instr.Call? ==> code[k].instr.target < |C.funcs|
  {
    if code != [] {
      OneCall(C, code[0].instr, s);
      CheckedCalls(C, code[1..], CheckOne(C, code[0].instr, s).value);
      forall k | 0 <= k < |code| && code[k].instr.Call? ensures code[k].instr.target < |C.funcs| {
        assert k > 0 ==> code[k] == code[1..][k-1];
      }
    }
  }

  lemma OneCall(C: Ctx, i: Instr, s: VState)
    requires CheckOne(C, i, s).Some?
    ensures i.Call? ==> i.target < |C.funcs|
  {
  }

  /** A validated fragment has matching markers and calls only functions that exist. */
  lemma ValidatedGood(P2: Program, gt2: seq<ValType>, f: Fragment)
    requires Validated(P2, gt2, f)
    ensures GoodCode(P2, f.code)
  {
    hide WrapperValid, WellNested;
    var C := ModuleCtx(P2, gt2);
    WrapperNested(C, f);
    StrippedWrapper(C, f);
    CheckedCalls(WrapperCtx(C, f), f.code, Body(KnownOf(f.context), f.context));
  }

  // ----- places -----

  /** At a reachable place the validator has the fragment's context on top; its locals are the function's. */
  ghost predicate Offered(C: Ctx, f: Fragment, s: VState) {
    && f.locals <= C.locals && s != []
    && (s[|s| - 1].dead || exists rest :: s[|s| - 1].opds == rest + KnownOf(f.context))
  }

  ghost predicate OffersAt(C: Ctx, code: Code, ops: seq<Operation>, k: nat)
    requires k < |code|
  {
    var j := FirstMatch(code[k], ops);
    var before, after := StateBefore(C, code, k), StateBefore(C, code, k + 1);
    && (j < |ops| && before.Some? ==> Offered(C, ops[j].pre, before.value))
    && (j < |ops| && after.Some? ==> Offered(C, ops[j].post, after.value))
  }

  /** Every matched instruction in scope offers the fragments around it their context. */
  ghost predicate Offers(P: Program, gt: seq<ValType>, scope: set<nat>, ops: seq<Operation>) {
    forall fn: nat, k: nat :: fn < |P.funcs| && P.funcs[fn].Defined? && fn in scope && k < |P.funcs[fn].code| ==>
      OffersAt(CtxOf(P, gt, fn), P.funcs[fn].code, ops, k)
  }

  /** What the validator knows at a place is what a run finds there. */
  lemma OfferedFits(C: Ctx, f: Fragment, g: Frame, s: VState)
    requires Typed(C, g, s, []) && Offered(C, f, s)
    ensures Fits(f, g.locals, g.stack)
  {
    hide Typed;
    LocalTypes(C, g, s);
    TopAlive(C, g, s);
    TopTypes(C, g, s, []);
    var ts, h, os := TypesOf(g.stack), Below(s), s[|s| - 1].opds;
    assert ts + [] == ts;
    var rest :| os == rest + KnownOf(f.context);
    var m := h + |rest|;
    assert |ts| == m + |f.context|;
    forall k | 0 <= k < |f.context| ensures ts[m + k] == f.context[k] {
      assert Known(ts[h..][|rest| + k]) == os[|rest| + k] == KnownOf(f.context)[k];
    }
    TypesSlice(g.stack, m);
    assert ts[m..] == f.context;
  }

  lemma PiecesFit(P: Program, gt: seq<ValType>, scope: set<nat>, ops: seq<Operation>, W: World, c: Config)
    requires W.plan == PlanOf(P, scope, ops, Silent(|ops|))
    requires ValidProgram(P, gt) && Offers(P, gt, scope, ops) && ConfigSound(P, gt, c)
    ensures AllFit(PiecesAt(W, c), Top(c).locals, Top(c).stack)
  {
    hide Typed, Offered, StateBefore, ValidBody, Fits, HostTyped;
    var f, n := Top(c), |c.frames| - 1;
    assert FrameGood(P, gt, c.frames[n], Awaits(P, c.frames, n));
    if f.fn in scope {
      var C := CtxOf(P, gt, f.fn);
      var s := StateBefore(C, f.code, f.pc).value;
      var ps := GapPieces(f.code, f.pc, ops, Silent(|ops|));
      forall k | 0 <= k < |ps| ensures Fits(ps[k].frag, f.locals, f.stack) {
        if f.pc > 0 && FirstMatch(f.code[f.pc - 1], ops) < |ops| && k == 0 {
          assert OffersAt(C, f.code, ops, f.pc - 1);
          OfferedFits(C, ps[k].frag, f, s);
        } else {
          assert f.pc < |f.code|;
          assert OffersAt(C, f.code, ops, f.pc);
          OfferedFits(C, ps[k].frag, f, s);
        }
      }
    }
  }

  // ----- meaning -----

  lemma ValidFits(P: Program, gt: seq<ValType>, scope: set<nat>, ops: seq<Operation>, W: World,
                  fn: nat, args: seq<Value>, st: Machine.Store)
    requires W.plan == PlanOf(P, scope, ops, Silent(|ops|))
    requires ValidProgram(P, gt) && Offers(P, gt, scope, ops)
    requires fn < |P.funcs| && P.funcs[fn].Defined?
    requires TypesOf(args) == P.funcs[fn].ft.params && TypesOf(st.globals) == gt
    ensures FitsAlways(P, W, Start(P, fn, args, st)) && !Traps(P, Start(P, fn, args, st), Invalid)
  {
    hide ValidProgram, Offers, AllFit, Run, Start, PiecesAt, FramesGood;
    var c := Start(P, fn, args, st);
    forall n: nat ensures StateAt(P, c, n) != Trap(Invalid)
      ensures StateAt(P, c, n).Next? ==>
                var d := StateAt(P, c, n).c;
                d.frames != [] && AllFit(PiecesAt(W, d), Top(d).locals, Top(d).stack)
    {
      ValidRuns(P, gt, fn, args, st, n);
      var o := StateAt(P, c, n);
      if o.Next? {
        PiecesFit(P, gt, scope, ops, W, o.c);
      }
    }
  }

  /**
   * Instrumenting a valid program preserves its meaning: if the fragments pass their wrappers'
   * validation, find their context at every matched instruction and are harmless when run on their
   * own, then the rewritten program finishes with some results if and only if the original does, with
   * stores that agree on everything that is the program's, and traps if and only if the original does.
   * Only if the instrumentation owns memory must the original be known to stay inside its own.
   */
  lemma ValidMeaningPreserved(P: Program, P2: Program, gt: seq<ValType>, gt2: seq<ValType>, scope: set<nat>,
                              ops: seq<Operation>, W: World, fn: nat, args: seq<Value>, st: Machine.Store,
                              own: Own, vals: seq<Value>)
    requires W.plan == PlanOf(P, scope, ops, Silent(|ops|)) && W.shape.globals == gt
    requires ValidProgram(P, gt) && Rewritten(P, P2, scope, ops) && Regular(P, P2, W.shape.size)
    requires OpsValidated(P2, gt2, ops) && Offers(P, gt, scope, ops)
    requires HarmlessOps(P2, ops, W.rep, W.shape)
    requires fn < |P.funcs| && P.funcs[fn].Defined?
    requires TypesOf(args) == P.funcs[fn].ft.params && TypesOf(st.globals) == gt
    requires InShape(W.shape, st) && W.rep(own, []) && (W.shape.size.Some? || OwnsNoMemory(W))
    requires OwnsNoMemory(W) || !Traps(P, Start(P, fn, args, st), Bounds)
    ensures P2.funcs[fn].Defined?
    ensures var c, d := Start(P, fn, args, st), Start(P2, fn, args, Join(st, own));
      && (forall st1 :: Finishes(P, c, vals, st1) ==> exists own2 :: Finishes(P2, d, vals, Join(st1, own2)))
      && (forall st2 :: Finishes(P2, d, vals, st2) ==>
            exists st1, own2 :: st2 == Join(st1, own2) && Finishes(P, c, vals, st1))
      && SameTraps(P, P2, W, c, d)
  {
    hide ValidProgram, Offers, HarmlessOps, Rewritten, Regular, FitsAlways, Start, Finishes, Join, Validated,
      Traps, OwnsNoMemory, SameTraps;
    ValidFits(P, gt, scope, ops, W, fn, args, st);
    forall k | 0 <= k < |ops| ensures GoodCode(P2, ops[k].pre.code) && GoodCode(P2, ops[k].post.code) {
      ValidatedGood(P2, gt2, ops[k].pre);
      ValidatedGood(P2, gt2, ops[k].post);
    }
    MeaningPreserved(P, P2, scope, ops, W, fn, args, st, own, vals);
  }

  // ----- validity -----

  /** C2 extends C by further globals and functions. */
  ghost predicate Extends(C: Ctx, C2: Ctx) {
    C2.locals == C.locals && C2.ret == C.ret && C.globals <= C2.globals && C.funcs <= C2.funcs
  }

  lemma {:induction false} CheckExtends(C: Ctx, C2: Ctx, code: Code, s: VState)
    requires Extends(C, C2) && Check(C, code, s).Some?
    ensures Check(C2, code, s) == Check(C, code, s)
  {
    hide CheckOne;
    if code != [] {
      OneExtends(C, C2, code[0].instr, s);
      CheckExtends(C, C2, code[1..], CheckOne(C, code[0].instr, s).value);
    }
  }

  lemma OneExtends(C: Ctx, C2: Ctx, i: Instr, s: VState)
    requires Extends(C, C2) && CheckOne(C, i, s).Some?
    ensures CheckOne(C2, i, s) == CheckOne(C, i, s)
  {
    hide PopAll, Finished, Push;
    if Simple(i) || i.Call? {
      SignatureExtends(C, C2, i);
    }
  }

  lemma SignatureExtends(C: Ctx, C2: Ctx, i: Instr)
    requires Extends(C, C2)
    ensures Signature(C, i).Some? ==> Signature(C2, i) == Signature(C, i)
  {
  }

  /** In the instrumented module's own context every matched place offers the fragments their context. */
  ghost predicate OffersIn(P: Program, P2: Program, gt2: seq<ValType>, scope: set<nat>, ops: seq<Operation>)
    requires |P.funcs| <= |P2.funcs|
  {
    forall fn: nat :: fn < |P.funcs| && P.funcs[fn].Defined? && P2.funcs[fn].Defined? && fn in scope ==>
      GapsFit(CtxOf(P2, gt2, fn), P.funcs[fn].code, MatchPieces(P.funcs[fn].code, ops, Silent(|ops|)),
              Body([], P2.funcs[fn].ft.results))
  }

  ghost predicate AddedValid(P: Program, P2: Program, gt2: seq<ValType>) {
    forall fn :: |P.funcs| <= fn < |P2.funcs| && P2.funcs[fn].Defined? ==>
      ValidBody(CtxOf(P2, gt2, fn), P2.funcs[fn].code)
  }

  lemma OriginalExtends(P: Program, P2: Program, gt: seq<ValType>, gt2: seq<ValType>, scope: set<nat>,
                        ops: seq<Operation>, fn: nat)
    requires Rewritten(P, P2, scope, ops) && gt <= gt2
    requires fn < |P.funcs| && P.funcs[fn].Defined? && ValidBody(CtxOf(P, gt, fn), P.funcs[fn].code)
    ensures P2.funcs[fn].Defined? && ValidBody(CtxOf(P2, gt2, fn), P.funcs[fn].code)
  {
    hide Instrumenting.Instrumented;
    var C, C2, code := CtxOf(P, gt, fn), CtxOf(P2, gt2, fn), P.funcs[fn].code;
    assert C.funcs == C2.funcs[..|C.funcs|];
    CheckExtends(C, C2, code, Body([], C.ret));
  }

  /** The instrumented program is valid, so its runs end in no Invalid trap either. */
  lemma RewrittenValid(P: Program, P2: Program, gt: seq<ValType>, gt2: seq<ValType>, scope: set<nat>, ops: seq<Operation>)
    requires ValidProgram(P, gt) && gt <= gt2 && Rewritten(P, P2, scope, ops)
    requires OffersIn(P, P2, gt2, scope, ops) && AddedValid(P, P2, gt2) && HostTyped(P2)
    ensures ValidProgram(P2, gt2)
  {
    hide Instrumenting.Instrumented, ValidBody, HostTyped, GapsFit, CtxOf;
    forall fn | 0 <= fn < |P2.funcs| && P2.funcs[fn].Defined?
      ensures ValidBody(CtxOf(P2, gt2, fn), P2.funcs[fn].code)
    {
      if fn < |P.funcs| {
        OriginalExtends(P, P2, gt, gt2, scope, ops, fn);
        if fn in scope {
          CtxResults(P2, gt2, fn);
          InstrumentedValid(CtxOf(P2, gt2, fn), P.funcs[fn].code, ops);
        }
      }
    }
    assert forall k {:trigger P2.table[k]} :: 0 <= k < |P2.table| ==> P2.table[k] == P.table[k];
  }

  lemma CtxResults(P: Program, gt: seq<ValType>, fn: nat)
    requires fn < |P.funcs| && P.funcs[fn].Defined?
    ensures CtxOf(P, gt, fn).ret == P.funcs[fn].ft.results
  {
  }
}
