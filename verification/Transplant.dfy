/**
 * Why it is sound to validate a fragment inside a throw-away function and then to put it anywhere
 * else: what the wrapper proves, and what follows for every host with the fragment's operands on top.
 */
module Transplant {
  import opened Values
  import opened Machine
  import opened Weaving
  import opened Fragments
  import opened Builder
  import opened Decimals
  import opened Validation
  import opened Rewriter
  import Instrumenting
  import Meaning

  /** No branch or return leaves the code; `depth` constructs are open around it. */
  predicate Contained(code: Code, depth: nat) {
    code == [] ||
    (var i := code[0].instr;
     && !i.Return?
     && ((i.Br? || i.BrIf?) ==> i.depth < depth)
     && (if Opens(i) then Contained(code[1..], depth + 1)
         else if Closes(i) then depth > 0 && Contained(code[1..], depth - 1)
         else Contained(code[1..], depth)))
  }

  /** What the wrapper function is checked against. */
  function WrapperCtx(C: Ctx, f: Fragment): Ctx {
    C.(locals := f.locals, ret := f.context)
  }

  /** The wrapper of the fragment is a valid function. */
  predicate WrapperValid(C: Ctx, f: Fragment) {
    ValidBody(WrapperCtx(C, f), Placeholders(f.context) + f.code)
  }

  /**
   * The function the builder puts into the module, with the parameters, locals and results it declares,
   * is valid exactly when the wrapper is.
   */
  lemma WrapperIsFunction(C: Ctx, f: Fragment, prefix: string, num: nat, suffix: string)
    ensures var w := Wrapper(f, prefix, num, suffix);
      && w.body.Some? && w.name == prefix + Decimal(num) + suffix
      && (ValidBody(C.(locals := w.ft.params + w.vars, ret := w.ft.results), Compact(w.body.value)) <==> WrapperValid(C, f))
  {
    CompactFull(Placeholders(f.context) + f.code);
    assert f.locals + [] == f.locals;
  }

  // ----- stripping the placeholders -----

  lemma {:induction false} PlaceholdersPush(C: Ctx, ts: seq<ValType>, f: Ctrl)
    ensures Check(C, Placeholders(ts), [f]) == Some([Push(f, ts)])
    decreases |ts|
  {
    if ts == [] {
      assert Push(f, ts).opds == f.opds;
    } else {
      hide Check, Push;
      var n := |ts| - 1;
      PlaceholdersPush(C, ts[..n], f);
      var last := Placeholders(ts)[n];
      assert Placeholders(ts) == Placeholders(ts[..n]) + [last];
      CheckAppend(C, Placeholders(ts[..n]), [last], [f]);
      OnePlaceholder(C, last, ts[n], Push(f, ts[..n]));
      PushOneMore(f, ts);
    }
  }

  lemma PushOneMore(f: Ctrl, ts: seq<ValType>)
    requires ts != []
    ensures var g := Push(f, ts[..|ts| - 1]); Push(f, ts) == g.(opds := g.opds + [Known(ts[|ts| - 1])])
  {
    assert KnownOf(ts) == KnownOf(ts[..|ts| - 1]) + [Known(ts[|ts| - 1])];
  }

  lemma OnePlaceholder(C: Ctx, s: StackInst, t: ValType, f: Ctrl)
    requires s.instr == Const(Zero(t))
    ensures Check(C, [s], [f]) == Some([f.(opds := f.opds + [Known(t)])])
  {
    assert [s][1..] == [];
    assert KnownOf([t]) == [Known(t)];
    assert Push(f, [t]) == f.(opds := f.opds + [Known(t)]);
    assert [] + [Push(f, [t])] == [Push(f, [t])];
    assert [f][..0] == [];
  }

  /** Cutting off the placeholders leaves code that takes the stack context to the stack context. */
  lemma StrippedWrapper(C: Ctx, f: Fragment)
    requires WrapperValid(C, f)
    ensures var r := Check(WrapperCtx(C, f), f.code, Body(KnownOf(f.context), f.context));
      r.Some? && |r.value| == 1 && Finished(r.value[0])
  {
    var C1 := WrapperCtx(C, f);
    var f0 := Body([], f.context)[0];
    PlaceholdersPush(C1, f.context, f0);
    CheckAppend(C1, Placeholders(f.context), f.code, [f0]);
    assert Push(f0, f.context).opds == KnownOf(f.context);
  }

  // ----- the same code over a deeper stack -----

  /**
   * h is the host frame while the fragment runs, w the wrapper's frame: the same operands on top of
   * `rest`, or, once the end of the code cannot be reached, the same operands and a dead frame.
   */
  ghost predicate Over(rest: seq<OpType>, dead: bool, w: Ctrl, h: Ctrl) {
    if w.dead then h.dead && h.opds == w.opds
    else h.dead == dead && h.opds == rest + w.opds
  }

  /** The host's outer frames and its own innermost frame, then the frames the fragment has opened. */
  ghost predicate Inner(outer: VState, host: Ctrl, rest: seq<OpType>, w: VState, h: VState) {
    && w != [] && |h| == |outer| + |w|
    && h[..|outer|] == outer && h[|outer| + 1..] == w[1..]
    && w[0].kind == FuncC
    && Over(rest, host.dead, w[0], h[|outer|])
    && h[|outer|] == host.(dead := h[|outer|].dead, opds := h[|outer|].opds)
  }

  lemma PopOver(rest: seq<OpType>, dead: bool, w: Ctrl, h: Ctrl, t: ValType)
    requires Over(rest, dead, w, h) && Pop(w, t).Some?
    ensures Pop(h, t).Some? && Over(rest, dead, Pop(w, t).value, Pop(h, t).value)
    ensures Pop(h, t).value == h.(opds := Pop(h, t).value.opds)
  {
    if w.opds != [] {
      var n := |w.opds|;
      assert !w.dead ==> h.opds[|h.opds| - 1] == w.opds[n - 1] && h.opds[..|h.opds| - 1] == rest + w.opds[..n - 1];
    }
  }

  lemma {:induction false} PopAllOver(rest: seq<OpType>, dead: bool, w: Ctrl, h: Ctrl, ts: seq<ValType>)
    requires Over(rest, dead, w, h) && PopAll(w, ts).Some?
    ensures PopAll(h, ts).Some? && Over(rest, dead, PopAll(w, ts).value, PopAll(h, ts).value)
    ensures PopAll(h, ts).value == h.(opds := PopAll(h, ts).value.opds)
    decreases |ts|
  {
    hide Over;
    if ts != [] {
      var t := ts[|ts| - 1];
      PopOver(rest, dead, w, h, t);
      PopAllOver(rest, dead, Pop(w, t).value, Pop(h, t).value, ts[..|ts| - 1]);
    }
  }

  lemma PushOver(rest: seq<OpType>, dead: bool, w: Ctrl, h: Ctrl, ts: seq<ValType>)
    requires Over(rest, dead, w, h)
    ensures Over(rest, dead, Push(w, ts), Push(h, ts))
  {
    assert rest + w.opds + KnownOf(ts) == rest + (w.opds + KnownOf(ts));
  }

  lemma PopAnyOver(rest: seq<OpType>, dead: bool, w: Ctrl, h: Ctrl)
    requires Over(rest, dead, w, h) && PopAny(w).Some?
    ensures PopAny(h).Some? && Over(rest, dead, PopAny(w).value, PopAny(h).value)
    ensures PopAny(h).value == h.(opds := PopAny(h).value.opds)
  {
    if w.opds != [] {
      var n := |w.opds|;
      assert !w.dead ==> h.opds[..|h.opds| - 1] == rest + w.opds[..n - 1];
    }
  }

  /** The host knows at least the locals of the fragment, and the same globals and functions. */
  ghost predicate CtxFits(C1: Ctx, C: Ctx) {
    C1.locals <= C.locals && C1.globals == C.globals && C1.funcs == C.funcs
  }

  lemma SignatureFits(C1: Ctx, C: Ctx, i: Instr)
    requires CtxFits(C1, C) && Signature(C1, i).Some?
    ensures Signature(C, i) == Signature(C1, i)
  {
  }

  lemma InsideOver(C1: Ctx, C: Ctx, i: Instr, lab: seq<ValType>, rest: seq<OpType>, dead: bool, w: Ctrl, h: Ctrl)
    requires CtxFits(C1, C) && Over(rest, dead, w, h) && Inside(C1, i, lab, w).Some? && !i.Return?
    ensures Inside(C, i, lab, h).Some?
    ensures var w2, h2 := Inside(C1, i, lab, w).value, Inside(C, i, lab, h).value;
      && Over(rest, dead, w2, h2) && h2 == h.(dead := h2.dead, opds := h2.opds)
      && w2.kind == w.kind
  {
    KeepsKind(C1, i, lab, w);
    if i.Unreachable? {
    } else if i.Drop? {
      PopAnyOver(rest, dead, w, h);
    } else if i.Br? {
      PopAllOver(rest, dead, w, h, lab);
    } else if i.BrIf? {
      PopAllOver(rest, dead, w, h, lab + [I32]);
      PushOver(rest, dead, PopAll(w, lab + [I32]).value, PopAll(h, lab + [I32]).value, lab);
    } else {
      SignatureFits(C1, C, i);
      var sig := Signature(C, i).value;
      PopAllOver(rest, dead, w, h, sig.params);
      PushOver(rest, dead, PopAll(w, sig.params).value, PopAll(h, sig.params).value, sig.results);
    }
  }

  lemma InnerParts(outer: VState, host: Ctrl, rest: seq<OpType>, w0: Ctrl, h0: Ctrl, inner: VState)
    requires w0.kind == FuncC && Over(rest, host.dead, w0, h0) && h0 == host.(dead := h0.dead, opds := h0.opds)
    ensures Inner(outer, host, rest, [w0] + inner, outer + [h0] + inner)
  {
    var h := outer + [h0] + inner;
    assert h[..|outer|] == outer && h[|outer| + 1..] == inner;
  }

  function Depth(i: Instr, d: int): int {
    if Opens(i) then d + 1 else if Closes(i) then d - 1 else d
  }

  /** One instruction of the fragment outside all constructs it opens. */
  lemma OuterStep(C1: Ctx, C: Ctx, i: Instr, outer: VState, host: Ctrl, rest: seq<OpType>, w: VState, h: VState)
    requires CtxFits(C1, C) && Inner(outer, host, rest, w, h) && |w| == 1
    requires CheckOne(C1, i, w).Some? && !i.Return? && !i.Br? && !i.BrIf?
    ensures CheckOne(C, i, h).Some? && Inner(outer, host, rest, CheckOne(C1, i, w).value, CheckOne(C, i, h).value)
    ensures |CheckOne(C1, i, w).value| - 1 == Depth(i, 0)
  {
    hide PopAll, Over, Inside;
    var w0, h0 := w[0], h[|outer|];
    assert w[..0] == [] && h[..|h| - 1] == outer;
    if Opens(i) {
      var ts := if i.IfBegin? then i.bt.params + [I32] else i.bt.params;
      PopAllOver(rest, host.dead, w0, h0, ts);
      PopAllKeepsKind(w0, ts);
      InnerParts(outer, host, rest, PopAll(w0, ts).value, PopAll(h0, ts).value, [NewFrame(OpensAs(i), i.bt)]);
      assert [PopAll(w0, ts).value] + [NewFrame(OpensAs(i), i.bt)] == CheckOne(C1, i, w).value;
      assert outer + [PopAll(h0, ts).value] + [NewFrame(OpensAs(i), i.bt)] == CheckOne(C, i, h).value;
    } else {
      InsideOver(C1, C, i, [], rest, host.dead, w0, h0);
      InnerParts(outer, host, rest, Inside(C1, i, [], w0).value, Inside(C, i, [], h0).value, []);
      assert outer + [Inside(C, i, [], h0).value] + [] == CheckOne(C, i, h).value;
    }
  }

  lemma SameAbove(outer: VState, host: Ctrl, rest: seq<OpType>, w: VState, h: VState)
    requires Inner(outer, host, rest, w, h) && |w| > 1
    ensures var n, o := |w| - 1, |outer|;
      && |h| == o + n + 1 && h[o + n] == w[n]
      && h[..o + n] == outer + [h[o]] + w[1..n] && w[..n] == [w[0]] + w[1..n]
      && (forall k {:trigger w[k]} :: 1 <= k <= n ==> h[o + k] == w[k])
  {
    var n, o := |w| - 1, |outer|;
    assert forall k {:trigger w[k]} :: 1 <= k <= n ==> h[o + k] == h[o + 1..][k - 1] == w[1..][k - 1] == w[k];
  }

  /** One instruction inside a construct of the fragment: the frames concerned are the same on both sides. */
  lemma InnerStep(C1: Ctx, C: Ctx, i: Instr, outer: VState, host: Ctrl, rest: seq<OpType>, w: VState, h: VState)
    requires CtxFits(C1, C) && Inner(outer, host, rest, w, h) && |w| > 1
    requires CheckOne(C1, i, w).Some? && !i.Return? && ((i.Br? || i.BrIf?) ==> i.depth < |w| - 1)
    ensures CheckOne(C, i, h).Some? && Inner(outer, host, rest, CheckOne(C1, i, w).value, CheckOne(C, i, h).value)
    ensures |CheckOne(C1, i, w).value| - 1 == Depth(i, |w| - 1)
  {
    hide PopAll, Over, Inside, Finished, CtxFits, LabelTypes;
    var n, o := |w| - 1, |outer|;
    SameAbove(outer, host, rest, w, h);
    var w0, h0, mid, f := w[0], h[o], w[1..n], w[n];
    if Opens(i) {
      var ts := if i.IfBegin? then i.bt.params + [I32] else i.bt.params;
      TopStep(C1, C, i, outer, host, rest, w0, h0, mid, [PopAll(f, ts).value, NewFrame(OpensAs(i), i.bt)], w, h);
    } else if i.IfElse? {
      TopStep(C1, C, i, outer, host, rest, w0, h0, mid, [NewFrame(ElseC, FuncType(f.start, f.end))], w, h);
    } else if Closes(i) {
      CloseStep(C1, C, i, outer, host, rest, w, h);
    } else {
      var lab := if i.Br? || i.BrIf? then LabelTypes(w[n - i.depth]) else [];
      assert i.Br? || i.BrIf? ==> h[o + n - i.depth] == w[n - i.depth];
      SameInside(C1, C, i, lab, f);
      TopStep(C1, C, i, outer, host, rest, w0, h0, mid, [Inside(C1, i, lab, f).value], w, h);
    }
  }

  lemma SameInside(C1: Ctx, C: Ctx, i: Instr, lab: seq<ValType>, f: Ctrl)
    requires CtxFits(C1, C) && Inside(C1, i, lab, f).Some? && !i.Return?
    ensures Inside(C, i, lab, f) == Inside(C1, i, lab, f)
  {
  }

  lemma TopStep(C1: Ctx, C: Ctx, i: Instr, outer: VState, host: Ctrl, rest: seq<OpType>, w0: Ctrl, h0: Ctrl,
                mid: VState, top: VState, w: VState, h: VState)
    requires w0.kind == FuncC && Over(rest, host.dead, w0, h0) && h0 == host.(dead := h0.dead, opds := h0.opds)
    requires CheckOne(C1, i, w) == Some([w0] + mid + top) && CheckOne(C, i, h) == Some(outer + [h0] + mid + top)
    ensures Inner(outer, host, rest, CheckOne(C1, i, w).value, CheckOne(C, i, h).value)
  {
    InnerParts(outer, host, rest, w0, h0, mid + top);
    assert [w0] + mid + top == [w0] + (mid + top);
    assert outer + [h0] + mid + top == outer + [h0] + (mid + top);
  }

  lemma CloseStep(C1: Ctx, C: Ctx, i: Instr, outer: VState, host: Ctrl, rest: seq<OpType>, w: VState, h: VState)
    requires Inner(outer, host, rest, w, h) && |w| > 1 && Closes(i) && CheckOne(C1, i, w).Some?
    ensures CheckOne(C, i, h).Some? && Inner(outer, host, rest, CheckOne(C1, i, w).value, CheckOne(C, i, h).value)
    ensures |CheckOne(C1, i, w).value| == |w| - 1
  {
    hide Over, Finished, Push;
    var n, o := |w| - 1, |outer|;
    var f := w[n];
    assert forall k {:trigger w[k]} :: 1 <= k <= n ==> h[o + k] == h[o + 1..][k - 1] == w[1..][k - 1] == w[k];
    if n == 1 {
      PushOver(rest, host.dead, w[0], h[o], f.end);
      PushKeeps(w[0], f.end);
      PushKeeps(h[o], f.end);
      InnerParts(outer, host, rest, Push(w[0], f.end), Push(h[o], f.end), []);
      assert CheckOne(C1, i, w).value == [Push(w[0], f.end)] + [];
      assert CheckOne(C, i, h).value == outer + [Push(h[o], f.end)] + [];
    } else {
      var inner := w[1..n-1] + [Push(w[n-1], f.end)];
      InnerParts(outer, host, rest, w[0], h[o], inner);
      assert CheckOne(C1, i, w).value == [w[0]] + inner;
      assert CheckOne(C, i, h).value == outer + [h[o]] + inner;
    }
  }

  lemma PushKeeps(f: Ctrl, ts: seq<ValType>)
    ensures Push(f, ts) == f.(opds := Push(f, ts).opds)
  {
  }

  /** Checking the fragment in the wrapper is mirrored by checking it in the host. */
  lemma {:induction false} CheckOver(C1: Ctx, C: Ctx, code: Code, outer: VState, host: Ctrl, rest: seq<OpType>,
                                     w: VState, h: VState)
    requires CtxFits(C1, C) && Inner(outer, host, rest, w, h)
    requires Contained(code, |w| - 1) && Check(C1, code, w).Some?
    ensures Check(C, code, h).Some? && Inner(outer, host, rest, Check(C1, code, w).value, Check(C, code, h).value)
    decreases |code|
  {
    hide CheckOne, Over;
    if code != [] {
      var i := code[0].instr;
      if |w| == 1 {
        OuterStep(C1, C, i, outer, host, rest, w, h);
      } else {
        InnerStep(C1, C, i, outer, host, rest, w, h);
      }
      CheckOver(C1, C, code[1..], outer, host, rest, CheckOne(C1, i, w).value, CheckOne(C, i, h).value);
    }
  }

  // ----- what a finished wrapper says -----

  lemma {:induction false} PoppedShape(f: Ctrl, ts: seq<ValType>)
    requires PopAll(f, ts).Some? && PopAll(f, ts).value.opds == []
    ensures |f.opds| <= |ts| && (|f.opds| < |ts| ==> f.dead)
    ensures forall k {:trigger f.opds[k]} :: 0 <= k < |f.opds| ==> OpLe(Known(ts[|ts| - |f.opds| + k]), f.opds[k])
    decreases |ts|
  {
    if ts != [] {
      var n := |ts| - 1;
      var g := Pop(f, ts[n]).value;
      PoppedShape(g, ts[..n]);
      forall k {:trigger f.opds[k]} | 0 <= k < |f.opds|
        ensures OpLe(Known(ts[|ts| - |f.opds| + k]), f.opds[k])
      {
        if k < |f.opds| - 1 {
          assert g.opds[k] == f.opds[k];
          assert OpLe(Known(ts[..n][n - |g.opds| + k]), g.opds[k]);
        }
      }
    }
  }

  lemma FinishedOver(host: Ctrl, rest: seq<OpType>, ts: seq<ValType>, w: Ctrl, h: Ctrl)
    requires host.opds == rest + KnownOf(ts) && w.end == ts && Finished(w)
    requires Over(rest, host.dead, w, h) && h == host.(dead := h.dead, opds := h.opds)
    ensures CtrlLe(host, h)
  {
    hide PopAll, KnownOf;
    PoppedShape(w, ts);
    var m, n := |host.opds|, |h.opds|;
    forall k {:trigger h.opds[k]} | 0 <= k < n
      ensures n <= m && OpLe(host.opds[m - n + k], h.opds[k])
    {
      if w.dead {
        assert host.opds[m - n + k] == KnownOf(ts)[|ts| - n + k];
      }
    }
  }

  /**
   * Soundness of the wrapper: if the fragment validates behind its placeholders and does not branch
   * out of itself, then in every host that has its stack context on top of the operands and agrees
   * on its locals it is valid, and leaves a state that accepts everything the state before accepted.
   */
  lemma WrapperSound(C: Ctx, f: Fragment, outer: VState, host: Ctrl, rest: seq<OpType>)
    requires WrapperValid(C, f) && Contained(f.code, 0) && f.locals <= C.locals
    requires host.opds == rest + KnownOf(f.context)
    ensures Check(C, f.code, outer + [host]).Some?
    ensures StateLe(outer + [host], Check(C, f.code, outer + [host]).value)
  {
    hide PopAll, Over;
    var C1, w := WrapperCtx(C, f), Body(KnownOf(f.context), f.context);
    StrippedWrapper(C, f);
    BottomKept(C1, f.code, w);
    assert Over(rest, host.dead, w[0], host) by { StartOver(rest, host, f.context); }
    InnerParts(outer, host, rest, w[0], host, []);
    assert w == [w[0]] + [] && outer + [host] == outer + [host] + [];
    CheckOver(C1, C, f.code, outer, host, rest, w, outer + [host]);
    var w2, h2 := Check(C1, f.code, w).value, Check(C, f.code, outer + [host]).value;
    FinishedOver(host, rest, f.context, w2[0], h2[|outer|]);
    OuterLe(outer, host, h2);
  }

  lemma StartOver(rest: seq<OpType>, host: Ctrl, ts: seq<ValType>)
    requires host.opds == rest + KnownOf(ts)
    ensures Over(rest, host.dead, Body(KnownOf(ts), ts)[0], host)
  {
  }

  lemma OuterLe(outer: VState, host: Ctrl, h: VState)
    requires |h| == |outer| + 1 && h[..|outer|] == outer && CtrlLe(host, h[|outer|])
    ensures StateLe(outer + [host], h)
  {
    forall k | 0 <= k < |h| ensures CtrlLe((outer + [host])[k], h[k]) {
      if k < |outer| {
        assert h[k] == h[..|outer|][k];
        LeRefl(h[k]);
      }
    }
  }

  // ----- whole functions -----

  /** The code is valid in state t and leaves a state that accepts whatever s accepts. */
  ghost predicate Reaches(C: Ctx, code: Code, t: VState, s: VState) {
    var r := Check(C, code, t);
    r.Some? && StateLe(s, r.value)
  }

  /** The fragment was validated in a wrapper, does not branch out of itself, and finds its context in state s. */
  ghost predicate FindsContext(C: Ctx, f: Fragment, s: VState) {
    && WrapperValid(C, f) && Contained(f.code, 0) && f.locals <= C.locals
    && s != [] && exists rest :: s[|s| - 1].opds == rest + KnownOf(f.context)
  }

  /**
   * The fragment may be put at a place with state s: it finds its context there, or is accepted as it is,
   * as in unreachable code, and takes away nothing the code behind it may need.
   */
  ghost predicate FitsState(C: Ctx, f: Fragment, s: VState) {
    FindsContext(C, f, s) || Reaches(C, f.code, s, s)
  }

  lemma FitsReaches(C: Ctx, f: Fragment, s: VState)
    requires FitsState(C, f, s)
    ensures Reaches(C, f.code, s, s)
  {
    hide WrapperValid, Contained, StateLe, Check;
    if FindsContext(C, f, s) {
      var n := |s| - 1;
      var rest :| s[n].opds == rest + KnownOf(f.context);
      WrapperSound(C, f, s[..n], s[n], rest);
      assert s == s[..n] + [s[n]];
    }
  }


  ghost predicate AllFitState(C: Ctx, ps: seq<Piece>, s: VState) {
    forall k :: 0 <= k < |ps| ==> FitsState(C, ps[k].frag, s)
  }

  /** Every gap's fragments fit the state the original code has there. */
  ghost predicate GapsFit(C: Ctx, code: Code, gs: seq<seq<Piece>>, s: VState)
    requires |gs| == |code| + 1
  {
    && AllFitState(C, gs[0], s)
    && (code != [] ==>
          var r := CheckOne(C, code[0].instr, s);
          r.Some? ==> GapsFit(C, code[1..], gs[1..], r.value))
  }

  lemma {:induction false} GapChecks(C: Ctx, ps: seq<Piece>, s: VState, t: VState)
    requires AllFitState(C, ps, s) && StateLe(s, t)
    ensures Reaches(C, GapCode(ps), t, s)
    decreases |ps|
  {
    hide CheckOne, StateLe, FindsContext;
    if ps != [] {
      var f := ps[0].frag;
      FitsReaches(C, f, s);
      var u := Check(C, f.code, s).value;
      CheckLe(C, f.code, s, t);
      var v := Check(C, f.code, t).value;
      StateLeTrans(s, u, v);
      CheckAppend(C, f.code, GapCode(ps[1..]), t);
      GapChecks(C, ps[1..], s, v);
    }
  }

  lemma {:induction false} WeaveChecks(C: Ctx, code: Code, gs: seq<seq<Piece>>, s: VState, t: VState)
    requires |gs| == |code| + 1 && GapsFit(C, code, gs, s) && StateLe(s, t) && Check(C, code, s).Some?
    ensures Reaches(C, Weave(code, GapCodes(gs)), t, Check(C, code, s).value)
    decreases |code|
  {
    hide CheckOne, StateLe, AllFitState, GapCode;
    GapChecks(C, gs[0], s, t);
    var v := Check(C, GapCode(gs[0]), t).value;
    if code != [] {
      var i := code[0].instr;
      var w1 := Weave(code[1..], GapCodes(gs[1..]));
      assert GapCodes(gs)[1..] == GapCodes(gs[1..]);
      assert Weave(code, GapCodes(gs)) == GapCode(gs[0]) + ([code[0]] + w1);
      CheckAppend(C, GapCode(gs[0]), [code[0]] + w1, t);
      CheckOneLe(C, i, s, v);
      assert ([code[0]] + w1)[1..] == w1;
      WeaveChecks(C, code[1..], gs[1..], CheckOne(C, i, s).value, CheckOne(C, i, v).value);
    }
  }

  /** A valid function stays valid when fragments that fit are woven into it. */
  lemma WovenValid(C: Ctx, code: Code, gs: seq<seq<Piece>>)
    requires |gs| == |code| + 1 && ValidBody(C, code) && GapsFit(C, code, gs, Body([], C.ret))
    ensures ValidBody(C, Weave(code, GapCodes(gs)))
  {
    hide CheckOne, GapsFit, Finished;
    var s := Body([], C.ret);
    StateLeRefl(s);
    WeaveChecks(C, code, gs, s, s);
    FinishedLe(Check(C, code, s).value[0], Check(C, Weave(code, GapCodes(gs)), s).value[0]);
  }

  /** Match-and-insert keeps every function valid in which the matched places offer the fragments their context. */
  lemma InstrumentedValid(C: Ctx, code: Code, ops: seq<Operation>)
    requires ValidBody(C, code)
    requires GapsFit(C, code, Meaning.MatchPieces(code, ops, Meaning.Silent(|ops|)), Body([], C.ret))
    ensures ValidBody(C, Instrumenting.Instrumented(code, ops))
  {
    hide ValidBody, GapsFit;
    Meaning.PiecesAreGaps(code, ops, Meaning.Silent(|ops|));
    WovenValid(C, code, Meaning.MatchPieces(code, ops, Meaning.Silent(|ops|)));
  }

  // ----- why containment is needed -----

  const ESCAPING := Fragment([StackInst(Br(0), Results([]))], [], [])
  const EMPTY_CTX := Ctx([], [], [], [])
  const IN_BLOCK: VState := Body([], []) + [Ctrl(BlockC, [], [I32], false, [])]

  lemma EscapingWrapperValid()
    ensures WrapperValid(EMPTY_CTX, ESCAPING)
  {
    var C, code, fr := WrapperCtx(EMPTY_CTX, ESCAPING), ESCAPING.code, Body([], [])[0];
    assert Placeholders([]) + code == code && code[1..] == [];
    assert Body([], [])[..0] == [] && [] + [Kill(fr)] == [Kill(fr)];
    assert PopAll(fr, []) == Some(fr) && PopAll(Kill(fr), []) == Some(Kill(fr));
    assert CheckOne(C, Br(0), [fr]) == Some([Kill(fr)]);
    assert Check(C, code[1..], [Kill(fr)]) == Some([Kill(fr)]);
  }

  /** Containment is needed: a wrapper may branch to its own end, where a host block expects a result. */
  lemma BranchMustNotLeave()
    ensures WrapperValid(EMPTY_CTX, ESCAPING) && !Contained(ESCAPING.code, 0)
    ensures IN_BLOCK[1].opds == [] + KnownOf(ESCAPING.context)
    ensures Check(EMPTY_CTX, ESCAPING.code, IN_BLOCK).None?
  {
    hide WrapperValid;
    EscapingWrapperValid();
    assert PopAll(IN_BLOCK[1], [I32]) == None;
    assert CheckOne(EMPTY_CTX, Br(0), IN_BLOCK).None?;
  }

  /** A branch that cannot be reached. */
  const UNREACHED := Fragment([StackInst(Unreachable, UnreachableType), StackInst(Br(0), UnreachableType)], [], [])

  lemma {:induction false} DeadSupplies(f: Ctrl, ts: seq<ValType>)
    requires f.dead && f.opds == []
    ensures PopAll(f, ts) == Some(f)
    decreases |ts|
  {
    if ts != [] {
      DeadSupplies(f, ts[..|ts| - 1]);
    }
  }

  lemma UnreachedChecks(C: Ctx, outer: VState, host: Ctrl)
    ensures Check(C, UNREACHED.code, outer + [host]) == Some(outer + [Kill(host)])
  {
    hide CheckOne;
    var a, b := outer + [host], outer + [Kill(host)];
    OnUnreachable(C, outer, host);
    OnDeadBranch(C, outer, Kill(host));
    assert UNREACHED.code[1..][1..] == [] && UNREACHED.code[1..][0].instr == Br(0);
    assert Check(C, UNREACHED.code[1..][1..], b) == Some(b);
    assert Check(C, UNREACHED.code[1..], b) == Some(b);
  }

  lemma OnUnreachable(C: Ctx, outer: VState, host: Ctrl)
    ensures CheckOne(C, Unreachable, outer + [host]) == Some(outer + [Kill(host)])
  {
    assert (outer + [host])[..|outer|] == outer;
  }

  lemma OnDeadBranch(C: Ctx, outer: VState, host: Ctrl)
    requires host.dead && host.opds == []
    ensures CheckOne(C, Br(0), outer + [host]) == Some(outer + [host])
  {
    hide PopAll;
    DeadSupplies(host, LabelTypes(host));
    assert (outer + [host])[..|outer|] == outer && Kill(host) == host;
  }

  /** Containment is sufficient, not necessary: a branch that cannot be reached leaves every host valid. */
  lemma ContainmentNotNecessary(C: Ctx, outer: VState, host: Ctrl)
    ensures WrapperValid(C, UNREACHED) && !Contained(UNREACHED.code, 0)
    ensures Check(C, UNREACHED.code, outer + [host]).Some?
  {
    hide Check;
    UnreachedChecks(C, outer, host);
    var C1 := WrapperCtx(C, UNREACHED);
    UnreachedChecks(C1, [], Body([], C1.ret)[0]);
    assert Placeholders([]) + UNREACHED.code == UNREACHED.code;
    assert [] + [Body([], C1.ret)[0]] == Body([], C1.ret);
    assert PopAll(Kill(Body([], C1.ret)[0]), []) == Some(Kill(Body([], C1.ret)[0]));
  }

  /** Takes an i32 from the stack and puts one there. */
  const SWAP := Fragment([StackInst(Drop, Results([])), StackInst(Const(Zero(I32)), Results([I32]))], [], [I32])
  const DEAD_CODE: Code := [StackInst(Unreachable, UnreachableType), StackInst(Unary(EqZInt64), UnreachableType),
                            StackInst(Drop, UnreachableType)]

  lemma Checked(C: Ctx, code: Code, s: VState, u: VState)
    requires code != [] && CheckOne(C, code[0].instr, s) == Some(u)
    ensures Check(C, code, s) == Check(C, code[1..], u)
  {
  }

  lemma SwapValid()
    ensures WrapperValid(EMPTY_CTX, SWAP) && Contained(SWAP.code, 0)
  {
    hide Check, CheckOne, Placeholders, Finished;
    var C := WrapperCtx(EMPTY_CTX, SWAP);
    var a := Body([], [I32])[0];
    var b := a.(opds := [Known(I32)]);
    PlaceholdersPush(C, [I32], a);
    PushI32(a);
    CheckAppend(C, Placeholders([I32]), SWAP.code, [a]);
    SwapChecks(C, a, b);
    FullFrame(b);
    assert SWAP.code[1..][1..] == [];
  }

  lemma SwapChecks(C: Ctx, a: Ctrl, b: Ctrl)
    requires a.opds == [] && b == a.(opds := [Known(I32)])
    ensures Check(C, SWAP.code, [b]) == Some([b])
  {
    hide Check, CheckOne;
    DropI32(C, a, b);
    Checked(C, SWAP.code, [b], [a]);
    OnePlaceholder(C, SWAP.code[1], I32, a);
    assert SWAP.code[1..] == [SWAP.code[1]] && a.opds + [Known(I32)] == b.opds;
  }

  lemma DropI32(C: Ctx, a: Ctrl, b: Ctrl)
    requires a.opds == [] && b == a.(opds := [Known(I32)])
    ensures CheckOne(C, Drop, [b]) == Some([a])
  {
    assert [b][..0] == [] && [] + [a] == [a] && b.opds[..0] == [];
  }

  lemma FullFrame(f: Ctrl)
    requires f.end == [I32] && f.opds == [Known(I32)]
    ensures Finished(f)
  {
    assert PopAll(f.(opds := []), [I32][..0]) == Some(f.(opds := []));
    assert f.opds[..0] == [];
  }

  lemma DeadCodeValid()
    ensures ValidBody(EMPTY_CTX, DEAD_CODE)
  {
    hide Check, CheckOne;
    var C, a := EMPTY_CTX, Body([], [])[0];
    var b := Kill(a);
    var e := b.(opds := [Known(I32)]);
    OnUnreachable(C, [], a);
    assert [] + [a] == [a] && [] + [b] == [b];
    Checked(C, DEAD_CODE, [a], [b]);
    EqzOnDead(C, b);
    Checked(C, DEAD_CODE[1..], [b], [e]);
    DropI32(C, b, e);
    Checked(C, DEAD_CODE[1..][1..], [e], [b]);
    CheckNothing(C, DEAD_CODE[1..][1..][1..], [b]);
  }

  lemma EqzOnDead(C: Ctx, f: Ctrl)
    requires f.dead && f.opds == []
    ensures CheckOne(C, Unary(EqZInt64), [f]) == Some([f.(opds := [Known(I32)])])
  {
    hide PopAll;
    DeadSupplies(f, [I64]);
    PushI32(f);
    assert [f][..0] == [] && [] + [Push(f, [I32])] == [Push(f, [I32])];
  }

  lemma CheckNothing(C: Ctx, code: Code, s: VState)
    requires code == []
    ensures Check(C, code, s) == Some(s)
  {
  }

  /**
   * In unreachable code, too, the context must be there for the function to stay valid: a fragment that
   * exchanges an i32 spoils code that would have taken operands of any type.
   */
  lemma DeadCodeNeedsContext()
    ensures ValidBody(EMPTY_CTX, DEAD_CODE) && WrapperValid(EMPTY_CTX, SWAP) && Contained(SWAP.code, 0)
    ensures !ValidBody(EMPTY_CTX, DEAD_CODE[..1] + SWAP.code + DEAD_CODE[1..])
  {
    hide ValidBody, WrapperValid;
    SwapValid();
    DeadCodeValid();
    SpoiledInvalid();
    assert DEAD_CODE[..1] + SWAP.code + DEAD_CODE[1..] == SPOILED;
  }

  const SPOILED: Code := [StackInst(Unreachable, UnreachableType), StackInst(Drop, Results([])),
                          StackInst(Const(Zero(I32)), Results([I32])), StackInst(Unary(EqZInt64), UnreachableType),
                          StackInst(Drop, UnreachableType)]

  lemma SpoiledInvalid()
    ensures !ValidBody(EMPTY_CTX, SPOILED)
  {
    hide Check;
    var C, a, code := EMPTY_CTX, Body([], [])[0], SPOILED;
    var b := Kill(a);
    var e := b.(opds := [Known(I32)]);
    OnUnreachable(C, [], a);
    assert [] + [a] == [a] && [] + [b] == [b];
    Checked(C, code, [a], [b]);
    DropOnDead(C, b);
    Checked(C, code[1..], [b], [b]);
    PushesI32(C, b);
    Checked(C, code[1..][1..], [b], [e]);
    EqzOnI32(C, e);
    CheckStops(C, code[1..][1..][1..], [e]);
  }

  lemma PushesI32(C: Ctx, f: Ctrl)
    requires f.opds == []
    ensures CheckOne(C, Const(Zero(I32)), [f]) == Some([f.(opds := [Known(I32)])])
  {
    PushI32(f);
    assert PopAll(f, []) == Some(f);
    assert [f][..0] == [] && [] + [Push(f, [I32])] == [Push(f, [I32])];
  }

  lemma PushI32(f: Ctrl)
    requires f.opds == []
    ensures Push(f, [I32]) == f.(opds := [Known(I32)])
  {
    assert KnownOf([I32]) == [Known(I32)] && f.opds + [Known(I32)] == [Known(I32)];
  }

  lemma DropOnDead(C: Ctx, f: Ctrl)
    requires f.dead && f.opds == []
    ensures CheckOne(C, Drop, [f]) == Some([f])
  {
    assert [f][..0] == [] && [] + [f] == [f];
  }

  lemma EqzOnI32(C: Ctx, f: Ctrl)
    requires f.opds == [Known(I32)]
    ensures CheckOne(C, Unary(EqZInt64), [f]).None?
  {
    assert PopAll(f, [I64]) == None;
  }

  lemma CheckStops(C: Ctx, code: Code, s: VState)
    requires code != [] && CheckOne(C, code[0].instr, s).None?
    ensures Check(C, code, s).None?
  {
  }
}
