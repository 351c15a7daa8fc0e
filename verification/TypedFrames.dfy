/**
 * Frames that agree with the validator: the operands have the types the validator knows at the
 * frame's position, and every move the frame makes keeps that.
 */
module TypedFrames {
  import opened Values
  import opened Machine
  import opened Validation
  import opened Typing

  // ----- valid programs -----

  function FuncTypes(P: Program): (ts: seq<FuncType>)
    ensures |ts| == |P.funcs| && forall k :: 0 <= k < |ts| ==> ts[k] == P.funcs[k].ft
  {
    seq(|P.funcs|, k requires 0 <= k < |P.funcs| => P.funcs[k].ft)
  }

  /** What function fn is validated against; gt are the types of the globals. */
  function CtxOf(P: Program, gt: seq<ValType>, fn: nat): Ctx
    requires fn < |P.funcs| && P.funcs[fn].Defined?
  {
    var d := P.funcs[fn];
    Ctx(d.ft.params + d.vars, gt, FuncTypes(P), d.ft.results)
  }

  /** Imported functions return what their type says. */
  ghost predicate HostTyped(P: Program) {
    forall fn: nat, args: seq<Value>, m: seq<Byte>, w: int :: fn < |P.funcs| && P.funcs[fn].Import? ==>
      var r := P.host(fn, args, m, w);
      r.Some? ==> TypesOf(r.value.results) == P.funcs[fn].ft.results
  }

  ghost predicate ValidProgram(P: Program, gt: seq<ValType>) {
    && Closed(P) && HostTyped(P)
    && forall fn :: 0 <= fn < |P.funcs| && P.funcs[fn].Defined? ==> ValidBody(CtxOf(P, gt, fn), P.funcs[fn].code)
  }

  // ----- frames that agree with the validator -----

  /** The operands of all control frames, outermost first. */
  function Flat(s: VState): seq<OpType> {
    if s == [] then [] else Flat(s[..|s| - 1]) + s[|s| - 1].opds
  }

  lemma FlatSnoc(s: VState, f: Ctrl)
    ensures Flat(s + [f]) == Flat(s) + f.opds
  {
    assert (s + [f])[..|s|] == s;
  }

  /** Label j belongs to control frame j + 1: it knows where that was opened and how high the stack was. */
  ghost predicate LabelTyped(C: Ctx, code: Code, s: VState, j: nat, lab: Label)
    requires j + 1 < |s|
  {
    && lab.begin < |code| && Opens(code[lab.begin].instr)
    && lab.height == |Flat(s[..j + 1])|
    && (var i := code[lab.begin].instr;
        && StateBefore(C, code, lab.begin + 1) == Some(s[..j + 1] + [NewFrame(OpensAs(i), i.bt)])
        && s[j + 1].start == i.bt.params && s[j + 1].end == i.bt.results
        && (s[j + 1].kind == OpensAs(i) || (i.IfBegin? && s[j + 1].kind == ElseC)))
  }

  /** The frame agrees with the state s, the values of `pending` types yet to be pushed. */
  ghost predicate Typed(C: Ctx, f: Frame, s: VState, pending: seq<ValType>) {
    && s != [] && TypesOf(f.locals) == C.locals
    && (forall k :: 0 <= k < |s| ==> !s[k].dead)
    && Flat(s) == KnownOf(TypesOf(f.stack) + pending)
    && |s| == |f.labels| + 1
    && (forall j :: 0 <= j < |f.labels| ==> LabelTyped(C, f.code, s, j, f.labels[j]))
  }

  ghost predicate FrameSound(C: Ctx, f: Frame, pending: seq<ValType>) {
    f.pc <= |f.code| && StateBefore(C, f.code, f.pc).Some? && Typed(C, f, StateBefore(C, f.code, f.pc).value, pending)
  }

  lemma TypesAppend(a: seq<Value>, b: seq<Value>)
    ensures TypesOf(a + b) == TypesOf(a) + TypesOf(b)
  {
  }

  lemma TypesSlice(a: seq<Value>, k: nat)
    requires k <= |a|
    ensures TypesOf(a[..k]) == TypesOf(a)[..k] && TypesOf(a[k..]) == TypesOf(a)[k..]
  {
  }

  lemma KnownAppend(a: seq<ValType>, b: seq<ValType>)
    ensures KnownOf(a + b) == KnownOf(a) + KnownOf(b)
  {
  }

  /** Height of the operand stack below the innermost control frame. */
  function Below(s: VState): nat
    requires s != []
  {
    |Flat(s[..|s| - 1])|
  }

  /** The innermost frame's operands are the top of the stack. */
  lemma TopTypes(C: Ctx, f: Frame, s: VState, pending: seq<ValType>)
    requires Typed(C, f, s, pending)
    ensures var h, ts := Below(s), TypesOf(f.stack) + pending;
      h <= |ts| && s[|s| - 1].opds == KnownOf(ts[h..]) && Flat(s[..|s| - 1]) == KnownOf(ts[..h])
  {
    hide LabelTyped;
    var h, ts, n := Below(s), TypesOf(f.stack) + pending, |s| - 1;
    assert Flat(s) == Flat(s[..n]) + s[n].opds;
    assert Flat(s)[h..] == s[n].opds && Flat(s)[..h] == Flat(s[..n]);
    assert KnownOf(ts)[h..] == KnownOf(ts[h..]) && KnownOf(ts)[..h] == KnownOf(ts[..h]);
  }

  /** Popping known operands from a frame in reachable code. */
  lemma {:induction false} PopAllKnown(f: Ctrl, xs: seq<ValType>, ts: seq<ValType>)
    requires !f.dead && f.opds == KnownOf(xs) && PopAll(f, ts).Some?
    ensures |ts| <= |xs| && xs[|xs| - |ts|..] == ts
    ensures PopAll(f, ts).value == f.(opds := KnownOf(xs[..|xs| - |ts|]))
    decreases |ts|
  {
    if ts == [] {
      assert xs[..|xs|] == xs;
    } else {
      var n, m := |ts| - 1, |xs| - 1;
      var g := Pop(f, ts[n]).value;
      OneKnown(f, xs, ts[n]);
      PopAllKnown(g, xs[..m], ts[..n]);
      LastOff(xs, |ts|);
      assert ts == ts[..n] + [ts[n]];
    }
  }

  lemma OneKnown(f: Ctrl, xs: seq<ValType>, t: ValType)
    requires !f.dead && f.opds == KnownOf(xs) && Pop(f, t).Some?
    ensures xs != [] && xs[|xs| - 1] == t && Pop(f, t).value == f.(opds := KnownOf(xs[..|xs| - 1]))
  {
    assert f.opds[|xs| - 1] == Known(xs[|xs| - 1]);
  }

  lemma LastOff(xs: seq<ValType>, k: nat)
    requires 1 <= k <= |xs|
    ensures var m := |xs| - 1;
      xs[..m][..|xs| - k] == xs[..|xs| - k] && xs[|xs| - k..] == xs[..m][|xs| - k..] + [xs[m]]
  {
  }

  /** A new innermost frame of the same construct, over the same operands below. */
  lemma TopReplaced(C: Ctx, f: Frame, s: VState, p: seq<ValType>, g: Ctrl, f2: Frame, pending: seq<ValType>)
    requires Typed(C, f, s, p) && SameFrame(s[|s| - 1], g) && !g.dead
    requires f2.code == f.code && f2.labels == f.labels && TypesOf(f2.locals) == C.locals
    requires var h, ts, us := Below(s), TypesOf(f.stack) + p, TypesOf(f2.stack) + pending;
      h <= |ts| && h <= |us| && us[..h] == ts[..h] && g.opds == KnownOf(us[h..])
    ensures Typed(C, f2, s[..|s| - 1] + [g], pending)
  {
    hide LabelTyped;
    var n, h, us := |s| - 1, Below(s), TypesOf(f2.stack) + pending;
    var s2 := s[..n] + [g];
    TopTypes(C, f, s, p);
    FlatSnoc(s[..n], g);
    KnownAppend(us[..h], us[h..]);
    assert us == us[..h] + us[h..];
    forall j | 0 <= j < |f2.labels| ensures LabelTyped(C, f2.code, s2, j, f2.labels[j]) {
      LabelKept(C, f.code, s, s2, j, f.labels[j]);
    }
  }

  /** A label stays typed while the frames up to its own stay, and its own stays the same construct. */
  lemma LabelKept(C: Ctx, code: Code, s: VState, s2: VState, j: nat, lab: Label)
    requires j + 1 < |s| && j + 1 < |s2| && LabelTyped(C, code, s, j, lab)
    requires s2[..j + 1] == s[..j + 1] && SameFrame(s[j + 1], s2[j + 1])
    ensures LabelTyped(C, code, s2, j, lab)
  {
  }

  /** Operands the validator pops are on top of the stack. */
  lemma PopTop(C: Ctx, f: Frame, s: VState, params: seq<ValType>)
    requires s != [] && Typed(C, f, s, []) && PopAll(s[|s| - 1], params).Some?
    ensures var m, ts := |f.stack| - |params|, TypesOf(f.stack);
      && Below(s) <= m && ts[m..] == params
      && PopAll(s[|s| - 1], params).value == s[|s| - 1].(opds := KnownOf(ts[Below(s)..m]))
      && !s[|s| - 1].dead
  {
    hide Typed, PopAll, Below, TypesOf, KnownOf;
    TopNow(C, f, s);
    PopOver(s[|s| - 1], TypesOf(f.stack), Below(s), params);
  }

  lemma TopNow(C: Ctx, f: Frame, s: VState)
    requires s != [] && Typed(C, f, s, [])
    ensures var h, ts, top := Below(s), TypesOf(f.stack), s[|s| - 1];
      h <= |ts| == |f.stack| && top.opds == KnownOf(ts[h..]) && !top.dead
  {
    hide Typed, Below, KnownOf;
    TopTypes(C, f, s, []);
    TopAlive(C, f, s);
    assert TypesOf(f.stack) + [] == TypesOf(f.stack);
  }

  lemma PopOver(top: Ctrl, ts: seq<ValType>, h: nat, params: seq<ValType>)
    requires h <= |ts| && !top.dead && top.opds == KnownOf(ts[h..]) && PopAll(top, params).Some?
    ensures var m := |ts| - |params|;
      h <= m && ts[m..] == params && PopAll(top, params).value == top.(opds := KnownOf(ts[h..m]))
  {
    hide PopAll, KnownOf;
    PopAllKnown(top, ts[h..], params);
    SliceOfRest(ts, h, |params|);
  }

  lemma SliceOfRest(ts: seq<ValType>, h: nat, k: nat)
    requires h + k <= |ts|
    ensures var xs, m := ts[h..], |ts| - k;
      |xs| == |ts| - h && xs[|xs| - k..] == ts[m..] && xs[..|xs| - k] == ts[h..m]
  {
  }

  /** The operands popped can be exchanged for results. */
  lemma PopPush(C: Ctx, f: Frame, s: VState, params: seq<ValType>, results: seq<ValType>,
                f2: Frame, pending: seq<ValType>)
    requires s != [] && Typed(C, f, s, []) && PopAll(s[|s| - 1], params).Some? && |params| <= |f.stack|
    requires f2.code == f.code && f2.labels == f.labels && TypesOf(f2.locals) == C.locals
    requires TypesOf(f2.stack) + pending == TypesOf(f.stack)[..|f.stack| - |params|] + results
    ensures Typed(C, f2, s[..|s| - 1] + [Push(PopAll(s[|s| - 1], params).value, results)], pending)
  {
    hide Typed, PopAll, Below, TypesOf;
    var h, ts, n, m := Below(s), TypesOf(f.stack), |s| - 1, |f.stack| - |params|;
    PopTop(C, f, s, params);
    KnownAppend(ts[h..m], results);
    PopPushSlices(ts, h, m, results);
    assert ts + [] == ts;
    TopReplaced(C, f, s, [], Push(PopAll(s[n], params).value, results), f2, pending);
  }

  lemma PopPushSlices(ts: seq<ValType>, h: nat, m: nat, results: seq<ValType>)
    requires h <= m <= |ts|
    ensures (ts[..m] + results)[h..] == ts[h..m] + results && (ts[..m] + results)[..h] == ts[..h]
  {
  }

  lemma TopAlive(C: Ctx, f: Frame, s: VState)
    requires Typed(C, f, s, [])
    ensures s != [] && !s[|s| - 1].dead
  {
  }

  // ----- instructions without control flow -----

  lemma TopTypesAre(stack: seq<Value>, params: seq<ValType>)
    requires |params| <= |stack| && TypesOf(stack)[|stack| - |params|..] == params
    ensures forall k :: 0 <= k < |params| ==> stack[|stack| - |params| + k].ty == params[k]
  {
    var ts, m := TypesOf(stack), |stack| - |params|;
    assert forall k :: 0 <= k < |params| ==> ts[m..][k] == ts[m + k];
  }

  lemma TopTwo(stack: seq<Value>, params: seq<ValType>)
    requires |params| <= |stack| && TypesOf(stack)[|stack| - |params|..] == params
    ensures |params| == 1 ==> stack[|stack| - 1].ty == params[0]
    ensures |params| == 2 ==> stack[|stack| - 2].ty == params[0] && stack[|stack| - 1].ty == params[1]
  {
    TopTypesAre(stack, params);
    assert |params| == 1 ==> stack[|stack| - 1 + 0].ty == params[0];
    assert |params| == 2 ==> stack[|stack| - 2 + 0].ty == params[0] && stack[|stack| - 2 + 1].ty == params[1];
  }

  /** The stack with the operands taken off and one value put on. */
  lemma OneResult(stack: seq<Value>, m: nat, v: Value)
    requires m <= |stack|
    ensures TypesOf(stack[..m]) == TypesOf(stack)[..m] + []
    ensures TypesOf(stack[..m] + [v]) == TypesOf(stack)[..m] + [v.ty]
    ensures TypesOf(stack + [v]) == TypesOf(stack)[..|stack|] + [v.ty]
  {
  }

  ghost predicate EffectTyped(C: Ctx, r: Effect, ts: seq<ValType>) {
    && r != Bad(Invalid)
    && (r.Ok? ==> TypesOf(r.locals) == C.locals && TypesOf(r.store.globals) == C.globals && TypesOf(r.stack) == ts)
  }

  lemma UpdateKeepsTypes(vs: seq<Value>, x: nat, v: Value)
    requires x < |vs| && vs[x].ty == v.ty
    ensures TypesOf(vs[x := v]) == TypesOf(vs)
  {
  }

  lemma PushTyped(C: Ctx, i: Instr, sig: FuncType, locals: seq<Value>, stack: seq<Value>, st: Machine.Store)
    requires (i.Nop? || i.Const? || i.LocalGet? || i.GlobalGet? || i.MemorySize?) && Signature(C, i) == Some(sig)
    requires TypesOf(locals) == C.locals && TypesOf(st.globals) == C.globals
    requires |sig.params| <= |stack| && TypesOf(stack)[|stack| - |sig.params|..] == sig.params
    ensures EffectTyped(C, Exec(i, locals, stack, st), TypesOf(stack)[..|stack| - |sig.params|] + sig.results)
  {
    hide TypesOf;
    match i {
      case Nop => NothingDone(stack);
      case Const(v) => OneResult(stack, |stack|, v);
      case LocalGet(x) =>
        TypeAt(locals, x);
        OneResult(stack, |stack|, locals[x]);
      case GlobalGet(x) =>
        TypeAt(st.globals, x);
        OneResult(stack, |stack|, st.globals[x]);
      case MemorySize => OneResult(stack, |stack|, Int32(|st.mem| / PAGE));
    }
  }

  lemma NothingDone(stack: seq<Value>)
    ensures TypesOf(stack)[..|stack| - 0] + [] == TypesOf(stack)
  {
  }

  lemma TypeAt(vs: seq<Value>, x: nat)
    requires x < |TypesOf(vs)|
    ensures x < |vs| && TypesOf(vs)[x] == vs[x].ty
  {
  }

  lemma LocalSetTyped(C: Ctx, i: Instr, sig: FuncType, locals: seq<Value>, stack: seq<Value>, st: Machine.Store)
    requires (i.LocalSet? || i.LocalTee?) && Signature(C, i) == Some(sig)
    requires TypesOf(locals) == C.locals && TypesOf(st.globals) == C.globals
    requires |sig.params| <= |stack| && TypesOf(stack)[|stack| - |sig.params|..] == sig.params
    ensures EffectTyped(C, Exec(i, locals, stack, st), TypesOf(stack)[..|stack| - |sig.params|] + sig.results)
  {
    hide TypesOf;
    TopTwo(stack, sig.params);
    LastType(stack);
    TypeAt(locals, i.x);
    UpdateKeepsTypes(locals, i.x, stack[|stack| - 1]);
  }

  lemma GlobalSetTyped(C: Ctx, i: Instr, sig: FuncType, locals: seq<Value>, stack: seq<Value>, st: Machine.Store)
    requires i.GlobalSet? && Signature(C, i) == Some(sig)
    requires TypesOf(locals) == C.locals && TypesOf(st.globals) == C.globals
    requires |sig.params| <= |stack| && TypesOf(stack)[|stack| - |sig.params|..] == sig.params
    ensures EffectTyped(C, Exec(i, locals, stack, st), TypesOf(stack)[..|stack| - |sig.params|] + sig.results)
  {
    hide TypesOf;
    TopTwo(stack, sig.params);
    LastType(stack);
    TypeAt(st.globals, i.x);
    UpdateKeepsTypes(st.globals, i.x, stack[|stack| - 1]);
  }

  lemma LastType(stack: seq<Value>)
    requires stack != []
    ensures var m := |stack| - 1;
      TypesOf(stack) == TypesOf(stack)[..m] + [stack[m].ty] && TypesOf(stack[..m]) == TypesOf(stack)[..m] + []
  {
  }

  lemma LoadTyped(C: Ctx, i: Instr, sig: FuncType, locals: seq<Value>, stack: seq<Value>, st: Machine.Store)
    requires (i.Load? || i.Load8U?) && Signature(C, i) == Some(sig)
    requires TypesOf(locals) == C.locals && TypesOf(st.globals) == C.globals
    requires |sig.params| <= |stack| && TypesOf(stack)[|stack| - |sig.params|..] == sig.params
    ensures EffectTyped(C, Exec(i, locals, stack, st), TypesOf(stack)[..|stack| - |sig.params|] + sig.results)
  {
    hide Decode;
    TopTwo(stack, sig.params);
    var n := |stack|;
    var a, width := stack[n-1].bits + i.offset, if i.Load? then Size(i.t) else 1;
    if a + width <= |st.mem| {
      OneResult(stack, n - 1, if width == 1 then Int32(st.mem[a]) else Decode(i.t, st.mem[a..a + width]));
    }
  }

  lemma StoreTyped(C: Ctx, i: Instr, sig: FuncType, locals: seq<Value>, stack: seq<Value>, st: Machine.Store)
    requires (i.Store? || i.Store8?) && Signature(C, i) == Some(sig)
    requires TypesOf(locals) == C.locals && TypesOf(st.globals) == C.globals
    requires |sig.params| <= |stack| && TypesOf(stack)[|stack| - |sig.params|..] == sig.params
    ensures EffectTyped(C, Exec(i, locals, stack, st), TypesOf(stack)[..|stack| - |sig.params|] + sig.results)
  {
    hide TypesOf, ExecStore;
    TopTwo(stack, sig.params);
    OneResult(stack, |stack| - 2, Value(I32, 0));
    if i.Store? {
      StoreShape(i.t, (v: Value) => Encode(v), i.offset, locals, stack, st);
    } else {
      StoreShape(I32, (v: Value) => ToBytes(v.bits, 1), i.offset, locals, stack, st);
    }
  }

  lemma StoreShape(t: ValType, bytes: Value -> seq<Byte>, offset: nat,
                   locals: seq<Value>, stack: seq<Value>, st: Machine.Store)
    requires var n := |stack|; n >= 2 && stack[n-2].ty == I32 && stack[n-1].ty == t
    ensures var r := ExecStore(t, bytes, offset, locals, stack, st);
      && (r.Bad? ==> r.why == Bounds)
      && (r.Ok? ==> r.locals == locals && r.stack == stack[..|stack| - 2] && r.store.globals == st.globals)
  {
    hide Write;
  }

  lemma InitTyped(C: Ctx, i: Instr, sig: FuncType, locals: seq<Value>, stack: seq<Value>, st: Machine.Store)
    requires i.MemoryInit? && Signature(C, i) == Some(sig)
    requires TypesOf(locals) == C.locals && TypesOf(st.globals) == C.globals
    requires |sig.params| <= |stack| && TypesOf(stack)[|stack| - |sig.params|..] == sig.params
    ensures EffectTyped(C, Exec(i, locals, stack, st), TypesOf(stack)[..|stack| - |sig.params|] + sig.results)
  {
    hide TypesOf, Write;
    var n := |stack|;
    TopTypesAre(stack, sig.params);
    assert stack[n - 3 + 0].ty == stack[n - 3 + 1].ty == stack[n - 3 + 2].ty == I32;
    OneResult(stack, n - 3, Value(I32, 0));
  }

  lemma UnaryTyped(C: Ctx, i: Instr, sig: FuncType, locals: seq<Value>, stack: seq<Value>, st: Machine.Store)
    requires i.Unary? && Signature(C, i) == Some(sig)
    requires TypesOf(locals) == C.locals && TypesOf(st.globals) == C.globals
    requires |sig.params| <= |stack| && TypesOf(stack)[|stack| - |sig.params|..] == sig.params
    ensures EffectTyped(C, Exec(i, locals, stack, st), TypesOf(stack)[..|stack| - |sig.params|] + sig.results)
  {
    hide TypesOf;
    TopTwo(stack, sig.params);
    OneResult(stack, |stack| - 1, EvalUnary(i.uop, stack[|stack| - 1]).value);
  }

  lemma BinaryTyped(C: Ctx, i: Instr, sig: FuncType, locals: seq<Value>, stack: seq<Value>, st: Machine.Store)
    requires i.Binary? && Signature(C, i) == Some(sig)
    requires TypesOf(locals) == C.locals && TypesOf(st.globals) == C.globals
    requires |sig.params| <= |stack| && TypesOf(stack)[|stack| - |sig.params|..] == sig.params
    ensures EffectTyped(C, Exec(i, locals, stack, st), TypesOf(stack)[..|stack| - |sig.params|] + sig.results)
  {
    hide TypesOf, EvalBinary;
    TopTwo(stack, sig.params);
    var r := EvalBinary(i.bop, stack[|stack| - 2], stack[|stack| - 1]);
    if r.Some? {
      BinaryIsInt32(i.bop, stack[|stack| - 2], stack[|stack| - 1]);
      OneResult(stack, |stack| - 2, r.value);
    }
  }

  lemma BinaryIsInt32(op: BinaryOp, a: Value, b: Value)
    requires a.ty == b.ty == OperandType(op)
    ensures EvalBinary(op, a, b).Some? ==> EvalBinary(op, a, b).value.ty == I32
  {
  }

  /** An instruction whose operands have the right types yields results of the right types, or traps. */
  lemma ExecTyped(C: Ctx, i: Instr, sig: FuncType, locals: seq<Value>, stack: seq<Value>, st: Machine.Store)
    requires Simple(i) && !i.Drop? && Signature(C, i) == Some(sig)
    requires TypesOf(locals) == C.locals && TypesOf(st.globals) == C.globals
    requires |sig.params| <= |stack| && TypesOf(stack)[|stack| - |sig.params|..] == sig.params
    ensures EffectTyped(C, Exec(i, locals, stack, st), TypesOf(stack)[..|stack| - |sig.params|] + sig.results)
  {
    hide Exec, EffectTyped;
    if i.Load? || i.Load8U? {
      LoadTyped(C, i, sig, locals, stack, st);
    } else if i.Store? || i.Store8? {
      StoreTyped(C, i, sig, locals, stack, st);
    } else if i.Unary? {
      UnaryTyped(C, i, sig, locals, stack, st);
    } else if i.Binary? {
      BinaryTyped(C, i, sig, locals, stack, st);
    } else if i.LocalSet? || i.LocalTee? {
      LocalSetTyped(C, i, sig, locals, stack, st);
    } else if i.GlobalSet? {
      GlobalSetTyped(C, i, sig, locals, stack, st);
    } else if i.MemoryInit? {
      InitTyped(C, i, sig, locals, stack, st);
    } else {
      PushTyped(C, i, sig, locals, stack, st);
    }
  }

  // ----- one move -----

  ghost predicate SameCode(f: Frame, g: Frame) {
    g.fn == f.fn && g.code == f.code && g.arity == f.arity
  }

  /** The move keeps the agreement with the validator, and is no fault that validation rules out. */
  ghost predicate MoveSound(P: Program, C: Ctx, f: Frame, m: Move) {
    match m
    case Stay(f2, st2) => SameCode(f, f2) && FrameSound(C, f2, []) && TypesOf(st2.globals) == C.globals
    case Enter(f2, callee, args) =>
      && callee < |P.funcs| && P.funcs[callee].Defined?
      && SameCode(f, f2) && FrameSound(C, f2, P.funcs[callee].ft.results)
      && TypesOf(args) == P.funcs[callee].ft.params
    case Exit(vals) => TypesOf(vals) == C.ret
    case Fault(why) => why != Invalid
  }

  /** The frame runs valid code, and agrees with the state s of the validator. */
  ghost predicate At(C: Ctx, f: Frame, s: VState) {
    && f.pc < |f.code| && ValidBody(C, f.code) && f.arity == |C.ret|
    && StateBefore(C, f.code, f.pc) == Some(s) && Typed(C, f, s, [])
  }

  lemma AtNext(C: Ctx, f: Frame, s: VState)
    requires At(C, f, s)
    ensures var i := f.code[f.pc].instr;
      && s != [] && s[0].kind == FuncC && s[0].end == C.ret
      && CheckOne(C, i, s).Some? && StateBefore(C, f.code, f.pc + 1) == CheckOne(C, i, s)
  {
    hide CheckOne, ValidBody, StateBefore;
    FunctionFrame(C, f.code, f.pc);
    StateNext(C, f.code, f.pc);
    StateExists(C, f.code, f.pc + 1);
  }

  lemma StackTypes(stack: seq<Value>, k: nat)
    requires k <= |stack|
    ensures TypesOf(stack[..k]) + [] == TypesOf(stack)[..k]
    ensures TypesOf(stack)[..k] + [] == TypesOf(stack)[..k]
  {
  }

  lemma DropSound(P: Program, C: Ctx, f: Frame, s: VState, st: Machine.Store)
    requires At(C, f, s) && f.code[f.pc].instr == Drop && TypesOf(st.globals) == C.globals
    ensures MoveSound(P, C, f, Straight(f, Drop, st))
  {
    hide Typed, StateBefore, ValidBody;
    AtNext(C, f, s);
    var n := |s| - 1;
    TopAlive(C, f, s);
    assert s[n].opds != [];
    var t := TopKnown(C, f, s);
    assert PopAll(s[n], [t]) == PopAny(s[n]) by { PopOne(s[n], t); }
    PopTop(C, f, s, [t]);
    LocalTypes(C, f, s);
    var f2 := f.(pc := f.pc + 1, stack := f.stack[..|f.stack| - 1]);
    StackTypes(f.stack, |f.stack| - 1);
    PopPush(C, f, s, [t], [], f2, []);
    PushNothing(PopAny(s[n]).value);
  }

  lemma PopOne(f: Ctrl, t: ValType)
    requires f.opds != [] && f.opds[|f.opds| - 1] == Known(t)
    ensures PopAll(f, [t]) == PopAny(f)
  {
    assert PopAll(PopAny(f).value, [t][..0]) == PopAny(f);
  }

  lemma PushNothing(f: Ctrl)
    ensures Push(f, []) == f
  {
    assert f.opds + KnownOf([]) == f.opds;
  }

  /** The type of the innermost frame's last operand. */
  lemma TopKnown(C: Ctx, f: Frame, s: VState) returns (t: ValType)
    requires s != [] && Typed(C, f, s, []) && s[|s| - 1].opds != []
    ensures var os := s[|s| - 1].opds; os[|os| - 1] == Known(t)
  {
    hide Typed;
    TopTypes(C, f, s, []);
    var xs := (TypesOf(f.stack) + [])[Below(s)..];
    t := xs[|xs| - 1];
  }

  lemma StraightSound(P: Program, C: Ctx, f: Frame, s: VState, st: Machine.Store)
    requires At(C, f, s) && Simple(f.code[f.pc].instr) && TypesOf(st.globals) == C.globals
    ensures MoveSound(P, C, f, Straight(f, f.code[f.pc].instr, st))
  {
    hide Typed, StateBefore, ValidBody, Exec, PopAll, Signature;
    var i, n := f.code[f.pc].instr, |s| - 1;
    if i.Drop? {
      DropSound(P, C, f, s, st);
    } else {
      AtNext(C, f, s);
      var sig := Signature(C, i).value;
      PopTop(C, f, s, sig.params);
      LocalTypes(C, f, s);
      ExecTyped(C, i, sig, f.locals, f.stack, st);
      var r := Exec(i, f.locals, f.stack, st);
      if r.Ok? {
        var f2 := f.(pc := f.pc + 1, locals := r.locals, stack := r.stack);
        assert TypesOf(r.stack) + [] == TypesOf(r.stack);
        PopPush(C, f, s, sig.params, sig.results, f2, []);
      }
    }
  }

  lemma GrowSound(P: Program, C: Ctx, f: Frame, s: VState, st: Machine.Store)
    requires At(C, f, s) && f.code[f.pc].instr.MemoryGrow? && TypesOf(st.globals) == C.globals
    ensures MoveSound(P, C, f, Grow(P, f, st))
  {
    hide Typed, StateBefore, ValidBody, PopAll, TypesOf, ZeroBytes;
    AtNext(C, f, s);
    PopTop(C, f, s, [I32]);
    LocalTypes(C, f, s);
    TopTwo(f.stack, [I32]);
    var n := |f.stack|;
    var v := Int32(if |st.mem| / PAGE + f.stack[n-1].bits <= P.maxPages then |st.mem| / PAGE else -1);
    var f2 := f.(pc := f.pc + 1, stack := f.stack[..n-1] + [v]);
    OneResult(f.stack, n - 1, v);
    assert TypesOf(f2.stack) + [] == TypesOf(f2.stack);
    PopPush(C, f, s, [I32], [I32], f2, []);
  }

  lemma LocalTypes(C: Ctx, f: Frame, s: VState)
    requires Typed(C, f, s, [])
    ensures TypesOf(f.locals) == C.locals && |s| == |f.labels| + 1
  {
  }

  /** A call, the operands behind its arguments already popped. */
  lemma InvokeSound(P: Program, C: Ctx, f: Frame, s: VState, callee: nat, st: Machine.Store)
    requires s != [] && Typed(C, f, s, []) && f.pc < |f.code| && callee < |P.funcs| && HostTyped(P)
    requires TypesOf(st.globals) == C.globals
    requires var ft, top := P.funcs[callee].ft, s[|s| - 1];
      && PopAll(top, ft.params).Some?
      && StateBefore(C, f.code, f.pc + 1) == Some(s[..|s| - 1] + [Push(PopAll(top, ft.params).value, ft.results)])
    ensures MoveSound(P, C, f, Invoke(P, f, callee, st))
  {
    hide Typed, StateBefore, PopAll;
    var ft := P.funcs[callee].ft;
    PopTop(C, f, s, ft.params);
    LocalTypes(C, f, s);
    var m := |f.stack| - |ft.params|;
    var args, g := f.stack[m..], f.(pc := f.pc + 1, stack := f.stack[..m]);
    TypesSlice(f.stack, m);
    PopPush(C, f, s, ft.params, ft.results, g, ft.results);
    if P.funcs[callee].Import? {
      var r := P.host(callee, args, st.mem, st.world);
      if r.Some? {
        var g2 := g.(stack := g.stack + r.value.results);
        TypesAppend(g.stack, r.value.results);
        assert TypesOf(g2.stack) + [] == TypesOf(g2.stack);
        PopPush(C, f, s, ft.params, ft.results, g2, []);
      }
    }
  }

  /** The frame after its condition or table index has been popped. */
  lemma PopIndex(C: Ctx, f: Frame, s: VState, params: seq<ValType>)
    requires s != [] && Typed(C, f, s, []) && PopAll(s[|s| - 1], params + [I32]).Some?
    ensures |f.stack| >= 1 && f.stack[|f.stack| - 1].ty == I32
    ensures var top := s[|s| - 1];
      && Pop(top, I32).Some?
      && PopAll(Pop(top, I32).value, params) == PopAll(top, params + [I32])
      && Typed(C, f.(stack := f.stack[..|f.stack| - 1]), s[..|s| - 1] + [Pop(top, I32).value], [])
  {
    hide Typed;
    var top, n := s[|s| - 1], |s| - 1;
    assert (params + [I32])[..|params|] == params;
    var p := Pop(top, I32).value;
    assert PopAll(top, [I32]) == Some(p) by { assert PopAll(p, [I32][..0]) == Some(p); }
    PopTop(C, f, s, [I32]);
    LocalTypes(C, f, s);
    TopTwo(f.stack, [I32]);
    var f2 := f.(stack := f.stack[..|f.stack| - 1]);
    StackTypes(f.stack, |f.stack| - 1);
    PopPush(C, f, s, [I32], [], f2, []);
    PushNothing(p);
  }

  lemma CallSound(P: Program, gt: seq<ValType>, f: Frame, s: VState, st: Machine.Store)
    requires FrameOf(P, f) && HostTyped(P) && Closed(P)
    requires At(CtxOf(P, gt, f.fn), f, s) && TypesOf(st.globals) == gt
    requires f.code[f.pc].instr.Call? || f.code[f.pc].instr.CallIndirect?
    ensures var i := f.code[f.pc].instr;
      MoveSound(P, CtxOf(P, gt, f.fn), f, if i.Call? then Invoke(P, f, i.target, st) else InvokeIndirect(P, f, i.ft, st))
  {
    hide Typed, StateBefore, ValidBody, PopAll, Push, HostTyped, FrameSound;
    var C, i := CtxOf(P, gt, f.fn), f.code[f.pc].instr;
    AtNext(C, f, s);
    if i.Call? {
      InvokeSound(P, C, f, s, i.target, st);
    } else {
      assert PopAll(s[|s| - 1], i.ft.params + [I32]).Some?;
      IndirectSound(P, C, f, s, i.ft, st);
    }
  }

  lemma IndirectSound(P: Program, C: Ctx, f: Frame, s: VState, ft: FuncType, st: Machine.Store)
    requires s != [] && Typed(C, f, s, []) && f.pc < |f.code| && HostTyped(P) && Closed(P)
    requires TypesOf(st.globals) == C.globals
    requires var top := s[|s| - 1];
      && PopAll(top, ft.params + [I32]).Some?
      && StateBefore(C, f.code, f.pc + 1)
         == Some(s[..|s| - 1] + [Push(PopAll(top, ft.params + [I32]).value, ft.results)])
    ensures MoveSound(P, C, f, InvokeIndirect(P, f, ft, st))
  {
    hide Typed, StateBefore, PopAll, Push, HostTyped, FrameSound, Pop;
    PopIndex(C, f, s, ft.params);
    var n, k := |s| - 1, f.stack[|f.stack| - 1].bits;
    var f1, s1 := f.(stack := f.stack[..|f.stack| - 1]), s[..n] + [Pop(s[n], I32).value];
    if k < |P.table| && P.table[k].Some? && P.funcs[P.table[k].value].ft == ft {
      assert s1[..n] == s[..n];
      InvokeSound(P, C, f1, s1, P.table[k].value, st);
      SameMove(P, C, f, f1, Invoke(P, f1, P.table[k].value, st));
    }
  }

  lemma SameMove(P: Program, C: Ctx, f: Frame, g: Frame, m: Move)
    requires MoveSound(P, C, g, m) && SameCode(f, g)
    ensures MoveSound(P, C, f, m)
  {
  }

  // ----- control flow -----

  lemma {:induction false} FlatPrefix(s: VState, k: nat, n: nat)
    requires k <= n <= |s|
    ensures Flat(s[..k]) <= Flat(s[..n])
    decreases n
  {
    if k < n {
      FlatPrefix(s, k, n - 1);
      assert s[..n][..n - 1] == s[..n - 1];
    }
  }

  /** The operands of the outer k frames are the bottom of the stack. */
  lemma BottomTypes(C: Ctx, f: Frame, s: VState, k: nat)
    requires Typed(C, f, s, []) && k <= |s|
    ensures var h := |Flat(s[..k])|; h <= |f.stack| && Flat(s[..k]) == KnownOf(TypesOf(f.stack)[..h])
    ensures k < |s| ==> |Flat(s[..k])| <= Below(s) <= |f.stack|
  {
    hide LabelTyped, Typed;
    TypedFlat(C, f, s);
    FlatPrefix(s, k, |s|);
    assert s[..|s|] == s;
    var h, ts := |Flat(s[..k])|, TypesOf(f.stack);
    assert KnownOf(ts)[..h] == KnownOf(ts[..h]);
    if k < |s| {
      FlatPrefix(s, k, |s| - 1);
      FlatPrefix(s, |s| - 1, |s|);
    }
  }

  lemma TypedFlat(C: Ctx, f: Frame, s: VState)
    requires Typed(C, f, s, [])
    ensures Flat(s) == KnownOf(TypesOf(f.stack))
  {
    assert TypesOf(f.stack) + [] == TypesOf(f.stack);
  }

  /** Control goes to a place where the outer k frames are as here, with one frame g above them. */
  lemma Jumped(C: Ctx, f: Frame, s: VState, k: nat, g: Ctrl, xs: seq<ValType>, f2: Frame)
    requires Typed(C, f, s, []) && k < |s| && !g.dead && SameFrame(s[k], g) && g.opds == KnownOf(xs)
    requires f2.code == f.code && f2.locals == f.locals && f2.labels == f.labels[..k]
    requires |Flat(s[..k])| <= |f.stack| && TypesOf(f2.stack) == TypesOf(f.stack)[..|Flat(s[..k])|] + xs
    ensures Typed(C, f2, s[..k] + [g], [])
  {
    hide LabelTyped;
    var s2, ts := s[..k] + [g], TypesOf(f.stack)[..|Flat(s[..k])|];
    BottomTypes(C, f, s, k);
    FlatSnoc(s[..k], g);
    KnownAppend(ts, xs);
    assert TypesOf(f2.stack) + [] == TypesOf(f2.stack);
    forall j | 0 <= j < k ensures LabelTyped(C, f2.code, s2, j, f2.labels[j]) {
      assert f2.labels[j] == f.labels[j] && s2[..j + 1] == s[..j + 1];
      LabelKept(C, f.code, s, s2, j, f.labels[j]);
    }
  }

  /** Control leaves the construct of frame k + 1 with its results on top. */
  lemma LeftBehind(C: Ctx, f: Frame, s: VState, k: nat, results: seq<ValType>, f2: Frame)
    requires Typed(C, f, s, []) && k + 1 < |s|
    requires f2.code == f.code && f2.locals == f.locals && f2.labels == f.labels[..k]
    requires |Flat(s[..k + 1])| <= |f.stack| && TypesOf(f2.stack) == TypesOf(f.stack)[..|Flat(s[..k + 1])|] + results
    ensures Typed(C, f2, s[..k] + [Push(s[k], results)], [])
  {
    hide LabelTyped, Typed;
    BottomTypes(C, f, s, k);
    BottomTypes(C, f, s, k + 1);
    FlatPrefix(s, k, k + 1);
    var h, h2, ts := |Flat(s[..k])|, |Flat(s[..k + 1])|, TypesOf(f.stack);
    assert s[..k + 1] == s[..k] + [s[k]];
    FlatSnoc(s[..k], s[k]);
    assert s[k].opds == Flat(s[..k + 1])[h..] == KnownOf(ts[..h2])[h..] == KnownOf(ts[h..h2]);
    KnownAppend(ts[h..h2], results);
    assert ts[..h2] + results == ts[..h] + (ts[h..h2] + results);
    FrameAlive(C, f, s, k);
    Jumped(C, f, s, k, Push(s[k], results), ts[h..h2] + results, f2);
  }

  lemma FrameAlive(C: Ctx, f: Frame, s: VState, k: nat)
    requires Typed(C, f, s, []) && k < |s|
    ensures !s[k].dead
  {
  }

  /** The innermost frame of reachable code holds exactly its end types when it is finished. */
  lemma FinishedTypes(C: Ctx, f: Frame, s: VState)
    requires s != [] && Typed(C, f, s, []) && Finished(s[|s| - 1])
    ensures Below(s) <= |f.stack| && TypesOf(f.stack) == TypesOf(f.stack)[..Below(s)] + s[|s| - 1].end
  {
    hide Typed, PopAll;
    var n, h, ts := |s| - 1, Below(s), TypesOf(f.stack);
    TopTypes(C, f, s, []);
    assert ts + [] == ts;
    PopTop(C, f, s, s[n].end);
    assert |KnownOf(ts[h..|ts| - |s[n].end|])| == 0;
    assert ts == ts[..h] + ts[h..];
  }

  lemma CloseSound(P: Program, C: Ctx, f: Frame, s: VState, st: Machine.Store)
    requires At(C, f, s) && (Closes(f.code[f.pc].instr) || f.code[f.pc].instr.IfElse?)
    requires TypesOf(st.globals) == C.globals
    ensures MoveSound(P, C, f, Close(f, st))
  {
    hide Typed, StateBefore, ValidBody, PopAll, CheckOne, Push;
    var i, n := f.code[f.pc].instr, |s| - 1;
    AtNext(C, f, s);
    LocalTypes(C, f, s);
    if i.IfElse? {
      AfterElse(C, i, s);
    } else {
      AfterClosing(C, i, s);
    }
    assert Finished(s[n]) by { MustBeFinished(C, i, s); }
    FinishedTypes(C, f, s);
    assert n >= 1;
    var e := f.pc;
    if i.IfElse? {
      var bt, u := FuncType(s[n].start, s[n].end), CheckOne(C, i, s).value;
      assert Within(s[..n], bt, u) by { NewFrameType(s[n]); }
      EndFound(C, f.code, s[..n], bt, f.pc + 1);
      e := FindEnd(f.code, f.pc + 1, 0);
      assert Ended(s[..n], bt) == s[..n-1] + [Push(s[n-1], s[n].end)] by { assert s[..n][..n-1] == s[..n-1]; }
    }
    LeftBehind(C, f, s, n - 1, s[n].end, f.(pc := e + 1, labels := f.labels[..n-1]));
  }

  lemma MustBeFinished(C: Ctx, i: Instr, s: VState)
    requires CheckOne(C, i, s).Some? && (Closes(i) || i.IfElse?)
    ensures s != [] && Finished(s[|s| - 1])
  {
    hide Finished;
  }

  /** A branch with the operands of its target on top. */
  lemma BranchSound(P: Program, C: Ctx, f: Frame, s: VState, l: nat, st: Machine.Store)
    requires s != [] && Typed(C, f, s, []) && ValidBody(C, f.code) && f.arity == |C.ret|
    requires s[0].kind == FuncC && s[0].end == C.ret && TypesOf(st.globals) == C.globals
    requires l <= |s| - 1 && PopAll(s[|s| - 1], LabelTypes(s[|s| - 1 - l])).Some?
    ensures MoveSound(P, C, f, Branch(f, l, st))
  {
    hide Typed, StateBefore, ValidBody, PopAll, FindEnd;
    var ts, keep := TypesOf(f.stack), LabelTypes(s[|s| - 1 - l]);
    PopTop(C, f, s, keep);
    LocalTypes(C, f, s);
    var m := |f.stack| - |keep|;
    TypesSlice(f.stack, m);
    if l < |f.labels| {
      var j := |f.labels| - 1 - l;
      var lab := f.labels[j];
      assert LabelTyped(C, f.code, s, j, lab) by { LabelIs(C, f, s, j); }
      var i := f.code[lab.begin].instr;
      BottomTypes(C, f, s, j + 1);
      var vs := f.stack[..lab.height] + f.stack[m..];
      TypesSlice(f.stack, lab.height);
      TypesAppend(f.stack[..lab.height], f.stack[m..]);
      if i.LoopBegin? {
        Jumped(C, f, s, j + 1, NewFrame(LoopC, i.bt), i.bt.params,
               f.(pc := lab.begin + 1, stack := vs, labels := f.labels[..j + 1]));
      } else {
        assert Within(s[..j + 1], i.bt, s[..j + 1] + [NewFrame(OpensAs(i), i.bt)]);
        EndFound(C, f.code, s[..j + 1], i.bt, lab.begin + 1);
        assert Ended(s[..j + 1], i.bt) == s[..j] + [Push(s[j], i.bt.results)] by { assert s[..j + 1][..j] == s[..j]; }
        var e := FindEnd(f.code, lab.begin + 1, 0);
        LeftBehind(C, f, s, j, i.bt.results, f.(pc := e + 1, stack := vs, labels := f.labels[..j]));
      }
    }
  }

  lemma LabelIs(C: Ctx, f: Frame, s: VState, j: nat)
    requires Typed(C, f, s, []) && j < |f.labels|
    ensures |s| == |f.labels| + 1 && LabelTyped(C, f.code, s, j, f.labels[j])
  {
    hide LabelTyped;
  }

  /** What the validator demands of a conditional branch. */
  lemma BranchIfState(C: Ctx, f: Frame, s: VState)
    requires At(C, f, s) && f.code[f.pc].instr.BrIf?
    ensures var l, n := f.code[f.pc].instr.depth, |s| - 1;
      && n >= 0 && s[0].kind == FuncC && s[0].end == C.ret && l <= n
      && (var lab := LabelTypes(s[n - l]);
          && PopAll(s[n], lab + [I32]).Some?
          && StateBefore(C, f.code, f.pc + 1) == Some(s[..n] + [Push(PopAll(s[n], lab + [I32]).value, lab)]))
  {
    hide Typed, StateBefore, ValidBody, PopAll, Push;
    AtNext(C, f, s);
  }

  lemma NotTaken(P: Program, C: Ctx, f: Frame, s: VState, lab: seq<ValType>)
    requires s != [] && Typed(C, f, s, []) && PopAll(s[|s| - 1], lab + [I32]).Some? && |f.stack| >= 1
    ensures Typed(C, f.(pc := f.pc + 1, stack := f.stack[..|f.stack| - 1]),
                  s[..|s| - 1] + [Push(PopAll(s[|s| - 1], lab + [I32]).value, lab)], [])
  {
    hide Typed, PopAll, Push;
    PopTop(C, f, s, lab + [I32]);
    LocalTypes(C, f, s);
    CondDropped(f.stack, |f.stack| - |lab| - 1, lab);
    PopPush(C, f, s, lab + [I32], lab, f.(pc := f.pc + 1, stack := f.stack[..|f.stack| - 1]), []);
  }

  lemma BranchIfSound(P: Program, C: Ctx, f: Frame, s: VState, st: Machine.Store)
    requires At(C, f, s) && f.code[f.pc].instr.BrIf? && TypesOf(st.globals) == C.globals
    ensures MoveSound(P, C, f, BranchIf(f, f.code[f.pc].instr.depth, st))
  {
    hide Typed, StateBefore, ValidBody, PopAll, Push, Branch, LabelTypes;
    var l, n := f.code[f.pc].instr.depth, |s| - 1;
    BranchIfState(C, f, s);
    var lab := LabelTypes(s[n - l]);
    PopIndex(C, f, s, lab);
    if f.stack[|f.stack| - 1].bits == 0 {
      NotTaken(P, C, f, s, lab);
    } else {
      PopKeeps(s[n]);
      BranchSound(P, C, f.(stack := f.stack[..|f.stack| - 1]), s[..n] + [Pop(s[n], I32).value], l, st);
    }
  }

  lemma CondDropped(stack: seq<Value>, m: nat, lab: seq<ValType>)
    requires m + |lab| + 1 == |stack| && TypesOf(stack)[m..] == lab + [I32]
    ensures TypesOf(stack[..|stack| - 1]) + [] == TypesOf(stack)[..m] + lab
  {
    assert TypesOf(stack) == TypesOf(stack)[..m] + (lab + [I32]);
  }

  lemma PopKeeps(f: Ctrl)
    requires Pop(f, I32).Some?
    ensures var g := Pop(f, I32).value; SameFrame(f, g) && LabelTypes(g) == LabelTypes(f)
  {
  }

  /** The frames around a construct that takes `params`. */
  function Around(s: VState, params: seq<ValType>): VState
    requires s != [] && PopAll(s[|s| - 1], params).Some?
  {
    s[..|s| - 1] + [PopAll(s[|s| - 1], params).value]
  }

  lemma AroundFlat(C: Ctx, f: Frame, s: VState, params: seq<ValType>)
    requires s != [] && Typed(C, f, s, []) && PopAll(s[|s| - 1], params).Some?
    ensures var m, ts, base := |f.stack| - |params|, TypesOf(f.stack), Around(s, params);
      && m >= 0 && ts[m..] == params && Flat(base) == KnownOf(ts[..m])
      && |base| == |s| && !base[|s| - 1].dead && SameFrame(s[|s| - 1], base[|s| - 1])
  {
    hide Typed, PopAll;
    var n, h, m, ts := |s| - 1, Below(s), |f.stack| - |params|, TypesOf(f.stack);
    PopTop(C, f, s, params);
    TopTypes(C, f, s, []);
    assert ts + [] == ts;
    FlatSnoc(s[..n], PopAll(s[n], params).value);
    KnownAppend(ts[..h], ts[h..m]);
    assert ts[..m] == ts[..h] + ts[h..m];
  }

  /** Control enters a construct: at its start, or at the Else of an If. */
  lemma Opened(C: Ctx, f: Frame, s: VState, g: Ctrl, pc2: nat)
    requires s != [] && Typed(C, f, s, []) && f.pc < |f.code| && Opens(f.code[f.pc].instr)
    requires var i := f.code[f.pc].instr;
      && PopAll(s[|s| - 1], i.bt.params).Some?
      && StateBefore(C, f.code, f.pc + 1) == Some(Around(s, i.bt.params) + [NewFrame(OpensAs(i), i.bt)])
      && (g == NewFrame(OpensAs(i), i.bt) || (i.IfBegin? && g == NewFrame(ElseC, i.bt)))
      && |f.stack| >= |i.bt.params|
    ensures var i := f.code[f.pc].instr;
      var f2 := f.(pc := pc2, labels := f.labels + [Label(f.pc, |f.stack| - |i.bt.params|)]);
      Typed(C, f2, Around(s, i.bt.params) + [g], [])
  {
    hide LabelTyped, StateBefore, PopAll, Around;
    var params := f.code[f.pc].instr.bt.params;
    var n, base, ts, m := |s| - 1, Around(s, params), TypesOf(f.stack), |f.stack| - |params|;
    var f2, s2 := f.(pc := pc2, labels := f.labels + [Label(f.pc, m)]), base + [g];
    AroundFlat(C, f, s, params);
    FlatSnoc(base, g);
    KnownAppend(ts[..m], params);
    assert ts == ts[..m] + params && ts + [] == ts;
    assert base[..n] == s[..n] by { AroundBelow(s, params); }
    forall j | 0 <= j < |f2.labels| ensures LabelTyped(C, f2.code, s2, j, f2.labels[j]) {
      if j < n {
        UnderNew(s, base, g, j);
        LabelKept(C, f.code, s, s2, j, f.labels[j]);
      } else {
        assert s2[..n + 1] == base && s2[n + 1] == g;
        NewLabel(C, f.code, s2, n, f2.labels[n]);
      }
    }
    forall k | 0 <= k < |s2| ensures !s2[k].dead {
      if k < n {
        UnderNew(s, base, g, k);
      }
    }
  }

  /** The frames below the innermost two are those of s. */
  lemma UnderNew(s: VState, base: VState, g: Ctrl, j: nat)
    requires |base| == |s| && j < |s| - 1 && base[..|s| - 1] == s[..|s| - 1] && SameFrame(s[|s| - 1], base[|s| - 1])
    ensures var s2 := base + [g]; s2[j] == s[j] && s2[..j + 1] == s[..j + 1] && SameFrame(s[j + 1], s2[j + 1])
  {
    var n, s2 := |s| - 1, base + [g];
    assert forall k :: 0 <= k < n ==> s2[k] == base[..n][k] == s[..n][k];
  }

  lemma AroundBelow(s: VState, params: seq<ValType>)
    requires s != [] && PopAll(s[|s| - 1], params).Some?
    ensures Around(s, params)[..|s| - 1] == s[..|s| - 1]
  {
  }

  lemma NewLabel(C: Ctx, code: Code, s: VState, n: nat, lab: Label)
    requires n + 2 == |s| && lab.begin < |code| && Opens(code[lab.begin].instr) && lab.height == |Flat(s[..n + 1])|
    requires var i := code[lab.begin].instr;
      && StateBefore(C, code, lab.begin + 1) == Some(s[..n + 1] + [NewFrame(OpensAs(i), i.bt)])
      && (s[n + 1] == NewFrame(OpensAs(i), i.bt) || (i.IfBegin? && s[n + 1] == NewFrame(ElseC, i.bt)))
    ensures LabelTyped(C, code, s, n, lab)
  {
  }

  lemma OpenState(C: Ctx, f: Frame, s: VState)
    requires At(C, f, s) && Opens(f.code[f.pc].instr)
    ensures var i := f.code[f.pc].instr;
      var taken := if i.IfBegin? then i.bt.params + [I32] else i.bt.params;
      && s != [] && PopAll(s[|s| - 1], taken).Some?
      && StateBefore(C, f.code, f.pc + 1) == Some(Around(s, taken) + [NewFrame(OpensAs(i), i.bt)])
  {
    hide Typed, StateBefore, ValidBody, PopAll, NewFrame;
    var i := f.code[f.pc].instr;
    AtNext(C, f, s);
    var p := PopAll(s[|s| - 1], if i.IfBegin? then i.bt.params + [I32] else i.bt.params).value;
    assert s[..|s| - 1] + [p, NewFrame(OpensAs(i), i.bt)] == s[..|s| - 1] + [p] + [NewFrame(OpensAs(i), i.bt)];
  }

  lemma BlockSound(P: Program, C: Ctx, f: Frame, s: VState, st: Machine.Store)
    requires At(C, f, s) && (f.code[f.pc].instr.BlockBegin? || f.code[f.pc].instr.LoopBegin?)
    requires TypesOf(st.globals) == C.globals
    ensures MoveSound(P, C, f, Open(f, st))
  {
    hide Typed, StateBefore, ValidBody, PopAll, NewFrame, Around;
    var i := f.code[f.pc].instr;
    OpenState(C, f, s);
    PopTop(C, f, s, i.bt.params);
    Opened(C, f, s, NewFrame(OpensAs(i), i.bt), f.pc + 1);
  }

  /** An If whose condition has been popped. */
  lemma IfPopped(C: Ctx, f: Frame, s: VState)
    requires At(C, f, s) && f.code[f.pc].instr.IfBegin?
    ensures |f.stack| >= 1 && f.stack[|f.stack| - 1].ty == I32
    ensures var bt, f1 := f.code[f.pc].instr.bt, f.(stack := f.stack[..|f.stack| - 1]);
      && s != [] && Pop(s[|s| - 1], I32).Some?
      && (var s1 := s[..|s| - 1] + [Pop(s[|s| - 1], I32).value];
          && Typed(C, f1, s1, [])
          && PopAll(s1[|s1| - 1], bt.params).Some?
          && |f1.stack| >= |bt.params|
          && StateBefore(C, f.code, f.pc + 1) == Some(Around(s1, bt.params) + [NewFrame(IfC, bt)]))
  {
    hide Typed, StateBefore, ValidBody, PopAll, NewFrame, Pop;
    var bt := f.code[f.pc].instr.bt;
    OpenState(C, f, s);
    PopIndex(C, f, s, bt.params);
    var s1 := s[..|s| - 1] + [Pop(s[|s| - 1], I32).value];
    assert Around(s, bt.params + [I32]) == Around(s1, bt.params);
    PopTop(C, f.(stack := f.stack[..|f.stack| - 1]), s1, bt.params);
  }

  lemma IfSound(P: Program, C: Ctx, f: Frame, s: VState, st: Machine.Store)
    requires At(C, f, s) && f.code[f.pc].instr.IfBegin? && TypesOf(st.globals) == C.globals
    ensures MoveSound(P, C, f, Open(f, st))
  {
    hide Typed, StateBefore, ValidBody, PopAll, NewFrame, Around, Pop;
    IfPopped(C, f, s);
    var bt, f1 := f.code[f.pc].instr.bt, f.(stack := f.stack[..|f.stack| - 1]);
    var s1 := s[..|s| - 1] + [Pop(s[|s| - 1], I32).value];
    if f.stack[|f.stack| - 1].bits != 0 {
      Opened(C, f1, s1, NewFrame(IfC, bt), f.pc + 1);
    } else {
      var base := Around(s1, bt.params);
      AroundBase(s1, bt);
      ElseFound(C, f.code, base, bt, f.pc + 1);
      var e := FindElse(f.code, f.pc + 1, 0);
      if f.code[e].instr.IfElse? {
        Opened(C, f1, s1, NewFrame(ElseC, bt), e + 1);
      } else {
        SkippedIf(C, f1, s1, bt, e + 1);
      }
    }
  }

  lemma AroundBase(s: VState, bt: FuncType)
    requires s != [] && PopAll(s[|s| - 1], bt.params).Some?
    ensures var base := Around(s, bt.params);
      |base| == |s| && Within(base, bt, base + [NewFrame(IfC, bt)]) && (base + [NewFrame(IfC, bt)])[|base|].kind == IfC
  {
  }

  /** An If without Else whose condition was false returns the operands it would have taken. */
  lemma SkippedIf(C: Ctx, f: Frame, s: VState, bt: FuncType, pc2: nat)
    requires s != [] && Typed(C, f, s, []) && PopAll(s[|s| - 1], bt.params).Some? && bt.params == bt.results
    requires |f.stack| >= |bt.params|
    ensures Around(s, bt.params) != [] && Typed(C, f.(pc := pc2), Ended(Around(s, bt.params), bt), [])
  {
    hide Typed, PopAll, Push;
    var base, ts, m := Around(s, bt.params), TypesOf(f.stack), |f.stack| - |bt.params|;
    AroundFlat(C, f, s, bt.params);
    LocalTypes(C, f, s);
    assert ts + [] == ts[..m] + bt.results;
    PopPush(C, f, s, bt.params, bt.results, f.(pc := pc2), []);
    assert base[..|base| - 1] == s[..|s| - 1];
  }

  // ----- steps and runs -----

  lemma LeaveSound(P: Program, C: Ctx, f: Frame, s: VState)
    requires s != [] && Typed(C, f, s, []) && PopAll(s[|s| - 1], C.ret).Some? && f.arity == |C.ret|
    ensures MoveSound(P, C, f, Leave(f))
  {
    hide Typed, PopAll;
    PopTop(C, f, s, C.ret);
    TypesSlice(f.stack, |f.stack| - |C.ret|);
  }

  lemma ReturnState(C: Ctx, f: Frame, s: VState)
    requires At(C, f, s) && f.code[f.pc].instr.Return?
    ensures s != [] && PopAll(s[|s| - 1], C.ret).Some?
  {
    hide Typed, StateBefore, ValidBody, PopAll;
    AtNext(C, f, s);
  }

  lemma BranchState(C: Ctx, f: Frame, s: VState)
    requires At(C, f, s) && f.code[f.pc].instr.Br?
    ensures var l, n := f.code[f.pc].instr.depth, |s| - 1;
      n >= 0 && s[0].kind == FuncC && s[0].end == C.ret && l <= n && PopAll(s[n], LabelTypes(s[n - l])).Some?
  {
    hide Typed, StateBefore, ValidBody, PopAll;
    AtNext(C, f, s);
  }

  /** Every move of a frame that agrees with the validator. */
  lemma DecideSound(P: Program, gt: seq<ValType>, f: Frame, st: Machine.Store)
    requires ValidProgram(P, gt) && FrameOf(P, f) && TypesOf(st.globals) == gt
    requires FrameSound(CtxOf(P, gt, f.fn), f, []) && f.arity == |CtxOf(P, gt, f.fn).ret|
    ensures MoveSound(P, CtxOf(P, gt, f.fn), f, Decide(P, f, st))
  {
    hide Typed, StateBefore, ValidBody, PopAll, MoveSound, HostTyped;
    var C := CtxOf(P, gt, f.fn);
    var s := StateBefore(C, f.code, f.pc).value;
    if f.pc == |f.code| {
      StateAtEnd(C, f.code);
      FunctionFrame(C, f.code, f.pc);
      LeaveSound(P, C, f, s);
    } else {
      var i := f.code[f.pc].instr;
      assert At(C, f, s);
      if i.IfBegin? {
        IfSound(P, C, f, s, st);
      } else if Opens(i) {
        BlockSound(P, C, f, s, st);
      } else if Closes(i) || i.IfElse? {
        CloseSound(P, C, f, s, st);
      } else if i.Br? {
        BranchState(C, f, s);
        BranchSound(P, C, f, s, i.depth, st);
      } else if i.BrIf? {
        BranchIfSound(P, C, f, s, st);
      } else if i.Return? {
        ReturnState(C, f, s);
        LeaveSound(P, C, f, s);
      } else if i.Unreachable? {
        StopSound(P, C, f);
      } else if i.Call? || i.CallIndirect? {
        CallSound(P, gt, f, s, st);
      } else if i.MemoryGrow? {
        GrowSound(P, C, f, s, st);
      } else {
        StraightSound(P, C, f, s, st);
      }
    }
  }

  lemma StopSound(P: Program, C: Ctx, f: Frame)
    ensures MoveSound(P, C, f, Fault(Stop))
  {
  }
}
