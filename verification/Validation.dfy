/**
 * Validation of instruction sequences, after the algorithm in the appendix "Validation Algorithm" of
 * the WebAssembly Core Specification 2.0. Each control frame keeps its own part of the operand stack.
 */
module Validation {
  import opened Values
  import opened Machine

  datatype OpType = Known(t: ValType) | Unknown

  datatype CtrlKind = FuncC | BlockC | LoopC | IfC | ElseC

  datatype Ctrl = Ctrl(kind: CtrlKind, start: seq<ValType>, end: seq<ValType>, dead: bool, opds: seq<OpType>)

  /** The control frames, outermost first. */
  type VState = seq<Ctrl>

  datatype Ctx = Ctx(locals: seq<ValType>, globals: seq<ValType>, funcs: seq<FuncType>, ret: seq<ValType>)

  // ----- one control frame -----

  function KnownOf(ts: seq<ValType>): (os: seq<OpType>)
    ensures |os| == |ts| && forall k :: 0 <= k < |ts| ==> os[k] == Known(ts[k])
  {
    seq(|ts|, k requires 0 <= k < |ts| => Known(ts[k]))
  }

  function Push(f: Ctrl, ts: seq<ValType>): Ctrl {
    f.(opds := f.opds + KnownOf(ts))
  }

  /** Pops an operand of type t; a dead frame supplies operands of any type once its own are used up. */
  function Pop(f: Ctrl, t: ValType): Option<Ctrl> {
    var n := |f.opds|;
    if n == 0 then if f.dead then Some(f) else None
    else if f.opds[n-1] == Known(t) || f.opds[n-1] == Unknown then Some(f.(opds := f.opds[..n-1]))
    else None
  }

  function PopAny(f: Ctrl): Option<Ctrl> {
    if f.opds != [] then Some(f.(opds := f.opds[..|f.opds| - 1]))
    else if f.dead then Some(f) else None
  }

  function PopAll(f: Ctrl, ts: seq<ValType>): Option<Ctrl>
    decreases |ts|
  {
    if ts == [] then Some(f)
    else
      var r := Pop(f, ts[|ts| - 1]);
      if r.None? then None else PopAll(r.value, ts[..|ts| - 1])
  }

  function Kill(f: Ctrl): Ctrl {
    f.(dead := true, opds := [])
  }

  /** At its end a frame must hold its end types and nothing else. */
  predicate Finished(f: Ctrl) {
    var r := PopAll(f, f.end);
    r.Some? && r.value.opds == []
  }

  function NewFrame(kind: CtrlKind, bt: FuncType): Ctrl {
    Ctrl(kind, bt.params, bt.results, false, KnownOf(bt.params))
  }

  function LabelTypes(f: Ctrl): seq<ValType> {
    if f.kind == LoopC then f.start else f.end
  }

  // ----- instructions -----

  /** Operands and results of instructions that have a fixed type. */
  function Signature(C: Ctx, i: Instr): Option<FuncType> {
    match i
    case Nop => Some(FuncType([], []))
    case Const(v) => Some(FuncType([], [v.ty]))
    case LocalGet(x) => if x < |C.locals| then Some(FuncType([], [C.locals[x]])) else None
    case LocalSet(x) => if x < |C.locals| then Some(FuncType([C.locals[x]], [])) else None
    case LocalTee(x) => if x < |C.locals| then Some(FuncType([C.locals[x]], [C.locals[x]])) else None
    case GlobalGet(x) => if x < |C.globals| then Some(FuncType([], [C.globals[x]])) else None
    case GlobalSet(x) => if x < |C.globals| then Some(FuncType([C.globals[x]], [])) else None
    case Load(t, _) => Some(FuncType([I32], [t]))
    case Load8U(_) => Some(FuncType([I32], [I32]))
    case Store(t, _) => Some(FuncType([I32, t], []))
    case Store8(_) => Some(FuncType([I32, I32], []))
    case MemorySize => Some(FuncType([], [I32]))
    case MemoryGrow => Some(FuncType([I32], [I32]))
    case MemoryInit(_) => Some(FuncType([I32, I32, I32], []))
    case Unary(op) => Some(FuncType([if op == EqZInt64 then I64 else I32], [I32]))
    case Binary(op) => Some(FuncType([OperandType(op), OperandType(op)], [I32]))
    case Call(f) => if f < |C.funcs| then Some(C.funcs[f]) else None
    case CallIndirect(ft) => Some(FuncType(ft.params + [I32], ft.results))
    case _ => None
  }

  /** The effect on the innermost frame of instructions that open or close none. `lab` is the target's type. */
  function Inside(C: Ctx, i: Instr, lab: seq<ValType>, f: Ctrl): Option<Ctrl> {
    if i.Unreachable? then Some(Kill(f))
    else if i.Drop? then PopAny(f)
    else if i.Br? then
      var r := PopAll(f, lab);
      if r.None? then None else Some(Kill(r.value))
    else if i.Return? then
      var r := PopAll(f, C.ret);
      if r.None? then None else Some(Kill(r.value))
    else if i.BrIf? then
      var r := PopAll(f, lab + [I32]);
      if r.None? then None else Some(Push(r.value, lab))
    else
      var sig := Signature(C, i);
      if sig.None? then None
      else
        var r := PopAll(f, sig.value.params);
        if r.None? then None else Some(Push(r.value, sig.value.results))
  }

  function OpensAs(i: Instr): CtrlKind
    requires Opens(i)
  {
    if i.BlockBegin? then BlockC else if i.LoopBegin? then LoopC else IfC
  }

  predicate MayClose(i: Instr, f: Ctrl) {
    match i
    case BlockEnd => f.kind == BlockC
    case LoopEnd => f.kind == LoopC
    case IfEnd => f.kind == ElseC || (f.kind == IfC && f.start == f.end)
    case _ => false
  }

  function CheckOne(C: Ctx, i: Instr, s: VState): Option<VState> {
    if s == [] then None
    else
      var n := |s| - 1;
      var f := s[n];
      if Opens(i) then
        var r := PopAll(f, if i.IfBegin? then i.bt.params + [I32] else i.bt.params);
        if r.None? then None else Some(s[..n] + [r.value, NewFrame(OpensAs(i), i.bt)])
      else if i.IfElse? then
        if f.kind == IfC && Finished(f) then Some(s[..n] + [NewFrame(ElseC, FuncType(f.start, f.end))]) else None
      else if Closes(i) then
        if MayClose(i, f) && Finished(f) && n >= 1 then Some(s[..n-1] + [Push(s[n-1], f.end)]) else None
      else if (i.Br? || i.BrIf?) && i.depth > n then None
      else
        var lab := if i.Br? || i.BrIf? then LabelTypes(s[n - i.depth]) else [];
        var r := Inside(C, i, lab, f);
        if r.None? then None else Some(s[..n] + [r.value])
  }

  function Check(C: Ctx, code: Code, s: VState): Option<VState> {
    if code == [] then Some(s)
    else
      var r := CheckOne(C, code[0].instr, s);
      if r.None? then None else Check(C, code[1..], r.value)
  }

  function Body(opds: seq<OpType>, results: seq<ValType>): VState {
    [Ctrl(FuncC, [], results, false, opds)]
  }

  /** The code is a valid function body with the results of the context. */
  predicate ValidBody(C: Ctx, code: Code) {
    var r := Check(C, code, Body([], C.ret));
    r.Some? && |r.value| == 1 && Finished(r.value[0])
  }

  // ----- a state that accepts at least as much -----

  predicate OpLe(a: OpType, b: OpType) {
    b == Unknown || a == b
  }

  /** b accepts whatever a accepts: it agrees with a from the top down as far as it goes, and is dead if it is shorter. */
  ghost predicate CtrlLe(a: Ctrl, b: Ctrl) {
    var m, n := |a.opds|, |b.opds|;
    && a.kind == b.kind && a.start == b.start && a.end == b.end
    && n <= m && (n < m ==> b.dead) && (a.dead ==> b.dead)
    && forall k {:trigger b.opds[k]} :: 0 <= k < n ==> OpLe(a.opds[m - n + k], b.opds[k])
  }

  ghost predicate StateLe(s: VState, t: VState) {
    |s| == |t| && forall k :: 0 <= k < |s| ==> CtrlLe(s[k], t[k])
  }

  lemma PopLe(a: Ctrl, b: Ctrl, t: ValType)
    requires CtrlLe(a, b) && Pop(a, t).Some?
    ensures Pop(b, t).Some? && CtrlLe(Pop(a, t).value, Pop(b, t).value)
  {
    var n := |b.opds|;
    if n > 0 {
      assert OpLe(a.opds[|a.opds| - 1], b.opds[n - 1]);
    }
  }

  lemma {:induction false} PopAllLe(a: Ctrl, b: Ctrl, ts: seq<ValType>)
    requires CtrlLe(a, b) && PopAll(a, ts).Some?
    ensures PopAll(b, ts).Some? && CtrlLe(PopAll(a, ts).value, PopAll(b, ts).value)
    decreases |ts|
  {
    hide CtrlLe;
    if ts != [] {
      var t := ts[|ts| - 1];
      PopLe(a, b, t);
      PopAllLe(Pop(a, t).value, Pop(b, t).value, ts[..|ts| - 1]);
    }
  }

  lemma PushLe(a: Ctrl, b: Ctrl, ts: seq<ValType>)
    requires CtrlLe(a, b)
    ensures CtrlLe(Push(a, ts), Push(b, ts))
  {
  }

  lemma FinishedLe(a: Ctrl, b: Ctrl)
    requires CtrlLe(a, b) && Finished(a)
    ensures Finished(b)
  {
    PopAllLe(a, b, a.end);
  }

  lemma InsideLe(C: Ctx, i: Instr, lab: seq<ValType>, a: Ctrl, b: Ctrl)
    requires CtrlLe(a, b) && Inside(C, i, lab, a).Some?
    ensures Inside(C, i, lab, b).Some? && CtrlLe(Inside(C, i, lab, a).value, Inside(C, i, lab, b).value)
  {
    if i.Unreachable? {
    } else if i.Drop? {
      PopAnyLe(a, b);
    } else if i.Br? {
      PopAllLe(a, b, lab);
    } else if i.Return? {
      PopAllLe(a, b, C.ret);
    } else if i.BrIf? {
      PopAllLe(a, b, lab + [I32]);
      PushLe(PopAll(a, lab + [I32]).value, PopAll(b, lab + [I32]).value, lab);
    } else {
      var sig := Signature(C, i).value;
      PopAllLe(a, b, sig.params);
      PushLe(PopAll(a, sig.params).value, PopAll(b, sig.params).value, sig.results);
    }
  }

  lemma PopAnyLe(a: Ctrl, b: Ctrl)
    requires CtrlLe(a, b) && PopAny(a).Some?
    ensures PopAny(b).Some? && CtrlLe(PopAny(a).value, PopAny(b).value)
  {
  }

  lemma CheckOneLe(C: Ctx, i: Instr, s: VState, t: VState)
    requires StateLe(s, t) && CheckOne(C, i, s).Some?
    ensures CheckOne(C, i, t).Some? && StateLe(CheckOne(C, i, s).value, CheckOne(C, i, t).value)
  {
    hide PopAll, Inside, CtrlLe, Finished;
    var n := |s| - 1;
    var a, b := s[n], t[n];
    assert CtrlLe(a, b);
    SameEnds(s, t);
    if Opens(i) {
      PopAllLe(a, b, if i.IfBegin? then i.bt.params + [I32] else i.bt.params);
      LeRefl(NewFrame(OpensAs(i), i.bt));
    } else if i.IfElse? {
      FinishedLe(a, b);
      LeRefl(NewFrame(ElseC, FuncType(a.start, a.end)));
    } else if Closes(i) {
      FinishedLe(a, b);
      PushLe(s[n-1], t[n-1], a.end);
    } else {
      var lab := if i.Br? || i.BrIf? then LabelTypes(s[n - i.depth]) else [];
      InsideLe(C, i, lab, a, b);
    }
  }

  lemma SameEnds(s: VState, t: VState)
    requires StateLe(s, t)
    ensures forall k :: 0 <= k < |s| ==> s[k].kind == t[k].kind && s[k].start == t[k].start && s[k].end == t[k].end
  {
  }

  lemma LeRefl(f: Ctrl)
    ensures CtrlLe(f, f)
  {
  }

  lemma StateLeRefl(s: VState)
    ensures StateLe(s, s)
  {
  }

  lemma StateLeTrans(s: VState, t: VState, u: VState)
    requires StateLe(s, t) && StateLe(t, u)
    ensures StateLe(s, u)
  {
    forall k | 0 <= k < |s| ensures CtrlLe(s[k], u[k]) {
      CtrlLeTrans(s[k], t[k], u[k]);
    }
  }

  lemma CtrlLeTrans(a: Ctrl, b: Ctrl, c: Ctrl)
    requires CtrlLe(a, b) && CtrlLe(b, c)
    ensures CtrlLe(a, c)
  {
    var m, n, o := |a.opds|, |b.opds|, |c.opds|;
    forall k {:trigger c.opds[k]} | 0 <= k < o ensures OpLe(a.opds[m - o + k], c.opds[k]) {
      assert OpLe(b.opds[n - o + k], c.opds[k]);
      assert OpLe(a.opds[m - n + (n - o + k)], b.opds[n - o + k]);
    }
  }

  /** Validation is monotone: a state that accepts more never makes code invalid. */
  lemma {:induction false} CheckLe(C: Ctx, code: Code, s: VState, t: VState)
    requires StateLe(s, t) && Check(C, code, s).Some?
    ensures Check(C, code, t).Some? && StateLe(Check(C, code, s).value, Check(C, code, t).value)
  {
    hide CheckOne, StateLe;
    if code != [] {
      var i := code[0].instr;
      CheckOneLe(C, i, s, t);
      CheckLe(C, code[1..], CheckOne(C, i, s).value, CheckOne(C, i, t).value);
    }
  }

  lemma {:induction false} CheckAppend(C: Ctx, a: Code, b: Code, s: VState)
    ensures Check(C, a + b, s) == (var r := Check(C, a, s); if r.None? then None else Check(C, b, r.value))
  {
    hide CheckOne;
    if a == [] {
      assert a + b == b;
    } else {
      assert (a + b)[1..] == a[1..] + b;
      var r := CheckOne(C, a[0].instr, s);
      if r.Some? {
        CheckAppend(C, a[1..], b, r.value);
      }
    }
  }

  // ----- what stays -----

  lemma {:induction false} PopAllKeepsKind(f: Ctrl, ts: seq<ValType>)
    requires PopAll(f, ts).Some?
    ensures var g := PopAll(f, ts).value;
      g.kind == f.kind && g.start == f.start && g.end == f.end && g.dead == f.dead && |g.opds| <= |f.opds|
    decreases |ts|
  {
    if ts != [] {
      PopAllKeepsKind(Pop(f, ts[|ts| - 1]).value, ts[..|ts| - 1]);
    }
  }

  lemma KeepsKind(C: Ctx, i: Instr, lab: seq<ValType>, f: Ctrl)
    requires Inside(C, i, lab, f).Some?
    ensures var g := Inside(C, i, lab, f).value; g.kind == f.kind && g.start == f.start && g.end == f.end
  {
    if i.Unreachable? || i.Drop? {
    } else if i.Br? {
      PopAllKeepsKind(f, lab);
    } else if i.Return? {
      PopAllKeepsKind(f, C.ret);
    } else if i.BrIf? {
      PopAllKeepsKind(f, lab + [I32]);
    } else {
      PopAllKeepsKind(f, Signature(C, i).value.params);
    }
  }

  lemma {:induction false} BottomKept(C: Ctx, code: Code, s: VState)
    requires s != [] && s[0].kind == FuncC && Check(C, code, s).Some?
    ensures var u := Check(C, code, s).value;
      u != [] && u[0].kind == s[0].kind && u[0].start == s[0].start && u[0].end == s[0].end
    decreases |code|
  {
    hide Inside;
    if code != [] {
      var i, n := code[0].instr, |s| - 1;
      if Opens(i) {
        PopAllKeepsKind(s[n], if i.IfBegin? then i.bt.params + [I32] else i.bt.params);
      } else if !i.IfElse? && !Closes(i) {
        KeepsKind(C, i, if i.Br? || i.BrIf? then LabelTypes(s[n - i.depth]) else [], s[n]);
      }
      BottomKept(C, code[1..], CheckOne(C, i, s).value);
    }
  }
}
