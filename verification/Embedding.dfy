/**
 * Code placed inside other code. If every instruction of `code` sits at a site of `code2` and every
 * scan for a matching marker finds the corresponding site, then one move of a frame running `code`
 * is matched by one move of a frame running `code2` at the corresponding site, over a store that may
 * have extra globals and memory appended.
 */
module Embedding {
  import opened Values
  import opened Machine

  /** Globals and memory that belong to the instrumentation, behind those of the program. */
  datatype Own = Own(globals: seq<Value>, mem: seq<Byte>)

  function Join(st: Store, own: Own): Store {
    Machine.Store.Store(st.globals + own.globals, st.mem + own.mem, st.world)
  }

  /** Where each instruction sits; `start` is where execution of the embedded code begins. */
  datatype Emb = Emb(start: nat, site: seq<nat>)

  /** Where control arrives in the host when it arrives at k in the embedded code. */
  function Jump(e: Emb, k: nat): nat
    requires k <= |e.site|
  {
    if k == 0 then e.start else e.site[k-1] + 1
  }

  ghost predicate FindsSame(e: Emb, code: Code, code2: Code, k: nat)
    requires |e.site| == |code| && k < |code|
  {
    var t, u := FindEnd(code, k + 1, 0), FindElse(code, k + 1, 0);
    && (t < |code| ==> FindEnd(code2, e.site[k] + 1, 0) == e.site[t])
    && (u < |code| ==> FindElse(code2, e.site[k] + 1, 0) == e.site[u])
  }

  ghost predicate Embeds(e: Emb, code: Code, code2: Code) {
    && |e.site| == |code|
    && (forall k :: 0 <= k < |code| ==> e.site[k] < |code2| && code2[e.site[k]] == code[k])
    && (forall k :: 0 <= k < |code| ==> FindsSame(e, code, code2, k))
  }

  /** The labels of the host: `base` further out, then those of the embedded code at their sites. */
  ghost predicate LabelsRel(e: Emb, base: seq<Label>, ls: seq<Label>, ms: seq<Label>) {
    && |ms| == |base| + |ls|
    && ms[..|base|] == base
    && forall i {:trigger ls[i]} :: 0 <= i < |ls| ==>
         ls[i].begin < |e.site| && ms[|base| + i] == Label(e.site[ls[i].begin], ls[i].height)
  }

  /** The host frame g agrees with f on everything but positions. */
  ghost predicate FrameRel(e: Emb, base: seq<Label>, f: Frame, g: Frame) {
    && |e.site| == |f.code|
    && f.pc <= |f.code|
    && g.locals == f.locals && g.stack == f.stack
    && LabelsRel(e, base, f.labels, g.labels)
  }

  lemma LabelsPush(e: Emb, base: seq<Label>, ls: seq<Label>, ms: seq<Label>, b: nat, h: nat)
    requires LabelsRel(e, base, ls, ms) && b < |e.site|
    ensures LabelsRel(e, base, ls + [Label(b, h)], ms + [Label(e.site[b], h)])
  {
    assert (ms + [Label(e.site[b], h)])[..|base|] == ms[..|base|];
  }

  lemma LabelsPop(e: Emb, base: seq<Label>, ls: seq<Label>, ms: seq<Label>, j: nat)
    requires LabelsRel(e, base, ls, ms) && j <= |ls|
    ensures LabelsRel(e, base, ls[..j], ms[..|base| + j])
  {
    assert ms[..|base| + j][..|base|] == ms[..|base|];
  }

  ghost predicate SameShape(f: Func, g: Func) {
    f.ft == g.ft && f.Defined? == g.Defined? && (f.Defined? ==> f.vars == g.vars)
  }

  /** Host calls see the program's part of memory only. */
  ghost predicate HostLift(h: Host, h2: Host, size: nat, ext: seq<Byte>) {
    forall fn: nat, args: seq<Value>, m: seq<Byte>, w: int :: |m| == size ==>
      var r := h(fn, args, m, w);
      h2(fn, args, m + ext, w) == if r.None? then None else Some(r.value.(mem := r.value.mem + ext))
  }

  ghost predicate ProgLift(P: Program, P2: Program, size: nat, ext: seq<Byte>) {
    && |P.funcs| <= |P2.funcs|
    && (forall i :: 0 <= i < |P.funcs| ==> SameShape(P.funcs[i], P2.funcs[i]))
    && P.table == P2.table
    && HostLift(P.host, P2.host, size, ext)
    && (forall k {:trigger P.table[k]} :: 0 <= k < |P.table| && P.table[k].Some? ==> P.table[k].value < |P.funcs|)
  }

  /** Every direct call names a function of the program. */
  ghost predicate CallsKnown(P: Program, code: Code) {
    forall k :: 0 <= k < |code| && code[k].instr.Call? ==> code[k].instr.target < |P.funcs|
  }

  /** What an effect on the program's store is on the joined store. */
  ghost predicate EffectRel(own: Own, st: Store, r: Effect, r2: Effect) {
    && (r.Ok? ==> r2 == r.(store := Join(r.store, own)))
    && (r == Bad(Stop) ==> r2 == r)
    && (r == Bad(Bounds) && own.mem == [] ==> r2 == r)
  }

  /** The instruction shows or changes how large the memory is. */
  predicate UsesSize(i: Instr) {
    i.MemorySize? || i.MemoryGrow?
  }

  /** The shape of the store after an instruction. */
  lemma ExecShape(i: Instr, locals: seq<Value>, stack: seq<Value>, st: Store)
    requires Simple(i)
    ensures var r := Exec(i, locals, stack, st);
      r.Ok? ==> TypesOf(r.store.globals) == TypesOf(st.globals) && |r.store.mem| == |st.mem|
  {
  }

  lemma InitJoin(segment: seq<Byte>, locals: seq<Value>, stack: seq<Value>, st: Store, own: Own)
    ensures EffectRel(own, st, ExecInit(segment, locals, stack, st), ExecInit(segment, locals, stack, Join(st, own)))
  {
    var n := |stack|;
    if n >= 3 && stack[n-3].ty == stack[n-2].ty == stack[n-1].ty == I32 {
      var from, len := stack[n-2].bits, stack[n-1].bits;
      if from + len <= |segment| {
        WriteJoin(st.mem, stack[n-3].bits, segment[from..from + len], own.mem);
      }
    }
  }

  lemma LoadJoin(t: ValType, width: nat, o: nat, locals: seq<Value>, stack: seq<Value>, st: Store, own: Own)
    requires width == Size(t) || (width == 1 && t == I32)
    ensures EffectRel(own, st, ExecLoad(t, width, o, locals, stack, st),
                      ExecLoad(t, width, o, locals, stack, Join(st, own)))
  {
    var n := |stack|;
    if n >= 1 && stack[n-1].ty == I32 && stack[n-1].bits + o + width <= |st.mem| {
      var a := stack[n-1].bits + o;
      assert (st.mem + own.mem)[a..a + width] == st.mem[a..a + width];
    }
  }

  lemma StoreJoin(t: ValType, bytes: Value -> seq<Byte>, o: nat, locals: seq<Value>, stack: seq<Value>,
                  st: Store, own: Own)
    ensures EffectRel(own, st, ExecStore(t, bytes, o, locals, stack, st),
                      ExecStore(t, bytes, o, locals, stack, Join(st, own)))
  {
    var n := |stack|;
    if n >= 2 && stack[n-2].ty == I32 && stack[n-1].ty == t {
      WriteJoin(st.mem, stack[n-2].bits + o, bytes(stack[n-1]), own.mem);
    }
  }

  lemma ExecJoin(i: Instr, locals: seq<Value>, stack: seq<Value>, st: Store, own: Own)
    requires Simple(i) && (UsesSize(i) ==> own.mem == [])
    ensures EffectRel(own, st, Exec(i, locals, stack, st), Exec(i, locals, stack, Join(st, own)))
  {
    var n := |stack|;
    match i {
      case Load(t, o) => LoadJoin(t, Size(t), o, locals, stack, st, own);
      case Load8U(o) => LoadJoin(I32, 1, o, locals, stack, st, own);
      case Store(t, o) => StoreJoin(t, (v: Value) => Encode(v), o, locals, stack, st, own);
      case Store8(o) => StoreJoin(I32, (v: Value) => ToBytes(v.bits, 1), o, locals, stack, st, own);
      case MemoryInit(segment) => InitJoin(segment, locals, stack, st, own);
      case GlobalSet(x) =>
        if x < |st.globals| && n >= 1 {
          assert (st.globals + own.globals)[x := stack[n-1]] == st.globals[x := stack[n-1]] + own.globals;
        }
      case _ =>
    }
  }

  lemma WriteJoin(mem: seq<Byte>, a: nat, bs: seq<Byte>, ext: seq<Byte>)
    ensures a + |bs| <= |mem| ==> Write(mem + ext, a, bs) == Write(mem, a, bs) + ext
  {
    if a + |bs| <= |mem| {
      assert (mem + ext)[..a] == mem[..a];
      assert (mem + ext)[a + |bs|..] == mem[a + |bs|..] + ext;
    }
  }

  /** The move m2 of the host frame g corresponds to the move m of the embedded frame f. */
  ghost predicate MoveRel(e: Emb, base: seq<Label>, own: Own, f: Frame, g: Frame, m: Move, m2: Move) {
    match m
    case Stay(f2, st2) =>
      && m2.Stay? && m2.store == Join(st2, own)
      && f2.code == f.code && f2.fn == f.fn && f2.arity == f.arity
      && FrameRel(e, base, f2, m2.f) && m2.f.pc == Jump(e, f2.pc)
      && m2.f.code == g.code && m2.f.fn == g.fn && m2.f.arity == g.arity
    case Enter(f2, callee, args) =>
      && m2.Enter? && m2.callee == callee && m2.args == args
      && f2.code == f.code && f2.fn == f.fn && f2.arity == f.arity && f2.pc == f.pc + 1
      && FrameRel(e, base, f2, m2.f) && m2.f.pc == Jump(e, f2.pc)
      && m2.f.code == g.code && m2.f.fn == g.fn && m2.f.arity == g.arity
    case Exit(vals) => base == [] && g.arity == f.arity ==> m2 == m
    case Fault(why) => why == Stop || (why == Bounds && own.mem == []) ==> m2 == m
  }

  lemma BranchEmb(e: Emb, base: seq<Label>, own: Own, f: Frame, g: Frame, l: nat, st: Store)
    requires Embeds(e, f.code, g.code) && FrameRel(e, base, f, g)
    ensures MoveRel(e, base, own, f, g, Branch(f, l, st), Branch(g, l, Join(st, own)))
  {
    if l < |f.labels| {
      var j := |f.labels| - 1 - l;
      var b := f.labels[j].begin;
      assert |g.labels| - 1 - l == |base| + j;
      assert g.labels[|base| + j] == Label(e.site[b], f.labels[j].height);
      assert g.code[e.site[b]] == f.code[b];
      assert FindsSame(e, f.code, g.code, b);
      LabelsPop(e, base, f.labels, g.labels, j);
      LabelsPop(e, base, f.labels, g.labels, j + 1);
    }
  }

  lemma InvokeEmb(P: Program, P2: Program, e: Emb, base: seq<Label>, own: Own,
                  f: Frame, g: Frame, callee: nat, st: Store)
    requires |e.site| == |f.code| && FrameRel(e, base, f, g)
    requires f.pc < |f.code| && g.pc == e.site[f.pc]
    requires ProgLift(P, P2, |st.mem|, own.mem)
    requires callee < |P.funcs|
    ensures MoveRel(e, base, own, f, g, Invoke(P, f, callee, st), Invoke(P2, g, callee, Join(st, own)))
  {
    assert SameShape(P.funcs[callee], P2.funcs[callee]);
  }

  lemma IndirectEmb(P: Program, P2: Program, e: Emb, base: seq<Label>, own: Own,
                    f: Frame, g: Frame, ft: FuncType, st: Store)
    requires |e.site| == |f.code| && FrameRel(e, base, f, g)
    requires f.pc < |f.code| && g.pc == e.site[f.pc]
    requires ProgLift(P, P2, |st.mem|, own.mem)
    ensures MoveRel(e, base, own, f, g, InvokeIndirect(P, f, ft, st), InvokeIndirect(P2, g, ft, Join(st, own)))
  {
    var n := |f.stack|;
    if n >= 1 && f.stack[n-1].ty == I32 {
      var k := f.stack[n-1].bits;
      if k < |P.table| && P.table[k].Some? {
        assert SameShape(P.funcs[P.table[k].value], P2.funcs[P.table[k].value]);
        InvokeEmb(P, P2, e, base, own, f.(stack := f.stack[..n-1]), g.(stack := f.stack[..n-1]),
                  P.table[k].value, st);
      }
    }
  }

  lemma BranchIfEmb(e: Emb, base: seq<Label>, own: Own, f: Frame, g: Frame, l: nat, st: Store)
    requires Embeds(e, f.code, g.code) && FrameRel(e, base, f, g)
    requires f.pc < |f.code| && g.pc == e.site[f.pc]
    ensures MoveRel(e, base, own, f, g, BranchIf(f, l, st), BranchIf(g, l, Join(st, own)))
  {
    var n := |f.stack|;
    if n >= 1 && f.stack[n-1].ty == I32 {
      var f2, g2 := f.(stack := f.stack[..n-1]), g.(stack := f.stack[..n-1]);
      if f.stack[n-1].bits != 0 {
        BranchEmb(e, base, own, f2, g2, l, st);
        var m, m2 := Branch(f2, l, st), Branch(g2, l, Join(st, own));
        assert MoveRel(e, base, own, f2, g2, m, m2);
        assert !m.Enter?;
        assert MoveRel(e, base, own, f, g, m, m2);
      }
    }
  }

  lemma OpenEmb(e: Emb, base: seq<Label>, own: Own, f: Frame, g: Frame, st: Store)
    requires Embeds(e, f.code, g.code) && FrameRel(e, base, f, g)
    requires f.pc < |f.code| && g.pc == e.site[f.pc] && Opens(f.code[f.pc].instr)
    ensures g.pc < |g.code| && g.code[g.pc] == f.code[f.pc]
    ensures MoveRel(e, base, own, f, g, Open(f, st), Open(g, Join(st, own)))
  {
    var i := f.code[f.pc].instr;
    assert FindsSame(e, f.code, g.code, f.pc);
    var h := |f.stack| - (if i.IfBegin? then 1 else 0) - |i.bt.params|;
    if h >= 0 {
      LabelsPush(e, base, f.labels, g.labels, f.pc, h);
    }
  }

  lemma CloseEmb(e: Emb, base: seq<Label>, own: Own, f: Frame, g: Frame, st: Store)
    requires Embeds(e, f.code, g.code) && FrameRel(e, base, f, g)
    requires f.pc < |f.code| && g.pc == e.site[f.pc]
    requires Closes(f.code[f.pc].instr) || f.code[f.pc].instr.IfElse?
    ensures g.pc < |g.code| && g.code[g.pc] == f.code[f.pc]
    ensures MoveRel(e, base, own, f, g, Close(f, st), Close(g, Join(st, own)))
  {
    assert FindsSame(e, f.code, g.code, f.pc);
    if f.labels != [] {
      LabelsPop(e, base, f.labels, g.labels, |f.labels| - 1);
    }
  }

  lemma StraightEmb(e: Emb, base: seq<Label>, own: Own, f: Frame, g: Frame, i: Instr, st: Store)
    requires FrameRel(e, base, f, g) && Simple(i) && (UsesSize(i) ==> own.mem == [])
    requires f.pc < |f.code| && g.pc == e.site[f.pc]
    ensures MoveRel(e, base, own, f, g, Straight(f, i, st), Straight(g, i, Join(st, own)))
  {
    ExecJoin(i, f.locals, f.stack, st, own);
  }

  lemma GrowEmb(P: Program, P2: Program, e: Emb, base: seq<Label>, own: Own, f: Frame, g: Frame, st: Store)
    requires FrameRel(e, base, f, g) && P2.maxPages == P.maxPages && own.mem == []
    requires f.pc < |f.code| && g.pc == e.site[f.pc]
    ensures MoveRel(e, base, own, f, g, Grow(P, f, st), Grow(P2, g, Join(st, own)))
  {
    var st2 := Join(st, own);
    assert st2.mem == st.mem;
    var n := |f.stack|;
    if n >= 1 && f.stack[n-1].ty == I32 {
      var z := ZeroBytes(f.stack[n-1].bits * PAGE);
      assert Join(st.(mem := st.mem + z), own) == st2.(mem := st2.mem + z);
    }
  }

  /**
   * One move of embedded code is one corresponding move of its host. How large the memory is may be
   * asked or changed only if no owned memory lies behind it.
   */
  lemma DecideEmb(P: Program, P2: Program, e: Emb, base: seq<Label>, own: Own, f: Frame, g: Frame, st: Store)
    requires Embeds(e, f.code, g.code) && FrameRel(e, base, f, g)
    requires f.pc < |f.code| && g.pc == e.site[f.pc]
    requires ProgLift(P, P2, |st.mem|, own.mem)
    requires CallsKnown(P, f.code)
    requires UsesSize(f.code[f.pc].instr) ==> own.mem == [] && P2.maxPages == P.maxPages
    ensures MoveRel(e, base, own, f, g, Decide(P, f, st), Decide(P2, g, Join(st, own)))
  {
    var i := f.code[f.pc].instr;
    assert g.code[g.pc] == f.code[f.pc];
    if Opens(i) {
      OpenEmb(e, base, own, f, g, st);
    } else if Closes(i) || i.IfElse? {
      CloseEmb(e, base, own, f, g, st);
    } else if i.Br? {
      BranchEmb(e, base, own, f, g, i.depth, st);
    } else if i.BrIf? {
      BranchIfEmb(e, base, own, f, g, i.depth, st);
    } else if i.Call? {
      InvokeEmb(P, P2, e, base, own, f, g, i.target, st);
    } else if i.CallIndirect? {
      IndirectEmb(P, P2, e, base, own, f, g, i.ft, st);
    } else if i.MemoryGrow? {
      GrowEmb(P, P2, e, base, own, f, g, st);
    } else if Simple(i) {
      StraightEmb(e, base, own, f, g, i, st);
    }
  }
}
