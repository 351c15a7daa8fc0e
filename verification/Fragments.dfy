/** Fragments: their contract when run in isolation, and the same run lifted into a host function. */
module Fragments {
  import opened Values
  import opened Machine
  import opened Embedding

  /** A fragment with the locals it mentions and the operands it expects on top of the stack. */
  datatype Fragment = Fragment(code: Code, locals: seq<ValType>, context: seq<ValType>)

  /** A fragment at a place in the program, and the events one execution of it records. */
  datatype Piece = Piece(frag: Fragment, emits: seq<int>)

  /** For every function and every gap of its code, the pieces put there. */
  type Plan = seq<seq<seq<Piece>>>

  /** What is known of the program's stores: the types of the globals, and the size of the memory if it is fixed. */
  datatype Shape = Shape(globals: seq<ValType>, size: Option<nat>)

  predicate InShape(sh: Shape, st: Store) {
    TypesOf(st.globals) == sh.globals && (sh.size.Some? ==> |st.mem| == sh.size.value)
  }

  /** Relates the owned state to the events recorded so far. */
  type Rep = (Own, seq<int>) -> bool

  function GapCode(ps: seq<Piece>): Code {
    if ps == [] then [] else ps[0].frag.code + GapCode(ps[1..])
  }

  function GapCodes(gs: seq<seq<Piece>>): (cs: seq<Code>)
    ensures |cs| == |gs|
    ensures forall k :: 0 <= k < |gs| ==> cs[k] == GapCode(gs[k])
  {
    seq(|gs|, k requires 0 <= k < |gs| => GapCode(gs[k]))
  }

  function Emits(ps: seq<Piece>): seq<int> {
    if ps == [] then [] else ps[0].emits + Emits(ps[1..])
  }

  // ----- a fragment on its own -----

  /** A fragment run in isolation, over all of the stack it will find. */
  function Isolated(code: Code, pc: nat, locals: seq<Value>, stack: seq<Value>, st: Store): Config {
    Config([Frame(0, 0, code, pc, locals, stack, [])], st)
  }

  /** In n steps the isolated fragment runs to its end and leaves locals and stack as they were. */
  ghost predicate RunsClean(P: Program, code: Code, locals: seq<Value>, stack: seq<Value>,
                            st: Store, st2: Store, n: nat) {
    Run(P, Next(Isolated(code, 0, locals, stack, st)), n) == Next(Isolated(code, |code|, locals, stack, st2))
  }

  ghost predicate Fits(f: Fragment, locals: seq<Value>, stack: seq<Value>) {
    && f.locals <= TypesOf(locals)
    && |f.context| <= |stack|
    && TypesOf(stack[|stack| - |f.context|..]) == f.context
  }

  ghost predicate Clean(P: Program, p: Piece, rep: Rep, ev: seq<int>,
                        locals: seq<Value>, stack: seq<Value>, st: Store, own: Own) {
    exists n: nat, own2: Own ::
      RunsClean(P, p.frag.code, locals, stack, Join(st, own), Join(st, own2), n) && rep(own2, ev + p.emits)
  }

  /**
   * The contract of a piece when the events ev have been recorded: from any locals and stack it fits,
   * and any store of the program's shape, it terminates without trapping, is balanced, writes owned
   * state only, and records its events.
   */
  ghost predicate Harmless(P: Program, p: Piece, rep: Rep, sh: Shape, ev: seq<int>) {
    forall locals: seq<Value>, stack: seq<Value>, st: Store, own: Own ::
      Fits(p.frag, locals, stack) && InShape(sh, st) && rep(own, ev) ==>
        Clean(P, p, rep, ev, locals, stack, st, own)
  }

  ghost predicate AllHarmless(P: Program, ps: seq<Piece>, rep: Rep, sh: Shape, ev: seq<int>) {
    ps == [] ||
    (Harmless(P, ps[0], rep, sh, ev)
     && AllHarmless(P, ps[1..], rep, sh, ev + ps[0].emits))
  }

  // ----- lifting an isolated run into a host -----

  function OffsetEmb(off: nat, n: nat): Emb {
    Emb(off, seq(n, k requires 0 <= k < n => off + k))
  }

  lemma {:induction false} FindInside(g: Code, w: Code, off: nat, k: nat, d: nat)
    requires off + |g| <= |w| && w[off..off + |g|] == g && k <= |g|
    ensures FindEnd(g, k, d) < |g| ==> FindEnd(w, off + k, d) == off + FindEnd(g, k, d)
    ensures FindElse(g, k, d) < |g| ==> FindElse(w, off + k, d) == off + FindElse(g, k, d)
    decreases |g| - k
  {
    if k < |g| {
      assert w[off + k] == g[k];
      var i := g[k].instr;
      FindInside(g, w, off, k + 1, if Opens(i) then d + 1 else if Closes(i) && d > 0 then d - 1 else d);
    }
  }

  lemma SliceEmbeds(g: Code, w: Code, off: nat)
    requires off + |g| <= |w| && w[off..off + |g|] == g
    ensures Embeds(OffsetEmb(off, |g|), g, w)
  {
    var e := OffsetEmb(off, |g|);
    forall k | 0 <= k < |g| ensures e.site[k] < |w| && w[e.site[k]] == g[k] {
      assert w[off + k] == w[off..off + |g|][k];
    }
    forall k | 0 <= k < |g| ensures FindsSame(e, g, w, k) {
      hide FindEnd, FindElse;
      FindInside(g, w, off, k + 1, 0);
    }
  }

  /** c is an isolated run; d is the same run inside a host frame above other frames. */
  ghost predicate Lifted(e: Emb, base: seq<Label>, lower: seq<Frame>, g: Code, h: Frame, c: Config, d: Config) {
    && c.frames != [] && c.frames[0].code == g && |e.site| == |g|
    && |d.frames| == |lower| + |c.frames|
    && d.frames[..|lower|] == lower
    && d.frames[|lower| + 1..] == c.frames[1..]
    && FrameRel(e, base, c.frames[0], d.frames[|lower|])
    && d.frames[|lower|].pc == Jump(e, c.frames[0].pc)
    && (var t := d.frames[|lower|]; t.code == h.code && t.fn == h.fn && t.arity == h.arity)
    && d.store == c.store
  }

  lemma SelfLift(P: Program, size: nat)
    requires Closed(P)
    ensures ProgLift(P, P, size, [])
  {
    forall fn: nat, args: seq<Value>, m: seq<Byte>, w: int | |m| == size
      ensures var r := P.host(fn, args, m, w);
        P.host(fn, args, m + [], w) == if r.None? then None else Some(r.value.(mem := r.value.mem + []))
    {
      assert m + [] == m;
      var r := P.host(fn, args, m, w);
      if r.Some? {
        assert r.value.mem + [] == r.value.mem;
      }
    }
  }

  lemma JoinNothing(st: Store)
    ensures Join(st, Own([], [])) == st
  {
    assert st.globals + [] == st.globals && st.mem + [] == st.mem;
  }

  lemma LiftBottom(P: Program, e: Emb, base: seq<Label>, lower: seq<Frame>, g: Code, h: Frame, c: Config, d: Config)
    requires Closed(P) && CallsKnown(P, g)
    requires Embeds(e, g, h.code)
    requires forall k :: 0 <= k < |g| ==> e.site[k] == Jump(e, k)
    requires Lifted(e, base, lower, g, h, c, d)
    requires |c.frames| == 1 && Step(P, c).Next?
    ensures Step(P, d).Next? && Lifted(e, base, lower, g, h, Step(P, c).c, Step(P, d).c)
  {
    var f, f2 := c.frames[0], d.frames[|lower|];
    assert c.frames[..0] == [];
    assert d.frames[..|lower|] == lower;
    SelfLift(P, |c.store.mem|);
    var nothing := Own([], []);
    JoinNothing(c.store);
    assert f.pc < |g|;
    DecideEmb(P, P, e, base, nothing, f, f2, c.store);
    var m, m2 := Decide(P, f, c.store), Decide(P, f2, c.store);
    assert MoveRel(e, base, nothing, f, f2, m, m2);
    if m.Stay? {
      JoinNothing(m.store);
      assert Step(P, d).c.frames == lower + [m2.f];
    } else {
      assert m.Enter?;
      assert Step(P, d).c.frames == lower + [m2.f] + [Entry(P, m.callee, m.args)];
    }
  }

  lemma LiftedParts(e: Emb, base: seq<Label>, lower: seq<Frame>, g: Code, h: Frame,
                    f: Frame, t: Frame, upper: seq<Frame>, st: Store)
    requires f.code == g && |e.site| == |g| && FrameRel(e, base, f, t) && t.pc == Jump(e, f.pc)
    requires t.code == h.code && t.fn == h.fn && t.arity == h.arity
    ensures Lifted(e, base, lower, g, h, Config([f] + upper, st), Config(lower + [t] + upper, st))
  {
    var d := Config(lower + [t] + upper, st);
    assert d.frames[..|lower|] == lower && d.frames[|lower| + 1..] == upper;
  }

  /** The frames above `mid` and below after a move of the frame on top of `mid`. */
  function After(P: Program, mid: seq<Frame>, m: Move): seq<Frame>
    requires m.Enter? ==> m.callee < |P.funcs| && P.funcs[m.callee].Defined?
  {
    match m
    case Stay(f, _) => mid + [f]
    case Enter(f, callee, args) => mid + [f, Entry(P, callee, args)]
    case Exit(vals) =>
      if mid == [] then [] else mid[..|mid| - 1] + [mid[|mid| - 1].(stack := mid[|mid| - 1].stack + vals)]
    case Fault(_) => []
  }

  /** A move that does not return into `pre` leaves those frames alone. */
  lemma ApplyAbove(P: Program, pre: seq<Frame>, mid: seq<Frame>, st: Store, m: Move)
    requires Apply(P, pre + mid, st, m).Next? && (m.Exit? ==> mid != [])
    ensures m.Enter? ==> m.callee < |P.funcs| && P.funcs[m.callee].Defined?
    ensures Apply(P, pre + mid, st, m) == Next(Config(pre + After(P, mid, m), if m.Stay? then m.store else st))
  {
    if m.Exit? {
      var all, k := pre + mid, |mid| - 1;
      assert all[|all| - 1] == mid[k] && all[..|all| - 1] == pre + mid[..k];
    }
  }

  lemma StepAbove(P: Program, pre: seq<Frame>, mid: seq<Frame>, top: Frame, st: Store)
    ensures Step(P, Config(pre + mid + [top], st)) == Apply(P, pre + mid, st, Decide(P, top, st))
  {
    hide Decide, Apply;
    var fs := pre + mid + [top];
    assert fs[|fs| - 1] == top && fs[..|fs| - 1] == pre + mid;
  }

  lemma ReturnToBottom(P: Program, pre: seq<Frame>, f: Frame, st: Store, m: Move)
    requires m.Exit?
    ensures Apply(P, pre + [f], st, m) == Next(Config(pre + [f.(stack := f.stack + m.vals)], st))
  {
    var all := pre + [f];
    assert all[|all| - 1] == f && all[..|all| - 1] == pre;
  }

  lemma LiftStep(P: Program, e: Emb, base: seq<Label>, lower: seq<Frame>, g: Code, h: Frame, c: Config, d: Config)
    requires Closed(P) && CallsKnown(P, g)
    requires Embeds(e, g, h.code)
    requires forall k :: 0 <= k < |g| ==> e.site[k] == Jump(e, k)
    requires Lifted(e, base, lower, g, h, c, d)
    requires Step(P, c).Next?
    ensures Step(P, d).Next? && Lifted(e, base, lower, g, h, Step(P, c).c, Step(P, d).c)
  {
    if |c.frames| == 1 {
      LiftBottom(P, e, base, lower, g, h, c, d);
    } else {
      hide Decide, Embeds, Step, Apply, After, FrameRel;
      var f, t, up := c.frames[0], d.frames[|lower|], c.frames[1..];
      var mid, top := up[..|up| - 1], up[|up| - 1];
      assert c.frames == [f] + mid + [top] && d.frames == (lower + [t]) + mid + [top];
      StepAbove(P, [f], mid, top, c.store);
      StepAbove(P, lower + [t], mid, top, c.store);
      assert c == Config([f] + mid + [top], c.store) && d == Config(lower + [t] + mid + [top], c.store);
      LiftAbove(P, e, base, lower, g, h, f, t, mid, c.store, Decide(P, top, c.store));
    }
  }

  /** A move of a frame above the fragment's own. */
  lemma LiftAbove(P: Program, e: Emb, base: seq<Label>, lower: seq<Frame>, g: Code, h: Frame,
                  f: Frame, t: Frame, mid: seq<Frame>, st: Store, m: Move)
    requires f.code == g && |e.site| == |g| && FrameRel(e, base, f, t) && t.pc == Jump(e, f.pc)
    requires t.code == h.code && t.fn == h.fn && t.arity == h.arity
    requires Apply(P, [f] + mid, st, m).Next?
    ensures Apply(P, lower + [t] + mid, st, m).Next?
    ensures Lifted(e, base, lower, g, h, Apply(P, [f] + mid, st, m).c, Apply(P, lower + [t] + mid, st, m).c)
  {
    if m.Exit? && mid == [] {
      var f2, t2 := f.(stack := f.stack + m.vals), t.(stack := t.stack + m.vals);
      assert [f] + mid == [] + [f] && lower + [t] + mid == lower + [t];
      ReturnToBottom(P, [], f, st, m);
      ReturnToBottom(P, lower, t, st, m);
      LiftedParts(e, base, lower, g, h, f2, t2, [], st);
      assert [f2] + [] == [] + [f2] && lower + [t2] + [] == lower + [t2];
    } else {
      assert Apply(P, lower + [t] + mid, st, m).Next? by { NextAnywhere(P, [f] + mid, lower + [t] + mid, st, m); }
      ApplyAbove(P, [f], mid, st, m);
      ApplyAbove(P, lower + [t], mid, st, m);
      LiftedParts(e, base, lower, g, h, f, t, After(P, mid, m), if m.Stay? then m.store else st);
    }
  }

  lemma NextAnywhere(P: Program, a: seq<Frame>, b: seq<Frame>, st: Store, m: Move)
    requires Apply(P, a, st, m).Next? && b != []
    ensures Apply(P, b, st, m).Next?
  {
  }

  lemma {:induction false} LiftRun(P: Program, e: Emb, base: seq<Label>, lower: seq<Frame>, g: Code, h: Frame,
                                   c: Config, d: Config, n: nat)
    requires Closed(P) && CallsKnown(P, g)
    requires Embeds(e, g, h.code)
    requires forall k :: 0 <= k < |g| ==> e.site[k] == Jump(e, k)
    requires Lifted(e, base, lower, g, h, c, d)
    requires Run(P, Next(c), n).Next?
    ensures var r := Run(P, Next(d), n); r.Next? && Lifted(e, base, lower, g, h, Run(P, Next(c), n).c, r.c)
    decreases n
  {
    hide Step, Lifted, Embeds;
    if n > 0 {
      LiftStep(P, e, base, lower, g, h, c, d);
      LiftRun(P, e, base, lower, g, h, Step(P, c).c, Step(P, d).c, n - 1);
    }
  }

  /** A clean isolated run, placed in a host, moves the host from before the fragment to behind it. */
  lemma PieceRun(P: Program, lower: seq<Frame>, h: Frame, g: Code, st: Store, st2: Store, n: nat)
    requires Closed(P) && CallsKnown(P, g)
    requires h.pc + |g| <= |h.code| && h.code[h.pc..h.pc + |g|] == g
    requires RunsClean(P, g, h.locals, h.stack, st, st2, n)
    ensures Run(P, Next(Config(lower + [h], st)), n) == Next(Config(lower + [h.(pc := h.pc + |g|)], st2))
  {
    hide Step;
    var e := OffsetEmb(h.pc, |g|);
    SliceEmbeds(g, h.code, h.pc);
    var c, d := Isolated(g, 0, h.locals, h.stack, st), Config(lower + [h], st);
    LiftStart(lower, h, g, st);
    LiftRun(P, e, h.labels, lower, g, h, c, d, n);
    LiftedEnd(P, e, lower, g, h, st2, Run(P, Next(d), n).c);
  }

  lemma LiftedEnd(P: Program, e: Emb, lower: seq<Frame>, g: Code, h: Frame, st2: Store, r: Config)
    requires e == OffsetEmb(h.pc, |g|)
    requires Lifted(e, h.labels, lower, g, h, Isolated(g, |g|, h.locals, h.stack, st2), r)
    ensures r == Config(lower + [h.(pc := h.pc + |g|)], st2)
  {
    var t := r.frames[|lower|];
    assert t.labels == h.labels;
    assert r.frames == lower + [t];
  }

  /** The isolated fragment runs for n steps, and the next step traps. */
  ghost predicate RunsIntoTrap(P: Program, code: Code, locals: seq<Value>, stack: seq<Value>,
                               st: Store, why: Reason, n: nat) {
    var o := Run(P, Next(Isolated(code, 0, locals, stack, st)), n);
    o.Next? && |o.c.frames| == 1 && Step(P, o.c) == Trap(why)
  }

  lemma LiftStart(lower: seq<Frame>, h: Frame, g: Code, st: Store)
    ensures Lifted(OffsetEmb(h.pc, |g|), h.labels, lower, g, h, Isolated(g, 0, h.locals, h.stack, st),
                   Config(lower + [h], st))
  {
    var d := Config(lower + [h], st);
    assert d.frames[..|lower|] == lower && d.frames[|lower| + 1..] == [];
  }

  lemma TrapInHost(P: Program, e: Emb, base: seq<Label>, lower: seq<Frame>, g: Code, h: Frame,
                   c: Config, d: Config, why: Reason)
    requires Closed(P) && CallsKnown(P, g)
    requires Embeds(e, g, h.code)
    requires forall k :: 0 <= k < |g| ==> e.site[k] == Jump(e, k)
    requires Lifted(e, base, lower, g, h, c, d)
    requires |c.frames| == 1 && Step(P, c) == Trap(why) && why != Invalid
    ensures Step(P, d) == Trap(why)
  {
    var f, f2 := c.frames[0], d.frames[|lower|];
    assert c.frames[..0] == [] && d.frames[..|lower|] == lower;
    SelfLift(P, |c.store.mem|);
    JoinNothing(c.store);
    assert f.pc < |g|;
    DecideEmb(P, P, e, base, Own([], []), f, f2, c.store);
    assert MoveRel(e, base, Own([], []), f, f2, Decide(P, f, c.store), Decide(P, f2, c.store));
  }

  /** An isolated run that ends in a trap, placed in a host, ends the host's run in the same trap. */
  lemma PieceTrap(P: Program, lower: seq<Frame>, h: Frame, g: Code, st: Store, why: Reason, n: nat)
    requires Closed(P) && CallsKnown(P, g)
    requires h.pc + |g| <= |h.code| && h.code[h.pc..h.pc + |g|] == g
    requires RunsIntoTrap(P, g, h.locals, h.stack, st, why, n) && why != Invalid
    ensures Run(P, Next(Config(lower + [h], st)), n + 1) == Trap(why)
  {
    hide Step, Lifted;
    var e := OffsetEmb(h.pc, |g|);
    SliceEmbeds(g, h.code, h.pc);
    var c, d := Isolated(g, 0, h.locals, h.stack, st), Config(lower + [h], st);
    LiftStart(lower, h, g, st);
    LiftRun(P, e, h.labels, lower, g, h, c, d, n);
    var c1, d1 := Run(P, Next(c), n).c, Run(P, Next(d), n).c;
    TrapInHost(P, e, h.labels, lower, g, h, c1, d1, why);
    RunAdd(P, Next(d), n, 1);
    RunOne(P, d1);
  }

  // ----- calling a function without arguments -----

  function CallOf(callee: nat): Code {
    [Op(Call(callee), [])]
  }

  lemma EntersBody(P: Program, callee: nat, lower: seq<Frame>, f: Frame, st: Store)
    requires callee < |P.funcs| && P.funcs[callee].Defined?
    requires P.funcs[callee].ft == FuncType([], []) && P.funcs[callee].vars == []
    requires f.pc < |f.code| && f.code[f.pc].instr == Call(callee)
    ensures Step(P, Config(lower + [f], st))
         == Next(Config(lower + [f.(pc := f.pc + 1)] + [Frame(callee, 0, P.funcs[callee].code, 0, [], [], [])], st))
  {
    var c := Config(lower + [f], st);
    var n := |lower|;
    assert c.frames[..n] == lower && c.frames[n] == f;
    assert f.stack[|f.stack|..] == [] && f.stack[..|f.stack|] == f.stack;
    assert Decide(P, f, st) == Enter(f.(pc := f.pc + 1), callee, []);
    assert [] + Zeros([]) == [];
    var e := Entry(P, callee, []);
    assert lower + [f.(pc := f.pc + 1)] + [e] == lower + [f.(pc := f.pc + 1), e];
  }

  lemma LeavesBody(P: Program, caller: Frame, g: Frame, st: Store)
    requires g.arity == 0 && g.pc == |g.code|
    ensures Step(P, Config([caller] + [g], st)) == Next(Config([caller], st))
  {
    var c := Config([caller] + [g], st);
    assert c.frames[..1] == [caller] && g.stack[|g.stack|..] == [];
    assert caller.stack + [] == caller.stack && [] + [caller] == [caller];
  }

  /** A call on its own: into the function, through its body, and out again. */
  lemma CallRuns(P: Program, callee: nat, locals: seq<Value>, stack: seq<Value>, st: Store, st2: Store, n: nat)
    requires Closed(P) && callee < |P.funcs| && P.funcs[callee].Defined?
    requires P.funcs[callee].ft == FuncType([], []) && P.funcs[callee].vars == []
    requires CallsKnown(P, P.funcs[callee].code) && RunsClean(P, P.funcs[callee].code, [], [], st, st2, n)
    ensures RunsClean(P, CallOf(callee), locals, stack, st, st2, n + 2)
  {
    hide Run, Step;
    var body := P.funcs[callee].code;
    var c := Isolated(CallOf(callee), 0, locals, stack, st);
    var f := c.frames[0];
    var caller, h := f.(pc := 1), Frame(callee, 0, body, 0, [], [], []);
    EntersBody(P, callee, [], f, st);
    assert [] + [f] == c.frames && [] + [caller] == [caller];
    RunOne(P, c);
    assert body[0..|body|] == body;
    PieceRun(P, [caller], h, body, st, st2, n);
    RunAdd(P, Next(c), 1, n);
    LeavesBody(P, caller, h.(pc := |body|), st2);
    RunOne(P, Config([caller] + [h.(pc := |body|)], st2));
    RunAdd(P, Next(c), 1 + n, 1);
  }
}
