/**
 * Instrumentation preserves meaning: a program with fragments woven into its functions runs in
 * lock-step with the original, up to the steps spent inside fragments and the state the
 * instrumentation owns. What the fragments record in that state is tracked as a log of events.
 */
module Simulation {
  import opened Values
  import opened Machine
  import opened Weaving
  import opened Embedding
  import opened Nesting
  import opened Fragments

  /** What is inserted where, what the owned state represents, and the shape of the program's own stores. */
  datatype World = World(plan: Plan, rep: Rep, shape: Shape)

  function WovenCode(W: World, fn: nat, code: Code): Code
    requires fn < |W.plan| && |W.plan[fn]| == |code| + 1
  {
    Weave(code, GapCodes(W.plan[fn]))
  }

  ghost predicate WovenFunc(P: Program, P2: Program, W: World, fn: nat)
    requires fn < |P.funcs| <= |P2.funcs| && |W.plan| == |P.funcs|
  {
    var d := P.funcs[fn];
    if d.Import? then P2.funcs[fn] == d
    else
      && |W.plan[fn]| == |d.code| + 1
      && P2.funcs[fn] == d.(code := WovenCode(W, fn, d.code))
      && AllNested(GapCodes(W.plan[fn]))
      && CallsKnown(P2, P2.funcs[fn].code)
      && CallsKnown(P, d.code)
  }

  /** Imported functions leave the memory its size, and the program does not ask for or change it. */
  ghost predicate KeepsSize(P: Program, size: nat) {
    && (forall fn: nat, args: seq<Value>, m: seq<Byte>, w: int :: |m| == size ==>
          var r := P.host(fn, args, m, w); r.Some? ==> |r.value.mem| == size)
    && (forall fn: nat :: fn < |P.funcs| && P.funcs[fn].Defined? ==> NoSize(P.funcs[fn].code))
  }

  predicate NoSize(code: Code) {
    forall k :: 0 <= k < |code| ==> !UsesSize(code[k].instr)
  }

  /** The instrumentation owns globals only. */
  ghost predicate OwnsNoMemory(W: World) {
    forall own: Own, ev: seq<int> :: W.rep(own, ev) ==> own.mem == []
  }

  /** P2 is P with the plan woven into its functions, possibly with further functions added. */
  ghost predicate Woven(P: Program, P2: Program, W: World) {
    && |W.plan| == |P.funcs| <= |P2.funcs|
    && (forall fn :: 0 <= fn < |P.funcs| ==> WovenFunc(P, P2, W, fn))
    && Closed(P2)
    && (if W.shape.size.Some? then KeepsSize(P, W.shape.size.value) else P2.maxPages == P.maxPages)
  }

  /**
   * Moreover the imported functions do not notice what memory the instrumentation owns. A program whose
   * memory may have any size has none of it behind its own.
   */
  ghost predicate Instrumented(P: Program, P2: Program, W: World) {
    && Woven(P, P2, W)
    && (if W.shape.size.Some? then forall ext: seq<Byte> :: ProgLift(P, P2, W.shape.size.value, ext)
        else OwnsNoMemory(W) && forall n: nat :: ProgLift(P, P2, n, []))
  }

  /** The owned memory behind the store is out of the program's sight. */
  ghost predicate OutOfSight(P: Program, P2: Program, W: World, st: Store, own: Own) {
    ProgLift(P, P2, |st.mem|, own.mem) && (own.mem == [] || W.shape.size.Some?)
  }

  lemma InstrumentedParts(P: Program, P2: Program, W: World, st: Store, own: Own, ev: seq<int>)
    requires Instrumented(P, P2, W) && InShape(W.shape, st) && W.rep(own, ev)
    ensures Woven(P, P2, W) && OutOfSight(P, P2, W, st, own)
  {
    hide Woven, ProgLift;
  }

  ghost predicate FrameMatch(P: Program, P2: Program, W: World, f: Frame, g: Frame) {
    && |W.plan| == |P.funcs| <= |P2.funcs|
    && FrameOf(P, f) && FrameOf(P2, g)
    && g.fn == f.fn && g.arity == f.arity
    && |W.plan[f.fn]| == |f.code| + 1
    && FrameRel(WeaveEmb(GapCodes(W.plan[f.fn])), [], f, g)
    && g.pc == Arrive(GapCodes(W.plan[f.fn]), f.pc)
  }

  /** The instrumented configuration d stands at the same point as c, in front of the gap there. */
  ghost predicate Match(P: Program, P2: Program, W: World, c: Config, d: Config, own: Own) {
    && c.frames != [] && |d.frames| == |c.frames|
    && (forall i :: 0 <= i < |c.frames| ==> FrameMatch(P, P2, W, c.frames[i], d.frames[i]))
    && d.store == Join(c.store, own)
    && InShape(W.shape, c.store)
  }

  function Top(c: Config): Frame
    requires c.frames != []
  {
    c.frames[|c.frames| - 1]
  }

  /** The pieces in front of the next instruction of c. */
  function PiecesAt(W: World, c: Config): seq<Piece> {
    if c.frames != [] && Top(c).fn < |W.plan| && Top(c).pc < |W.plan[Top(c).fn]|
    then W.plan[Top(c).fn][Top(c).pc] else []
  }

  ghost predicate AllFit(ps: seq<Piece>, locals: seq<Value>, stack: seq<Value>) {
    forall k :: 0 <= k < |ps| ==> Fits(ps[k].frag, locals, stack)
  }

  /** The pieces ahead fit the operands and locals they find there, and are harmless. */
  ghost predicate Ready(P2: Program, W: World, c: Config, ev: seq<int>) {
    && c.frames != []
    && AllFit(PiecesAt(W, c), Top(c).locals, Top(c).stack)
    && AllHarmless(P2, PiecesAt(W, c), W.rep, W.shape, ev)
  }

  // ----- running through one gap -----

  lemma SplitSlice<T>(w: seq<T>, i: nat, a: seq<T>, b: seq<T>)
    requires i + |a| + |b| <= |w| && w[i..i + |a| + |b|] == a + b
    ensures w[i..i + |a|] == a && w[i + |a|..i + |a| + |b|] == b
  {
    assert w[i..i + |a|] == w[i..i + |a| + |b|][..|a|];
    assert w[i + |a|..i + |a| + |b|] == w[i..i + |a| + |b|][|a|..];
  }

  lemma OnePieceRun(P2: Program, W: World, p: Piece, lower: seq<Frame>, h: Frame, st: Store, own: Own, ev: seq<int>)
    returns (n: nat, own2: Own)
    requires Closed(P2) && CallsKnown(P2, h.code)
    requires var g := p.frag.code; h.pc + |g| <= |h.code| && h.code[h.pc..h.pc + |g|] == g
    requires Fits(p.frag, h.locals, h.stack) && Harmless(P2, p, W.rep, W.shape, ev)
    requires InShape(W.shape, st) && W.rep(own, ev)
    ensures Run(P2, Next(Config(lower + [h], Join(st, own))), n)
         == Next(Config(lower + [h.(pc := h.pc + |p.frag.code|)], Join(st, own2)))
    ensures W.rep(own2, ev + p.emits)
  {
    hide Step;
    var g := p.frag.code;
    assert Clean(P2, p, W.rep, ev, h.locals, h.stack, st, own);
    n, own2 :| RunsClean(P2, g, h.locals, h.stack, Join(st, own), Join(st, own2), n) && W.rep(own2, ev + p.emits);
    forall k | 0 <= k < |g| && g[k].instr.Call? ensures g[k].instr.target < |P2.funcs| {
      assert g[k] == h.code[h.pc..h.pc + |g|][k] == h.code[h.pc + k];
    }
    PieceRun(P2, lower, h, g, Join(st, own), Join(st, own2), n);
  }

  lemma {:induction false} PiecesRun(P2: Program, W: World, ps: seq<Piece>, lower: seq<Frame>, h: Frame,
                                     st: Store, own: Own, ev: seq<int>) returns (n: nat, own2: Own)
    requires Closed(P2) && CallsKnown(P2, h.code)
    requires h.pc + |GapCode(ps)| <= |h.code| && h.code[h.pc..h.pc + |GapCode(ps)|] == GapCode(ps)
    requires AllFit(ps, h.locals, h.stack) && AllHarmless(P2, ps, W.rep, W.shape, ev)
    requires InShape(W.shape, st) && W.rep(own, ev)
    ensures Run(P2, Next(Config(lower + [h], Join(st, own))), n)
         == Next(Config(lower + [h.(pc := h.pc + |GapCode(ps)|)], Join(st, own2)))
    ensures W.rep(own2, ev + Emits(ps))
  {
    hide Step, Harmless, Join, Fits;
    if ps == [] {
      n, own2 := 0, own;
      assert ev + [] == ev;
    } else {
      var p, g := ps[0], ps[0].frag.code;
      var rest := GapCode(ps[1..]);
      SplitSlice(h.code, h.pc, g, rest);
      var n1, own1 := OnePieceRun(P2, W, p, lower, h, st, own, ev);
      var h1 := h.(pc := h.pc + |g|);
      var n2;
      n2, own2 := PiecesRun(P2, W, ps[1..], lower, h1, st, own1, ev + p.emits);
      n := n1 + n2;
      RunAdd(P2, Next(Config(lower + [h], Join(st, own))), n1, n2);
      assert ev + p.emits + Emits(ps[1..]) == ev + Emits(ps);
    }
  }

  /** d after the gap: its active frame stands at the next original instruction. */
  function AtSite(W: World, c: Config, d: Config, own2: Own): Config
    requires c.frames != [] && d.frames != [] && Top(c).fn < |W.plan| && Top(c).pc < |W.plan[Top(c).fn]|
  {
    var site := Site(GapCodes(W.plan[Top(c).fn]), Top(c).pc);
    Config(d.frames[..|d.frames| - 1] + [Top(d).(pc := site)], Join(c.store, own2))
  }

  lemma TopOfMatch(P: Program, P2: Program, W: World, c: Config, d: Config, own: Own)
    requires Woven(P, P2, W) && Match(P, P2, W, c, d, own)
    ensures var f, h := Top(c), Top(d);
      && FrameOf(P, f) && |W.plan[f.fn]| == |f.code| + 1 && f.pc <= |f.code|
      && h.fn == f.fn && h.locals == f.locals && h.stack == f.stack
      && h.code == WovenCode(W, f.fn, f.code) && h.pc == Arrive(GapCodes(W.plan[f.fn]), f.pc)
      && Closed(P2) && CallsKnown(P2, h.code)
  {
    var f, h := Top(c), Top(d);
    assert FrameMatch(P, P2, W, f, h) && WovenFunc(P, P2, W, f.fn);
  }

  lemma GapRun(P: Program, P2: Program, W: World, c: Config, d: Config, own: Own, ev: seq<int>)
    returns (n: nat, own2: Own)
    requires Instrumented(P, P2, W) && Match(P, P2, W, c, d, own)
    requires Ready(P2, W, c, ev) && W.rep(own, ev)
    ensures Top(c).fn < |W.plan| && Top(c).pc < |W.plan[Top(c).fn]|
    ensures Run(P2, Next(d), n) == Next(AtSite(W, c, d, own2))
    ensures W.rep(own2, ev + Emits(PiecesAt(W, c)))
  {
    InstrumentedParts(P, P2, W, c.store, own, ev);
    hide Step, WovenCode, Instrumented, AllHarmless, AllFit, GapCode, FrameRel, Join, CallsKnown;
    var f, h := Top(c), Top(d);
    TopOfMatch(P, P2, W, c, d, own);
    GapInPlace(W, f, h);
    var lower := d.frames[..|d.frames| - 1];
    assert d.frames == lower + [h];
    n, own2 := PiecesRun(P2, W, PiecesAt(W, c), lower, h, c.store, own, ev);
  }

  lemma GapInPlace(W: World, f: Frame, h: Frame)
    requires f.fn < |W.plan| && |W.plan[f.fn]| == |f.code| + 1 && f.pc <= |f.code|
    requires h.code == WovenCode(W, f.fn, f.code) && h.pc == Arrive(GapCodes(W.plan[f.fn]), f.pc)
    ensures var g := GapCode(W.plan[f.fn][f.pc]);
      h.pc + |g| <= |h.code| && h.code[h.pc..h.pc + |g|] == g && h.pc + |g| == Site(GapCodes(W.plan[f.fn]), f.pc)
  {
    var gaps := GapCodes(W.plan[f.fn]);
    WeaveAt(f.code, gaps, f.pc);
    SiteStep(gaps, f.pc);
  }

  // ----- one original step -----

  /** The instrumented outcome q corresponds to the original outcome o. */
  ghost predicate OutcomeMatch(P: Program, P2: Program, W: World, o: Outcome, q: Outcome, own: Own) {
    match o
    case Next(c) => q.Next? && Match(P, P2, W, c, q.c, own)
    case Done(vals, st) => q == Done(vals, Join(st, own))
    case Trap(why) => why == Stop || (why == Bounds && own.mem == []) ==> q == o
  }

  ghost predicate CallersMatch(P: Program, P2: Program, W: World, fs: seq<Frame>, gs: seq<Frame>) {
    |fs| == |gs| && forall i :: 0 <= i < |fs| ==> FrameMatch(P, P2, W, fs[i], gs[i])
  }

  /** Stores keep their shape. */
  lemma StoreKept(P: Program, sh: Shape, f: Frame, st: Store)
    requires FrameOf(P, f) && InShape(sh, st) && (sh.size.Some? ==> KeepsSize(P, sh.size.value))
    ensures var m := Decide(P, f, st); m.Stay? ==> InShape(sh, m.store)
  {
    hide Exec;
    if f.pc < |f.code| && Simple(f.code[f.pc].instr) {
      ExecShape(f.code[f.pc].instr, f.locals, f.stack, st);
    }
  }

  lemma ArriveIsJump(gaps: seq<Code>, k: nat)
    requires k < |gaps|
    ensures Jump(WeaveEmb(gaps), k) == Arrive(gaps, k)
  {
  }

  /** The active frame's move and its counterpart behind the gap. */
  lemma MoveMatch(P: Program, P2: Program, W: World, f: Frame, g: Frame, st: Store, own: Own)
    requires Woven(P, P2, W) && OutOfSight(P, P2, W, st, own) && FrameMatch(P, P2, W, f, g)
    ensures var h := g.(pc := Site(GapCodes(W.plan[f.fn]), f.pc));
      MoveRel(WeaveEmb(GapCodes(W.plan[f.fn])), [], own, f, h, Decide(P, f, st), Decide(P2, h, Join(st, own)))
  {
    var gaps := GapCodes(W.plan[f.fn]);
    var h := g.(pc := Site(gaps, f.pc));
    assert WovenFunc(P, P2, W, f.fn);
    WeaveAt(f.code, gaps, f.pc);
    WeaveLength(f.code, gaps);
    if f.pc < |f.code| {
      WeaveEmbeds(f.code, gaps);
      DecideEmb(P, P2, WeaveEmb(gaps), [], own, f, h, st);
    }
  }

  lemma EntryMatch(P: Program, P2: Program, W: World, callee: nat, args: seq<Value>)
    requires Woven(P, P2, W) && callee < |P.funcs| && P.funcs[callee].Defined?
    ensures P2.funcs[callee].Defined?
    ensures FrameMatch(P, P2, W, Entry(P, callee, args), Entry(P2, callee, args))
  {
    assert WovenFunc(P, P2, W, callee);
  }

  lemma ApplyMatch(P: Program, P2: Program, W: World, fs: seq<Frame>, gs: seq<Frame>, f: Frame, h: Frame,
                   st: Store, own: Own, m: Move, m2: Move)
    requires Woven(P, P2, W) && CallersMatch(P, P2, W, fs, gs)
    requires f.fn < |W.plan| && f.pc < |W.plan[f.fn]|
    requires FrameMatch(P, P2, W, f, h.(pc := Arrive(GapCodes(W.plan[f.fn]), f.pc)))
    requires MoveRel(WeaveEmb(GapCodes(W.plan[f.fn])), [], own, f, h, m, m2)
    requires InShape(W.shape, st) && (m.Stay? ==> InShape(W.shape, m.store))
    ensures OutcomeMatch(P, P2, W, Apply(P, fs, st, m), Apply(P2, gs, Join(st, own), m2), own)
  {
    hide Join;
    match m {
      case Stay(f2, st2) =>
        ArriveIsJump(GapCodes(W.plan[f.fn]), f2.pc);
        assert FrameMatch(P, P2, W, f2, m2.f);
        assert CallersMatch(P, P2, W, fs + [f2], gs + [m2.f]);
      case Enter(f2, callee, args) =>
        if callee < |P.funcs| && P.funcs[callee].Defined? {
          EntryMatch(P, P2, W, callee, args);
          ArriveIsJump(GapCodes(W.plan[f.fn]), f2.pc);
          assert FrameMatch(P, P2, W, f2, m2.f);
          assert CallersMatch(P, P2, W, fs + [f2], gs + [m2.f]);
        }
      case Exit(vals) =>
        if fs != [] {
          var n := |fs| - 1;
          var f2, g2 := fs[n].(stack := fs[n].stack + vals), gs[n].(stack := gs[n].stack + vals);
          assert FrameMatch(P, P2, W, fs[n], gs[n]);
          assert FrameMatch(P, P2, W, f2, g2);
          assert CallersMatch(P, P2, W, fs[..n] + [f2], gs[..n] + [g2]);
        }
      case Fault(why) =>
    }
  }

  lemma StepAtSite(P: Program, P2: Program, W: World, c: Config, d: Config, own: Own, own2: Own)
    requires Woven(P, P2, W) && OutOfSight(P, P2, W, c.store, own2) && Match(P, P2, W, c, d, own)
    requires Top(c).fn < |W.plan| && Top(c).pc < |W.plan[Top(c).fn]|
    ensures OutcomeMatch(P, P2, W, Step(P, c), Step(P2, AtSite(W, c, d, own2)), own2)
  {
    hide Decide, Apply, Woven, OutOfSight, WeaveEmb, FrameRel, Join;
    var d1 := AtSite(W, c, d, own2);
    var k := |c.frames| - 1;
    var f, g := c.frames[k], d.frames[k];
    assert FrameMatch(P, P2, W, f, g);
    var h := g.(pc := Site(GapCodes(W.plan[f.fn]), f.pc));
    MoveMatch(P, P2, W, f, g, c.store, own2);
    WovenKeeps(P, P2, W);
    StoreKept(P, W.shape, f, c.store);
    assert d1.frames[..k] == d.frames[..k] && d1.frames[k] == h;
    assert h.(pc := Arrive(GapCodes(W.plan[f.fn]), f.pc)) == g;
    ApplyMatch(P, P2, W, c.frames[..k], d.frames[..k], f, h, c.store, own2,
               Decide(P, f, c.store), Decide(P2, h, Join(c.store, own2)));
  }

  lemma WovenKeeps(P: Program, P2: Program, W: World)
    requires Woven(P, P2, W)
    ensures W.shape.size.Some? ==> KeepsSize(P, W.shape.size.value)
  {
  }

  /**
   * One original step: the instrumented program runs through the gap, then makes the same step, and
   * the pieces in the gap have recorded exactly their events.
   */
  lemma StepSimulated(P: Program, P2: Program, W: World, c: Config, d: Config, own: Own, ev: seq<int>)
    returns (n: nat, own2: Own)
    requires Instrumented(P, P2, W) && Match(P, P2, W, c, d, own)
    requires Ready(P2, W, c, ev) && W.rep(own, ev)
    ensures n >= 1
    ensures OutcomeMatch(P, P2, W, Step(P, c), Run(P2, Next(d), n), own2)
    ensures W.rep(own2, ev + Emits(PiecesAt(W, c)))
  {
    hide Step, Instrumented, Woven, OutOfSight, Ready, OutcomeMatch, AtSite;
    var n1;
    n1, own2 := GapRun(P, P2, W, c, d, own, ev);
    InstrumentedParts(P, P2, W, c.store, own2, ev + Emits(PiecesAt(W, c)));
    StepAtSite(P, P2, W, c, d, own, own2);
    n := n1 + 1;
    RunAdd(P2, Next(d), n1, 1);
    assert Run(P2, Next(AtSite(W, c, d, own2)), 1) == Step(P2, AtSite(W, c, d, own2));
  }
}
