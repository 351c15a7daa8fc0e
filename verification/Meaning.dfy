/** Match-and-insert instrumentation as an instance of the simulation. */
module Meaning {
  import opened Values
  import opened Machine
  import opened Weaving
  import opened Embedding
  import opened Nesting
  import opened Fragments
  import opened Simulation
  import opened Runs
  import opened StraightLine
  import opened Rewriter
  import Instrumenting

  /** The events an operation's fragments record before and after a matched instruction. */
  datatype OpEvents = OpEvents(pre: seq<int>, post: seq<int>)

  function PrePieces(s: StackInst, ops: seq<Operation>, es: seq<OpEvents>): seq<Piece>
    requires |es| == |ops|
  {
    var k := FirstMatch(s, ops);
    if k < |ops| then [Piece(ops[k].pre, es[k].pre)] else []
  }

  function PostPieces(s: StackInst, ops: seq<Operation>, es: seq<OpEvents>): seq<Piece>
    requires |es| == |ops|
  {
    var k := FirstMatch(s, ops);
    if k < |ops| then [Piece(ops[k].post, es[k].post)] else []
  }

  function GapPieces(code: Code, k: nat, ops: seq<Operation>, es: seq<OpEvents>): seq<Piece>
    requires |es| == |ops| && k <= |code|
  {
    (if k > 0 then PostPieces(code[k-1], ops, es) else [])
    + (if k < |code| then PrePieces(code[k], ops, es) else [])
  }

  function MatchPieces(code: Code, ops: seq<Operation>, es: seq<OpEvents>): (gs: seq<seq<Piece>>)
    requires |es| == |ops|
    ensures |gs| == |code| + 1
    ensures forall k :: 0 <= k <= |code| ==> gs[k] == GapPieces(code, k, ops, es)
  {
    seq(|code| + 1, k requires 0 <= k <= |code| => GapPieces(code, k, ops, es))
  }

  function NoPieces(n: nat): (gs: seq<seq<Piece>>)
    ensures |gs| == n && forall k :: 0 <= k < n ==> gs[k] == []
  {
    seq(n, _ => [])
  }

  lemma {:induction false} GapCodeAppend(a: seq<Piece>, b: seq<Piece>)
    ensures GapCode(a + b) == GapCode(a) + GapCode(b)
  {
    if a == [] {
      assert a + b == b;
    } else {
      assert (a + b)[1..] == a[1..] + b;
      GapCodeAppend(a[1..], b);
    }
  }

  lemma {:induction false} EmitsAppend(a: seq<Piece>, b: seq<Piece>)
    ensures Emits(a + b) == Emits(a) + Emits(b)
  {
    if a == [] {
      assert a + b == b;
    } else {
      assert (a + b)[1..] == a[1..] + b;
      EmitsAppend(a[1..], b);
    }
  }

  lemma OnePiece(p: Piece)
    ensures GapCode([p]) == p.frag.code && Emits([p]) == p.emits
  {
    assert [p][1..] == [];
  }

  /** The code of the plan's gaps is the code the rewriter puts there. */
  lemma PiecesAreGaps(code: Code, ops: seq<Operation>, es: seq<OpEvents>)
    requires |es| == |ops|
    ensures GapCodes(MatchPieces(code, ops, es)) == MatchGaps(code, ops, Instrumenting.AddedOf(ops))
  {
    var a, b := GapCodes(MatchPieces(code, ops, es)), MatchGaps(code, ops, Instrumenting.AddedOf(ops));
    forall k | 0 <= k <= |code| ensures a[k] == b[k] {
      GapCodeAppend(if k > 0 then PostPieces(code[k-1], ops, es) else [],
                    if k < |code| then PrePieces(code[k], ops, es) else []);
      if k > 0 {
        Instrumenting.FragmentsAround(code[k-1], ops);
        var j := FirstMatch(code[k-1], ops);
        if j < |ops| {
          OnePiece(Piece(ops[j].post, es[j].post));
        }
      }
      if k < |code| {
        Instrumenting.FragmentsAround(code[k], ops);
        var j := FirstMatch(code[k], ops);
        if j < |ops| {
          OnePiece(Piece(ops[j].pre, es[j].pre));
        }
      }
    }
  }

  function FuncPlan(f: Func, inScope: bool, ops: seq<Operation>, es: seq<OpEvents>): seq<seq<Piece>>
    requires |es| == |ops|
  {
    if f.Import? then []
    else if inScope then MatchPieces(f.code, ops, es)
    else NoPieces(|f.code| + 1)
  }

  function PlanOf(P: Program, scope: set<nat>, ops: seq<Operation>, es: seq<OpEvents>): (plan: Plan)
    requires |es| == |ops|
    ensures |plan| == |P.funcs|
    ensures forall i :: 0 <= i < |P.funcs| ==> plan[i] == FuncPlan(P.funcs[i], i in scope, ops, es)
  {
    seq(|P.funcs|, i requires 0 <= i < |P.funcs| => FuncPlan(P.funcs[i], i in scope, ops, es))
  }

  function RewrittenFunc(f: Func, inScope: bool, ops: seq<Operation>): Func {
    if f.Import? || !inScope then f else f.(code := Instrumenting.Instrumented(f.code, ops))
  }

  /** P2 is P after match-and-insert over the functions in scope; P2 may have further functions. */
  ghost predicate Rewritten(P: Program, P2: Program, scope: set<nat>, ops: seq<Operation>) {
    && |P.funcs| <= |P2.funcs|
    && (forall i :: 0 <= i < |P.funcs| ==> P2.funcs[i] == RewrittenFunc(P.funcs[i], i in scope, ops))
    && P2.table == P.table
  }

  /**
   * Calls stay inside the program, and imported functions work on the program's memory only. If its
   * size is fixed nothing in the program changes it; if not, it may grow to the same size in both.
   */
  ghost predicate Regular(P: Program, P2: Program, size: Option<nat>) {
    && Closed(P)
    && (forall i :: 0 <= i < |P.funcs| && P.funcs[i].Defined? ==> CallsKnown(P, P.funcs[i].code))
    && (if size.Some?
        then KeepsSize(P, size.value) && forall ext: seq<Byte> :: HostLift(P.host, P2.host, size.value, ext)
        else P2.maxPages == P.maxPages && forall n: nat :: HostLift(P.host, P2.host, n, []))
  }

  /** Code that may be put anywhere: its markers match among themselves and its calls are known. */
  ghost predicate GoodCode(P2: Program, code: Code) {
    WellNested(code) && CallsKnown(P2, code)
  }

  ghost predicate GoodOps(P2: Program, ops: seq<Operation>) {
    forall k :: 0 <= k < |ops| ==> GoodCode(P2, ops[k].pre.code) && GoodCode(P2, ops[k].post.code)
  }

  lemma {:induction false} CallsWoven(P: Program, code: Code, gaps: seq<Code>)
    requires |gaps| == |code| + 1 && CallsKnown(P, code)
    requires forall k :: 0 <= k < |gaps| ==> CallsKnown(P, gaps[k])
    ensures CallsKnown(P, Weave(code, gaps))
  {
    if code != [] {
      CallsWoven(P, code[1..], gaps[1..]);
      assert CallsKnown(P, gaps[0]);
    }
  }

  lemma AroundGood(P2: Program, s: StackInst, ops: seq<Operation>)
    requires GoodOps(P2, ops)
    ensures var a := PreOf(s, ops, Instrumenting.AddedOf(ops)); WellNested(a) && CallsKnown(P2, a)
    ensures var a := PostOf(s, ops, Instrumenting.AddedOf(ops)); WellNested(a) && CallsKnown(P2, a)
  {
    Instrumenting.FragmentsAround(s, ops);
  }

  lemma MatchGapGood(P2: Program, code: Code, ops: seq<Operation>, k: nat)
    requires GoodOps(P2, ops) && k <= |code|
    ensures var g := MatchGaps(code, ops, Instrumenting.AddedOf(ops))[k]; WellNested(g) && CallsKnown(P2, g)
  {
    hide PreOf, PostOf, GoodOps;
    var added := Instrumenting.AddedOf(ops);
    var a := if k > 0 then PostOf(code[k-1], ops, added) else [];
    var b := if k < |code| then PreOf(code[k], ops, added) else [];
    if k > 0 {
      AroundGood(P2, code[k-1], ops);
    }
    if k < |code| {
      AroundGood(P2, code[k], ops);
    }
    NestAppend(a, b, []);
    assert MatchGaps(code, ops, added)[k] == a + b;
  }

  lemma RewrittenIsWoven(P: Program, P2: Program, scope: set<nat>, ops: seq<Operation>, es: seq<OpEvents>,
                         W: World, fn: nat)
    requires |es| == |ops| && W.plan == PlanOf(P, scope, ops, es)
    requires Rewritten(P, P2, scope, ops) && GoodOps(P2, ops)
    requires fn < |P.funcs| && (P.funcs[fn].Defined? ==> CallsKnown(P, P.funcs[fn].code))
    ensures WovenFunc(P, P2, W, fn)
  {
    var d := P.funcs[fn];
    if d.Defined? {
      var gaps := GapCodes(W.plan[fn]);
      if fn in scope {
        PiecesAreGaps(d.code, ops, es);
        forall k | 0 <= k < |gaps| ensures WellNested(gaps[k]) && CallsKnown(P2, gaps[k]) {
          MatchGapGood(P2, d.code, ops, k);
        }
      } else {
        WeaveNothing(d.code, gaps);
      }
      CallsWoven(P2, d.code, gaps);
    }
  }

  /** The rewriter's output is an instrumented program in the sense of the simulation. */
  lemma RewrittenIsInstrumented(P: Program, P2: Program, scope: set<nat>, ops: seq<Operation>, es: seq<OpEvents>, W: World)
    requires |es| == |ops| && W.plan == PlanOf(P, scope, ops, es)
    requires Rewritten(P, P2, scope, ops) && Regular(P, P2, W.shape.size) && GoodOps(P2, ops)
    requires W.shape.size.Some? || OwnsNoMemory(W)
    ensures Instrumented(P, P2, W)
  {
    forall fn | 0 <= fn < |P.funcs| ensures WovenFunc(P, P2, W, fn) && SameShape(P.funcs[fn], P2.funcs[fn]) {
      RewrittenIsWoven(P, P2, scope, ops, es, W, fn);
    }
    assert forall k {:trigger P2.table[k]} :: 0 <= k < |P2.table| ==> P2.table[k] == P.table[k];
    HostsLift(P, P2, W);
  }

  /** What a regular program's host does to the whole program. */
  lemma HostsLift(P: Program, P2: Program, W: World)
    requires Regular(P, P2, W.shape.size) && |P.funcs| <= |P2.funcs| && P.table == P2.table
    requires forall fn :: 0 <= fn < |P.funcs| ==> SameShape(P.funcs[fn], P2.funcs[fn])
    ensures if W.shape.size.Some? then forall ext: seq<Byte> :: ProgLift(P, P2, W.shape.size.value, ext)
            else forall n: nat :: ProgLift(P, P2, n, [])
  {
    hide HostLift, KeepsSize;
    if W.shape.size.Some? {
      forall ext: seq<Byte> ensures ProgLift(P, P2, W.shape.size.value, ext) {
        assert HostLift(P.host, P2.host, W.shape.size.value, ext);
      }
    } else {
      forall n: nat ensures ProgLift(P, P2, n, []) {
        assert HostLift(P.host, P2.host, n, []);
      }
    }
  }

  /** Start of a run in function `fn`. */
  function Start(P: Program, fn: nat, args: seq<Value>, st: Store): Config
    requires fn < |P.funcs| && P.funcs[fn].Defined?
  {
    Config([Entry(P, fn, args)], st)
  }

  lemma StartMatches(P: Program, P2: Program, W: World, fn: nat, args: seq<Value>, st: Store, own: Own)
    requires Instrumented(P, P2, W) && fn < |P.funcs| && P.funcs[fn].Defined?
    requires InShape(W.shape, st)
    ensures P2.funcs[fn].Defined?
    ensures Match(P, P2, W, Start(P, fn, args, st), Start(P2, fn, args, Join(st, own)), own)
  {
    EntryMatch(P, P2, W, fn, args);
  }

  // ----- instrumentation whose fragments record nothing -----

  function Silent(n: nat): (es: seq<OpEvents>)
    ensures |es| == n && forall k :: 0 <= k < n ==> es[k] == OpEvents([], [])
  {
    seq(n, _ => OpEvents([], []))
  }

  ghost predicate HarmlessOps(P2: Program, ops: seq<Operation>, rep: Rep, sh: Shape) {
    forall k :: 0 <= k < |ops| ==>
      Harmless(P2, Piece(ops[k].pre, []), rep, sh, [])
      && Harmless(P2, Piece(ops[k].post, []), rep, sh, [])
  }

  /** Wherever the original run passes, the fragments there find the locals and operands they were written for. */
  ghost predicate FitsAlways(P: Program, W: World, c: Config) {
    forall n: nat :: StateAt(P, c, n).Next? ==>
      var d := StateAt(P, c, n).c;
      d.frames != [] && AllFit(PiecesAt(W, d), Top(d).locals, Top(d).stack)
  }

  /** The fragment uses neither locals nor operands of its surroundings. */
  predicate Standalone(f: Fragment) {
    f.locals == [] && f.context == []
  }

  lemma StandaloneFits(ps: seq<Piece>, locals: seq<Value>, stack: seq<Value>)
    requires forall k :: 0 <= k < |ps| ==> Standalone(ps[k].frag)
    ensures AllFit(ps, locals, stack)
  {
    assert stack[|stack|..] == [] && TypesOf([]) == [];
  }

  /** Fragments that use neither locals nor operands of their surroundings fit everywhere. */
  lemma StandaloneFitsAlways(P: Program, scope: set<nat>, ops: seq<Operation>, W: World, c: Config)
    requires W.plan == PlanOf(P, scope, ops, Silent(|ops|)) && Proper(P, c.frames)
    requires forall k :: 0 <= k < |ops| ==> Standalone(ops[k].pre) && Standalone(ops[k].post)
    ensures FitsAlways(P, W, c)
  {
    hide Run, Proper, AllFit;
    forall n: nat | StateAt(P, c, n).Next?
      ensures var d := StateAt(P, c, n).c; d.frames != [] && AllFit(PiecesAt(W, d), Top(d).locals, Top(d).stack)
    {
      var d := StateAt(P, c, n).c;
      ProperRun(P, c, n);
      assert d.frames != [] by { ProperHasTop(P, d); }
      StandaloneFits(PiecesAt(W, d), Top(d).locals, Top(d).stack);
    }
  }

  lemma ProperHasTop(P: Program, c: Config)
    requires Proper(P, c.frames)
    ensures c.frames != []
  {
  }

  ghost predicate Quiet(ps: seq<Piece>) {
    forall k :: 0 <= k < |ps| ==> ps[k].emits == []
  }

  lemma {:induction false} QuietHarmless(P2: Program, ps: seq<Piece>, rep: Rep, sh: Shape)
    requires Quiet(ps) && forall k :: 0 <= k < |ps| ==> Harmless(P2, ps[k], rep, sh, [])
    ensures AllHarmless(P2, ps, rep, sh, []) && Emits(ps) == []
  {
    hide Harmless;
    if ps != [] {
      assert [] + ps[0].emits == [];
      QuietHarmless(P2, ps[1..], rep, sh);
    }
  }

  lemma PiecesQuiet(P: Program, P2: Program, scope: set<nat>, ops: seq<Operation>, W: World, c: Config)
    requires W.plan == PlanOf(P, scope, ops, Silent(|ops|))
    requires HarmlessOps(P2, ops, W.rep, W.shape)
    ensures AllHarmless(P2, PiecesAt(W, c), W.rep, W.shape, []) && Emits(PiecesAt(W, c)) == []
  {
    hide Harmless;
    QuietHarmless(P2, PiecesAt(W, c), W.rep, W.shape);
  }

  lemma {:induction false} QuietLog(P: Program, P2: Program, scope: set<nat>, ops: seq<Operation>, W: World, c: Config, n: nat)
    requires W.plan == PlanOf(P, scope, ops, Silent(|ops|))
    requires HarmlessOps(P2, ops, W.rep, W.shape)
    ensures Log(P, W, c, n) == []
  {
    hide Run, Harmless;
    if n > 0 {
      QuietLog(P, P2, scope, ops, W, c, n - 1);
      var o := StateAt(P, c, n - 1);
      if o.Next? {
        PiecesQuiet(P, P2, scope, ops, W, o.c);
      }
    }
  }

  lemma QuietReady(P: Program, P2: Program, scope: set<nat>, ops: seq<Operation>, W: World, c: Config)
    requires W.plan == PlanOf(P, scope, ops, Silent(|ops|))
    requires HarmlessOps(P2, ops, W.rep, W.shape) && FitsAlways(P, W, c)
    ensures AlwaysReady(P, P2, W, c, [])
  {
    hide Run, Harmless, AllFit;
    forall n: nat ensures ReadyFor(P, P2, W, c, [], n) {
      forall i: nat | i < n && StateAt(P, c, i).Next?
        ensures Ready(P2, W, StateAt(P, c, i).c, [] + Log(P, W, c, i))
      {
        QuietLog(P, P2, scope, ops, W, c, i);
        PiecesQuiet(P, P2, scope, ops, W, StateAt(P, c, i).c);
      }
    }
  }

  /**
   * Instrumentation preserves meaning: started in any function on any arguments, the rewritten
   * program finishes with some results if and only if the original does, on stores that agree on
   * everything that is the program's, and it traps if and only if the original does.
   */
  lemma MeaningPreserved(P: Program, P2: Program, scope: set<nat>, ops: seq<Operation>, W: World,
                         fn: nat, args: seq<Value>, st: Store, own: Own, vals: seq<Value>)
    requires W.plan == PlanOf(P, scope, ops, Silent(|ops|))
    requires Rewritten(P, P2, scope, ops) && Regular(P, P2, W.shape.size)
    requires W.shape.size.Some? || OwnsNoMemory(W)
    requires GoodOps(P2, ops) && HarmlessOps(P2, ops, W.rep, W.shape)
    requires fn < |P.funcs| && P.funcs[fn].Defined?
    requires InShape(W.shape, st) && W.rep(own, [])
    requires FitsAlways(P, W, Start(P, fn, args, st)) && NeverStuck(P, W, Start(P, fn, args, st))
    ensures P2.funcs[fn].Defined?
    ensures var c, d := Start(P, fn, args, st), Start(P2, fn, args, Join(st, own));
      && (forall st1 :: Finishes(P, c, vals, st1) ==> exists own2 :: Finishes(P2, d, vals, Join(st1, own2)))
      && (forall st2 :: Finishes(P2, d, vals, st2) ==>
            exists st1, own2 :: st2 == Join(st1, own2) && Finishes(P, c, vals, st1))
      && SameTraps(P, P2, W, c, d)
  {
    hide Run, Harmless, Join, AlwaysReady, SameTraps, FitsAlways, NeverStuck, Match, Simulation.Instrumented, Finishes, Start;
    RewrittenIsInstrumented(P, P2, scope, ops, Silent(|ops|), W);
    StartMatches(P, P2, W, fn, args, st, own);
    var c := Start(P, fn, args, st);
    QuietReady(P, P2, scope, ops, W, c);
    SameResults(P, P2, W, c, Start(P2, fn, args, Join(st, own)), own, [], vals);
  }

  // ----- why owned memory matters -----

  /** Reads the byte at address 0. */
  const PEEK: Code := [Op(Const(Int32(0)), [I32]), Op(Load8U(0), [I32]), Op(Drop, [])]

  /**
   * With owned memory behind the program's an access outside the program's memory need not trap any
   * more: a program without memory reads address 0, and finishes, although nothing was inserted.
   */
  lemma OwnedMemoryHidesTrap(P: Program, st: Store, own: Own)
    requires P.funcs == [Defined(FuncType([], []), [], PEEK)] && st.mem == [] && own.mem != []
    ensures Rewritten(P, P, {}, [])
    ensures Traps(P, Start(P, 0, [], st), Bounds)
    ensures Finishes(P, Start(P, 0, [], Join(st, own)), [], Join(st, own))
  {
    hide Exec, Join;
    var s2, zero, b := Join(st, own), Int32(0), Int32(own.mem[0]);
    StartOfPeek(P, st);
    StartOfPeek(P, s2);
    PeekEffects(st, own);
    Follow(PEEK, [], [[], [zero], [b], []], [s2, s2, s2, s2]);
    StraightClean(P, PEEK, [], [], s2, s2);
    PeekEnds(P, s2);
    PeekTraps(P, st);
    RunAdd(P, Next(Start(P, 0, [], s2)), 3, 1);
    assert StateAt(P, Start(P, 0, [], s2), 4) == Done([], s2);
  }

  lemma StartOfPeek(P: Program, st: Store)
    requires P.funcs == [Defined(FuncType([], []), [], PEEK)]
    ensures Start(P, 0, [], st) == Isolated(PEEK, 0, [], [], st)
  {
    assert [] + Zeros([]) == [];
  }

  lemma PeekEffects(st: Store, own: Own)
    requires st.mem == [] && own.mem != []
    ensures AllSimple(PEEK)
    ensures var s2, zero, b := Join(st, own), Int32(0), Int32(own.mem[0]);
      && Exec(PEEK[0].instr, [], [], s2) == Ok([], [zero], s2)
      && Exec(PEEK[1].instr, [], [zero], s2) == Ok([], [b], s2)
      && Exec(PEEK[2].instr, [], [b], s2) == Ok([], [], s2)
  {
    hide Join;
    JoinNone(st, own);
    var zero, b := Int32(0), Int32(own.mem[0]);
    assert [] + [zero] == [zero] && [zero][..0] == [] && [b][..0] == [] && [] + [b] == [b];
  }

  lemma JoinNone(st: Store, own: Own)
    requires st.mem == []
    ensures Join(st, own).mem == own.mem
  {
  }

  lemma PeekEnds(P: Program, st: Store)
    ensures Run(P, Next(Isolated(PEEK, 3, [], [], st)), 1) == Done([], st)
  {
    hide Step;
    var c := Isolated(PEEK, 3, [], [], st);
    RunOne(P, c);
    LeavesWith(P, c);
  }

  lemma PeekTraps(P: Program, st: Store)
    requires st.mem == [] && P.funcs == [Defined(FuncType([], []), [], PEEK)]
    ensures Traps(P, Start(P, 0, [], st), Bounds)
  {
    var c, c1 := Isolated(PEEK, 0, [], [], st), Isolated(PEEK, 1, [], [Int32(0)], st);
    StartOfPeek(P, st);
    OneStraightStep(P, PEEK, 0, [], [], st);
    assert c1.frames[..0] == [];
    assert Step(P, c1) == Trap(Bounds);
    assert StateAt(P, c, 2) == Run(P, Next(c1), 1) == Run(P, Trap(Bounds), 0);
  }

  /** Returns the size of the memory in pages. */
  const MEASURE: Code := [Op(MemorySize, [I32])]

  /**
   * And a program that asks for the size of its memory is told of the owned page as well. This is why
   * only instrumentation without memory leaves the meaning of such programs alone.
   */
  lemma OwnedMemoryShowsSize(P: Program, st: Store, own: Own)
    requires P.funcs == [Defined(FuncType([], [I32]), [], MEASURE)] && |own.mem| == PAGE
    ensures Rewritten(P, P, {}, [])
    ensures var n := |st.mem| / PAGE;
      && Finishes(P, Start(P, 0, [], st), [Int32(n)], st)
      && Finishes(P, Start(P, 0, [], Join(st, own)), [Int32(n + 1)], Join(st, own))
      && Int32(n) != Int32(n + 1)
  {
    hide Join;
    Measures(P, st);
    Measures(P, Join(st, own));
    JoinedPages(st, own);
  }

  lemma JoinedPages(st: Store, own: Own)
    requires |own.mem| == PAGE
    ensures |Join(st, own).mem| / PAGE == |st.mem| / PAGE + 1
  {
  }

  lemma Measures(P: Program, st: Store)
    requires P.funcs == [Defined(FuncType([], [I32]), [], MEASURE)]
    ensures Finishes(P, Start(P, 0, [], st), [Int32(|st.mem| / PAGE)], st)
  {
    hide Step, Exec;
    var c, v := Start(P, 0, [], st), Int32(|st.mem| / PAGE);
    var f := Frame(0, 1, MEASURE, 0, [], [], []);
    var c1 := Config([f.(pc := 1, stack := [v])], st);
    assert [] + Zeros([]) == [];
    MeasureStep(P, f, st);
    LeavesWith(P, c1);
    RunOne(P, c);
    RunOne(P, c1);
    RunAdd(P, Next(c), 1, 1);
    assert StateAt(P, c, 2) == Done([v], st);
  }

  lemma MeasureStep(P: Program, f: Frame, st: Store)
    requires f == Frame(0, 1, MEASURE, 0, [], [], [])
    ensures Step(P, Config([f], st)) == Next(Config([f.(pc := 1, stack := [Int32(|st.mem| / PAGE)])], st))
  {
    assert [f][..0] == [];
    assert [] + [Int32(|st.mem| / PAGE)] == [Int32(|st.mem| / PAGE)];
  }

  lemma LeavesWith(P: Program, c: Config)
    requires |c.frames| == 1 && c.frames[0].pc >= |c.frames[0].code| && c.frames[0].arity == |c.frames[0].stack|
    ensures Step(P, c) == Done(c.frames[0].stack, c.store)
  {
    var f := c.frames[0];
    assert c.frames[..0] == [] && f.stack[0..] == f.stack;
  }
}
