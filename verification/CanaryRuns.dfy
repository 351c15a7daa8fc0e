/**
 * The stack canary example over whole runs of the instrumented program: the two instrumentations put
 * the injection at the start of every function and the check behind every call; every instrumented
 * call then leaves the stack pointer where it was, or its check stops the program.
 */
module CanaryRuns {
  import opened Values
  import opened Machine
  import opened Weaving
  import opened Embedding
  import opened Nesting
  import opened Fragments
  import opened Simulation
  import opened Runs
  import opened Rewriter
  import opened Meaning
  import opened Validation
  import opened StackCanary
  import opened TypedFrames
  import opened Soundness
  import Instrumenting
  import ValidatedMeaning

  // ----- the two instrumentations -----

  predicate IsCall(i: Instr) {
    i.Call? || i.CallIndirect?
  }

  /** The check behind every direct and indirect call. */
  function ValidateOps(sp: nat, canary: nat): seq<Operation> {
    [Operation([ExpName(CallId, None, None), ExpName(CallIndirectId, None, None)],
               Fragment([], [], []), Fragment(ValidateCode(sp, canary), [], []))]
  }

  /**
   * P1 is P with the checks; P2 is P1 with the injection inserted at position 0 of every defined function.
   * The scope is the one a fresh Instrumenter has: all defined functions.
   */
  ghost predicate Canaried(P: Program, P1: Program, P2: Program, scope: set<nat>, sp: nat, canary: nat) {
    && (forall fn :: 0 <= fn < |P.funcs| && P.funcs[fn].Defined? ==> fn in scope)
    && Rewritten(P, P1, scope, ValidateOps(sp, canary)) && |P1.funcs| == |P.funcs|
    && |P2.funcs| == |P.funcs| && P2.table == P1.table && P2.host == P.host
    && forall fn :: 0 <= fn < |P.funcs| ==>
         P2.funcs[fn] == if P1.funcs[fn].Import? then P1.funcs[fn]
                         else P1.funcs[fn].(
                                code := Instrumenting.InsertedAt(P1.funcs[fn].code, 0, InjectCode(sp, canary)))
  }

  /** The code in front of instruction k: the injection at the start, the check behind a call. */
  function CanaryGap(code: Code, k: nat, sp: nat, canary: nat): Code
    requires k <= |code|
  {
    if k == 0 then InjectCode(sp, canary)
    else if IsCall(code[k-1].instr) then ValidateCode(sp, canary)
    else []
  }

  function CanaryGaps(code: Code, sp: nat, canary: nat): (gaps: seq<Code>)
    ensures |gaps| == |code| + 1 && forall k :: 0 <= k <= |code| ==> gaps[k] == CanaryGap(code, k, sp, canary)
  {
    seq(|code| + 1, k requires 0 <= k <= |code| => CanaryGap(code, k, sp, canary))
  }

  lemma ValidateMatch(s: StackInst, sp: nat, canary: nat)
    ensures FirstMatch(s, ValidateOps(sp, canary)) == if IsCall(s.instr) then 0 else 1
  {
    hide ValidateCode;
    var ops := ValidateOps(sp, canary);
    var t := ops[0].targets;
    assert MatchTarget(s, t[0]) <==> s.instr.Call?;
    assert MatchTarget(s, t[1]) <==> s.instr.CallIndirect?;
    assert MatchTargets(s, t) <==> IsCall(s.instr);
    assert ops[1..] == [];
  }

  lemma CheckAround(s: StackInst, sp: nat, canary: nat)
    ensures var ops := ValidateOps(sp, canary);
      && PreOf(s, ops, Instrumenting.AddedOf(ops)) == []
      && PostOf(s, ops, Instrumenting.AddedOf(ops)) == if IsCall(s.instr) then ValidateCode(sp, canary) else []
  {
    hide ValidateCode, PreOf, PostOf, FirstMatch;
    ValidateMatch(s, sp, canary);
    Instrumenting.FragmentsAround(s, ValidateOps(sp, canary));
  }

  /** More code in front is a longer first gap. */
  lemma WeaveFront(code: Code, gaps: seq<Code>, xs: Code)
    requires |gaps| == |code| + 1
    ensures Weave(code, gaps[0 := xs + gaps[0]]) == xs + Weave(code, gaps)
  {
    if code != [] {
      assert gaps[0 := xs + gaps[0]][1..] == gaps[1..];
    }
  }

  /** Both instrumentations together weave the gaps into a function. */
  lemma CanariedCode(code: Code, sp: nat, canary: nat)
    ensures Instrumenting.InsertedAt(Instrumenting.Instrumented(code, ValidateOps(sp, canary)), 0, InjectCode(sp, canary))
         == Weave(code, CanaryGaps(code, sp, canary))
  {
    hide PreOf, PostOf, Weave, InjectCode, ValidateCode, ValidateOps;
    var ops := ValidateOps(sp, canary);
    var gaps, all := MatchGaps(code, ops, Instrumenting.AddedOf(ops)), CanaryGaps(code, sp, canary);
    forall k | 0 <= k <= |code|
      ensures gaps[k] == if k > 0 && IsCall(code[k-1].instr) then ValidateCode(sp, canary) else []
    {
      if k > 0 {
        CheckAround(code[k-1], sp, canary);
      }
      if k < |code| {
        CheckAround(code[k], sp, canary);
      }
    }
    var w := Weave(code, gaps);
    assert gaps[0] == [] && InjectCode(sp, canary) + [] == InjectCode(sp, canary);
    forall k | 0 <= k <= |code| ensures gaps[0 := InjectCode(sp, canary) + gaps[0]][k] == all[k] {
      assert all[k] == CanaryGap(code, k, sp, canary);
    }
    assert gaps[0 := InjectCode(sp, canary) + gaps[0]] == all;
    WeaveFront(code, gaps, InjectCode(sp, canary));
    assert w[..0] + InjectCode(sp, canary) + w[0..] == InjectCode(sp, canary) + w;
  }

  /** Woven code position by position: an instruction, the code behind it, the next instruction. */
  lemma SitesStep(w: Code, code: Code, gaps: seq<Code>, at: seq<nat>, k: nat)
    requires Laid(w, code, gaps, at) && k < |code|
    ensures at[k] < |w| && w[at[k]] == code[k]
    ensures at[k + 1] == at[k] + 1 + |gaps[k + 1]| <= |w| && w[at[k] + 1..at[k + 1]] == gaps[k + 1]
  {
    assert LaidAt(w, code, gaps, at, k) && LaidAt(w, code, gaps, at, k + 1);
    assert GapStart(at, k + 1) == at[k] + 1;
  }

  lemma SitesEnds(w: Code, code: Code, gaps: seq<Code>, at: seq<nat>)
    requires Laid(w, code, gaps, at)
    ensures |at| == |gaps| == |code| + 1 && at[0] == |gaps[0]| && at[|code|] == |w|
    ensures gaps[0] <= w
  {
    assert LaidAt(w, code, gaps, at, 0) && LaidAt(w, code, gaps, at, |code|);
    assert w[0..at[0]] == w[..at[0]];
  }

  /**
   * Every defined function of the instrumented program begins with the injection, and every original
   * call in it, direct or indirect, is followed by the check; nothing else is inserted.
   */
  lemma InjectedAndChecked(P: Program, P1: Program, P2: Program, scope: set<nat>, sp: nat, canary: nat, fn: nat)
    requires Canaried(P, P1, P2, scope, sp, canary) && fn < |P.funcs| && P.funcs[fn].Defined?
    ensures P2.funcs[fn].Defined?
    ensures var code, w := P.funcs[fn].code, P2.funcs[fn].code;
      var at := Sites(CanaryGaps(code, sp, canary));
      && w == Weave(code, CanaryGaps(code, sp, canary))
      && InjectCode(sp, canary) <= w && at[0] == 7 && at[|code|] == |w|
      && forall k :: 0 <= k < |code| ==>
           && at[k] < |w| && w[at[k]] == code[k]
           && at[k + 1] == at[k] + 1 + (if IsCall(code[k].instr) then 11 else 0)
           && (IsCall(code[k].instr) ==> at[k + 1] <= |w| && w[at[k] + 1..at[k + 1]] == ValidateCode(sp, canary))
  {
    hide InjectCode, ValidateCode, Instrumenting.Instrumented, Weave, Laid, Sites, IsCall;
    var code, gaps := P.funcs[fn].code, CanaryGaps(P.funcs[fn].code, sp, canary);
    CanariedCode(code, sp, canary);
    WeaveLaid(code, gaps);
    var w, at := Weave(code, gaps), Sites(gaps);
    InjectLength(sp, canary);
    ValidateLength(sp, canary);
    SitesEnds(w, code, gaps, at);
    forall k | 0 <= k < |code|
      ensures at[k] < |w| && w[at[k]] == code[k]
      ensures at[k + 1] == at[k] + 1 + (if IsCall(code[k].instr) then 11 else 0)
      ensures IsCall(code[k].instr) ==> at[k + 1] <= |w| && w[at[k] + 1..at[k + 1]] == ValidateCode(sp, canary)
    {
      SitesStep(w, code, gaps, at, k);
      assert gaps[k + 1] == CanaryGap(code, k + 1, sp, canary);
    }
  }

  // ----- the instrumented program as woven code -----

  function CanaryPieces(f: Func, sp: nat, canary: nat): (gs: seq<seq<Piece>>)
    ensures f.Defined? ==> |gs| == |f.code| + 1
    ensures f.Defined? ==> forall k :: 0 <= k < |gs| ==>
              gs[k] == [Piece(Fragment(CanaryGap(f.code, k, sp, canary), [], []), [])]
  {
    if f.Import? then []
    else
      seq(|f.code| + 1, k requires 0 <= k <= |f.code| =>
        [Piece(Fragment(CanaryGap(f.code, k, sp, canary), [], []), [])])
  }

  function CanaryPlan(P: Program, sp: nat, canary: nat): (plan: Plan)
    ensures |plan| == |P.funcs| && forall fn :: 0 <= fn < |P.funcs| ==> plan[fn] == CanaryPieces(P.funcs[fn], sp, canary)
  {
    seq(|P.funcs|, fn requires 0 <= fn < |P.funcs| => CanaryPieces(P.funcs[fn], sp, canary))
  }

  function CanaryWorld(P: Program, sp: nat, canary: nat, gt: seq<ValType>, size: nat): World {
    World(CanaryPlan(P, sp, canary), (own: Own, ev: seq<int>) => true, Shape(gt, Some(size)))
  }

  /** A valid program with both instrumentations; the stack pointer is an i32 global. */
  ghost predicate Setting(P: Program, P1: Program, P2: Program, scope: set<nat>, sp: nat, canary: nat,
                          gt: seq<ValType>, size: nat) {
    && Canaried(P, P1, P2, scope, sp, canary) && ValidProgram(P, gt) && KeepsSize(P, size)
    && sp < |gt| && gt[sp] == I32
  }

  lemma PlanGaps(f: Func, sp: nat, canary: nat)
    requires f.Defined?
    ensures GapCodes(CanaryPieces(f, sp, canary)) == CanaryGaps(f.code, sp, canary)
  {
    hide CanaryGap;
    var a, b := GapCodes(CanaryPieces(f, sp, canary)), CanaryGaps(f.code, sp, canary);
    forall k | 0 <= k <= |f.code| ensures a[k] == b[k] {
      OnePiece(Piece(Fragment(CanaryGap(f.code, k, sp, canary), [], []), []));
    }
  }

  /** An `if` around `unreachable`. */
  lemma IfNested(code: Code, i: Instr, j: Instr, k: Instr)
    requires |code| == 3 && code[0].instr == i && code[1].instr == j && code[2].instr == k
    requires i.IfBegin? && j.Unreachable?
    requires k == IfEnd
    ensures WellNested(code)
  {
    var a, b, c := [code[0]], [code[1]], [code[2]];
    assert code == a + (b + c);
    NestAppend(b, c, [IfK]);
    NestAppend(a, b + c, []);
    OneNested(code[0], []);
    OneNested(code[1], [IfK]);
    OneNested(code[2], [IfK]);
    assert [] + [IfK] == [IfK] && [IfK][..0] == [];
  }

  lemma OneNested(x: StackInst, ks: seq<Kind>)
    ensures Nest([x], ks) == NestOne(x.instr, ks)
  {
    hide NestOne;
    assert [x][1..] == [];
    var r := NestOne(x.instr, ks);
    assert r.Some? ==> Nest([], r.value) == r;
  }

  lemma GuardsNested(sp: nat, canary: nat)
    ensures WellNested(InjectCode(sp, canary)) && WellNested(ValidateCode(sp, canary))
  {
    hide Nest;
    SimpleNested(InjectCode(sp, canary), []);
    var code := ValidateCode(sp, canary);
    var a, b, c := code[..4], code[4..7], code[7..];
    SimpleNested(a, []);
    SimpleNested(c, []);
    IfNested(b, IfBegin(FuncType([], [])), Unreachable, IfEnd);
    NestAppend(b, c, []);
    NestAppend(a, b + c, []);
    assert code == a + (b + c);
  }

  lemma GapGood(P2: Program, code: Code, k: nat, sp: nat, canary: nat)
    requires k <= |code|
    ensures WellNested(CanaryGap(code, k, sp, canary)) && CallsKnown(P2, CanaryGap(code, k, sp, canary))
  {
    hide InjectCode, ValidateCode;
    GuardsNested(sp, canary);
    CallsNothing(P2, sp, canary);
  }

  lemma CanaryWovenFunc(P: Program, P1: Program, P2: Program, scope: set<nat>, sp: nat, canary: nat,
                        gt: seq<ValType>, size: nat, fn: nat)
    requires Setting(P, P1, P2, scope, sp, canary, gt, size) && fn < |P.funcs|
    ensures |P.funcs| <= |P2.funcs| && WovenFunc(P, P2, CanaryWorld(P, sp, canary, gt, size), fn)
  {
    hide InjectCode, ValidateCode, ValidateOps, Instrumenting.Instrumented, Weave, CanaryGap, ValidBody, WellNested,
      HostTyped;
    var d := P.funcs[fn];
    if d.Defined? {
      PlanGaps(d, sp, canary);
      CanariedCode(d.code, sp, canary);
      var gaps := CanaryGaps(d.code, sp, canary);
      ValidCalls(P, gt, fn);
      assert CallsKnown(P2, d.code);
      forall k | 0 <= k < |gaps| ensures WellNested(gaps[k]) && CallsKnown(P2, gaps[k]) {
        GapGood(P2, d.code, k, sp, canary);
      }
      CallsWoven(P2, d.code, gaps);
    }
  }

  lemma ValidCalls(P: Program, gt: seq<ValType>, fn: nat)
    requires ValidProgram(P, gt) && fn < |P.funcs| && P.funcs[fn].Defined?
    ensures CallsKnown(P, P.funcs[fn].code)
  {
    var C := CtxOf(P, gt, fn);
    ValidatedMeaning.CheckedCalls(C, P.funcs[fn].code, Body([], C.ret));
  }

  /** The instrumented program is woven code over the same host. */
  lemma CanaryWoven(P: Program, P1: Program, P2: Program, scope: set<nat>, sp: nat, canary: nat,
                    gt: seq<ValType>, size: nat)
    requires Setting(P, P1, P2, scope, sp, canary, gt, size)
    ensures Woven(P, P2, CanaryWorld(P, sp, canary, gt, size)) && ProgLift(P, P2, size, [])
    ensures Closed(P2)
  {
    hide WovenFunc, ValidateOps, ValidBody, HostTyped, Instrumenting.Instrumented, Instrumenting.InsertedAt;
    var W := CanaryWorld(P, sp, canary, gt, size);
    assert P2.table == P.table && |P2.funcs| == |P.funcs|;
    forall fn | 0 <= fn < |P.funcs| ensures WovenFunc(P, P2, W, fn) && SameShape(P.funcs[fn], P2.funcs[fn]) {
      CanaryWovenFunc(P, P1, P2, scope, sp, canary, gt, size, fn);
    }
    SelfLift(P, size);
    assert HostLift(P.host, P2.host, size, []);
  }

  // ----- the guarded run -----

  /** The configuration after a guard. */
  function Guarded(sp: nat, c: Config, g: Guard): Outcome
    requires sp < |c.store.globals| && (g.Pass? ==> g.r.sp < WORD)
  {
    match g
    case Pass(r) => Next(c.(store := WithRegion(sp, c.store, r)))
    case Stops(why) => Trap(why)
  }

  /** A call has just been made, or returned from: the check is next. */
  predicate AtCheck(c: Config) {
    c.frames != [] && 0 < Top(c).pc <= |Top(c).code| && IsCall(Top(c).code[Top(c).pc - 1].instr)
  }

  /** What the inserted code in front of the next original instruction does. */
  function Gap(sp: nat, canary: nat, c: Config): Outcome
    requires c.frames != [] && sp < |c.store.globals|
  {
    if Top(c).pc == 0 then Guarded(sp, c, Inject(canary, RegionOf(sp, c.store)))
    else if AtCheck(c) then Guarded(sp, c, Validate(canary, RegionOf(sp, c.store)))
    else Next(c)
  }

  /** The inserted code, then the original instruction. */
  function GuardedStep(P: Program, sp: nat, canary: nat, c: Config): Outcome {
    if c.frames == [] || sp >= |c.store.globals| then Trap(Invalid)
    else
      var o := Gap(sp, canary, c);
      if o.Next? then Step(P, o.c) else o
  }

  /** The original program's frames over the instrumented program's store, n original instructions on. */
  function GuardedAt(P: Program, sp: nat, canary: nat, c: Config, n: nat): Outcome {
    if n == 0 then Next(c)
    else
      var o := GuardedAt(P, sp, canary, c, n - 1);
      if o.Next? then GuardedStep(P, sp, canary, o.c) else o
  }

  const NOTHING := Own([], [])

  /** The configuration of the original agrees with the validator, and its memory has its size. */
  ghost predicate Sound(P: Program, gt: seq<ValType>, size: nat, c: Config) {
    ConfigSound(P, gt, c) && |c.store.mem| == size
  }

  lemma SoundPointer(P: Program, gt: seq<ValType>, size: nat, sp: nat, c: Config)
    requires Sound(P, gt, size, c) && sp < |gt| && gt[sp] == I32
    ensures c.frames != [] && sp < |c.store.globals| == |gt| && c.store.globals[sp].ty == I32
    ensures TypesOf(c.store.globals) == gt && c.store.globals[sp].bits < WORD
  {
    WordIsPow256();
    assert TypesOf(c.store.globals)[sp] == c.store.globals[sp].ty;
  }

  lemma GapSound(P: Program, gt: seq<ValType>, size: nat, sp: nat, canary: nat, c: Config)
    requires Sound(P, gt, size, c) && sp < |gt| && gt[sp] == I32
    ensures c.frames != [] && sp < |c.store.globals|
    ensures var o := Gap(sp, canary, c);
      if o.Next? then Sound(P, gt, size, o.c) && o.c.frames == c.frames else o.Trap? && o.why != Invalid
  {
    hide FramesGood, CanaryBytes;
    SoundPointer(P, gt, size, sp, c);
    var o := Gap(sp, canary, c);
    if o.Next? {
      UpdateKeepsTypes(c.store.globals, sp, o.c.store.globals[sp]);
    }
  }

  lemma StepKeepsSize(P: Program, gt: seq<ValType>, size: nat, c: Config)
    requires ValidProgram(P, gt) && KeepsSize(P, size) && Sound(P, gt, size, c)
    ensures c.frames != [] && c.frames[0].fn < |P.funcs|
    ensures OutcomeSound(P, gt, c.frames[0].fn, Step(P, c))
    ensures Step(P, c).Next? ==> Sound(P, gt, size, Step(P, c).c)
  {
    hide Decide, ValidProgram, FrameSound, KeepsSize;
    StepSound(P, gt, c);
    assert FrameGood(P, gt, c.frames[|c.frames| - 1], Awaits(P, c.frames, |c.frames| - 1));
    StoreKept(P, Shape(gt, Some(size)), c.frames[|c.frames| - 1], c.store);
  }

  /** The guarded run never meets an Invalid trap, and every state of it agrees with the validator. */
  lemma {:induction false} GuardedSound(P: Program, gt: seq<ValType>, size: nat, sp: nat, canary: nat, c: Config, n: nat)
    requires ValidProgram(P, gt) && KeepsSize(P, size) && Sound(P, gt, size, c) && sp < |gt| && gt[sp] == I32
    ensures var o := GuardedAt(P, sp, canary, c, n);
      (o.Next? ==> Sound(P, gt, size, o.c)) && o != Trap(Invalid)
  {
    hide ValidProgram, Step, Gap, Sound, KeepsSize;
    if n > 0 {
      GuardedSound(P, gt, size, sp, canary, c, n - 1);
      var o := GuardedAt(P, sp, canary, c, n - 1);
      if o.Next? {
        GapSound(P, gt, size, sp, canary, o.c);
        var g := Gap(sp, canary, o.c);
        if g.Next? {
          StepKeepsSize(P, gt, size, g.c);
        }
      }
    }
  }

  // ----- the instrumented run is the guarded run -----

  /** d stands in front of the inserted code at the point where c stands, over the same store. */
  ghost predicate SamePlace(P: Program, P2: Program, W: World, c: Config, d: Config) {
    Match(P, P2, W, c, d, NOTHING)
  }

  /** d behind the inserted code: at the original instruction, over the store of c2. */
  function BehindGap(W: World, c2: Config, d: Config): Config
    requires c2.frames != [] && d.frames != [] && Top(c2).fn < |W.plan| && Top(c2).pc < |W.plan[Top(c2).fn]|
  {
    AtSite(W, c2, d, NOTHING)
  }

  lemma TopPlace(P: Program, P1: Program, P2: Program, scope: set<nat>, sp: nat, canary: nat,
                 gt: seq<ValType>, size: nat, c: Config, d: Config)
    requires Setting(P, P1, P2, scope, sp, canary, gt, size)
    requires SamePlace(P, P2, CanaryWorld(P, sp, canary, gt, size), c, d)
    ensures var W, f, h := CanaryWorld(P, sp, canary, gt, size), Top(c), Top(d);
      && c.frames != [] && d.frames != [] && d.store == c.store && Closed(P2)
      && f.fn < |W.plan| && f.pc < |W.plan[f.fn]| && f.pc <= |f.code|
      && (var g := CanaryGap(f.code, f.pc, sp, canary);
          && h.pc + |g| <= |h.code| && h.code[h.pc..h.pc + |g|] == g
          && h.pc + |g| == Site(GapCodes(W.plan[f.fn]), f.pc))
  {
    hide Woven, ProgLift, CanaryGap, WovenCode, Setting, FrameRel;
    var W, f, h := CanaryWorld(P, sp, canary, gt, size), Top(c), Top(d);
    CanaryWoven(P, P1, P2, scope, sp, canary, gt, size);
    TopOfMatch(P, P2, W, c, d, NOTHING);
    GapInPlace(W, f, h);
    JoinNothing(c.store);
    OnePiece(Piece(Fragment(CanaryGap(f.code, f.pc, sp, canary), [], []), []));
  }

  /** A guard in front of the next original instruction. */
  lemma GuardLifts(P2: Program, W: World, sp: nat, code: Code, g: Guard, c: Config, d: Config, k: nat) returns (n: nat)
    requires Closed(P2) && CallsKnown(P2, code) && c.frames != [] && d.frames != [] && d.store == c.store
    requires sp < |c.store.globals| && Top(c).fn < |W.plan| && Top(c).pc < |W.plan[Top(c).fn]|
    requires var h := Top(d);
      && h.pc + |code| <= |h.code| && h.code[h.pc..h.pc + |code|] == code
      && h.pc + |code| == Site(GapCodes(W.plan[Top(c).fn]), Top(c).pc)
      && Performs(P2, sp, code, h.locals, h.stack, d.store, g, k)
    requires g.Stops? ==> g.why != Invalid
    ensures g.Pass? ==> g.r.sp < WORD
    ensures var o := Guarded(sp, c, g);
      Run(P2, Next(d), n) == if o.Next? then Next(BehindGap(W, o.c, d)) else o
  {
    hide Run, Step, Performs, Join;
    var h, st := Top(d), d.store;
    var lower := d.frames[..|d.frames| - 1];
    assert d == Config(lower + [h], st);
    n := GuardInHost(P2, sp, code, lower, h, st, g, k);
    if g.Pass? {
      JoinNothing(WithRegion(sp, st, g.r));
    }
  }

  /** The inserted code at a place does on the machine what Gap says. */
  lemma GapLifts(P: Program, P1: Program, P2: Program, scope: set<nat>, sp: nat, canary: nat,
                 gt: seq<ValType>, size: nat, c: Config, d: Config) returns (n: nat)
    requires Setting(P, P1, P2, scope, sp, canary, gt, size) && Sound(P, gt, size, c)
    requires SamePlace(P, P2, CanaryWorld(P, sp, canary, gt, size), c, d)
    ensures c.frames != [] && sp < |c.store.globals| && d.frames != []
    ensures var W, o := CanaryWorld(P, sp, canary, gt, size), Gap(sp, canary, c);
      && Top(c).fn < |W.plan| && Top(c).pc < |W.plan[Top(c).fn]|
      && (o.Next? ==> o.c.frames == c.frames)
      && Run(P2, Next(d), n) == if o.Next? then Next(BehindGap(W, o.c, d)) else o
  {
    hide Run, Step, SamePlace, ConfigSound, InjectCode, ValidateCode, Inject, Validate, Performs, CanaryPlan, Canaried,
      ValidProgram, KeepsSize, BehindGap, WithRegion;
    SoundPointer(P, gt, size, sp, c);
    TopPlace(P, P1, P2, scope, sp, canary, gt, size, c, d);
    CallsNothing(P2, sp, canary);
    var W, h, st := CanaryWorld(P, sp, canary, gt, size), Top(d), d.store;
    if Top(c).pc == 0 {
      var k := InjectRuns(P2, sp, canary, h.locals, h.stack, st);
      n := GuardLifts(P2, W, sp, InjectCode(sp, canary), Inject(canary, RegionOf(sp, st)), c, d, k);
    } else if AtCheck(c) {
      var k := ValidateRuns(P2, sp, canary, h.locals, h.stack, st);
      n := GuardLifts(P2, W, sp, ValidateCode(sp, canary), Validate(canary, RegionOf(sp, st)), c, d, k);
    } else {
      n := 0;
      RunNothing(P2, d);
      NoGap(W, c, d);
    }
  }

  lemma NoGap(W: World, c: Config, d: Config)
    requires c.frames != [] && d.frames != [] && d.store == c.store
    requires Top(c).fn < |W.plan| && Top(c).pc < |W.plan[Top(c).fn]|
    requires Top(d).pc == Site(GapCodes(W.plan[Top(c).fn]), Top(c).pc)
    ensures BehindGap(W, c, d) == d
  {
    JoinNothing(c.store);
    assert d.frames[..|d.frames| - 1] + [Top(d)] == d.frames;
  }

  lemma RunNothing(P: Program, c: Config)
    ensures Run(P, Next(c), 0) == Next(c)
  {
  }

  /** How an outcome of the guarded run shows in the instrumented program. */
  ghost predicate SameOutcome(P: Program, P2: Program, W: World, o: Outcome, q: Outcome) {
    if o.Next? then q.Next? && SamePlace(P, P2, W, o.c, q.c) else q == o
  }

  lemma StepBehindGap(P: Program, P1: Program, P2: Program, scope: set<nat>, sp: nat, canary: nat,
                      gt: seq<ValType>, size: nat, c: Config, d: Config, c2: Config)
    requires Setting(P, P1, P2, scope, sp, canary, gt, size) && Sound(P, gt, size, c) && Sound(P, gt, size, c2)
    requires SamePlace(P, P2, CanaryWorld(P, sp, canary, gt, size), c, d) && c2.frames == c.frames
    requires Top(c).fn < |P.funcs| && Top(c).pc < |CanaryPlan(P, sp, canary)[Top(c).fn]| && d.frames != []
    ensures var W := CanaryWorld(P, sp, canary, gt, size);
      SameOutcome(P, P2, W, Step(P, c2), Step(P2, BehindGap(W, c2, d)))
  {
    hide Step, Woven, ProgLift, FrameMatch, ConfigSound, CanaryPlan, Canaried, KeepsSize, ValidProgram;
    var W := CanaryWorld(P, sp, canary, gt, size);
    var d2 := d.(store := c2.store);
    SoundPointer(P, gt, size, sp, c2);
    JoinNothing(c2.store);
    CanaryWoven(P, P1, P2, scope, sp, canary, gt, size);
    assert Match(P, P2, W, c2, d2, NOTHING);
    StepAtSite(P, P2, W, c2, d2, NOTHING, NOTHING);
    assert BehindGap(W, c2, d) == AtSite(W, c2, d2, NOTHING);
    StepKeepsSize(P, gt, size, c2);
    var o := Step(P, c2);
    if o.Done? {
      JoinNothing(o.store);
    }
  }

  lemma GuardedStepLifts(P: Program, P1: Program, P2: Program, scope: set<nat>, sp: nat, canary: nat,
                         gt: seq<ValType>, size: nat, c: Config, d: Config) returns (n: nat)
    requires Setting(P, P1, P2, scope, sp, canary, gt, size) && Sound(P, gt, size, c)
    requires SamePlace(P, P2, CanaryWorld(P, sp, canary, gt, size), c, d)
    ensures SameOutcome(P, P2, CanaryWorld(P, sp, canary, gt, size), GuardedStep(P, sp, canary, c), Run(P2, Next(d), n))
    ensures GuardedStep(P, sp, canary, c).Next? ==> n >= 1
  {
    hide Run, Step, SamePlace, ConfigSound, Gap, CanaryPlan, Canaried, ValidProgram, KeepsSize, BehindGap, Sound;
    SoundPointer(P, gt, size, sp, c);
    GapSound(P, gt, size, sp, canary, c);
    var k := GapLifts(P, P1, P2, scope, sp, canary, gt, size, c, d);
    var o := Gap(sp, canary, c);
    if o.Next? {
      StepBehindGap(P, P1, P2, scope, sp, canary, gt, size, c, d, o.c);
      RunAdd(P2, Next(d), k, 1);
      RunOne(P2, BehindGap(CanaryWorld(P, sp, canary, gt, size), o.c, d));
      n := k + 1;
    } else {
      n := k;
    }
  }

  /** From the place of instruction i on to that of instruction j. */
  lemma {:induction false} GuardedLiftsOn(P: Program, P1: Program, P2: Program, scope: set<nat>, sp: nat, canary: nat,
                                          gt: seq<ValType>, size: nat, c: Config, d: Config, i: nat, mi: nat, j: nat)
    returns (m: nat)
    requires Setting(P, P1, P2, scope, sp, canary, gt, size) && Sound(P, gt, size, c) && i <= j
    requires SameOutcome(P, P2, CanaryWorld(P, sp, canary, gt, size), GuardedAt(P, sp, canary, c, i), StateAt(P2, d, mi))
    ensures SameOutcome(P, P2, CanaryWorld(P, sp, canary, gt, size), GuardedAt(P, sp, canary, c, j), StateAt(P2, d, m))
    ensures m >= mi && (GuardedAt(P, sp, canary, c, j).Next? ==> m >= mi + (j - i))
    decreases j - i
  {
    hide Run, Step, SamePlace, Sound, GuardedStep, CanaryWorld, Canaried, ValidProgram, KeepsSize;
    if i == j {
      m := mi;
    } else {
      m := GuardedLiftsOn(P, P1, P2, scope, sp, canary, gt, size, c, d, i, mi, j - 1);
      GuardedSound(P, gt, size, sp, canary, c, j - 1);
      var o := GuardedAt(P, sp, canary, c, j - 1);
      if o.Next? {
        var q := StateAt(P2, d, m).c;
        var k := GuardedStepLifts(P, P1, P2, scope, sp, canary, gt, size, o.c, q);
        RunAdd(P2, Next(d), m, k);
        m := m + k;
      }
    }
  }

  /**
   * The run of the instrumented program is the guarded run: for every n it comes to the place where
   * the guarded run stands after n original instructions, over the same store, or ends as that does.
   */
  lemma GuardedLifts(P: Program, P1: Program, P2: Program, scope: set<nat>, sp: nat, canary: nat,
                     gt: seq<ValType>, size: nat, c: Config, d: Config, n: nat) returns (m: nat)
    requires Setting(P, P1, P2, scope, sp, canary, gt, size) && Sound(P, gt, size, c)
    requires SamePlace(P, P2, CanaryWorld(P, sp, canary, gt, size), c, d)
    ensures SameOutcome(P, P2, CanaryWorld(P, sp, canary, gt, size), GuardedAt(P, sp, canary, c, n), StateAt(P2, d, m))
    ensures GuardedAt(P, sp, canary, c, n).Next? ==> m >= n
  {
    hide Run, Step, SamePlace, Sound, GuardedStep, CanaryWorld, Canaried, ValidProgram, KeepsSize;
    RunNothing(P2, d);
    m := GuardedLiftsOn(P, P1, P2, scope, sp, canary, gt, size, c, d, 0, 0, n);
  }

  /** What stands behind the inserted code. */
  lemma BehindGapFacts(P: Program, P1: Program, P2: Program, scope: set<nat>, sp: nat, canary: nat,
                       gt: seq<ValType>, size: nat, x: Config, q: Config, g: Config)
    requires Setting(P, P1, P2, scope, sp, canary, gt, size) && g.frames == x.frames
    requires SamePlace(P, P2, CanaryWorld(P, sp, canary, gt, size), x, q) && x.frames != [] && q.frames != []
    requires Top(x).fn < |P.funcs| && Top(x).pc < |CanaryPlan(P, sp, canary)[Top(x).fn]|
    ensures var b := BehindGap(CanaryWorld(P, sp, canary, gt, size), g, q);
      && b.store == g.store && |b.frames| == |x.frames|
      && Top(x).pc <= |Top(x).code|
      && (Top(x).pc < |Top(x).code| ==>
            Top(b).pc < |Top(b).code| && Top(b).code[Top(b).pc] == Top(x).code[Top(x).pc])
  {
    hide Canaried, ValidProgram, KeepsSize, Woven, CanaryPlan, WovenCode, CanaryGap, Site, ProgLift, FrameMatch, CallsKnown,
      Join;
    var W := CanaryWorld(P, sp, canary, gt, size);
    JoinNothing(g.store);
    CanaryWoven(P, P1, P2, scope, sp, canary, gt, size);
    TopOfMatch(P, P2, W, x, q, NOTHING);
    SiteInCode(W, Top(x));
  }

  /** The instrumented program in front of an original instruction, the inserted code behind it. */
  lemma BehindGapAt(P: Program, P1: Program, P2: Program, scope: set<nat>, sp: nat, canary: nat,
                    gt: seq<ValType>, size: nat, c: Config, d: Config, m: nat, x: Config, g: Config) returns (n: nat)
    requires Setting(P, P1, P2, scope, sp, canary, gt, size) && Sound(P, gt, size, x)
    requires SameOutcome(P, P2, CanaryWorld(P, sp, canary, gt, size), Next(x), StateAt(P2, d, m))
    requires x.frames != [] && sp < |x.store.globals| && Gap(sp, canary, x) == Next(g)
    ensures n >= m && StateAt(P2, d, n).Next?
    ensures var q := StateAt(P2, d, n).c;
      && q.store == g.store && |q.frames| == |x.frames| && q.frames != []
      && Top(x).pc <= |Top(x).code|
      && (Top(x).pc < |Top(x).code| ==>
            Top(q).pc < |Top(q).code| && Top(q).code[Top(q).pc] == Top(x).code[Top(x).pc])
    ensures SameOutcome(P, P2, CanaryWorld(P, sp, canary, gt, size), Step(P, g), StateAt(P2, d, n + 1))
  {
    hide Run, Step, Gap, SameOutcome, Canaried, ValidProgram, KeepsSize, Sound, CanaryPlan, SamePlace, BehindGap;
    var W := CanaryWorld(P, sp, canary, gt, size);
    GapSound(P, gt, size, sp, canary, x);
    OutcomePlace(P, P2, W, x, StateAt(P2, d, m));
    var q := StateAt(P2, d, m).c;
    var k := GapLifts(P, P1, P2, scope, sp, canary, gt, size, x, q);
    RunAdd(P2, Next(d), m, k);
    n := m + k;
    StepBehindGap(P, P1, P2, scope, sp, canary, gt, size, x, q, g);
    RunAdd(P2, Next(d), n, 1);
    RunOne(P2, BehindGap(W, g, q));
    BehindGapFacts(P, P1, P2, scope, sp, canary, gt, size, x, q, g);
  }

  lemma OutcomePlace(P: Program, P2: Program, W: World, x: Config, q: Outcome)
    requires SameOutcome(P, P2, W, Next(x), q)
    ensures q.Next? && SamePlace(P, P2, W, x, q.c)
    ensures q.c.store == x.store && |q.c.frames| == |x.frames|
  {
    JoinNothing(x.store);
  }

  lemma SiteInCode(W: World, f: Frame)
    requires f.fn < |W.plan| && |W.plan[f.fn]| == |f.code| + 1 && f.pc <= |f.code|
    ensures var w, s := WovenCode(W, f.fn, f.code), Site(GapCodes(W.plan[f.fn]), f.pc);
      s <= |w| && (f.pc < |f.code| ==> s < |w| && w[s] == f.code[f.pc])
  {
    WeaveAt(f.code, GapCodes(W.plan[f.fn]), f.pc);
  }

  lemma StartPlace(P: Program, P1: Program, P2: Program, scope: set<nat>, sp: nat, canary: nat,
                   gt: seq<ValType>, size: nat, fn: nat, args: seq<Value>, st: Machine.Store)
    requires Setting(P, P1, P2, scope, sp, canary, gt, size) && fn < |P.funcs| && P.funcs[fn].Defined?
    requires TypesOf(args) == P.funcs[fn].ft.params && TypesOf(st.globals) == gt && |st.mem| == size
    ensures fn < |P2.funcs| && P2.funcs[fn].Defined? && Sound(P, gt, size, Start(P, fn, args, st))
    ensures SamePlace(P, P2, CanaryWorld(P, sp, canary, gt, size), Start(P, fn, args, st), Start(P2, fn, args, st))
  {
    hide Woven, ProgLift, FrameMatch, FrameGood, Canaried, ValidProgram, KeepsSize, CanaryPlan;
    CanaryWoven(P, P1, P2, scope, sp, canary, gt, size);
    EntryMatch(P, P2, CanaryWorld(P, sp, canary, gt, size), fn, args);
    EntryGood(P, gt, fn, args);
    JoinNothing(st);
  }
}
