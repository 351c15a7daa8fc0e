/**
 * The locals and globals inspection in whole runs: what the dump inserted at the inspected line writes
 * is what the original program's variables are when it first stands there.
 */
module VariableInspection {
  import opened Values
  import opened Machine
  import opened Weaving
  import opened Embedding
  import opened Nesting
  import opened Fragments
  import opened StraightLine
  import opened Simulation
  import opened Runs
  import opened Meaning
  import opened TypedFrames
  import opened Soundness
  import opened EventBuffer
  import opened VariableDump
  import opened PageLayout
  import opened PageSetUp
  import Instrumenting

  /** A function, a line of it, and the code inserted behind that line. */
  datatype Position = Position(fn: nat, line: nat, code: Code)

  /** P2 is P with the code inserted; P2 may have further functions. */
  ghost predicate Inspected(P: Program, P2: Program, I: Position) {
    && |P.funcs| <= |P2.funcs| && P2.table == P.table
    && I.fn < |P.funcs| && P.funcs[I.fn].Defined? && I.line <= |P.funcs[I.fn].code| && GoodCode(P2, I.code)
    && forall fn :: 0 <= fn < |P.funcs| ==>
         P2.funcs[fn] == if fn != I.fn then P.funcs[fn]
                         else P.funcs[fn].(code := Instrumenting.InsertedAt(P.funcs[fn].code, I.line, I.code))
  }

  function PiecesOf(I: Position, fn: nat, k: nat): seq<Piece> {
    if fn == I.fn && k == I.line then [Piece(Fragment(I.code, [], []), [])] else []
  }

  function InspectedPlan(P: Program, I: Position): (plan: Plan)
    ensures |plan| == |P.funcs|
    ensures forall fn :: 0 <= fn < |P.funcs| && P.funcs[fn].Defined? ==>
              && |plan[fn]| == |P.funcs[fn].code| + 1
              && forall k :: 0 <= k < |plan[fn]| ==> plan[fn][k] == PiecesOf(I, fn, k)
  {
    seq(|P.funcs|, fn requires 0 <= fn < |P.funcs| =>
      if P.funcs[fn].Import? then [] else seq(|P.funcs[fn].code| + 1, k requires 0 <= k => PiecesOf(I, fn, k)))
  }

  /** Nothing is recorded before the inspected line. */
  function Untouched(own0: Own): Rep {
    (own: Own, ev: seq<int>) => own == own0
  }

  function InspectedWorld(P: Program, I: Position, sh: Shape, own: Own): World {
    World(InspectedPlan(P, I), Untouched(own), sh)
  }

  lemma InsertedIsWoven(code: Code, n: nat, xs: Code, gaps: seq<Code>)
    requires n <= |code| && |gaps| == |code| + 1
    requires forall k :: 0 <= k <= |code| ==> gaps[k] == if k == n then xs else []
    ensures Instrumenting.InsertedAt(code, n, xs) == Weave(code, gaps)
  {
    hide Weave;
    WeaveRestAt(code, gaps, n);
    WeaveNothing(code[..n], gaps[..n] + [[]]);
    Assoc(code[..n], xs, code[n..]);
  }

  lemma PositionWoven(P: Program, P2: Program, I: Position, W: World, fn: nat)
    requires Inspected(P, P2, I) && W.plan == InspectedPlan(P, I) && fn < |P.funcs|
    requires P.funcs[fn].Defined? ==> CallsKnown(P, P.funcs[fn].code)
    ensures WovenFunc(P, P2, W, fn)
  {
    hide Weave, Instrumenting.InsertedAt, WellNested;
    var d := P.funcs[fn];
    if d.Defined? {
      var gaps := GapCodes(W.plan[fn]);
      forall k | 0 <= k < |gaps|
        ensures gaps[k] == if fn == I.fn && k == I.line then I.code else []
        ensures WellNested(gaps[k]) && CallsKnown(P2, gaps[k])
      {
        assert W.plan[fn][k] == PiecesOf(I, fn, k);
        OnePiece(Piece(Fragment(I.code, [], []), []));
        EmptyNested();
      }
      if fn == I.fn {
        InsertedIsWoven(d.code, I.line, I.code, gaps);
      } else {
        WeaveNothing(d.code, gaps);
      }
      CallsWoven(P2, d.code, gaps);
    }
  }

  lemma EmptyNested()
    ensures WellNested([])
  {
  }

  lemma PositionInstrumented(P: Program, P2: Program, I: Position, W: World)
    requires Inspected(P, P2, I) && Regular(P, P2, W.shape.size) && W.plan == InspectedPlan(P, I)
    requires W.shape.size.Some? || OwnsNoMemory(W)
    ensures Instrumented(P, P2, W)
  {
    hide WovenFunc, HostLift, KeepsSize, Instrumenting.InsertedAt;
    forall fn | 0 <= fn < |P.funcs| ensures WovenFunc(P, P2, W, fn) && SameShape(P.funcs[fn], P2.funcs[fn]) {
      PositionWoven(P, P2, I, W, fn);
    }
    assert forall k {:trigger P2.table[k]} :: 0 <= k < |P2.table| ==> P2.table[k] == P.table[k];
    HostsLift(P, P2, W);
  }

  /** The inspected line is not reached in the first n states. */
  ghost predicate NotYet(P: Program, I: Position, c: Config, n: nat) {
    forall i: nat :: i < n && StateAt(P, c, i).Next? ==>
      var d := StateAt(P, c, i).c;
      d.frames != [] && !(Top(d).fn == I.fn && Top(d).pc == I.line)
  }

  lemma NothingBefore(P: Program, P2: Program, I: Position, W: World, c: Config, ev: seq<int>)
    requires W.plan == InspectedPlan(P, I) && Proper(P, c.frames) && c.frames != []
    requires !(Top(c).fn == I.fn && Top(c).pc == I.line)
    ensures Ready(P2, W, c, ev)
  {
    assert FrameOf(P, Top(c));
    assert PiecesAt(W, c) == [];
  }

  /** The instrumented program comes to the inspected line as the original does, its owned state untouched. */
  lemma ToPosition(P: Program, P2: Program, I: Position, W: World, c0: Config, d: Config, own: Own, n: nat)
    returns (m: nat)
    requires Instrumented(P, P2, W) && Match(P, P2, W, c0, d, own) && W.plan == InspectedPlan(P, I)
    requires W.rep == Untouched(own) && Proper(P, c0.frames) && NotYet(P, I, c0, n) && StateAt(P, c0, n).Next?
    ensures StateAt(P2, d, m).Next? && Match(P, P2, W, StateAt(P, c0, n).c, StateAt(P2, d, m).c, own)
  {
    hide Run, Ready, Instrumented, Match, InspectedPlan, PiecesAt, Proper;
    forall i: nat | i < n && StateAt(P, c0, i).Next?
      ensures Ready(P2, W, StateAt(P, c0, i).c, [] + Log(P, W, c0, i))
    {
      ProperRun(P, c0, i);
      NothingBefore(P, P2, I, W, StateAt(P, c0, i).c, [] + Log(P, W, c0, i));
    }
    var own2;
    m, own2 := RunLifts(P, P2, W, c0, d, own, [], n);
  }

  /** The inserted code stands ready in front of control. */
  lemma AtPosition(P: Program, P2: Program, I: Position, W: World, c: Config, d: Config, own: Own)
    requires Instrumented(P, P2, W) && Match(P, P2, W, c, d, own) && W.plan == InspectedPlan(P, I)
    requires W.rep == Untouched(own)
    requires I.fn < |P.funcs| && Top(c).fn == I.fn && Top(c).pc == I.line
    ensures var h := Top(d);
      && h.locals == Top(c).locals && h.stack == Top(c).stack && d.store == Join(c.store, own) && d.frames != []
      && StandsAt(I.code, h)
      && Closed(P2) && |d.frames| == |c.frames|
  {
    hide WovenCode, Join, CallsKnown, Site, Arrive, GapCode;
    InstrumentedParts(P, P2, W, c.store, own, []);
    TopOfMatch(P, P2, W, c, d, own);
    GapInPlace(W, Top(c), Top(d));
    assert W.plan[I.fn][I.line] == PiecesOf(I, I.fn, I.line);
    OnePiece(Piece(Fragment(I.code, [], []), []));
  }

  // ----- the dump -----

  /** The printable variables have the types the module declares. */
  predicate DeclaredTypes(types: seq<VarType>, ts: seq<ValType>) {
    |types| <= |ts| && forall i :: 0 <= i < |types| && types[i].Some? ==> types[i].value == ts[i]
  }

  lemma ValuesAsDeclared(types: seq<VarType>, vals: seq<Value>)
    requires DeclaredTypes(types, TypesOf(vals))
    ensures ValuesFit(types, vals)
  {
  }

  lemma DumpCalls(P: Program, globals: nat, item: Item, types: seq<VarType>)
    requires AllSimple(DumpFrom(globals, item, types, 0))
    ensures CallsKnown(P, DumpFrom(globals, item, types, 0))
  {
    hide DumpFrom;
  }

  /** The dump at the place where control stands, and what is then in the buffer. */
  lemma DumpRuns(P2: Program, globals: nat, item: Item, types: seq<VarType>, c: Config, d: Config, own: Own)
    returns (m: nat, own2: Own)
    requires Closed(P2) && d.frames != [] && StandsAt(DumpFrom(globals, item, types, 0), Top(d))
    requires |c.store.globals| == globals && BufferAt(|c.store.mem|, own, 0) && d.store == Join(c.store, own)
    requires c.frames != [] && Top(d).locals == Top(c).locals && Top(d).stack == Top(c).stack
    requires ValuesFit(types, Source(item, Top(c).locals, c.store)) && DumpSize(types, 0) <= CAPACITY
    ensures StateAt(P2, d, m)
         == Next(Config(d.frames[..|d.frames| - 1] + [Top(d).(pc := Top(d).pc + m)], Join(c.store, own2)))
    ensures BufferAt(|c.store.mem|, own2, DumpSize(types, 0))
    ensures ReadFrom(types, 0, Content(own2, DumpSize(types, 0)))
         == Some(Listed(types, Source(item, Top(c).locals, c.store), 0))
  {
    hide Run, Join, DumpFrom, ReadFrom, Listed, BytesFrom, Appended, ValuesFit, RunsClean;
    var code, size := DumpFrom(globals, item, types, 0), |c.store.mem|;
    var f, h, vals := Top(c), Top(d), Source(item, Top(c).locals, c.store);
    DumpRoundTrip(P2, globals, size, item, types, own, f.locals, f.stack, c.store);
    DumpSimple(globals, size, item, types, own, f.locals, f.stack, c.store);
    DumpCalls(P2, globals, item, types);
    own2 := Appended(own, 0, BytesFrom(types, vals, 0));
    m := |code|;
    assert d == Config(d.frames[..|d.frames| - 1] + [h], Join(c.store, own));
    PieceRun(P2, d.frames[..|d.frames| - 1], h, code, Join(c.store, own), Join(c.store, own2), m);
    AppendKeepsBuffer(size, own, 0, BytesFrom(types, vals, 0));
  }

  lemma DumpSimple(globals: nat, size: nat, item: Item, types: seq<VarType>, own: Own,
                   locals: seq<Value>, stack: seq<Value>, st: Machine.Store)
    requires |st.globals| == globals && |st.mem| == size && BufferAt(size, own, 0)
    requires ValuesFit(types, Source(item, locals, st)) && DumpSize(types, 0) <= CAPACITY
    ensures AllSimple(DumpFrom(globals, item, types, 0))
    ensures |BytesFrom(types, Source(item, locals, st), 0)| == DumpSize(types, 0)
  {
    DumpEffect(globals, size, item, types, 0, own, 0, locals, stack, st);
  }

  /** The code stands in front of control. */
  predicate StandsAt(code: Code, h: Frame) {
    h.pc + |code| <= |h.code| && h.code[h.pc..h.pc + |code|] == code
  }

  lemma StandsBoth(h: Frame, whole: Code, a: Code, b: Code)
    requires StandsAt(whole, h) && a + b <= whole
    ensures StandsAt(a, h) && StandsAt(b, h.(pc := h.pc + |a|))
  {
    StandsPrefix(h, whole, a + b);
    SplitSlice(h.code, h.pc, a, b);
  }

  lemma StandsPrefix(h: Frame, whole: Code, a: Code)
    requires StandsAt(whole, h) && a <= whole
    ensures StandsAt(a, h)
  {
    assert h.code[h.pc..h.pc + |a|] == h.code[h.pc..h.pc + |whole|][..|a|];
  }

  lemma PrefixKnown(P: Program, code: Code, a: Code)
    requires CallsKnown(P, code) && a <= code
    ensures CallsKnown(P, a)
  {
  }

  /** The variables the inspection dumps have their declared types in every reachable state. */
  function Declared(P: Program, gt: seq<ValType>, item: Item, fn: nat): seq<ValType>
    requires fn < |P.funcs| && P.funcs[fn].Defined?
  {
    if item.LocalItem? then P.funcs[fn].ft.params + P.funcs[fn].vars else gt
  }

  lemma SourceTyped(P: Program, gt: seq<ValType>, item: Item, types: seq<VarType>, c: Config)
    requires ConfigSound(P, gt, c) && Top(c).fn < |P.funcs| && P.funcs[Top(c).fn].Defined?
    requires DeclaredTypes(types, Declared(P, gt, item, Top(c).fn))
    ensures ValuesFit(types, Source(item, Top(c).locals, c.store))
  {
    hide DeclaredTypes, ValuesFit, LabelTyped, TypesOf;
    assert FrameGood(P, gt, c.frames[|c.frames| - 1], Awaits(P, c.frames, |c.frames| - 1));
    ValuesAsDeclared(types, Source(item, Top(c).locals, c.store));
  }

  /** The set-up code turns the owned state into an empty buffer, and leaves the rest as it is. */
  ghost predicate SetsUp(P2: Program, setup: Code, f: Frame, st: Machine.Store, own: Own, own1: Own, k: nat) {
    RunsClean(P2, setup, f.locals, f.stack, Join(st, own), Join(st, own1), k) && BufferAt(|st.mem|, own1, 0)
  }

  /** Set-up and dump at the inspected line, one after the other. */
  lemma SetUpAndDump(P2: Program, I: Position, setup: Code, globals: nat, item: Item, types: seq<VarType>,
                     c: Config, d: Config, own: Own, own1: Own, k: nat) returns (m: nat, own2: Own)
    requires Closed(P2) && GoodCode(P2, I.code) && setup + DumpFrom(globals, item, types, 0) <= I.code
    requires c.frames != [] && d.frames != [] && |TypesOf(c.store.globals)| == globals && d.store == Join(c.store, own)
    requires Top(d).locals == Top(c).locals && Top(d).stack == Top(c).stack && StandsAt(I.code, Top(d))
    requires SetsUp(P2, setup, Top(c), c.store, own, own1, k)
    requires ValuesFit(types, Source(item, Top(c).locals, c.store)) && DumpSize(types, 0) <= CAPACITY
    ensures var q := StateAt(P2, d, m);
      && q.Next? && |q.c.frames| == |d.frames| && q.c.store == Join(c.store, own2)
      && Top(q.c).locals == Top(c).locals && Top(q.c).stack == Top(c).stack
    ensures BufferAt(|c.store.mem|, own2, DumpSize(types, 0))
    ensures ReadFrom(types, 0, Content(own2, DumpSize(types, 0)))
         == Some(Listed(types, Source(item, Top(c).locals, c.store), 0))
  {
    hide Run, Join, DumpFrom, ReadFrom, Listed, ValuesFit, RunsClean, BufferAt, StandsAt;
    var h, lower := Top(d), d.frames[..|d.frames| - 1];
    var h1 := h.(pc := h.pc + |setup|);
    StandsBoth(h, I.code, setup, DumpFrom(globals, item, types, 0));
    PrefixKnown(P2, I.code, setup);
    assert d == Config(lower + [h], Join(c.store, own));
    assert h.pc + |setup| <= |h.code| && h.code[h.pc..h.pc + |setup|] == setup by { Stands(setup, h); }
    PieceRun(P2, lower, h, setup, Join(c.store, own), Join(c.store, own1), k);
    var d1 := Config(lower + [h1], Join(c.store, own1));
    var j;
    j, own2 := DumpRuns(P2, globals, item, types, c, d1, own1);
    RunAdd(P2, Next(d), k, j);
    m := k + j;
  }

  lemma Stands(code: Code, h: Frame)
    requires StandsAt(code, h)
    ensures h.pc + |code| <= |h.code| && h.code[h.pc..h.pc + |code|] == code
  {
  }

  /** The memory of the program has its size at the start, or any if nothing owned lies behind it. */
  predicate MemoryOf(size: Option<nat>, st: Machine.Store, own: Own) {
    if size.Some? then |st.mem| == size.value else own.mem == []
  }

  /**
   * Whenever a run of the original first stands at the inspected line, the instrumented program comes to
   * the inserted code in the same state, nothing owned having been touched.
   */
  lemma ReachesPosition(P: Program, P2: Program, I: Position, gt: seq<ValType>, size: Option<nat>,
                        fn: nat, args: seq<Value>, st: Machine.Store, own: Own, n: nat, c: Config) returns (m: nat)
    requires Inspected(P, P2, I) && Regular(P, P2, size) && ValidProgram(P, gt) && MemoryOf(size, st, own)
    requires fn < |P.funcs| && P.funcs[fn].Defined?
    requires TypesOf(args) == P.funcs[fn].ft.params && TypesOf(st.globals) == gt
    requires StateAt(P, Start(P, fn, args, st), n) == Next(c) && c.frames != []
    requires Top(c).fn == I.fn && Top(c).pc == I.line && NotYet(P, I, Start(P, fn, args, st), n)
    ensures P2.funcs[fn].Defined? && Closed(P2) && ConfigSound(P, gt, c) && TypesOf(c.store.globals) == gt
    ensures var q := StateAt(P2, Start(P2, fn, args, Join(st, own)), m);
      && q.Next? && q.c.frames != [] && |q.c.frames| == |c.frames| && q.c.store == Join(c.store, own)
      && Top(q.c).locals == Top(c).locals && Top(q.c).stack == Top(c).stack && StandsAt(I.code, Top(q.c))
  {
    hide Run, Regular, ValidProgram, Inspected, Instrumented, Match, NotYet, Join, ConfigSound, Start, InspectedPlan,
      StandsAt;
    var W, c0 := InspectedWorld(P, I, Shape(gt, size), own), Start(P, fn, args, st);
    InspectedFunction(P, P2, I);
    PositionInstrumented(P, P2, I, W);
    StartMatches(P, P2, W, fn, args, st, own);
    StartProper(P, fn, args, st);
    var d := Start(P2, fn, args, Join(st, own));
    m := ToPosition(P, P2, I, W, c0, d, own, n);
    AtPosition(P, P2, I, W, c, StateAt(P2, d, m).c, own);
    ValidRuns(P, gt, fn, args, st, n);
    SoundStore(P, gt, c);
  }

  lemma SoundStore(P: Program, gt: seq<ValType>, c: Config)
    requires ConfigSound(P, gt, c)
    ensures TypesOf(c.store.globals) == gt
  {
  }

  /**
   * There the inserted code sets up the buffer and dumps; the reader then gets from the buffer exactly
   * the values the original's locals, or globals, have at the inspected line.
   */
  lemma InspectionShowsVariables(P: Program, P2: Program, I: Position, gt: seq<ValType>, size: Option<nat>,
                                 item: Item, types: seq<VarType>, fn: nat, args: seq<Value>, st: Machine.Store,
                                 own: Own, n: nat, c: Config, setup: Code, own1: Own, k: nat)
    returns (m: nat, own2: Own)
    requires Inspected(P, P2, I) && Regular(P, P2, size) && ValidProgram(P, gt) && MemoryOf(size, st, own)
    requires fn < |P.funcs| && P.funcs[fn].Defined?
    requires TypesOf(args) == P.funcs[fn].ft.params && TypesOf(st.globals) == gt
    requires setup + DumpFrom(|gt|, item, types, 0) <= I.code && DumpSize(types, 0) <= CAPACITY
    requires DeclaredTypes(types, Declared(P, gt, item, I.fn))
    requires StateAt(P, Start(P, fn, args, st), n) == Next(c) && c.frames != []
    requires Top(c).fn == I.fn && Top(c).pc == I.line && NotYet(P, I, Start(P, fn, args, st), n)
    requires SetsUp(P2, setup, Top(c), c.store, own, own1, k)
    ensures P2.funcs[fn].Defined? && ValuesFit(types, Source(item, Top(c).locals, c.store))
    ensures var q := StateAt(P2, Start(P2, fn, args, Join(st, own)), m);
      && q.Next? && |q.c.frames| == |c.frames| && q.c.store == Join(c.store, own2)
      && Top(q.c).locals == Top(c).locals && Top(q.c).stack == Top(c).stack
    ensures BufferAt(|c.store.mem|, own2, DumpSize(types, 0))
    ensures ReadFrom(types, 0, Content(own2, DumpSize(types, 0)))
         == Some(Listed(types, Source(item, Top(c).locals, c.store), 0))
  {
    hide Run, Regular, ValidProgram, NotYet, Join, DeclaredTypes, ReadFrom, Listed, Inspected,
      ConfigSound, BufferAt, ValuesFit, Start, SetsUp, DumpFrom, GoodCode, StandsAt;
    InspectedFunction(P, P2, I);
    var m1 := ReachesPosition(P, P2, I, gt, size, fn, args, st, own, n, c);
    SourceTyped(P, gt, item, types, c);
    var d := Start(P2, fn, args, Join(st, own));
    var j;
    j, own2 := SetUpAndDump(P2, I, setup, |gt|, item, types, c, StateAt(P2, d, m1).c, own, own1, k);
    RunAdd(P2, Next(d), m1, j);
    m := m1 + j;
  }

  // ----- the code the tool inserts -----

  /** The inspected function's code begins with the call of the set-up function and the dump. */
  ghost predicate ToolCode(P2: Program, I: Position, load: nat, globals: nat, item: Item, types: seq<VarType>) {
    && load < |P2.funcs| && P2.funcs[load] == LoadDataFunc(globals)
    && CallOf(load) + DumpFrom(globals, item, types, 0) <= I.code
  }

  /**
   * The inspection as the tool makes it: if the memory, whole pages, can grow by one page when the run
   * of the original first stands at the inspected line, the instrumented program takes that page, dumps,
   * and the reader gets the values the variables have there.
   */
  lemma ToolShowsVariables(P: Program, P2: Program, I: Position, gt: seq<ValType>, size: Option<nat>, load: nat,
                           item: Item, types: seq<VarType>, fn: nat, args: seq<Value>, st: Machine.Store,
                           n: nat, c: Config)
    returns (m: nat, own: Own)
    requires Inspected(P, P2, I) && Regular(P, P2, size) && ValidProgram(P, gt) && (size.Some? ==> |st.mem| == size.value)
    requires fn < |P.funcs| && P.funcs[fn].Defined?
    requires TypesOf(args) == P.funcs[fn].ft.params && TypesOf(st.globals) == gt
    requires ToolCode(P2, I, load, |gt|, item, types) && DumpSize(types, 0) <= CAPACITY
    requires DeclaredTypes(types, Declared(P, gt, item, I.fn))
    requires StateAt(P, Start(P, fn, args, st), n) == Next(c) && c.frames != []
    requires Top(c).fn == I.fn && Top(c).pc == I.line && NotYet(P, I, Start(P, fn, args, st), n)
    requires |c.store.mem| % PAGE == 0 && Pages(c.store) + 1 <= P2.maxPages <= MAX_PAGES
    ensures P2.funcs[fn].Defined? && ValuesFit(types, Source(item, Top(c).locals, c.store))
    ensures var q := StateAt(P2, Start(P2, fn, args, Join(st, Own(InitialGlobals(), []))), m);
      && q.Next? && |q.c.frames| == |c.frames| && q.c.store == Join(c.store, own)
      && Top(q.c).locals == Top(c).locals && Top(q.c).stack == Top(c).stack
    ensures BufferAt(|c.store.mem|, own, DumpSize(types, 0))
    ensures ReadFrom(types, 0, Content(own, DumpSize(types, 0)))
         == Some(Listed(types, Source(item, Top(c).locals, c.store), 0))
  {
    hide Run, Regular, ValidProgram, NotYet, Join, DeclaredTypes, ReadFrom, Listed, Inspected,
      BufferAt, ValuesFit, Start, DumpFrom, InitialGlobals, LoadDataFunc, RunsClean;
    var own0 := Own(InitialGlobals(), []);
    var m0 := ReachesPosition(P, P2, I, gt, size, fn, args, st, own0, n, c);
    FreshGlobals();
    assert |TypesOf(c.store.globals)| == |gt|;
    var k, own1 := SetUpRuns(P2, load, Top(c).locals, Top(c).stack, c.store, InitialGlobals());
    EmptyRecording(|c.store.mem|, own1);
    m, own := InspectionShowsVariables(P, P2, I, gt, size, item, types, fn, args, st, own0, n, c, CallOf(load), own1, k);
  }

  lemma FreshGlobals()
    ensures OwnGlobals(InitialGlobals()) && InitialGlobals()[IOBUF_LEN] == Int32(0)
  {
  }

  lemma EmptyRecording(size: nat, own: Own)
    requires Recorded(size, own, [])
    ensures BufferAt(size, own, 0)
  {
  }

  /** If the memory cannot grow there, and is not of the largest size, the instrumented program traps. */
  lemma ToolTrapsWithoutRoom(P: Program, P2: Program, I: Position, gt: seq<ValType>, size: Option<nat>, load: nat,
                             item: Item, types: seq<VarType>, fn: nat, args: seq<Value>, st: Machine.Store,
                             n: nat, c: Config)
    requires Inspected(P, P2, I) && Regular(P, P2, size) && ValidProgram(P, gt) && (size.Some? ==> |st.mem| == size.value)
    requires fn < |P.funcs| && P.funcs[fn].Defined?
    requires TypesOf(args) == P.funcs[fn].ft.params && TypesOf(st.globals) == gt
    requires ToolCode(P2, I, load, |gt|, item, types)
    requires StateAt(P, Start(P, fn, args, st), n) == Next(c) && c.frames != []
    requires Top(c).fn == I.fn && Top(c).pc == I.line && NotYet(P, I, Start(P, fn, args, st), n)
    requires |c.store.mem| % PAGE == 0 && P2.maxPages < Pages(c.store) + 1 <= MAX_PAGES
    ensures P2.funcs[fn].Defined?
    ensures Traps(P2, Start(P2, fn, args, Join(st, Own(InitialGlobals(), []))), Bounds)
  {
    hide Run, Regular, ValidProgram, NotYet, Join, Inspected, Start, DumpFrom, InitialGlobals, LoadDataFunc;
    var own0 := Own(InitialGlobals(), []);
    InspectedFunction(P, P2, I);
    var m0 := ReachesPosition(P, P2, I, gt, size, fn, args, st, own0, n, c);
    var d := Start(P2, fn, args, Join(st, own0));
    var q := StateAt(P2, d, m0).c;
    StandsBoth(Top(q), I.code, CallOf(load), DumpFrom(|gt|, item, types, 0));
    FreshGlobals();
    assert |TypesOf(c.store.globals)| == |gt|;
    var k := SetUpTraps(P2, load, q, c.store, InitialGlobals());
    RunAdd(P2, Next(d), m0, k);
    assert StateAt(P2, d, m0 + k) == Trap(Bounds);
  }

  lemma SetUpTraps(P: Program, load: nat, q: Config, st: Machine.Store, gl: seq<Value>) returns (k: nat)
    requires Closed(P) && load < |P.funcs| && P.funcs[load] == LoadDataFunc(|st.globals|)
    requires q.frames != [] && StandsAt(CallOf(load), Top(q)) && q.store == Join(st, Own(gl, []))
    requires OwnGlobals(gl) && |st.mem| % PAGE == 0 && P.maxPages < Pages(st) + 1 <= MAX_PAGES
    ensures Run(P, Next(q), k) == Trap(Bounds)
  {
    hide Run, Step, Join, LoadDataCode, RunsIntoTrap, OwnGlobals;
    var h, lower, body := Top(q), q.frames[..|q.frames| - 1], LoadDataCode(|st.globals|);
    assert h.code[h.pc..h.pc + 1][0] == h.code[h.pc];
    assert q == Config(lower + [h], q.store);
    EntersBody(P, load, lower, h, q.store);
    RunOne(P, q);
    var n := LoadDataTraps(P, st, gl);
    LoadDataCalls(P, |st.globals|);
    assert body[0..|body|] == body;
    PieceTrap(P, lower + [h.(pc := h.pc + 1)], Frame(load, 0, body, 0, [], [], []), body, q.store, Bounds, n);
    RunAdd(P, Next(q), 1, n + 1);
    k := 1 + (n + 1);
  }

  lemma InspectedFunction(P: Program, P2: Program, I: Position)
    requires Inspected(P, P2, I)
    ensures I.fn < |P.funcs| <= |P2.funcs| && P.funcs[I.fn].Defined? && GoodCode(P2, I.code)
  {
  }

  lemma StartProper(P: Program, fn: nat, args: seq<Value>, st: Machine.Store)
    requires fn < |P.funcs| && P.funcs[fn].Defined?
    ensures Proper(P, Start(P, fn, args, st).frames)
  {
  }
}
