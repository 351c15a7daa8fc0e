/**
 * Where the backtrace stops being right: a buffer that is full, and functions the name table does not
 * know; and what can be said of a program beforehand.
 */
module BacktraceLimits {
  import opened Values
  import opened Machine
  import opened Weaving
  import opened Embedding
  import opened Fragments
  import opened StraightLine
  import opened Simulation
  import opened Runs
  import opened Meaning
  import opened EventBuffer
  import opened BacktraceHooks
  import opened Backtrace

  // ----- a full buffer -----

  /** The owned state behind a hook that has stored its event elsewhere. */
  function Advanced(own: Own, n: nat): Own
    requires |own.globals| >= OWN_GLOBALS
  {
    own.(globals := own.globals[IOBUF_LEN := Int32(n)])
  }

  /** The program's memory with the event at address 0. */
  function Clobbered(st: Store, v: int): Store
    requires |st.mem| >= 4
  {
    st.(mem := Write(st.mem, 0, Encode(Int32(v))))
  }

  /**
   * The hook's store on a full buffer: the address is the first behind the page. It is outside the memory,
   * unless the page ends with the address space: then it wraps around to 0.
   */
  lemma FullStore(size: nat, own: Own, n: nat, v: int, locals: seq<Value>, stack: seq<Value>, st: Store)
    requires |st.mem| == size && BufferAt(size, own, n) && n + 4 > CAPACITY
    ensures var k := stack + [Int32(size + IOBUF + n)] + [Int32(v)];
      var r := Exec(Machine.Instr.Store(I32, 0), locals, k, Join(st, own));
      && (size + PAGE < WORD ==> r == Bad(Bounds))
      && (size + PAGE == WORD && n == CAPACITY ==> r == Ok(locals, stack, Join(Clobbered(st, v), own)))
  {
    hide Encode, Write;
    var k, bs := stack + [Int32(size + IOBUF + n)] + [Int32(v)], Encode(Int32(v));
    assert k[..|k| - 2] == stack && k[|k| - 1] == Int32(v);
    if size + PAGE == WORD && n == CAPACITY {
      assert k[|k| - 2].bits == 0;
      WriteJoin(st.mem, 0, bs, own.mem);
    }
  }

  /** The hook on a full buffer traps, or overwrites the first four bytes of the program's memory. */
  lemma FullHookEffect(globals: nat, size: nat, own: Own, n: nat, v: int,
                       locals: seq<Value>, stack: seq<Value>, st: Store)
    requires |st.globals| == globals && |st.mem| == size && BufferAt(size, own, n) && n + 4 > CAPACITY
    ensures AllSimple(HookCode(globals, v))
    ensures var r := Effects(HookCode(globals, v), locals, stack, Join(st, own));
      && (size + PAGE < WORD ==> r == Bad(Bounds))
      && (size + PAGE == WORD && n == CAPACITY ==>
            r == Ok(locals, stack, Join(Clobbered(st, v), Advanced(own, n + 4))))
  {
    hide Exec, Join, Effects, Write, Encode;
    var push := Op(Const(Int32(v)), [I32]);
    var a, mid, z := AddrCode(globals), [push, Op(Machine.Instr.Store(I32, 0), [])], AdvanceCode(globals, 4);
    var k, s := stack + [Int32(size + IOBUF + n)], Join(st, own);
    AddrEffect(globals, size, own, n, locals, stack, st);
    PushConst(Int32(v), locals, k, s);
    FullStore(size, own, n, v, locals, stack, st);
    PairEffect(mid, locals, k, s, k + [Int32(v)]);
    if size + PAGE == WORD && n == CAPACITY {
      AdvanceEffect(globals, own, n, 4, locals, stack, Clobbered(st, v));
    } else {
      AdvanceEffect(globals, own, n, 4, locals, stack, st);
    }
    EffectsAppend(a, mid, locals, stack, s);
    EffectsAppend(a + mid, z, locals, stack, s);
  }

  /** Two instructions, the first of which only pushes. */
  lemma PairEffect(code: Code, locals: seq<Value>, k: seq<Value>, s: Store, k2: seq<Value>)
    requires |code| == 2 && AllSimple(code) && Exec(code[0].instr, locals, k, s) == Ok(locals, k2, s)
    ensures Effects(code, locals, k, s) == Exec(code[1].instr, locals, k2, s)
  {
    hide Exec;
    var rest := code[1..];
    assert rest[0] == code[1] && rest[1..] == [];
    assert Effects(rest, locals, k2, s) == Exec(code[1].instr, locals, k2, s);
  }

  /** The hook of a full buffer has stored its event where it does not belong. */
  ghost predicate Overflown(size: nat, mem: seq<Byte>, v: int, o: Outcome) {
    if size + PAGE < WORD then o == Trap(Bounds)
    else o.Next? && |mem| >= 4 && size <= |o.c.store.mem| && o.c.store.mem[..size] == Write(mem, 0, Encode(Int32(v)))
  }

  lemma FullHookRuns(P2: Program, globals: nat, size: nat, lower: seq<Frame>, h: Frame, st: Store, own: Own,
                     n: nat, v: int) returns (m: nat)
    requires Closed(P2) && |st.globals| == globals && |st.mem| == size && BufferAt(size, own, n) && n == CAPACITY
    requires var g := HookCode(globals, v); h.pc + |g| <= |h.code| && h.code[h.pc..h.pc + |g|] == g
    ensures Overflown(size, st.mem, v, Run(P2, Next(Config(lower + [h], Join(st, own))), m))
  {
    hide Run, Step, Effects, Join, HookCode, Write, Encode, RunsClean;
    var g, s := HookCode(globals, v), Join(st, own);
    FullHookEffect(globals, size, own, n, v, h.locals, h.stack, st);
    HookCodeGood(P2, globals, v);
    assert g[0..] == g;
    if size + PAGE < WORD {
      var k := StraightFails(P2, g, 0, h.locals, h.stack, s);
      PieceTrap(P2, lower, h, g, s, Bounds, k);
      m := k + 1;
    } else {
      var s2 := Join(Clobbered(st, v), Advanced(own, n + 4));
      StraightClean(P2, g, h.locals, h.stack, s, s2);
      PieceRun(P2, lower, h, g, s, s2, |g|);
      m := |g|;
      JoinedMemory(Clobbered(st, v), Advanced(own, n + 4));
    }
  }

  lemma JoinedMemory(st: Store, own: Own)
    ensures Join(st, own).mem[..|st.mem|] == st.mem && |Join(st, own).mem| >= |st.mem|
  {
  }

  /** The code of the gap's first piece, and of the rest. */
  lemma FirstPiece(ps: seq<Piece>, h: Frame)
    requires ps != [] && h.pc + |GapCode(ps)| <= |h.code| && h.code[h.pc..h.pc + |GapCode(ps)|] == GapCode(ps)
    ensures var g, rest := ps[0].frag.code, GapCode(ps[1..]);
      && h.pc + |g| + |rest| <= |h.code| && h.code[h.pc..h.pc + |g|] == g
      && h.code[h.pc + |g|..h.pc + |g| + |rest|] == rest
  {
    var g, rest := ps[0].frag.code, GapCode(ps[1..]);
    GapOfFirst(ps);
    assert |GapCode(ps)| == |g| + |rest|;
    hide GapCode;
    SplitSlice(h.code, h.pc, g, rest);
  }

  lemma GapOfFirst(ps: seq<Piece>)
    requires ps != []
    ensures GapCode(ps) == ps[0].frag.code + GapCode(ps[1..])
  {
  }

  lemma OneHookRuns(P2: Program, globals: nat, size: nat, lower: seq<Frame>, h: Frame, st: Store, own: Own,
                    ev: seq<int>, v: int) returns (m: nat, own1: Own)
    requires Closed(P2) && |st.globals| == globals && |st.mem| == size
    requires Recorded(size, own, ev) && 4 * |ev| + 4 <= CAPACITY
    requires var g := HookCode(globals, v); h.pc + |g| <= |h.code| && h.code[h.pc..h.pc + |g|] == g
    ensures Run(P2, Next(Config(lower + [h], Join(st, own))), m)
         == Next(Config(lower + [h.(pc := h.pc + |HookCode(globals, v)|)], Join(st, own1)))
    ensures Recorded(size, own1, ev + [v])
  {
    hide Run, Effects, Join, HookCode, Write, Encode, RunsClean;
    var g, n, bs := HookCode(globals, v), 4 * |ev|, Encode(Int32(v));
    own1 := Appended(own, n, bs);
    HookEffect(globals, size, own, n, v, h.locals, h.stack, st);
    HookCodeGood(P2, globals, v);
    StraightClean(P2, g, h.locals, h.stack, Join(st, own), Join(st, own1));
    PieceRun(P2, lower, h, g, Join(st, own), Join(st, own1), |g|);
    m := |g|;
    AppendedContent(own, n, bs);
    EventBytesAppend(ev, v);
  }

  /** Hooks for more events than there is room for: those that fit run, the next one overflows. */
  lemma {:induction false} HooksOverflow(P2: Program, I: Inspection, size: nat, ps: seq<Piece>, lower: seq<Frame>,
                                         h: Frame, st: Store, own: Own, ev: seq<int>) returns (m: nat, v: int)
    requires Closed(P2) && AllHooks(I, ps) && 4 * |ev| <= CAPACITY < 4 * (|ev| + |ps|)
    requires |st.globals| == |I.globals| && |st.mem| == size && Recorded(size, own, ev)
    requires h.pc + |GapCode(ps)| <= |h.code| && h.code[h.pc..h.pc + |GapCode(ps)|] == GapCode(ps)
    ensures v in Emits(ps) && Overflown(size, st.mem, v, Run(P2, Next(Config(lower + [h], Join(st, own))), m))
    decreases |ps|
  {
    hide Run, Join, HookCode, Content, EventBytes, Overflown;
    var w: int :| ps[0] == HookPiece(|I.globals|, w);
    FirstPiece(ps, h);
    if 4 * |ev| == CAPACITY {
      v := w;
      m := FullHookRuns(P2, |I.globals|, size, lower, h, st, own, CAPACITY, v);
    } else {
      var m1, own1 := OneHookRuns(P2, |I.globals|, size, lower, h, st, own, ev, w);
      var h1 := h.(pc := h.pc + |ps[0].frag.code|);
      var m2;
      m2, v := HooksOverflow(P2, I, size, ps[1..], lower, h1, st, own1, ev + [w]);
      RunAdd(P2, Next(Config(lower + [h], Join(st, own))), m1, m2);
      m := m1 + m2;
    }
  }

  // ----- in whole runs -----

  /** The first step whose events do not fit. */
  lemma {:induction false} FirstFull(P: Program, W: World, c: Config, n: nat) returns (k: nat)
    requires CAPACITY < 4 * |Log(P, W, c, n)|
    ensures k < n && 4 * |Log(P, W, c, k)| <= CAPACITY < 4 * |Log(P, W, c, k + 1)|
  {
    hide Run, PiecesAt;
    if CAPACITY < 4 * |Log(P, W, c, n - 1)| {
      k := FirstFull(P, W, c, n - 1);
    } else {
      k := n - 1;
    }
  }

  /** In front of a gap whose hooks overflow. */
  lemma GapOverflows(P: Program, P2: Program, I: Inspection, size: nat, W: World, c: Config, d: Config, own: Own,
                     ev: seq<int>, ps: seq<Piece>) returns (m: nat, v: int)
    requires W == BtWorld(P, I, size) && Instrumented(P, P2, W) && Match(P, P2, W, c, d, own) && W.rep(own, ev)
    requires AllHooks(I, ps) && 4 * |ev| <= CAPACITY < 4 * (|ev| + |ps|)
    requires var h := Top(d); h.pc + |GapCode(ps)| <= |h.code| && h.code[h.pc..h.pc + |GapCode(ps)|] == GapCode(ps)
    ensures v in Emits(ps) && Overflown(size, c.store.mem, v, StateAt(P2, d, m))
  {
    hide Run, HookCode, Content, EventBytes, Overflown, AllHooks, GapCode, Emits, FrameMatch, BtPlan;
    InstrumentedParts(P, P2, W, c.store, own, ev);
    assert d == Config(d.frames[..|d.frames| - 1] + [Top(d)], Join(c.store, own));
    assert |TypesOf(c.store.globals)| == |I.globals|;
    m, v := HooksOverflow(P2, I, size, ps, d.frames[..|d.frames| - 1], Top(d), c.store, own, ev);
  }

  /** Away from the inspection point the gap in front of control is hooks only. */
  lemma HooksInPlace(P: Program, P2: Program, I: Inspection, size: nat, W: World, c: Config, d: Config, own: Own)
    requires W == BtWorld(P, I, size) && Woven(P, P2, W) && Match(P, P2, W, c, d, own)
    requires !(Top(c).fn == I.fn && Top(c).pc == I.line) && Proper(P, c.frames)
    ensures AllHooks(I, PiecesAt(W, c)) && |Emits(PiecesAt(W, c))| == |PiecesAt(W, c)|
    ensures var h, g := Top(d), GapCode(PiecesAt(W, c)); h.pc + |g| <= |h.code| && h.code[h.pc..h.pc + |g|] == g
  {
    hide Woven, BtPieces, WovenCode, Site, Arrive, GapCode, AllHooks, Emits;
    TopOfMatch(P, P2, W, c, d, own);
    GapInPlace(W, Top(c), Top(d));
    PiecesOfPlan(P, I, W, c);
    HooksAwayFromInspection(I, Top(c).fn, Top(c).code, Top(c).pc);
    HookCount(I, PiecesAt(W, c));
  }

  lemma OverflowsBefore(P: Program, P2: Program, I: Inspection, size: nat, W: World, c0: Config, d: Config, own: Own,
                        n: nat) returns (k: nat, m: nat, v: int)
    requires W == BtWorld(P, I, size) && Instrumented(P, P2, W) && Match(P, P2, W, c0, d, own) && W.rep(own, [])
    requires Proper(P, c0.frames) && NotYet(P, I, c0, n) && CAPACITY < 4 * |Log(P, W, c0, n)|
    ensures k < n && StateAt(P, c0, k).Next? && v in Log(P, W, c0, n)
    ensures Overflown(size, StateAt(P, c0, k).c.store.mem, v, StateAt(P2, d, m))
  {
    hide Run, Overflown, Instrumented, Match, Proper, ReadyFor, BtPlan, Emits, GapCode, AllHooks, Recording, PiecesAt;
    k := FirstFull(P, W, c0, n);
    LogGrows(P, W, c0, k + 1, n);
    var ev, o := Log(P, W, c0, k), StateAt(P, c0, k);
    assert Log(P, W, c0, k + 1) == ev + if o.Next? then Emits(PiecesAt(W, o.c)) else [];
    assert o.Next?;
    RunReady(P, P2, I, size, W, c0, k);
    assert [] + ev == ev;
    var m1, own1 := RunLifts(P, P2, W, c0, d, own, [], k);
    var q := StateAt(P2, d, m1).c;
    ProperRun(P, c0, k);
    InstrumentedIsWoven(P, P2, W);
    HooksInPlace(P, P2, I, size, W, o.c, q, own1);
    var m2;
    m2, v := GapOverflows(P, P2, I, size, W, o.c, q, own1, ev, PiecesAt(W, o.c));
    RunAdd(P2, Next(d), m1, m2);
    m := m1 + m2;
    assert v in Log(P, W, c0, k + 1);
    InPrefix(Log(P, W, c0, k + 1), Log(P, W, c0, n), v);
  }

  lemma InPrefix(a: seq<int>, b: seq<int>, v: int)
    requires a <= b && v in a
    ensures v in b
  {
    var j :| 0 <= j < |a| && a[j] == v;
    assert b[j] == v;
  }

  lemma InstrumentedIsWoven(P: Program, P2: Program, W: World)
    requires Instrumented(P, P2, W)
    ensures Woven(P, P2, W)
  {
  }

  /** The pop in front of the inspection code is the event too many. */
  lemma PopOverflows(P: Program, P2: Program, I: Inspection, size: nat, W: World, c: Config, d: Config, own: Own,
                     ev: seq<int>) returns (m: nat, v: int)
    requires W == BtWorld(P, I, size) && Instrumented(P, P2, W) && Match(P, P2, W, c, d, own) && W.rep(own, ev)
    requires Proper(P, c.frames) && Top(c).fn == I.fn && Top(c).pc == I.line
    requires 4 * |ev| <= CAPACITY < 4 * |ev + LastPop(I, Top(c).code)|
    ensures v in LastPop(I, Top(c).code) && Overflown(size, c.store.mem, v, StateAt(P2, d, m))
  {
    hide Run, Recording, HookCode, HookedAt, PopPieces, BtPieces, Join, Weave, GapCode, FrameRel, WovenCode, BtPlan,
      CallsKnown, Overflown, AllHooks;
    InstrumentedIsWoven(P, P2, W);
    TopOfMatch(P, P2, W, c, d, own);
    var f := Top(c);
    var pops := PopPieces(I, I.fn, f.code, f.pc);
    InspectionInPlace(P, I, W, f, Top(d));
    HooksAwayFromInspection(I, I.fn, f.code, f.pc);
    PopsEmit(I, I.fn, f.code, f.pc);
    m, v := GapOverflows(P, P2, I, size, W, c, d, own, ev, pops);
  }

  /**
   * The room is needed: whenever a run of the original first stands at the inspected line, and the events
   * of that run do not fit the buffer, the instrumented program traps before it gets there, or, if the
   * page is the last of the address space, stores an event over the program's memory.
   */
  lemma BacktraceOverflows(P: Program, P2: Program, I: Inspection, size: nat,
                           fn: nat, args: seq<Value>, st: Store, own: Own, n: nat, c: Config)
    returns (k: nat, m: nat, v: int)
    requires HookedProgram(P, P2, I) && Regular(P, P2, Some(size))
    requires fn < |P.funcs| && P.funcs[fn].Defined?
    requires TypesOf(st.globals) == I.globals && |st.mem| == size && Recorded(size, own, [])
    requires StateAt(P, Start(P, fn, args, st), n) == Next(c) && c.frames != []
    requires Top(c).fn == I.fn && Top(c).pc == I.line && NotYet(P, I, Start(P, fn, args, st), n)
    requires CAPACITY < 4 * |Log(P, BtWorld(P, I, size), Start(P, fn, args, st), n) + LastPop(I, Top(c).code)|
    ensures P2.funcs[fn].Defined? && k <= n && StateAt(P, Start(P, fn, args, st), k).Next?
    ensures v in Log(P, BtWorld(P, I, size), Start(P, fn, args, st), n) + LastPop(I, Top(c).code)
    ensures Overflown(size, StateAt(P, Start(P, fn, args, st), k).c.store.mem, v,
                      StateAt(P2, Start(P2, fn, args, Join(st, own)), m))
  {
    hide Run, Regular, Instrumented, HookedAt, Log, NotYet, Join, Match, Proper, Start, Overflown, Recording, ReadyFor,
      LastPop, BtPlan;
    var W, c0 := BtWorld(P, I, size), Start(P, fn, args, st);
    HookedIsInstrumented(P, P2, I, W);
    StartMatches(P, P2, W, fn, args, st, own);
    StartPending(P, I, fn, args, st);
    StartRecorded(size, own);
    var d := Start(P2, fn, args, Join(st, own));
    if CAPACITY < 4 * |Log(P, W, c0, n)| {
      k, m, v := OverflowsBefore(P, P2, I, size, W, c0, d, own, n);
    } else {
      k := n;
      m, v := OverflowsAtLine(P, P2, I, size, W, c0, d, own, n, c);
    }
  }

  lemma OverflowsAtLine(P: Program, P2: Program, I: Inspection, size: nat, W: World, c0: Config, d: Config, own: Own,
                        n: nat, c: Config) returns (m: nat, v: int)
    requires W == BtWorld(P, I, size) && Instrumented(P, P2, W) && Match(P, P2, W, c0, d, own) && W.rep(own, [])
    requires Proper(P, c0.frames) && NotYet(P, I, c0, n) && StateAt(P, c0, n) == Next(c) && c.frames != []
    requires Top(c).fn == I.fn && Top(c).pc == I.line
    requires 4 * |Log(P, W, c0, n)| <= CAPACITY < 4 * |Log(P, W, c0, n) + LastPop(I, Top(c).code)|
    ensures v in LastPop(I, Top(c).code) && Overflown(size, c.store.mem, v, StateAt(P2, d, m))
  {
    hide Run, Instrumented, Log, NotYet, Match, Proper, Overflown, Recording, ReadyFor, LastPop, BtPlan;
    RunReady(P, P2, I, size, W, c0, n);
    ProperRun(P, c0, n);
    var ev := Log(P, W, c0, n);
    assert [] + ev == ev;
    var m1, own1 := RunLifts(P, P2, W, c0, d, own, [], n);
    var m2;
    m2, v := PopOverflows(P, P2, I, size, W, c, StateAt(P2, d, m1).c, own1, ev);
    RunAdd(P2, Next(d), m1, m2);
    m := m1 + m2;
  }

  lemma StartRecorded(size: nat, own: Own)
    requires Recorded(size, own, [])
    ensures Recording(size)(own, [])
  {
  }

  // ----- names -----

  /** Every function called on a line the pass reaches has an internal name that is also a shown name. */
  ghost predicate CalleesShown(P: Program, I: Inspection, fds: seq<FuncName>) {
    forall fn: nat, k: nat :: fn < |P.funcs| && P.funcs[fn].Defined? && HookedAt(I, fn, P.funcs[fn].code, k) ==>
      var t := P.funcs[fn].code[k].instr.target;
      t < |fds| && exists j :: 0 <= j < |fds| && Shown(fds[j]) == fds[t].name
  }

  /** The events are those of the names of the program's functions. */
  ghost predicate EventsOf(P: Program, I: Inspection, fds: seq<FuncName>, names: seq<string>, table: map<string, nat>) {
    TableOf(fds, names, table) && |fds| == |P.funcs| <= 0x8000_0000 && forall t :: I.event(t) == EventOf(fds, table, t)
  }

  lemma KnownIffShown(P: Program, I: Inspection, fds: seq<FuncName>, names: seq<string>, table: map<string, nat>)
    requires EventsOf(P, I, fds, names, table)
    ensures KnownCallees(P, I) <==> CalleesShown(P, I, fds)
  {
    hide TableOf;
    forall fn: nat, k: nat | fn < |P.funcs| && P.funcs[fn].Defined? && HookedAt(I, fn, P.funcs[fn].code, k)
      ensures P.funcs[fn].code[k].instr.Call?
      ensures var t := P.funcs[fn].code[k].instr.target;
        I.event(t) != -2 <==> t < |fds| && exists j :: 0 <= j < |fds| && Shown(fds[j]) == fds[t].name
    {
      var t := P.funcs[fn].code[k].instr.target;
      if t < |fds| {
        EventNamesTarget(fds, names, table, t);
      }
    }
  }

  lemma EventRange(P: Program, I: Inspection, fds: seq<FuncName>, names: seq<string>, table: map<string, nat>)
    requires EventsOf(P, I, fds, names, table)
    ensures forall t :: -2 <= I.event(t) < 0x8000_0000 && I.event(t) != -1
    ensures forall t :: I.event(t) != -2 ==> 0 <= I.event(t) < |names|
  {
    forall t: nat
      ensures -2 <= I.event(t) < 0x8000_0000 && I.event(t) != -1
      ensures I.event(t) != -2 ==> 0 <= I.event(t) < |names|
    {
      assert I.event(t) == EventOf(fds, table, t);
      if t < |fds| {
        EventNamesTarget(fds, names, table, t);
      }
    }
  }

  /** The pending calls of known functions are indices of names. */
  lemma {:induction false} PendingInRange(P: Program, I: Inspection, fs: seq<Frame>, m: nat)
    requires KnownCallees(P, I) && forall f :: f in fs ==> FrameOf(P, f)
    requires forall t :: I.event(t) != -2 ==> 0 <= I.event(t) < m
    ensures forall e :: e in PendingAll(I, fs) ==> 0 <= e < m
  {
    hide Pending, KnownCallees;
    if fs != [] {
      PendingInRange(P, I, fs[..|fs| - 1], m);
      OnePending(P, I, fs[|fs| - 1], m);
    }
  }

  lemma OnePending(P: Program, I: Inspection, f: Frame, m: nat)
    requires KnownCallees(P, I) && FrameOf(P, f)
    requires forall t :: I.event(t) != -2 ==> 0 <= I.event(t) < m
    ensures forall e :: e in Pending(I, f) ==> 0 <= e < m
  {
    var k := f.pc - 1;
    if HookedAt(I, f.fn, f.code, k) {
      assert I.event(P.funcs[f.fn].code[k].instr.target) != -2;
    }
  }

  /**
   * What can be checked beforehand: if every function called on a hooked line is known by its internal
   * name, and the events fit, the backtrace is not rejected, and all it decodes to are indices of names.
   */
  lemma ShownBacktrace(P: Program, P2: Program, I: Inspection, size: nat, fds: seq<FuncName>, names: seq<string>,
                       table: map<string, nat>, fn: nat, args: seq<Value>, st: Store, own: Own, n: nat, c: Config)
    returns (m: nat, own2: Own, len: nat)
    requires HookedProgram(P, P2, I) && Regular(P, P2, Some(size))
    requires EventsOf(P, I, fds, names, table) && CalleesShown(P, I, fds)
    requires fn < |P.funcs| && P.funcs[fn].Defined?
    requires TypesOf(st.globals) == I.globals && |st.mem| == size && Recorded(size, own, [])
    requires StateAt(P, Start(P, fn, args, st), n) == Next(c) && c.frames != []
    requires Top(c).fn == I.fn && Top(c).pc == I.line && NotYet(P, I, Start(P, fn, args, st), n)
    requires 4 * |Log(P, BtWorld(P, I, size), Start(P, fn, args, st), n) + LastPop(I, Top(c).code)| <= CAPACITY
    ensures P2.funcs[fn].Defined?
    ensures var d := Start(P2, fn, args, Join(st, own));
      StateAt(P2, d, m).Next? && AtInspection(I, c, StateAt(P2, d, m).c, own2)
    ensures BufferAt(size, own2, len)
    ensures var idx := PendingAll(I, c.frames[..|c.frames| - 1]);
      && Unwind(ReadInts(Content(own2, len)), []) == Some(idx)
      && forall k :: 0 <= k < |idx| ==> 0 <= idx[k] < |names|
  {
    hide Run, Regular, HookedProgram, CalleesShown, EventsOf, KnownCallees, Log, LastPop, NotYet, MetUnknown, Join,
      AtInspection, Unwind, ReadInts, Start, PendingAll, Recorded, BufferAt, Proper;
    EventRange(P, I, fds, names, table);
    KnownIffShown(P, I, fds, names, table);
    StartPending(P, I, fn, args, st);
    KnownNeverRejected(P, I, Start(P, fn, args, st), n);
    m, own2, len := BacktraceCorrect(P, P2, I, size, fn, args, st, own, n, c);
    ProperRun(P, Start(P, fn, args, st), n);
    CallersOf(P, c.frames);
    PendingInRange(P, I, c.frames[..|c.frames| - 1], |names|);
    var idx := PendingAll(I, c.frames[..|c.frames| - 1]);
    assert forall k :: 0 <= k < |idx| ==> idx[k] in idx;
  }

  lemma CallersOf(P: Program, fs: seq<Frame>)
    requires Proper(P, fs)
    ensures forall f :: f in fs[..|fs| - 1] ==> FrameOf(P, f)
  {
  }

  // ----- a program whose backtrace is rejected -----

  /** The import `log`, which the module calls `print`, and a function that calls it. */
  const RENAMED: seq<FuncName> := [FuncName("print", Some("log")), FuncName("main", None)]
  const CALL_IMPORT: seq<Func> := [Import(FuncType([], [])), Defined(FuncType([], []), [], [Op(Call(0), [])])]

  /**
   * Inspected behind the call, where only `main` is active, the program leaves a file the decoder rejects,
   * although the call of the import has returned.
   */
  lemma RenamedImportRejected(P: Program, P2: Program, I: Inspection, names: seq<string>, table: map<string, nat>,
                              st: Store, own: Own)
    returns (m: nat, own2: Own, len: nat)
    requires P.funcs == CALL_IMPORT && P.host(0, [], st.mem, st.world).Some?
    requires EventsOf(P, I, RENAMED, names, table) && I.scope == {1} && I.fn == 1 && I.line == 1
    requires HookedProgram(P, P2, I) && Regular(P, P2, Some(|st.mem|)) && I.globals == TypesOf(st.globals)
    requires Recorded(|st.mem|, own, [])
    ensures P2.funcs[1].Defined? && StateAt(P2, Start(P2, 1, [], Join(st, own)), m).Next?
    ensures StateAt(P, Start(P, 1, [], st), 1).Next?
    ensures AtInspection(I, StateAt(P, Start(P, 1, [], st), 1).c, StateAt(P2, Start(P2, 1, [], Join(st, own)), m).c, own2)
    ensures BufferAt(|st.mem|, own2, len) && Unwind(ReadInts(Content(own2, len)), []) == None
  {
    hide Run, Step, Regular, HookedProgram, EventsOf, Join, AtInspection, Unwind, ReadInts, Recorded, BufferAt;
    var c0, size := Start(P, 1, [], st), |st.mem|;
    var code := CALL_IMPORT[1].code;
    var c := CallsImport(P, st);
    RunOne(P, c0);
    EventRange(P, I, RENAMED, names, table);
    UnknownPrint(P, I, names, table);
    NoSteps(P, c0);
    assert CallsUnknown(I, c0);
    assert MetUnknown(P, I, c0, 1);
    assert NotYet(P, I, c0, 1);
    ShortLog(P, I, size, c0);
    m, own2, len := BacktraceCorrect(P, P2, I, size, 1, [], st, own, 1, c);
  }

  lemma NoSteps(P: Program, c: Config)
    ensures StateAt(P, c, 0) == Next(c)
  {
  }

  lemma CallsImport(P: Program, st: Store) returns (c: Config)
    requires P.funcs == CALL_IMPORT && P.host(0, [], st.mem, st.world).Some?
    ensures Step(P, Start(P, 1, [], st)) == Next(c) && |c.frames| == 1
    ensures Top(c).fn == 1 && Top(c).pc == 1 && Top(c).code == CALL_IMPORT[1].code
  {
    var c0 := Start(P, 1, [], st);
    var f := c0.frames[0];
    assert c0.frames[..0] == [] && f.stack[0..] == [];
    assert Decide(P, f, st) == Invoke(P, f, 0, st);
    c := Step(P, c0).c;
  }

  lemma UnknownPrint(P: Program, I: Inspection, names: seq<string>, table: map<string, nat>)
    requires EventsOf(P, I, RENAMED, names, table)
    ensures I.event(0) == -2
  {
    EventNamesTarget(RENAMED, names, table, 0);
    assert Shown(RENAMED[0]) == "log" && Shown(RENAMED[1]) == "main";
    assert |"log"| != |"print"| && |"main"| != |"print"|;
  }

  lemma ShortLog(P: Program, I: Inspection, size: nat, c0: Config)
    requires Proper(P, c0.frames)
    ensures |Log(P, BtWorld(P, I, size), c0, 1)| <= 2
  {
    hide BtPieces, HookedAt;
    var W := BtWorld(P, I, size);
    assert StateAt(P, c0, 0) == Next(c0);
    PiecesOfPlan(P, I, W, c0);
    GapEvents(I, Top(c0).fn, Top(c0).code, Top(c0).pc);
    assert Log(P, W, c0, 0) == [];
    assert Log(P, W, c0, 1) == Log(P, W, c0, 0) + Emits(PiecesAt(W, c0));
  }
}
