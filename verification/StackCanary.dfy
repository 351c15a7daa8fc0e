/**
 * The stack canary example: every instrumented function puts a canary below the stack pointer when
 * it is entered, and its caller checks and removes the canary when the function has returned.
 */
module StackCanary {
  import opened Values
  import opened Machine
  import opened Embedding
  import opened Fragments
  import opened StraightLine

  /** The address of the top of the program's stack, and memory. */
  datatype Region = Region(sp: nat, mem: seq<Byte>)

  const SLOT := 16

  function CanaryValue(canary: nat): Value {
    Value(I64, canary % Pow256(8))
  }

  function CanaryBytes(canary: nat): (bs: seq<Byte>)
    ensures |bs| == 8
  {
    Encode(CanaryValue(canary))
  }

  /** Inserted at the start of every function in scope; sp is the number of the stack pointer global. */
  function InjectCode(sp: nat, canary: nat): Code {
    [Op(GlobalGet(sp), [I32]), Op(Const(Int32(16)), [I32]), Op(Binary(SubInt32), [I32]), Op(GlobalSet(sp), []),
     Op(GlobalGet(sp), [I32]), Op(Const(CanaryValue(canary)), [I64]), Op(Machine.Instr.Store(I64, 0), [])]
  }

  /** Inserted behind every direct and indirect call. */
  function ValidateCode(sp: nat, canary: nat): Code {
    [Op(GlobalGet(sp), [I32]), Op(Load(I64, 0), [I64]), Op(Const(CanaryValue(canary)), [I64]),
     Op(Binary(NeInt64), [I32]), Op(IfBegin(FuncType([], [])), []), Op(Unreachable, []), Op(IfEnd, []),
     Op(GlobalGet(sp), [I32]), Op(Const(Int32(16)), [I32]), Op(Binary(AddInt32), [I32]), Op(GlobalSet(sp), [])]
  }

  // ----- what the two fragments do -----

  /** A fragment leaves the region changed, or traps. */
  datatype Guard = Pass(r: Region) | Stops(why: Reason)

  function Inject(canary: nat, r: Region): (g: Guard)
    ensures g.Pass? ==> g.r.sp < WORD
    ensures g.Stops? ==> g.why == Bounds
  {
    var a := (r.sp - SLOT) % WORD;
    if a + 8 > |r.mem| then Stops(Bounds) else Pass(Region(a, Write(r.mem, a, CanaryBytes(canary))))
  }

  function Validate(canary: nat, r: Region): (g: Guard)
    ensures g.Pass? ==> g.r.sp < WORD
    ensures g.Stops? ==> g.why != Invalid
  {
    if r.sp + 8 > |r.mem| then Stops(Bounds)
    else if r.mem[r.sp..r.sp + 8] != CanaryBytes(canary) then Stops(Stop)
    else Pass(r.(sp := (r.sp + SLOT) % WORD))
  }

  function RegionOf(sp: nat, st: Store): Region
    requires sp < |st.globals|
  {
    Region(st.globals[sp].bits, st.mem)
  }

  function WithRegion(sp: nat, st: Store, r: Region): Store
    requires sp < |st.globals| && r.sp < WORD
  {
    st.(globals := st.globals[sp := Int32(r.sp)], mem := r.mem)
  }

  lemma InjectFront(P: Program, sp: nat, canary: nat, locals: seq<Value>, stack: seq<Value>, st: Store)
    returns (n: nat)
    requires sp < |st.globals| && st.globals[sp].ty == I32
    ensures var code, a := InjectCode(sp, canary), Int32(st.globals[sp].bits - 16);
      Run(P, Next(Isolated(code, 0, locals, stack, st)), n)
        == Next(Isolated(code, 6, locals, stack + [a] + [CanaryValue(canary)], st.(globals := st.globals[sp := a])))
  {
    hide Run, Step, Exec;
    var code, c := InjectCode(sp, canary), CanaryValue(canary);
    var g, k, a := st.globals[sp], Int32(16), Int32(st.globals[sp].bits - 16);
    var s1 := st.(globals := st.globals[sp := a]);
    Pushes(locals, stack, st, sp, 16);
    Subtracts(locals, stack, st, g, 16);
    Sets(locals, stack, st, sp, a);
    Pushes(locals, stack, s1, sp, 16);
    PushesConst(locals, stack + [a], s1, c);
    var ks := [stack, stack + [g], stack + [g] + [k], stack + [a], stack, stack + [a], stack + [a] + [c]];
    n := 6;
    StepsFollow(P, code, 0, locals, ks, [st, st, st, st, s1, s1, s1]);
  }

  /** The isolated code does to the region what g says. */
  ghost predicate Performs(P: Program, sp: nat, code: Code, locals: seq<Value>, stack: seq<Value>, st: Store,
                           g: Guard, n: nat)
    requires sp < |st.globals|
  {
    match g
    case Pass(r) => r.sp < WORD && RunsClean(P, code, locals, stack, st, WithRegion(sp, st, r), n)
    case Stops(why) => RunsIntoTrap(P, code, locals, stack, st, why, n)
  }

  /** On the machine the injected code performs Inject: it traps exactly when the slot is outside the memory. */
  lemma InjectRuns(P: Program, sp: nat, canary: nat, locals: seq<Value>, stack: seq<Value>, st: Store)
    returns (n: nat)
    requires sp < |st.globals| && st.globals[sp].ty == I32
    ensures Performs(P, sp, InjectCode(sp, canary), locals, stack, st, Inject(canary, RegionOf(sp, st)), n)
  {
    hide Run, Step, Inject, InjectCode, WithRegion;
    var code, a := InjectCode(sp, canary), Int32(st.globals[sp].bits - 16);
    assert |code| == 7 by { InjectLength(sp, canary); }
    var s1 := st.(globals := st.globals[sp := a]);
    var k := InjectFront(P, sp, canary, locals, stack, st);
    RunAdd(P, Next(Isolated(code, 0, locals, stack, st)), k, 1);
    StoresCanary(P, canary, sp, a, locals, stack, st, s1);
    RunOne(P, Isolated(code, 6, locals, stack + [a] + [CanaryValue(canary)], s1));
    n := if Inject(canary, RegionOf(sp, st)).Pass? then k + 1 else k;
  }

  lemma InjectLength(sp: nat, canary: nat)
    ensures |InjectCode(sp, canary)| == 7
  {
  }

  lemma Pushes(locals: seq<Value>, stack: seq<Value>, st: Store, sp: nat, n: int)
    requires sp < |st.globals|
    ensures Exec(GlobalGet(sp), locals, stack, st) == Ok(locals, stack + [st.globals[sp]], st)
    ensures Exec(Const(Int32(n)), locals, stack + [st.globals[sp]], st) == Ok(locals, stack + [st.globals[sp]] + [Int32(n)], st)
  {
  }

  lemma PushesConst(locals: seq<Value>, stack: seq<Value>, st: Store, v: Value)
    ensures Exec(Const(v), locals, stack, st) == Ok(locals, stack + [v], st)
  {
  }

  lemma Subtracts(locals: seq<Value>, stack: seq<Value>, st: Store, v: Value, n: int)
    requires v.ty == I32 && 0 <= n < WORD
    ensures Exec(Binary(SubInt32), locals, stack + [v] + [Int32(n)], st) == Ok(locals, stack + [Int32(v.bits - n)], st)
    ensures Exec(Binary(AddInt32), locals, stack + [v] + [Int32(n)], st) == Ok(locals, stack + [Int32(v.bits + n)], st)
  {
    var k := stack + [v] + [Int32(n)];
    assert k[..|k| - 2] == stack;
  }

  lemma Sets(locals: seq<Value>, stack: seq<Value>, st: Store, sp: nat, v: Value)
    requires sp < |st.globals| && st.globals[sp].ty == v.ty
    ensures Exec(GlobalSet(sp), locals, stack + [v], st) == Ok(locals, stack, st.(globals := st.globals[sp := v]))
  {
    assert (stack + [v])[..|stack|] == stack;
  }

  lemma StoresCanary(P: Program, canary: nat, sp: nat, a: Value, locals: seq<Value>, stack: seq<Value>, st: Store, s1: Store)
    requires sp < |st.globals| && a == Int32(st.globals[sp].bits - 16) && s1 == st.(globals := st.globals[sp := a])
    ensures var code, o := InjectCode(sp, canary), Inject(canary, RegionOf(sp, st));
      var c := Isolated(code, 6, locals, stack + [a] + [CanaryValue(canary)], s1);
      && (o.Pass? ==> Step(P, c) == Next(Isolated(code, 7, locals, stack, WithRegion(sp, st, o.r))))
      && (o.Stops? ==> Step(P, c) == Trap(o.why))
  {
    hide Write, Encode;
    var code, v := InjectCode(sp, canary), CanaryValue(canary);
    var k := stack + [a] + [v];
    var c := Isolated(code, 6, locals, k, s1);
    assert k[..|k| - 2] == stack && k[|k| - 2] == a && k[|k| - 1] == v;
    assert Int32(a.bits) == a;
    assert c.frames[..0] == [];
    if a.bits + 8 <= |st.mem| {
      OneStraightStep(P, code, 6, locals, k, s1);
    } else {
      assert Decide(P, c.frames[0], s1) == Machine.Straight(c.frames[0], code[6].instr, s1);
    }
  }

  // ----- validation -----

  lemma LoadsSlot(sp: nat, locals: seq<Value>, stack: seq<Value>, st: Store)
    requires sp < |st.globals| && st.globals[sp].ty == I32
    ensures var g := st.globals[sp];
      Exec(Load(I64, 0), locals, stack + [g], st) ==
        if g.bits + 8 > |st.mem| then Bad(Bounds)
        else Ok(locals, stack + [Decode(I64, st.mem[g.bits..g.bits + 8])], st)
  {
    var g := st.globals[sp];
    assert (stack + [g])[..|stack|] == stack;
  }

  lemma Compares(locals: seq<Value>, stack: seq<Value>, st: Store, v: Value, w: Value)
    requires v.ty == w.ty == I64
    ensures Exec(Binary(NeInt64), locals, stack + [v] + [w], st) == Ok(locals, stack + [Bool32(v.bits != w.bits)], st)
  {
    var k := stack + [v] + [w];
    assert k[..|k| - 2] == stack;
  }

  /** The slot holds the canary's bytes exactly when the loaded number is the canary. */
  lemma SlotIsCanary(canary: nat, bs: seq<Byte>)
    requires |bs| == 8
    ensures Decode(I64, bs).bits == CanaryValue(canary).bits <==> bs == CanaryBytes(canary)
  {
    BytesRoundTrip(CanaryValue(canary).bits, 8);
    if FromBytes(bs) == FromBytes(CanaryBytes(canary)) {
      BytesInjective(bs, CanaryBytes(canary));
    }
  }

  lemma {:induction false} BytesInjective(a: seq<Byte>, b: seq<Byte>)
    requires |a| == |b| && FromBytes(a) == FromBytes(b)
    ensures a == b
  {
    if a != [] {
      BytesInjective(a[1..], b[1..]);
      assert a == [a[0]] + a[1..] && b == [b[0]] + b[1..];
    }
  }

  /** The check up to the test: one exits behind the `if`, the other is at `unreachable`. */
  lemma ValidateTest(P: Program, sp: nat, canary: nat, locals: seq<Value>, stack: seq<Value>, st: Store)
    returns (n: nat)
    requires sp < |st.globals| && st.globals[sp].ty == I32 && st.globals[sp].bits + 8 <= |st.mem|
    ensures var code, a := ValidateCode(sp, canary), st.globals[sp].bits;
      var differs := st.mem[a..a + 8] != CanaryBytes(canary);
      Run(P, Next(Isolated(code, 0, locals, stack, st)), n)
        == Next(Isolated(code, 4, locals, stack + [Bool32(differs)], st))
  {
    hide Run, Step, Exec;
    var code, c, g := ValidateCode(sp, canary), CanaryValue(canary), st.globals[sp];
    var bs := st.mem[g.bits..g.bits + 8];
    var v := Decode(I64, bs);
    SlotIsCanary(canary, bs);
    Pushes(locals, stack, st, sp, 16);
    LoadsSlot(sp, locals, stack, st);
    PushesConst(locals, stack + [v], st, c);
    Compares(locals, stack, st, v, c);
    var ks := [stack, stack + [g], stack + [v], stack + [v] + [c], stack + [Bool32(v.bits != c.bits)]];
    n := 4;
    StepsFollow(P, code, 0, locals, ks, [st, st, st, st, st]);
  }

  /** The check when it has found the slot changed: control is at `unreachable`. */
  function AtUnreachable(sp: nat, canary: nat, locals: seq<Value>, stack: seq<Value>, st: Store): Config {
    Config([Frame(0, 0, ValidateCode(sp, canary), 5, locals, stack, [Label(4, |stack|)])], st)
  }

  lemma ValidateBranch(P: Program, sp: nat, canary: nat, locals: seq<Value>, stack: seq<Value>, st: Store, differs: bool)
    ensures var code := ValidateCode(sp, canary);
      var c := Isolated(code, 4, locals, stack + [Bool32(differs)], st);
      && (!differs ==> Step(P, c) == Next(Isolated(code, 7, locals, stack, st)))
      && (differs ==> Step(P, c) == Next(AtUnreachable(sp, canary, locals, stack, st)))
  {
    var code := ValidateCode(sp, canary);
    var c := Isolated(code, 4, locals, stack + [Bool32(differs)], st);
    var f := c.frames[0];
    assert c.frames[..0] == [] && f.stack[..|f.stack| - 1] == stack;
    assert FindElse(code, 5, 0) == FindElse(code, 6, 0) == 6;
    if differs {
      var f2 := f.(pc := 5, stack := stack, labels := [Label(4, |stack|)]);
      assert Decide(P, f, st) == Stay(f2, st);
      assert Step(P, c) == Next(Config([] + [f2], st));
    } else {
      assert Decide(P, f, st) == Stay(f.(pc := 7, stack := stack), st);
    }
  }

  lemma ValidateBack(P: Program, sp: nat, canary: nat, locals: seq<Value>, stack: seq<Value>, st: Store)
    returns (n: nat)
    requires sp < |st.globals| && st.globals[sp].ty == I32
    ensures var code, b := ValidateCode(sp, canary), Int32(st.globals[sp].bits + 16);
      Run(P, Next(Isolated(code, 7, locals, stack, st)), n)
        == Next(Isolated(code, 11, locals, stack, st.(globals := st.globals[sp := b])))
  {
    hide Run, Step, Exec;
    var code, g, b := ValidateCode(sp, canary), st.globals[sp], Int32(st.globals[sp].bits + 16);
    Pushes(locals, stack, st, sp, 16);
    Subtracts(locals, stack, st, g, 16);
    Sets(locals, stack, st, sp, b);
    var ks := [stack, stack + [g], stack + [g] + [Int32(16)], stack + [b], stack];
    n := 4;
    StepsFollow(P, code, 7, locals, ks, [st, st, st, st, st.(globals := st.globals[sp := b])]);
  }

  /** A load outside the memory traps. */
  lemma LoadTraps(P: Program, sp: nat, canary: nat, locals: seq<Value>, stack: seq<Value>, st: Store)
    requires sp < |st.globals| && st.globals[sp].ty == I32 && st.globals[sp].bits + 8 > |st.mem|
    ensures RunsIntoTrap(P, ValidateCode(sp, canary), locals, stack, st, Bounds, 1)
  {
    hide Step, Exec;
    var code, g := ValidateCode(sp, canary), st.globals[sp];
    var c, c1 := Isolated(code, 0, locals, stack, st), Isolated(code, 1, locals, stack + [g], st);
    Pushes(locals, stack, st, sp, 16);
    OneStraightStep(P, code, 0, locals, stack, st);
    RunOne(P, c);
    LoadsSlot(sp, locals, stack, st);
    StraightTraps(P, code, 1, locals, stack + [g], st, Bounds);
  }

  lemma UnreachableTraps(P: Program, sp: nat, canary: nat, locals: seq<Value>, stack: seq<Value>, st: Store)
    ensures var c := AtUnreachable(sp, canary, locals, stack, st); |c.frames| == 1 && Step(P, c) == Trap(Stop)
  {
    hide ValidateCode;
    var c := AtUnreachable(sp, canary, locals, stack, st);
    assert c.frames[..0] == [];
    ValidateLength(sp, canary);
    assert Decide(P, c.frames[0], st) == Fault(Stop);
  }

  /** The check with the slot inside the memory: the first steps, the branch, and the way back or out. */
  lemma CheckRuns(P: Program, sp: nat, canary: nat, locals: seq<Value>, stack: seq<Value>, st: Store)
    returns (n: nat)
    requires sp < |st.globals| && st.globals[sp].ty == I32 && st.globals[sp].bits + 8 <= |st.mem|
    ensures Performs(P, sp, ValidateCode(sp, canary), locals, stack, st, Validate(canary, RegionOf(sp, st)), n)
  {
    hide Run, Step, ValidateCode, AtUnreachable;
    var code, a := ValidateCode(sp, canary), st.globals[sp].bits;
    assert |code| == 11 by { ValidateLength(sp, canary); }
    var differs := st.mem[a..a + 8] != CanaryBytes(canary);
    var o, o4 := Next(Isolated(code, 0, locals, stack, st)), Next(Isolated(code, 4, locals, stack + [Bool32(differs)], st));
    var j := ValidateTest(P, sp, canary, locals, stack, st);
    ValidateBranch(P, sp, canary, locals, stack, st, differs);
    RunOne(P, o4.c);
    RunAdd(P, o, j, 1);
    if differs {
      UnreachableTraps(P, sp, canary, locals, stack, st);
      n := j + 1;
    } else {
      var k := ValidateBack(P, sp, canary, locals, stack, st);
      RunAdd(P, o, j + 1, k);
      n := j + 1 + k;
    }
  }

  /**
   * On the machine the validating code performs Validate: it traps exactly when the slot is outside the
   * memory or does not hold the canary.
   */
  lemma ValidateRuns(P: Program, sp: nat, canary: nat, locals: seq<Value>, stack: seq<Value>, st: Store)
    returns (n: nat)
    requires sp < |st.globals| && st.globals[sp].ty == I32
    ensures Performs(P, sp, ValidateCode(sp, canary), locals, stack, st, Validate(canary, RegionOf(sp, st)), n)
  {
    if st.globals[sp].bits + 8 > |st.mem| {
      LoadTraps(P, sp, canary, locals, stack, st);
      n := 1;
    } else {
      n := CheckRuns(P, sp, canary, locals, stack, st);
    }
  }

  lemma ValidateLength(sp: nat, canary: nat)
    ensures |ValidateCode(sp, canary)| == 11 && ValidateCode(sp, canary)[5].instr == Unreachable
  {
  }

  // ----- inside other functions -----

  lemma CallsNothing(P: Program, sp: nat, canary: nat)
    ensures CallsKnown(P, InjectCode(sp, canary)) && CallsKnown(P, ValidateCode(sp, canary))
  {
  }

  /** What the isolated code does it does inside any function above any call stack. */
  lemma GuardInHost(P: Program, sp: nat, code: Code, lower: seq<Frame>, h: Frame, st: Store, g: Guard, n: nat)
    returns (m: nat)
    requires Closed(P) && CallsKnown(P, code) && sp < |st.globals|
    requires h.pc + |code| <= |h.code| && h.code[h.pc..h.pc + |code|] == code
    requires Performs(P, sp, code, h.locals, h.stack, st, g, n) && (g.Stops? ==> g.why != Invalid)
    ensures var d := Next(Config(lower + [h], st));
      match g
      case Pass(r) =>
        r.sp < WORD && Run(P, d, m) == Next(Config(lower + [h.(pc := h.pc + |code|)], WithRegion(sp, st, r)))
      case Stops(why) => Run(P, d, m) == Trap(why)
  {
    hide Run, Step, WithRegion;
    match g {
      case Pass(r) =>
        PieceRun(P, lower, h, code, st, WithRegion(sp, st, r), n);
        m := n;
      case Stops(why) =>
        PieceTrap(P, lower, h, code, st, why, n);
        m := n + 1;
    }
  }

  /** The check put into a caller: it moves the stack pointer up by 16, or stops the program. */
  lemma CheckInCaller(P: Program, sp: nat, canary: nat, lower: seq<Frame>, g: Frame, st: Store)
    returns (n: nat)
    requires Closed(P) && g.pc + 11 <= |g.code| && g.code[g.pc..g.pc + 11] == ValidateCode(sp, canary)
    requires sp < |st.globals| && st.globals[sp].ty == I32
    ensures var d := Next(Config(lower + [g], st));
      match Validate(canary, RegionOf(sp, st))
      case Pass(r) => Run(P, d, n) == Next(Config(lower + [g.(pc := g.pc + 11)], WithRegion(sp, st, r)))
      case Stops(why) => Run(P, d, n) == Trap(why)
  {
    hide Run, Step, Validate, ValidateCode, WithRegion, Performs;
    ValidateLength(sp, canary);
    CallsNothing(P, sp, canary);
    var k := ValidateRuns(P, sp, canary, g.locals, g.stack, st);
    n := GuardInHost(P, sp, ValidateCode(sp, canary), lower, g, st, Validate(canary, RegionOf(sp, st)), k);
  }

  // ----- calls of imported functions -----

  /** The call of an imported function, followed by the check. */
  ghost predicate AtImport(P: Program, sp: nat, canary: nat, g: Frame, callee: nat) {
    && g.pc + 12 <= |g.code| && g.code[g.pc].instr == Call(callee)
    && g.code[g.pc + 1..g.pc + 12] == ValidateCode(sp, canary)
    && callee < |P.funcs| && P.funcs[callee].Import? && |P.funcs[callee].ft.params| <= |g.stack|
  }

  /** What the imported function answers. */
  function Answer(P: Program, g: Frame, callee: nat, st: Store): Option<HostResult>
    requires callee < |P.funcs| && |P.funcs[callee].ft.params| <= |g.stack|
  {
    P.host(callee, g.stack[|g.stack| - |P.funcs[callee].ft.params|..], st.mem, st.world)
  }

  lemma ImportStep(P: Program, sp: nat, canary: nat, lower: seq<Frame>, g: Frame, callee: nat, st: Store)
    requires AtImport(P, sp, canary, g, callee)
    ensures var r, o := Answer(P, g, callee, st), Run(P, Next(Config(lower + [g], st)), 1);
      var below := g.stack[..|g.stack| - |P.funcs[callee].ft.params|];
      if r.None? then o == Trap(Stop)
      else o == Next(Config(lower + [g.(pc := g.pc + 1, stack := below + r.value.results)],
                            st.(mem := r.value.mem, world := r.value.world)))
  {
    hide Run;
    var c := Config(lower + [g], st);
    RunOne(P, c);
    assert c.frames[|lower|] == g && c.frames[..|lower|] == lower;
  }

  /**
   * Nothing is injected for an imported callee. Behind its call the check reads the 8 bytes at the
   * unmoved stack pointer: outside the memory it traps, and if they are not the canary it traps; only
   * if they happen to be the canary the caller continues, with the stack pointer 16 too high.
   */
  lemma UninjectedCall(P: Program, sp: nat, canary: nat, lower: seq<Frame>, g: Frame, callee: nat, st: Store)
    returns (n: nat)
    requires Closed(P) && sp < |st.globals| && st.globals[sp].ty == I32 && AtImport(P, sp, canary, g, callee)
    ensures var r, o, a := Answer(P, g, callee, st), Run(P, Next(Config(lower + [g], st)), n), st.globals[sp].bits;
      if r.None? then o == Trap(Stop)
      else if a + 8 > |r.value.mem| then o == Trap(Bounds)
      else if r.value.mem[a..a + 8] != CanaryBytes(canary) then o == Trap(Stop)
      else
        var below := g.stack[..|g.stack| - |P.funcs[callee].ft.params|];
        && o == Next(Config(lower + [g.(pc := g.pc + 12, stack := below + r.value.results)],
                            Machine.Store.Store(st.globals[sp := Int32(a + 16)], r.value.mem, r.value.world)))
        && Int32(a + 16).bits != a
  {
    hide Run, Step, ValidateCode, CanaryBytes;
    ImportStep(P, sp, canary, lower, g, callee, st);
    var r := Answer(P, g, callee, st);
    if r.None? {
      n := 1;
    } else {
      var below := g.stack[..|g.stack| - |P.funcs[callee].ft.params|];
      var g1 := g.(pc := g.pc + 1, stack := below + r.value.results);
      var k := CheckInCaller(P, sp, canary, lower, g1, st.(mem := r.value.mem, world := r.value.world));
      RunAdd(P, Next(Config(lower + [g], st)), 1, k);
      n := 1 + k;
      WordIsPow256();
    }
  }
}
