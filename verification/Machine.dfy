/**
 * A small-step machine for flat WebAssembly stack code: the instructions are a list with
 * Begin/Else/End markers, a branch looks its target up by scanning for the matching marker.
 */
module Machine {
  import opened Values

  datatype FuncType = FuncType(params: seq<ValType>, results: seq<ValType>)

  datatype UnaryOp = EqZInt32 | EqZInt64
  datatype BinaryOp =
    AddInt32 | SubInt32 | MulInt32 | DivUInt32 | EqInt32 | NeInt32 | LtUInt32 | GeUInt32 | NeInt64

  datatype Instr =
    | BlockBegin(bt: FuncType) | BlockEnd
    | LoopBegin(bt: FuncType) | LoopEnd
    | IfBegin(bt: FuncType) | IfElse | IfEnd
    | Br(depth: nat) | BrIf(depth: nat) | Return | Unreachable
    | Call(target: nat) | CallIndirect(ft: FuncType)
    | Nop | Drop | Const(v: Value)
    | LocalGet(x: nat) | LocalSet(x: nat) | LocalTee(x: nat)
    | GlobalGet(x: nat) | GlobalSet(x: nat)
    | Load(t: ValType, offset: nat) | Store(t: ValType, offset: nat)
    | Load8U(offset: nat) | Store8(offset: nat)
    | MemorySize | MemoryGrow | MemoryInit(segment: seq<Byte>)
    | Unary(uop: UnaryOp) | Binary(bop: BinaryOp)

  /** The type Binaryen attaches to an expression; markers carry the type of their construct. */
  datatype ExprType = UnreachableType | Results(types: seq<ValType>)

  datatype StackInst = StackInst(instr: Instr, ty: ExprType)

  type Code = seq<StackInst>

  function Op(i: Instr, ty: seq<ValType>): StackInst {
    StackInst(i, Results(ty))
  }

  // ----- matching of control markers -----

  predicate Opens(i: Instr) {
    i.BlockBegin? || i.LoopBegin? || i.IfBegin?
  }

  predicate Closes(i: Instr) {
    i.BlockEnd? || i.LoopEnd? || i.IfEnd?
  }

  /** Position of the End that closes the construct `depth` levels out from position i; |code| if none. */
  function FindEnd(code: Code, i: nat, depth: nat): (e: nat)
    ensures e >= i || e == |code|
    ensures e <= |code|
    ensures e < |code| ==> Closes(code[e].instr)
    decreases |code| - i
  {
    if i >= |code| then |code|
    else if Opens(code[i].instr) then FindEnd(code, i + 1, depth + 1)
    else if Closes(code[i].instr) then
      if depth == 0 then i else FindEnd(code, i + 1, depth - 1)
    else FindEnd(code, i + 1, depth)
  }

  /** Like FindEnd, but stops at an Else of the construct as well. */
  function FindElse(code: Code, i: nat, depth: nat): (e: nat)
    ensures e >= i || e == |code|
    ensures e <= |code|
    ensures e < |code| ==> Closes(code[e].instr) || code[e].instr.IfElse?
    decreases |code| - i
  {
    if i >= |code| then |code|
    else if Opens(code[i].instr) then FindElse(code, i + 1, depth + 1)
    else if Closes(code[i].instr) then
      if depth == 0 then i else FindElse(code, i + 1, depth - 1)
    else if code[i].instr.IfElse? && depth == 0 then i
    else FindElse(code, i + 1, depth)
  }

  // ----- run-time structures -----

  const PAGE := 65536

  datatype Store = Store(globals: seq<Value>, mem: seq<Byte>, world: int)

  datatype HostResult = HostResult(results: seq<Value>, mem: seq<Byte>, world: int)

  /** An imported function sees its index, its arguments, memory and the outside world; None ends the program. */
  type Host = (nat, seq<Value>, seq<Byte>, int) -> Option<HostResult>

  datatype Func =
    | Import(ft: FuncType)
    | Defined(ft: FuncType, vars: seq<ValType>, code: Code)

  /** A program; maxPages is the declared maximum of its memory. */
  datatype Program = Program(funcs: seq<Func>, table: seq<Option<nat>>, host: Host, maxPages: nat)

  datatype Label = Label(begin: nat, height: nat)

  datatype Frame = Frame(fn: nat, arity: nat, code: Code, pc: nat,
                         locals: seq<Value>, stack: seq<Value>, labels: seq<Label>)

  datatype Config = Config(frames: seq<Frame>, store: Store)

  /** Invalid: rejected by validation. Bounds: an access outside the memory. Stop: an explicit trap or exit. */
  datatype Reason = Invalid | Bounds | Stop

  datatype Outcome = Next(c: Config) | Done(results: seq<Value>, store: Store) | Trap(why: Reason)

  // ----- instructions without control flow -----

  datatype Effect = Ok(locals: seq<Value>, stack: seq<Value>, store: Store) | Bad(why: Reason)

  function Bool32(b: bool): Value {
    Int32(if b then 1 else 0)
  }

  function EvalUnary(op: UnaryOp, a: Value): Option<Value> {
    match op
    case EqZInt32 => if a.ty == I32 then Some(Bool32(a.bits == 0)) else None
    case EqZInt64 => if a.ty == I64 then Some(Bool32(a.bits == 0)) else None
  }

  function OperandType(op: BinaryOp): ValType {
    if op == NeInt64 then I64 else I32
  }

  function EvalBinary(op: BinaryOp, a: Value, b: Value): Option<Value>
    requires a.ty == b.ty == OperandType(op)
  {
    match op
    case AddInt32 => Some(Int32(a.bits + b.bits))
    case SubInt32 => Some(Int32(a.bits - b.bits))
    case MulInt32 => Some(Int32(a.bits * b.bits))
    case DivUInt32 => if b.bits == 0 then None else Some(Int32(a.bits / b.bits))
    case EqInt32 => Some(Bool32(a.bits == b.bits))
    case NeInt32 => Some(Bool32(a.bits != b.bits))
    case LtUInt32 => Some(Bool32(a.bits < b.bits))
    case GeUInt32 => Some(Bool32(a.bits >= b.bits))
    case NeInt64 => Some(Bool32(a.bits != b.bits))
  }

  /** The memory with bs written from address a on. */
  function Write(mem: seq<Byte>, a: nat, bs: seq<Byte>): (m: seq<Byte>)
    requires a + |bs| <= |mem|
    ensures |m| == |mem|
  {
    mem[..a] + bs + mem[a + |bs|..]
  }

  function ExecLoad(t: ValType, width: nat, offset: nat, locals: seq<Value>, stack: seq<Value>, st: Store): Effect
    requires width == Size(t) || (width == 1 && t == I32)
  {
    var n := |stack|;
    if n < 1 || stack[n-1].ty != I32 then Bad(Invalid)
    else
      var a := stack[n-1].bits + offset;
      if a + width > |st.mem| then Bad(Bounds)
      else if width == 1 then Ok(locals, stack[..n-1] + [Int32(st.mem[a])], st)
      else Ok(locals, stack[..n-1] + [Decode(t, st.mem[a..a + width])], st)
  }

  function ExecStore(t: ValType, bytes: Value -> seq<Byte>, offset: nat,
                     locals: seq<Value>, stack: seq<Value>, st: Store): Effect
  {
    var n := |stack|;
    if n < 2 || stack[n-1].ty != t || stack[n-2].ty != I32 then Bad(Invalid)
    else
      var a := stack[n-2].bits + offset;
      var bs := bytes(stack[n-1]);
      if a + |bs| > |st.mem| then Bad(Bounds)
      else Ok(locals, stack[..n-2], st.(mem := Write(st.mem, a, bs)))
  }

  function ExecInit(segment: seq<Byte>, locals: seq<Value>, stack: seq<Value>, st: Store): Effect {
    var n := |stack|;
    if n < 3 || stack[n-3].ty != I32 || stack[n-2].ty != I32 || stack[n-1].ty != I32 then Bad(Invalid)
    else
      var a, from, len := stack[n-3].bits, stack[n-2].bits, stack[n-1].bits;
      if from + len > |segment| || a + len > |st.mem| then Bad(Bounds)
      else Ok(locals, stack[..n-3], st.(mem := Write(st.mem, a, segment[from..from + len])))
  }

  predicate Simple(i: Instr) {
    !Opens(i) && !Closes(i) && !i.IfElse? && !i.Br? && !i.BrIf? && !i.Return? && !i.Unreachable?
    && !i.Call? && !i.CallIndirect? && !i.MemoryGrow?
  }

  function Exec(i: Instr, locals: seq<Value>, stack: seq<Value>, st: Store): Effect
    requires Simple(i)
  {
    var n := |stack|;
    match i
    case Nop => Ok(locals, stack, st)
    case Drop => if n < 1 then Bad(Invalid) else Ok(locals, stack[..n-1], st)
    case Const(v) => Ok(locals, stack + [v], st)
    case LocalGet(x) => if x >= |locals| then Bad(Invalid) else Ok(locals, stack + [locals[x]], st)
    case LocalSet(x) =>
      if x >= |locals| || n < 1 then Bad(Invalid) else Ok(locals[x := stack[n-1]], stack[..n-1], st)
    case LocalTee(x) =>
      if x >= |locals| || n < 1 then Bad(Invalid) else Ok(locals[x := stack[n-1]], stack, st)
    case GlobalGet(x) =>
      if x >= |st.globals| then Bad(Invalid) else Ok(locals, stack + [st.globals[x]], st)
    case GlobalSet(x) =>
      if x >= |st.globals| || n < 1 || stack[n-1].ty != st.globals[x].ty then Bad(Invalid)
      else Ok(locals, stack[..n-1], st.(globals := st.globals[x := stack[n-1]]))
    case Load(t, o) => ExecLoad(t, Size(t), o, locals, stack, st)
    case Load8U(o) => ExecLoad(I32, 1, o, locals, stack, st)
    case Store(t, o) => ExecStore(t, (v: Value) => Encode(v), o, locals, stack, st)
    case Store8(o) => ExecStore(I32, (v: Value) => ToBytes(v.bits, 1), o, locals, stack, st)
    case MemorySize => Ok(locals, stack + [Int32(|st.mem| / PAGE)], st)
    case MemoryInit(segment) => ExecInit(segment, locals, stack, st)
    case Unary(op) =>
      if n < 1 then Bad(Invalid)
      else
        var r := EvalUnary(op, stack[n-1]);
        if r.None? then Bad(Invalid) else Ok(locals, stack[..n-1] + [r.value], st)
    case Binary(op) =>
      if n < 2 || stack[n-2].ty != OperandType(op) || stack[n-1].ty != OperandType(op) then Bad(Invalid)
      else
        var r := EvalBinary(op, stack[n-2], stack[n-1]);
        if r.None? then Bad(Stop) else Ok(locals, stack[..n-2] + [r.value], st)
  }

  // ----- one step -----

  /** What the active frame wants to do next. */
  datatype Move =
    | Stay(f: Frame, store: Store)
    | Enter(f: Frame, callee: nat, args: seq<Value>)
    | Exit(vals: seq<Value>)
    | Fault(why: Reason)

  function Leave(f: Frame): Move {
    if |f.stack| < f.arity then Fault(Invalid) else Exit(f.stack[|f.stack| - f.arity..])
  }

  function Branch(f: Frame, l: nat, st: Store): Move {
    if l == |f.labels| then Leave(f)
    else if l > |f.labels| then Fault(Invalid)
    else
      var j := |f.labels| - 1 - l;
      var lab := f.labels[j];
      if lab.begin >= |f.code| || !Opens(f.code[lab.begin].instr) then Fault(Invalid)
      else
        var i := f.code[lab.begin].instr;
        var keep := |if i.LoopBegin? then i.bt.params else i.bt.results|;
        if lab.height + keep > |f.stack| then Fault(Invalid)
        else
          var s := f.stack[..lab.height] + f.stack[|f.stack| - keep..];
          if i.LoopBegin? then Stay(f.(pc := lab.begin + 1, stack := s, labels := f.labels[..j + 1]), st)
          else
            var e := FindEnd(f.code, lab.begin + 1, 0);
            if e == |f.code| then Fault(Invalid)
            else Stay(f.(pc := e + 1, stack := s, labels := f.labels[..j]), st)
  }

  function Invoke(P: Program, f: Frame, callee: nat, st: Store): Move {
    if callee >= |P.funcs| then Fault(Invalid)
    else
      var ft := P.funcs[callee].ft;
      var n := |f.stack| - |ft.params|;
      if n < 0 then Fault(Invalid)
      else
        var args := f.stack[n..];
        var g := f.(pc := f.pc + 1, stack := f.stack[..n]);
        if P.funcs[callee].Defined? then Enter(g, callee, args)
        else
          var r := P.host(callee, args, st.mem, st.world);
          if r.None? then Fault(Stop)
          else Stay(g.(stack := g.stack + r.value.results), st.(mem := r.value.mem, world := r.value.world))
  }

  function Open(f: Frame, st: Store): Move
    requires f.pc < |f.code| && Opens(f.code[f.pc].instr)
  {
    var n := |f.stack|;
    var i := f.code[f.pc].instr;
    var params := |i.bt.params|;
    if !i.IfBegin? then
      if n < params then Fault(Invalid)
      else Stay(f.(pc := f.pc + 1, labels := f.labels + [Label(f.pc, n - params)]), st)
    else if n < 1 + params || f.stack[n-1].ty != I32 then Fault(Invalid)
    else
      var inside := f.(pc := f.pc + 1, stack := f.stack[..n-1], labels := f.labels + [Label(f.pc, n - 1 - params)]);
      if f.stack[n-1].bits != 0 then Stay(inside, st)
      else
        var e := FindElse(f.code, f.pc + 1, 0);
        if e == |f.code| then Fault(Invalid)
        else if f.code[e].instr.IfElse? then Stay(inside.(pc := e + 1), st)
        else Stay(f.(pc := e + 1, stack := f.stack[..n-1]), st)
  }

  /** An Else or End reached from inside its construct. */
  function Close(f: Frame, st: Store): Move
    requires f.pc < |f.code| && (Closes(f.code[f.pc].instr) || f.code[f.pc].instr.IfElse?)
  {
    var e := if f.code[f.pc].instr.IfElse? then FindEnd(f.code, f.pc + 1, 0) else f.pc;
    if f.labels == [] || e == |f.code| then Fault(Invalid)
    else Stay(f.(pc := e + 1, labels := f.labels[..|f.labels| - 1]), st)
  }

  function BranchIf(f: Frame, l: nat, st: Store): Move {
    var n := |f.stack|;
    if n < 1 || f.stack[n-1].ty != I32 then Fault(Invalid)
    else
      var popped := f.(stack := f.stack[..n-1]);
      if f.stack[n-1].bits == 0 then Stay(popped.(pc := f.pc + 1), st) else Branch(popped, l, st)
  }

  function InvokeIndirect(P: Program, f: Frame, ft: FuncType, st: Store): Move {
    var n := |f.stack|;
    if n < 1 || f.stack[n-1].ty != I32 then Fault(Invalid)
    else
      var k := f.stack[n-1].bits;
      if k >= |P.table| || P.table[k].None? || P.table[k].value >= |P.funcs|
         || P.funcs[P.table[k].value].ft != ft then Fault(Stop)
      else Invoke(P, f.(stack := f.stack[..n-1]), P.table[k].value, st)
  }

  /** Growth within the declared maximum succeeds; other growth leaves the memory as it is. */
  function Grow(P: Program, f: Frame, st: Store): Move {
    var n := |f.stack|;
    if n < 1 || f.stack[n-1].ty != I32 then Fault(Invalid)
    else
      var pages, more := |st.mem| / PAGE, f.stack[n-1].bits;
      var g := f.(pc := f.pc + 1, stack := f.stack[..n-1] + [Int32(if pages + more <= P.maxPages then pages else -1)]);
      Stay(g, if pages + more <= P.maxPages then st.(mem := st.mem + ZeroBytes(more * PAGE)) else st)
  }

  function ZeroBytes(n: nat): (bs: seq<Byte>)
    ensures |bs| == n
  {
    seq(n, _ => 0)
  }

  function Straight(f: Frame, i: Instr, st: Store): Move
    requires Simple(i)
  {
    var r := Exec(i, f.locals, f.stack, st);
    if r.Bad? then Fault(r.why)
    else Stay(f.(pc := f.pc + 1, locals := r.locals, stack := r.stack), r.store)
  }

  function Decide(P: Program, f: Frame, st: Store): Move {
    if f.pc >= |f.code| then Leave(f)
    else
      var i := f.code[f.pc].instr;
      if Opens(i) then Open(f, st)
      else if Closes(i) || i.IfElse? then Close(f, st)
      else if i.Br? then Branch(f, i.depth, st)
      else if i.BrIf? then BranchIf(f, i.depth, st)
      else if i.Return? then Leave(f)
      else if i.Unreachable? then Fault(Stop)
      else if i.Call? then Invoke(P, f, i.target, st)
      else if i.CallIndirect? then InvokeIndirect(P, f, i.ft, st)
      else if i.MemoryGrow? then Grow(P, f, st)
      else Straight(f, i, st)
  }

  /** Every table entry is a function of the program. */
  ghost predicate Closed(P: Program) {
    forall k {:trigger P.table[k]} :: 0 <= k < |P.table| && P.table[k].Some? ==> P.table[k].value < |P.funcs|
  }

  /** The frame runs the code of its function. */
  ghost predicate FrameOf(P: Program, f: Frame) {
    f.fn < |P.funcs| && P.funcs[f.fn].Defined? && f.code == P.funcs[f.fn].code
  }

  function Entry(P: Program, fn: nat, args: seq<Value>): Frame
    requires fn < |P.funcs| && P.funcs[fn].Defined?
  {
    var d := P.funcs[fn];
    Frame(fn, |d.ft.results|, d.code, 0, args + Zeros(d.vars), [], [])
  }

  /** The calling frames after the active frame has made its move. */
  function Apply(P: Program, callers: seq<Frame>, st: Store, m: Move): Outcome {
    match m
    case Fault(why) => Trap(why)
    case Stay(f, st2) => Next(Config(callers + [f], st2))
    case Enter(f, callee, args) =>
      if callee < |P.funcs| && P.funcs[callee].Defined?
      then Next(Config(callers + [f, Entry(P, callee, args)], st)) else Trap(Invalid)
    case Exit(vals) =>
      if callers == [] then Done(vals, st)
      else
        var g := callers[|callers| - 1];
        Next(Config(callers[..|callers| - 1] + [g.(stack := g.stack + vals)], st))
  }

  function Step(P: Program, c: Config): Outcome {
    if c.frames == [] then Trap(Invalid)
    else
      var n := |c.frames| - 1;
      Apply(P, c.frames[..n], c.store, Decide(P, c.frames[n], c.store))
  }

  /** The outcome of n steps; a finished run stays finished. */
  function Run(P: Program, o: Outcome, n: nat): Outcome
    decreases n
  {
    if n == 0 || !o.Next? then o else Run(P, Step(P, o.c), n - 1)
  }

  lemma {:induction false} RunAdd(P: Program, o: Outcome, m: nat, n: nat)
    ensures Run(P, o, m + n) == Run(P, Run(P, o, m), n)
    decreases m
  {
    hide Step;
    if m > 0 && o.Next? {
      RunAdd(P, Step(P, o.c), m - 1, n);
    }
  }

  lemma RunOne(P: Program, c: Config)
    ensures Run(P, Next(c), 1) == Step(P, c)
  {
    hide Step;
    assert Run(P, Step(P, c), 0) == Step(P, c);
  }
}
