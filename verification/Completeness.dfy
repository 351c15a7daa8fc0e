/**
 * The typing rules of the WebAssembly Core Specification 2.0, section 3.3, for structured code, and
 * their completeness: the validator accepts whatever the rules type.
 */
module Completeness {
  import opened Values
  import opened Machine
  import opened Validation

  // ----- structured code -----

  /** An instruction, or a construct with the code inside it; all its markers carry its type. */
  datatype Node =
    | Plain(s: StackInst)
    | Block(bt: FuncType, ty: ExprType, body: seq<Node>)
    | Loop(bt: FuncType, ty: ExprType, body: seq<Node>)
    | If(bt: FuncType, ty: ExprType, yes: seq<Node>)
    | IfElse(bt: FuncType, ty: ExprType, yes: seq<Node>, no: seq<Node>)

  function Mark(i: Instr, ty: ExprType): Code {
    [StackInst(i, ty)]
  }

  function FlatNode(n: Node): Code {
    match n
    case Plain(s) => [s]
    case Block(bt, ty, body) => Mark(BlockBegin(bt), ty) + Flat(body) + Mark(BlockEnd, ty)
    case Loop(bt, ty, body) => Mark(LoopBegin(bt), ty) + Flat(body) + Mark(LoopEnd, ty)
    case If(bt, ty, yes) => Mark(IfBegin(bt), ty) + Flat(yes) + Mark(IfEnd, ty)
    case IfElse(bt, ty, yes, no) =>
      Mark(IfBegin(bt), ty) + Flat(yes) + (Mark(Instr.IfElse, ty) + Flat(no) + Mark(IfEnd, ty))
  }

  function Flat(nodes: seq<Node>): Code {
    if nodes == [] then [] else FlatNode(nodes[0]) + Flat(nodes[1..])
  }

  // ----- the rules -----

  /** An instruction that takes ps and leaves rs, whatever lies below. */
  ghost predicate Takes(C: Ctx, i: Instr, ps: seq<ValType>, rs: seq<ValType>) {
    match i
    case Nop => ps == [] && rs == []
    case Drop => |ps| == 1 && rs == []
    case Const(v) => ps == [] && rs == [v.ty]
    case LocalGet(x) => x < |C.locals| && ps == [] && rs == [C.locals[x]]
    case LocalSet(x) => x < |C.locals| && ps == [C.locals[x]] && rs == []
    case LocalTee(x) => x < |C.locals| && ps == [C.locals[x]] && rs == [C.locals[x]]
    case GlobalGet(x) => x < |C.globals| && ps == [] && rs == [C.globals[x]]
    case GlobalSet(x) => x < |C.globals| && ps == [C.globals[x]] && rs == []
    case Load(t, _) => ps == [I32] && rs == [t]
    case Load8U(_) => ps == [I32] && rs == [I32]
    case Store(t, _) => ps == [I32, t] && rs == []
    case Store8(_) => ps == [I32, I32] && rs == []
    case MemorySize => ps == [] && rs == [I32]
    case MemoryGrow => ps == [I32] && rs == [I32]
    case MemoryInit(_) => ps == [I32, I32, I32] && rs == []
    case Unary(EqZInt32) => ps == [I32] && rs == [I32]
    case Unary(EqZInt64) => ps == [I64] && rs == [I32]
    case Binary(NeInt64) => ps == [I64, I64] && rs == [I32]
    case Binary(_) => i.bop != NeInt64 && ps == [I32, I32] && rs == [I32]
    case Call(f) => f < |C.funcs| && ps == C.funcs[f].params && rs == C.funcs[f].results
    case CallIndirect(ft) => ps == ft.params + [I32] && rs == ft.results
    case _ => false
  }

  /** Operands xs stay below what the instruction takes and leaves. */
  ghost predicate Framed(ts: seq<ValType>, us: seq<ValType>, ps: seq<ValType>, rs: seq<ValType>) {
    exists xs: seq<ValType> :: ts == xs + ps && us == xs + rs
  }

  ghost predicate Ends(ts: seq<ValType>, ps: seq<ValType>) {
    |ps| <= |ts| && ts[|ts| - |ps|..] == ps
  }

  /** Instruction s takes the operand types ts to us; the labels are given innermost last. */
  ghost predicate PlainTyped(C: Ctx, labels: seq<seq<ValType>>, i: Instr, ts: seq<ValType>, us: seq<ValType>) {
    match i
    case Unreachable => true
    case Br(l) => l < |labels| && Ends(ts, labels[|labels| - 1 - l])
    case BrIf(l) => l < |labels| && Framed(ts, us, labels[|labels| - 1 - l] + [I32], labels[|labels| - 1 - l])
    case Return => Ends(ts, C.ret)
    case _ => exists ps, rs :: Takes(C, i, ps, rs) && Framed(ts, us, ps, rs)
  }

  ghost predicate NodeTyped(C: Ctx, labels: seq<seq<ValType>>, n: Node, ts: seq<ValType>, us: seq<ValType>)
    decreases n
  {
    match n
    case Plain(s) => PlainTyped(C, labels, s.instr, ts, us)
    case Block(bt, _, body) =>
      Framed(ts, us, bt.params, bt.results) && Typed(C, labels + [bt.results], body, bt.params, bt.results)
    case Loop(bt, _, body) =>
      Framed(ts, us, bt.params, bt.results) && Typed(C, labels + [bt.params], body, bt.params, bt.results)
    case If(bt, _, yes) =>
      && Framed(ts, us, bt.params + [I32], bt.results) && bt.params == bt.results
      && Typed(C, labels + [bt.results], yes, bt.params, bt.results)
    case IfElse(bt, _, yes, no) =>
      && Framed(ts, us, bt.params + [I32], bt.results)
      && Typed(C, labels + [bt.results], yes, bt.params, bt.results)
      && Typed(C, labels + [bt.results], no, bt.params, bt.results)
  }

  ghost predicate Typed(C: Ctx, labels: seq<seq<ValType>>, nodes: seq<Node>, ts: seq<ValType>, us: seq<ValType>)
    decreases nodes
  {
    if nodes == [] then ts == us
    else exists mid: seq<ValType> :: NodeTyped(C, labels, nodes[0], ts, mid) && Typed(C, labels, nodes[1..], mid, us)
  }

  // ----- what the validator's state accepts -----

  /** The frame accepts operands of the types ts. */
  ghost predicate Meets(f: Ctrl, ts: seq<ValType>) {
    CtrlLe(f.(opds := KnownOf(ts), dead := false), f)
  }

  /** The frame with just those operands. */
  function With(f: Ctrl, ts: seq<ValType>): Ctrl {
    f.(opds := KnownOf(ts), dead := false)
  }

  lemma {:induction false} PopsKnown(f: Ctrl, xs: seq<ValType>, ps: seq<ValType>)
    ensures PopAll(With(f, xs + ps), ps) == Some(With(f, xs))
    decreases |ps|
  {
    if ps == [] {
      assert xs + ps == xs;
    } else {
      var n := |ps| - 1;
      assert xs + ps == xs + ps[..n] + [ps[n]];
      assert KnownOf(xs + ps)[..|xs| + n] == KnownOf(xs + ps[..n]);
      PopsKnown(f, xs, ps[..n]);
    }
  }

  /** Taking operands off a frame that accepts them. */
  lemma PopsMeet(f: Ctrl, xs: seq<ValType>, ps: seq<ValType>)
    requires Meets(f, xs + ps)
    ensures PopAll(f, ps).Some? && Meets(PopAll(f, ps).value, xs)
    ensures var g := PopAll(f, ps).value; g == f.(opds := g.opds)
  {
    hide CtrlLe;
    PopsKnown(f, xs, ps);
    PopAllLe(With(f, xs + ps), f, ps);
    PopKeeps(f, ps);
    var g := PopAll(f, ps).value;
    assert With(g, xs) == With(f, xs);
  }

  lemma {:induction false} PopKeeps(f: Ctrl, ps: seq<ValType>)
    requires PopAll(f, ps).Some?
    ensures var g := PopAll(f, ps).value; g == f.(opds := g.opds)
    decreases |ps|
  {
    if ps != [] {
      PopKeeps(Pop(f, ps[|ps| - 1]).value, ps[..|ps| - 1]);
    }
  }

  lemma PushMeets(f: Ctrl, xs: seq<ValType>, rs: seq<ValType>)
    requires Meets(f, xs)
    ensures Meets(Push(f, rs), xs + rs)
  {
    PushLe(With(f, xs), f, rs);
    assert KnownOf(xs) + KnownOf(rs) == KnownOf(xs + rs);
  }

  lemma KillMeets(f: Ctrl, ts: seq<ValType>)
    ensures Meets(Kill(f), ts)
  {
  }

  lemma AllMet(f: Ctrl)
    requires Meets(f, f.end)
    ensures Finished(f)
  {
    hide CtrlLe;
    assert [] + f.end == f.end;
    PopsMeet(f, [], f.end);
    NothingMet(PopAll(f, f.end).value);
  }

  lemma NothingMet(f: Ctrl)
    requires Meets(f, [])
    ensures f.opds == []
  {
  }

  /** The innermost frame accepts ts, and the frames' labels are the given ones. */
  ghost predicate Ready(labels: seq<seq<ValType>>, s: VState, ts: seq<ValType>) {
    && s != [] && |labels| == |s| && Meets(s[|s| - 1], ts)
    && forall k :: 0 <= k < |s| ==> LabelTypes(s[k]) == labels[k]
  }

  /** Only the innermost frame's operands have changed. */
  predicate SameFrames(s: VState, r: VState) {
    s != [] && |r| == |s|
    && var n := |s| - 1;
       r[..n] == s[..n] && r[n] == s[n].(opds := r[n].opds, dead := r[n].dead)
  }

  /** After code or an instruction the validator is ready for us. */
  ghost predicate Leaves(labels: seq<seq<ValType>>, s: VState, r: Option<VState>, us: seq<ValType>) {
    r.Some? && SameFrames(s, r.value) && Ready(labels, r.value, us)
  }

  lemma TopChanged(labels: seq<seq<ValType>>, s: VState, ts: seq<ValType>, g: Ctrl, us: seq<ValType>)
    requires Ready(labels, s, ts) && Meets(g, us)
    requires var f := s[|s| - 1]; g == f.(opds := g.opds, dead := g.dead)
    ensures Leaves(labels, s, Some(s[..|s| - 1] + [g]), us)
  {
    hide Meets;
  }

  lemma EndsWith(ts: seq<ValType>, ps: seq<ValType>)
    requires Ends(ts, ps)
    ensures ts == ts[..|ts| - |ps|] + ps
  {
  }

  lemma TakesIsSignature(C: Ctx, i: Instr, ps: seq<ValType>, rs: seq<ValType>)
    requires Takes(C, i, ps, rs) && !i.Drop?
    ensures Signature(C, i) == Some(FuncType(ps, rs))
    ensures !Opens(i) && !Closes(i) && !i.IfElse? && !i.Br? && !i.BrIf? && !i.Return? && !i.Unreachable?
  {
  }

  lemma PlainStep(C: Ctx, i: Instr, s: VState, ps: seq<ValType>, rs: seq<ValType>)
    requires s != [] && Takes(C, i, ps, rs) && !i.Drop? && PopAll(s[|s| - 1], ps).Some?
    ensures CheckOne(C, i, s) == Some(s[..|s| - 1] + [Push(PopAll(s[|s| - 1], ps).value, rs)])
  {
    hide Takes, Signature, PopAll, Push;
    TakesIsSignature(C, i, ps, rs);
  }

  lemma DropStep(C: Ctx, s: VState, t: ValType)
    requires s != [] && PopAll(s[|s| - 1], [t]).Some?
    ensures CheckOne(C, Drop, s) == Some(s[..|s| - 1] + [PopAll(s[|s| - 1], [t]).value])
  {
    var f := s[|s| - 1];
    assert [t][..0] == [];
    assert PopAll(f, [t]) == PopAll(Pop(f, t).value, []);
  }

  lemma TakesAccepts(C: Ctx, labels: seq<seq<ValType>>, i: Instr, s: VState, xs: seq<ValType>,
                     ps: seq<ValType>, rs: seq<ValType>)
    requires Ready(labels, s, xs + ps) && Takes(C, i, ps, rs)
    ensures Leaves(labels, s, CheckOne(C, i, s), xs + rs)
  {
    hide Meets, PopAll, CheckOne, Leaves, Push, Takes;
    var f := s[|s| - 1];
    PopsMeet(f, xs, ps);
    var g := PopAll(f, ps).value;
    if i.Drop? {
      DropTakes(C, ps, rs);
      DropStep(C, s, ps[0]);
      assert xs + rs == xs;
      TopChanged(labels, s, xs + ps, g, xs);
    } else {
      PlainStep(C, i, s, ps, rs);
      PushMeets(g, xs, rs);
      PushKeeps(g, rs);
      TopChanged(labels, s, xs + ps, Push(g, rs), xs + rs);
    }
  }

  lemma DropTakes(C: Ctx, ps: seq<ValType>, rs: seq<ValType>)
    requires Takes(C, Drop, ps, rs)
    ensures ps == [ps[0]] && rs == []
  {
  }

  lemma PushKeeps(f: Ctrl, rs: seq<ValType>)
    ensures Push(f, rs) == f.(opds := Push(f, rs).opds)
  {
  }

  lemma StopAccepts(C: Ctx, labels: seq<seq<ValType>>, s: VState, ts: seq<ValType>, us: seq<ValType>)
    requires Ready(labels, s, ts)
    ensures Leaves(labels, s, CheckOne(C, Unreachable, s), us)
  {
    hide Meets, Leaves;
    var f := s[|s| - 1];
    KillMeets(f, us);
    TopChanged(labels, s, ts, Kill(f), us);
  }

  lemma JumpStep(C: Ctx, i: Instr, lab: seq<ValType>, s: VState)
    requires s != [] && PopAll(s[|s| - 1], lab).Some?
    requires (i.Return? && lab == C.ret) || (i.Br? && i.depth < |s| && lab == LabelTypes(s[|s| - 1 - i.depth]))
    ensures CheckOne(C, i, s) == Some(s[..|s| - 1] + [Kill(PopAll(s[|s| - 1], lab).value)])
  {
    hide PopAll;
  }

  lemma JumpAccepts(C: Ctx, labels: seq<seq<ValType>>, i: Instr, lab: seq<ValType>, s: VState,
                    ts: seq<ValType>, us: seq<ValType>)
    requires Ready(labels, s, ts) && Ends(ts, lab)
    requires (i.Return? && lab == C.ret) || (i.Br? && i.depth < |s| && lab == labels[|s| - 1 - i.depth])
    ensures Leaves(labels, s, CheckOne(C, i, s), us)
  {
    hide Meets, PopAll, CheckOne, Leaves;
    var f := s[|s| - 1];
    EndsWith(ts, lab);
    PopsMeet(f, ts[..|ts| - |lab|], lab);
    JumpStep(C, i, lab, s);
    var g := PopAll(f, lab).value;
    KillMeets(g, us);
    TopChanged(labels, s, ts, Kill(g), us);
  }

  lemma BranchIfStep(C: Ctx, i: Instr, lab: seq<ValType>, s: VState)
    requires s != [] && PopAll(s[|s| - 1], lab + [I32]).Some?
    requires i.BrIf? && i.depth < |s| && lab == LabelTypes(s[|s| - 1 - i.depth])
    ensures CheckOne(C, i, s) == Some(s[..|s| - 1] + [Push(PopAll(s[|s| - 1], lab + [I32]).value, lab)])
  {
    hide PopAll, Push;
  }

  lemma BranchIfAccepts(C: Ctx, labels: seq<seq<ValType>>, i: Instr, lab: seq<ValType>, s: VState, xs: seq<ValType>)
    requires Ready(labels, s, xs + (lab + [I32]))
    requires i.BrIf? && i.depth < |s| && lab == labels[|s| - 1 - i.depth]
    ensures Leaves(labels, s, CheckOne(C, i, s), xs + lab)
  {
    hide Meets, PopAll, CheckOne, Leaves, Push;
    var f := s[|s| - 1];
    PopsMeet(f, xs, lab + [I32]);
    BranchIfStep(C, i, lab, s);
    var g := PopAll(f, lab + [I32]).value;
    PushMeets(g, xs, lab);
    PushKeeps(g, lab);
    TopChanged(labels, s, xs + (lab + [I32]), Push(g, lab), xs + lab);
  }

  lemma LabelCount(labels: seq<seq<ValType>>, s: VState, ts: seq<ValType>)
    requires Ready(labels, s, ts)
    ensures |labels| == |s| > 0
  {
  }

  /** A typed instruction is accepted. */
  lemma PlainAccepts(C: Ctx, labels: seq<seq<ValType>>, i: Instr, s: VState, ts: seq<ValType>, us: seq<ValType>)
    requires Ready(labels, s, ts) && PlainTyped(C, labels, i, ts, us)
    ensures Leaves(labels, s, CheckOne(C, i, s), us)
  {
    hide Meets, Takes, CheckOne, Leaves, Ready;
    LabelCount(labels, s, ts);
    match i {
      case Unreachable => StopAccepts(C, labels, s, ts, us);
      case Br(l) => JumpAccepts(C, labels, i, labels[|labels| - 1 - l], s, ts, us);
      case Return => JumpAccepts(C, labels, i, C.ret, s, ts, us);
      case BrIf(l) =>
        var lab := labels[|labels| - 1 - l];
        var xs :| ts == xs + (lab + [I32]) && us == xs + lab;
        BranchIfAccepts(C, labels, i, lab, s, xs);
      case _ =>
        var ps, rs :| Takes(C, i, ps, rs) && Framed(ts, us, ps, rs);
        var xs :| ts == xs + ps && us == xs + rs;
        TakesAccepts(C, labels, i, s, xs, ps, rs);
    }
  }

  // ----- constructs -----

  lemma OpenAccepts(C: Ctx, labels: seq<seq<ValType>>, i: Instr, s: VState, xs: seq<ValType>)
    requires Opens(i) && Ready(labels, s, xs + if i.IfBegin? then i.bt.params + [I32] else i.bt.params)
    ensures var r := CheckOne(C, i, s);
      && r.Some? && |r.value| == |s| + 1 && SameFrames(s, r.value[..|s|]) && Ready(labels, r.value[..|s|], xs)
      && r.value[|s|] == NewFrame(OpensAs(i), i.bt)
      && Ready(labels + [if i.LoopBegin? then i.bt.params else i.bt.results], r.value, i.bt.params)
  {
    hide PopAll;
    var ps := if i.IfBegin? then i.bt.params + [I32] else i.bt.params;
    var f, h := s[|s| - 1], NewFrame(OpensAs(i), i.bt);
    PopsMeet(f, xs, ps);
    var g := PopAll(f, ps).value;
    TopChanged(labels, s, xs + ps, g, xs);
    assert (s[..|s| - 1] + [g, h])[..|s|] == s[..|s| - 1] + [g];
    LeRefl(h);
  }

  /** At the end of a construct. */
  lemma CloseAccepts(C: Ctx, labels: seq<seq<ValType>>, i: Instr, s: VState, t: VState, xs: seq<ValType>)
    requires Ready(labels, s, xs) && |t| == |s| + 1 && t[..|s|] == s
    requires Closes(i) && MayClose(i, t[|s|]) && Meets(t[|s|], t[|s|].end)
    ensures Leaves(labels, s, CheckOne(C, i, t), xs + t[|s|].end)
  {
    hide Meets, Finished;
    var f := t[|s|];
    AllMet(f);
    var n := |s| - 1;
    assert t[n] == t[..|s|][n] == s[n] && t[..n] == t[..|s|][..n] == s[..n];
    PushMeets(s[n], xs, f.end);
    TopChanged(labels, s, xs, Push(s[n], f.end), xs + f.end);
  }

  lemma ElseAccepts(C: Ctx, t: VState)
    requires t != [] && t[|t| - 1].kind == IfC && Meets(t[|t| - 1], t[|t| - 1].end)
    ensures var f := t[|t| - 1];
      CheckOne(C, Instr.IfElse, t) == Some(t[..|t| - 1] + [NewFrame(ElseC, FuncType(f.start, f.end))])
  {
    hide Meets, Finished;
    AllMet(t[|t| - 1]);
  }

  lemma Chain(C: Ctx, a: Instr, ty: ExprType, mid: Code, rest: Code, s: VState)
    ensures var r := CheckOne(C, a, s);
      Check(C, Mark(a, ty) + mid + rest, s)
        == if r.None? then None
           else var q := Check(C, mid, r.value); if q.None? then None else Check(C, rest, q.value)
  {
    hide CheckOne;
    CheckAppend(C, Mark(a, ty) + mid, rest, s);
    CheckAppend(C, Mark(a, ty), mid, s);
    assert Mark(a, ty)[1..] == [];
  }

  lemma CheckMark(C: Ctx, a: Instr, ty: ExprType, s: VState)
    ensures Check(C, Mark(a, ty), s) == CheckOne(C, a, s)
  {
    hide CheckOne;
    assert Mark(a, ty)[1..] == [];
  }

  /** The frame inside a construct, after its code. */
  lemma InsideDone(labels: seq<seq<ValType>>, lab: seq<ValType>, s1: VState, s2: Option<VState>, us: seq<ValType>)
    requires |s1| == |labels| + 1 && Leaves(labels + [lab], s1, s2, us)
    ensures var t := s2.value;
      && |t| == |s1| && t[..|labels|] == s1[..|labels|] && Meets(t[|labels|], us)
      && t[|labels|].kind == s1[|labels|].kind && t[|labels|].start == s1[|labels|].start
      && t[|labels|].end == s1[|labels|].end
  {
    hide Meets;
  }

  /** A construct with one body: block, loop, or an if without else. */
  lemma BodyAccepts(C: Ctx, labels: seq<seq<ValType>>, i: Instr, end: Instr, ty: ExprType, body: seq<Node>, s: VState,
                    xs: seq<ValType>)
    requires Opens(i) && Closes(end) && MayClose(end, NewFrame(OpensAs(i), i.bt))
    requires Ready(labels, s, xs + if i.IfBegin? then i.bt.params + [I32] else i.bt.params)
    requires Typed(C, labels + [if i.LoopBegin? then i.bt.params else i.bt.results], body, i.bt.params, i.bt.results)
    ensures Leaves(labels, s, Check(C, Mark(i, ty) + Flat(body) + Mark(end, ty), s), xs + i.bt.results)
    decreases body, 1
  {
    hide CheckOne, Check, Meets, Typed, Flat;
    var lab := if i.LoopBegin? then i.bt.params else i.bt.results;
    OpenAccepts(C, labels, i, s, xs);
    var s1 := CheckOne(C, i, s).value;
    SequenceAccepts(C, labels + [lab], body, s1, i.bt.params, i.bt.results);
    var s2 := Check(C, Flat(body), s1);
    InsideDone(labels, lab, s1, s2, i.bt.results);
    assert s2.value[..|s|] == s1[..|s|];
    CloseAccepts(C, labels, end, s1[..|s|], s2.value, xs);
    Chain(C, i, ty, Flat(body), Mark(end, ty), s);
    CheckMark(C, end, ty, s2.value);
  }

  lemma BranchesAccept(C: Ctx, labels: seq<seq<ValType>>, node: Node, s: VState, xs: seq<ValType>)
    requires node.IfElse? && Ready(labels, s, xs + (node.bt.params + [I32]))
    requires Typed(C, labels + [node.bt.results], node.yes, node.bt.params, node.bt.results)
    requires Typed(C, labels + [node.bt.results], node.no, node.bt.params, node.bt.results)
    ensures Leaves(labels, s, Check(C, FlatNode(node), s), xs + node.bt.results)
    decreases node, 1
  {
    hide CheckOne, Check, Meets, Typed, Flat;
    var bt, ty, yes, no := node.bt, node.ty, node.yes, node.no;
    var i, n := IfBegin(bt), |s|;
    var inner := labels + [bt.results];
    OpenAccepts(C, labels, i, s, xs);
    var s1 := CheckOne(C, i, s).value;
    SequenceAccepts(C, inner, yes, s1, bt.params, bt.results);
    var s2 := Check(C, Flat(yes), s1);
    InsideDone(labels, bt.results, s1, s2, bt.results);
    ElseAccepts(C, s2.value);
    var s3 := CheckOne(C, Instr.IfElse, s2.value).value;
    ElseReady(labels, bt, s1, s2.value, s3);
    SequenceAccepts(C, inner, no, s3, bt.params, bt.results);
    var s4 := Check(C, Flat(no), s3);
    InsideDone(labels, bt.results, s3, s4, bt.results);
    assert s4.value[..n] == s3[..n] == s1[..n];
    CloseAccepts(C, labels, IfEnd, s1[..n], s4.value, xs);
    Chain(C, i, ty, Flat(yes), Mark(Instr.IfElse, ty) + Flat(no) + Mark(IfEnd, ty), s);
    Chain(C, Instr.IfElse, ty, Flat(no), Mark(IfEnd, ty), s2.value);
    CheckMark(C, IfEnd, ty, s4.value);
  }

  lemma ElseReady(labels: seq<seq<ValType>>, bt: FuncType, s1: VState, s2: VState, s3: VState)
    requires |s1| == |s2| == |labels| + 1 && s2[..|labels|] == s1[..|labels|]
    requires Ready(labels + [bt.results], s1, bt.params)
    requires s3 == s2[..|labels|] + [NewFrame(ElseC, bt)]
    ensures Ready(labels + [bt.results], s3, bt.params) && s3[..|labels|] == s1[..|labels|]
  {
    LeRefl(NewFrame(ElseC, bt));
    forall k | 0 <= k < |s3| ensures LabelTypes(s3[k]) == (labels + [bt.results])[k] {
      if k < |labels| {
        assert s3[k] == s2[..|labels|][k] == s1[..|labels|][k] == s1[k];
      }
    }
  }

  lemma NodeAccepts(C: Ctx, labels: seq<seq<ValType>>, n: Node, s: VState, ts: seq<ValType>, us: seq<ValType>)
    requires Ready(labels, s, ts) && NodeTyped(C, labels, n, ts, us)
    ensures Leaves(labels, s, Check(C, FlatNode(n), s), us)
    decreases n, 2
  {
    hide CheckOne, Meets, Typed, Flat;
    match n {
      case Plain(i) =>
        PlainAccepts(C, labels, i.instr, s, ts, us);
        assert [i][1..] == [];
      case Block(bt, ty, body) =>
        var xs :| ts == xs + bt.params && us == xs + bt.results;
        BodyAccepts(C, labels, BlockBegin(bt), BlockEnd, ty, body, s, xs);
      case Loop(bt, ty, body) =>
        var xs :| ts == xs + bt.params && us == xs + bt.results;
        BodyAccepts(C, labels, LoopBegin(bt), LoopEnd, ty, body, s, xs);
      case If(bt, ty, yes) =>
        var xs :| ts == xs + (bt.params + [I32]) && us == xs + bt.results;
        BodyAccepts(C, labels, IfBegin(bt), IfEnd, ty, yes, s, xs);
      case IfElse(bt, ty, yes, no) =>
        var xs :| ts == xs + (bt.params + [I32]) && us == xs + bt.results;
        BranchesAccept(C, labels, n, s, xs);
    }
  }

  /** Typed code is accepted from every state that accepts its operands, and leaves one that accepts its results. */
  lemma {:induction false} SequenceAccepts(C: Ctx, labels: seq<seq<ValType>>, nodes: seq<Node>, s: VState,
                                           ts: seq<ValType>, us: seq<ValType>)
    requires Ready(labels, s, ts) && Typed(C, labels, nodes, ts, us)
    ensures Leaves(labels, s, Check(C, Flat(nodes), s), us)
    decreases nodes, 0
  {
    hide CheckOne, Meets, NodeTyped, FlatNode;
    if nodes != [] {
      var mid :| NodeTyped(C, labels, nodes[0], ts, mid) && Typed(C, labels, nodes[1..], mid, us);
      NodeAccepts(C, labels, nodes[0], s, ts, mid);
      var s1 := Check(C, FlatNode(nodes[0]), s).value;
      SequenceAccepts(C, labels, nodes[1..], s1, mid, us);
      CheckAppend(C, FlatNode(nodes[0]), Flat(nodes[1..]), s);
    }
  }

  /** Completeness: a function body the rules type from no operands to the results is valid. */
  lemma TypedIsValid(C: Ctx, nodes: seq<Node>)
    requires Typed(C, [C.ret], nodes, [], C.ret)
    ensures ValidBody(C, Flat(nodes))
  {
    hide Typed, Check, Flat, Finished;
    var s := Body([], C.ret);
    LeRefl(s[0]);
    assert KnownOf([]) == [];
    SequenceAccepts(C, [C.ret], nodes, s, [], C.ret);
    AllMet(Check(C, Flat(nodes), s).value[0]);
  }
}
