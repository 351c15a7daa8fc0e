/** Match-and-insert and positional insertion: the in-place list algorithms and what they compute. */
module Rewriter {
  import opened Values
  import opened Machine
  import opened Weaving
  import opened Fragments

  // ----- targets -----

  datatype ExprId =
    BlockId | IfId | LoopId | TryId | TryTableId | BreakId | ReturnId | UnreachableId | CallId | CallIndirectId
    | NopId | DropId | ConstId | LocalGetId | LocalSetId | GlobalGetId | GlobalSetId | LoadId | StoreId
    | UnaryId | BinaryId | MemorySizeId | MemoryGrowId | MemoryInitId

  datatype StackOp = Basic | OpBlockBegin | OpBlockEnd | OpIfBegin | OpIfElse | OpIfEnd | OpLoopBegin | OpLoopEnd

  datatype ExpOp = Uop(uop: UnaryOp) | Bop(bop: BinaryOp) | Cop(cop: StackOp)

  datatype ExpName = ExpName(id: ExprId, expOp: Option<ExpOp>, expType: Option<ExprType>)

  /** The expression an instruction originates from; all markers of a construct share its expression. */
  function IdOf(i: Instr): ExprId {
    match i
    case BlockBegin(_) => BlockId
    case BlockEnd => BlockId
    case LoopBegin(_) => LoopId
    case LoopEnd => LoopId
    case IfBegin(_) => IfId
    case IfElse => IfId
    case IfEnd => IfId
    case Br(_) => BreakId
    case BrIf(_) => BreakId
    case Return => ReturnId
    case Unreachable => UnreachableId
    case Call(_) => CallId
    case CallIndirect(_) => CallIndirectId
    case Nop => NopId
    case Drop => DropId
    case Const(_) => ConstId
    case LocalGet(_) => LocalGetId
    case LocalSet(_) => LocalSetId
    case LocalTee(_) => LocalSetId
    case GlobalGet(_) => GlobalGetId
    case GlobalSet(_) => GlobalSetId
    case Load(_, _) => LoadId
    case Load8U(_) => LoadId
    case Store(_, _) => StoreId
    case Store8(_) => StoreId
    case MemorySize => MemorySizeId
    case MemoryGrow => MemoryGrowId
    case MemoryInit(_) => MemoryInitId
    case Unary(_) => UnaryId
    case Binary(_) => BinaryId
  }

  function OpOf(i: Instr): StackOp {
    match i
    case BlockBegin(_) => OpBlockBegin
    case BlockEnd => OpBlockEnd
    case LoopBegin(_) => OpLoopBegin
    case LoopEnd => OpLoopEnd
    case IfBegin(_) => OpIfBegin
    case IfElse => OpIfElse
    case IfEnd => OpIfEnd
    case _ => Basic
  }

  predicate IsControlFlowStructure(id: ExprId) {
    id == BlockId || id == IfId || id == LoopId || id == TryId || id == TryTableId
  }

  predicate MatchTarget(s: StackInst, t: ExpName) {
    && IdOf(s.instr) == t.id
    && (t.expOp.Some? ==>
          if t.id == UnaryId then t.expOp.value == Uop(s.instr.uop)
          else if t.id == BinaryId then t.expOp.value == Bop(s.instr.bop)
          else IsControlFlowStructure(t.id) && t.expOp.value == Cop(OpOf(s.instr)))
    && (t.expType.Some? ==> s.ty == t.expType.value)
  }

  predicate MatchTargets(s: StackInst, ts: seq<ExpName>) {
    exists k :: 0 <= k < |ts| && MatchTarget(s, ts[k])
  }

  /** A target without operator matches by kind of expression, and by type if it names one. */
  lemma PlainTarget(s: StackInst, id: ExprId, ty: Option<ExprType>)
    ensures MatchTarget(s, ExpName(id, None, ty)) <==>
            && (ty.None? || s.ty == ty.value)
            && match id {
                 case BlockId => s.instr.BlockBegin? || s.instr.BlockEnd?
                 case LoopId => s.instr.LoopBegin? || s.instr.LoopEnd?
                 case IfId => s.instr.IfBegin? || s.instr.IfElse? || s.instr.IfEnd?
                 case TryId => false
                 case TryTableId => false
                 case BreakId => s.instr.Br? || s.instr.BrIf?
                 case ReturnId => s.instr.Return?
                 case UnreachableId => s.instr.Unreachable?
                 case CallId => s.instr.Call?
                 case CallIndirectId => s.instr.CallIndirect?
                 case NopId => s.instr.Nop?
                 case DropId => s.instr.Drop?
                 case ConstId => s.instr.Const?
                 case LocalGetId => s.instr.LocalGet?
                 case LocalSetId => s.instr.LocalSet? || s.instr.LocalTee?
                 case GlobalGetId => s.instr.GlobalGet?
                 case GlobalSetId => s.instr.GlobalSet?
                 case LoadId => s.instr.Load? || s.instr.Load8U?
                 case StoreId => s.instr.Store? || s.instr.Store8?
                 case UnaryId => s.instr.Unary?
                 case BinaryId => s.instr.Binary?
                 case MemorySizeId => s.instr.MemorySize?
                 case MemoryGrowId => s.instr.MemoryGrow?
                 case MemoryInitId => s.instr.MemoryInit?
               }
  {
  }

  /**
   * A target with an operator matches exactly the unary or binary instructions with that operator, or
   * the marker of that kind of block, loop or if; any other combination matches nothing.
   */
  lemma OperatorTarget(s: StackInst, id: ExprId, o: ExpOp, ty: Option<ExprType>)
    ensures MatchTarget(s, ExpName(id, Some(o), ty)) <==>
            && (ty.None? || s.ty == ty.value)
            && match o {
                 case Uop(op) => id == UnaryId && s.instr == Unary(op)
                 case Bop(op) => id == BinaryId && s.instr == Binary(op)
                 case Cop(OpBlockBegin) => id == BlockId && s.instr.BlockBegin?
                 case Cop(OpBlockEnd) => id == BlockId && s.instr.BlockEnd?
                 case Cop(OpLoopBegin) => id == LoopId && s.instr.LoopBegin?
                 case Cop(OpLoopEnd) => id == LoopId && s.instr.LoopEnd?
                 case Cop(OpIfBegin) => id == IfId && s.instr.IfBegin?
                 case Cop(OpIfElse) => id == IfId && s.instr.IfElse?
                 case Cop(OpIfEnd) => id == IfId && s.instr.IfEnd?
                 case Cop(Basic) => false
               }
  {
  }

  /** Targets in order; the first that matches decides. */
  method FindTarget(s: StackInst, ts: seq<ExpName>) returns (found: bool)
    ensures found <==> exists k :: 0 <= k < |ts| && MatchTarget(s, ts[k])
  {
    for k := 0 to |ts|
      invariant forall j :: 0 <= j < k ==> !MatchTarget(s, ts[j])
    {
      if MatchTarget(s, ts[k]) {
        return true;
      }
    }
    return false;
  }

  // ----- vectors and lists -----

  /** Stack IR as Binaryen keeps it: removed instructions leave empty entries. */
  type StackIR = seq<Option<StackInst>>

  function Compact(ir: StackIR): Code {
    if ir == [] then []
    else (if ir[0].Some? then [ir[0].value] else []) + Compact(ir[1..])
  }

  function Full(code: Code): (ir: StackIR)
    ensures |ir| == |code|
    ensures forall k :: 0 <= k < |code| ==> ir[k] == Some(code[k])
  {
    seq(|code|, k requires 0 <= k < |code| => Some(code[k]))
  }

  lemma {:induction false} CompactSnoc(ir: StackIR, x: Option<StackInst>)
    ensures Compact(ir + [x]) == Compact(ir) + if x.Some? then [x.value] else []
  {
    if ir != [] {
      CompactSnoc(ir[1..], x);
      assert (ir + [x])[1..] == ir[1..] + [x];
    }
  }

  lemma {:induction false} CompactFull(code: Code)
    ensures Compact(Full(code)) == code
  {
    if code != [] {
      assert Full(code)[1..] == Full(code[1..]);
      CompactFull(code[1..]);
    }
  }

  lemma {:induction false} CompactLength(ir: StackIR)
    ensures |Compact(ir)| <= |ir|
    ensures |Compact(ir)| == |ir| <==> None !in ir
  {
    if ir != [] {
      CompactLength(ir[1..]);
      assert ir == [ir[0]] + ir[1..];
    }
  }

  /** The list is the vector without its empty entries: entry by entry, in order. */
  lemma {:induction false} CompactAppend(a: StackIR, b: StackIR)
    ensures Compact(a + b) == Compact(a) + Compact(b)
    ensures forall x :: Compact([Some(x)]) == [x]
    ensures Compact([]) == Compact([None]) == []
  {
    assert forall x: Option<StackInst> :: [x][1..] == [];
    if a == [] {
      assert a + b == b;
    } else {
      assert (a + b)[1..] == a[1..] + b;
      CompactAppend(a[1..], b);
    }
  }

  method VecToList(ir: StackIR) returns (list: Code)
    ensures list == Compact(ir)
  {
    list := [];
    for k := 0 to |ir|
      invariant list == Compact(ir[..k])
    {
      assert ir[..k + 1] == ir[..k] + [ir[k]];
      CompactSnoc(ir[..k], ir[k]);
      if ir[k].Some? {
        list := list + [ir[k].value];
      }
    }
    assert ir[..|ir|] == ir;
  }

  /** A doubly linked list of instructions; an iterator is the position of the element it refers to. */
  class InstList {
    var items: Code

    constructor (ir: StackIR)
      ensures items == Compact(ir)
    {
      new;
      items := VecToList(ir);
    }

    /** Puts xs in front of the element at `at`; the iterator keeps referring to that element. */
    method Splice(at: nat, xs: Code) returns (iter: nat)
      requires at <= |items|
      modifies this
      ensures items == old(items[..at] + xs + items[at..])
      ensures iter == at + |xs|
    {
      items := items[..at] + xs + items[at..];
      iter := at + |xs|;
    }
  }

  // ----- match and insert -----

  datatype Operation = Operation(targets: seq<ExpName>, pre: Fragment, post: Fragment)

  /** The parsed instructions of an operation's two fragments. */
  datatype Added = Added(pre: StackIR, post: StackIR)

  /** The first operation that matches; |ops| if none does. */
  function FirstMatch(s: StackInst, ops: seq<Operation>): (k: nat)
    ensures k <= |ops|
    ensures k < |ops| ==> MatchTargets(s, ops[k].targets)
    ensures forall j :: 0 <= j < k ==> !MatchTargets(s, ops[j].targets)
  {
    if ops == [] then 0
    else if MatchTargets(s, ops[0].targets) then 0
    else
      var k := FirstMatch(s, ops[1..]);
      assert forall j :: 1 <= j < k + 1 ==> ops[j] == ops[1..][j - 1];
      k + 1
  }

  function PreOf(s: StackInst, ops: seq<Operation>, added: seq<Added>): Code
    requires |added| == |ops|
  {
    var k := FirstMatch(s, ops);
    if k < |ops| then Compact(added[k].pre) else []
  }

  function PostOf(s: StackInst, ops: seq<Operation>, added: seq<Added>): Code
    requires |added| == |ops|
  {
    var k := FirstMatch(s, ops);
    if k < |ops| then Compact(added[k].post) else []
  }

  function Pres(code: Code, ops: seq<Operation>, added: seq<Added>): (pres: seq<Code>)
    requires |added| == |ops|
    ensures |pres| == |code| && forall k :: 0 <= k < |code| ==> pres[k] == PreOf(code[k], ops, added)
  {
    seq(|code|, k requires 0 <= k < |code| => PreOf(code[k], ops, added))
  }

  function Posts(code: Code, ops: seq<Operation>, added: seq<Added>): (posts: seq<Code>)
    requires |added| == |ops|
    ensures |posts| == |code| && forall k :: 0 <= k < |code| ==> posts[k] == PostOf(code[k], ops, added)
  {
    seq(|code|, k requires 0 <= k < |code| => PostOf(code[k], ops, added))
  }

  /** Gap k holds what follows instruction k - 1 and then what precedes instruction k. */
  function MatchGaps(code: Code, ops: seq<Operation>, added: seq<Added>): (gaps: seq<Code>)
    requires |added| == |ops|
    ensures |gaps| == |code| + 1
  {
    Around(Pres(code, ops, added), Posts(code, ops, added))
  }

  /** What the loop has built when k instructions are done, and one more. */
  lemma MatchedOneMore(code: Code, k: nat, ops: seq<Operation>, added: seq<Added>)
    requires |added| == |ops| && k < |code|
    ensures Weave(code[..k + 1], MatchGaps(code[..k + 1], ops, added))
         == Weave(code[..k], MatchGaps(code[..k], ops, added))
            + PreOf(code[k], ops, added) + [code[k]] + PostOf(code[k], ops, added)
  {
    hide PreOf, PostOf;
    var pres, posts := Pres(code, ops, added), Posts(code, ops, added);
    AroundOneMore(code, pres, posts, k);
    assert pres[..k] == Pres(code[..k], ops, added) && posts[..k] == Posts(code[..k], ops, added);
    assert pres[..k + 1] == Pres(code[..k + 1], ops, added) && posts[..k + 1] == Posts(code[..k + 1], ops, added);
  }

  /** The work on the instruction at i; the iterator ends on the last element of what belongs to it. */
  method InsertAt(list: InstList, i: nat, ops: seq<Operation>, added: seq<Added>) returns (iter: nat)
    requires |added| == |ops| && i < |list.items|
    modifies list
    ensures var cur := old(list.items[i]);
      && list.items == old(list.items[..i]) + PreOf(cur, ops, added) + [cur] + PostOf(cur, ops, added)
                       + old(list.items[i + 1..])
      && iter == i + |PreOf(cur, ops, added)| + |PostOf(cur, ops, added)|
  {
    iter := i;
    var cur := list.items[i];
    ghost var front, back := list.items[..i], list.items[i + 1..];
    assert list.items == front + [] + [cur] + [] + back;
    var opNum := 0;
    while opNum < |ops|
      invariant opNum <= FirstMatch(cur, ops)
      invariant iter == i && list.items == old(list.items)
    {
      var found := FindTarget(cur, ops[opNum].targets);
      if !found {
        opNum := opNum + 1;
        continue;
      }
      var pre := VecToList(added[opNum].pre);
      iter := list.Splice(iter, pre);
      iter := iter + 1;
      assert list.items == (front + pre + [cur]) + back;
      assert list.items[..iter] == front + pre + [cur] && list.items[iter..] == back;
      var post := VecToList(added[opNum].post);
      iter := list.Splice(iter, post);
      iter := iter - 1;
      break;
    }
  }

  /**
   * The in-place loop: for each instruction the fragments of the first matching operation are
   * spliced in around it. Exactly the original instructions are visited, in order.
   */
  method InsertAround(list: InstList, ops: seq<Operation>, added: seq<Added>) returns (ghost visited: Code)
    requires |added| == |ops|
    modifies list
    ensures list.items == Weave(old(list.items), MatchGaps(old(list.items), ops, added))
    ensures visited == old(list.items)
  {
    hide PreOf, PostOf, MatchGaps, Weave;
    ghost var code := list.items;
    ghost var k := 0;
    visited := [];
    var i := 0;
    ghost var done: Code := [];
    assert code[..0] == [];
    NothingWoven(ops, added);
    while i != |list.items|
      invariant k <= |code| && visited == code[..k]
      invariant done == Weave(code[..k], MatchGaps(code[..k], ops, added))
      invariant i == |done| && list.items == done + code[k..]
      decreases |code| - k
    {
      var cur := list.items[i];
      RestOfList(done, code, k);
      visited := visited + [cur];
      i := InsertAt(list, i, ops, added);
      MatchedOneMore(code, k, ops, added);
      done := done + PreOf(cur, ops, added) + [cur] + PostOf(cur, ops, added);
      assert code[..k + 1] == code[..k] + [cur];
      i := i + 1;
      k := k + 1;
    }
    assert code[..k] == code;
  }

  lemma NothingWoven(ops: seq<Operation>, added: seq<Added>)
    requires |added| == |ops|
    ensures Weave([], MatchGaps([], ops, added)) == []
  {
    assert MatchGaps([], ops, added)[0] == [] + [];
  }

  lemma RestOfList(done: Code, code: Code, k: nat)
    requires k < |code|
    ensures var l := done + code[k..];
      |l| > |done| && l[..|done|] == done && l[|done|] == code[k] && l[|done| + 1..] == code[k + 1..]
  {
  }
}
