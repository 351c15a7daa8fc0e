/** The Instrumenter: the two insertion entry points, over the functions of a module. */
module Instrumenting {
  import opened Values
  import opened Machine
  import opened Weaving
  import opened Rewriter
  import opened Builder

  /** Undefined stands for what the language leaves open: an iterator advanced past the end of its list. */
  datatype InstrumentResult = Success | InstrumentError | ValidateError | InvalidState | Undefined

  datatype InstrumentState = IdleState | ValidState | WrittenState

  function AddedOf(ops: seq<Operation>): (added: seq<Added>)
    ensures |added| == |ops|
    ensures forall k :: 0 <= k < |ops| ==> added[k] == Added(Full(ops[k].pre.code), Full(ops[k].post.code))
  {
    seq(|ops|, k requires 0 <= k < |ops| => Added(Full(ops[k].pre.code), Full(ops[k].post.code)))
  }

  /** The code of a function after match-and-insert. */
  function Instrumented(code: Code, ops: seq<Operation>): Code {
    Weave(code, MatchGaps(code, ops, AddedOf(ops)))
  }

  /** The code of a function after insertion of xs behind the instruction numbered pos. */
  function InsertedAt(code: Code, pos: nat, xs: Code): Code
    requires pos <= |code|
  {
    code[..pos] + xs + code[pos..]
  }

  /** The position check is made on the vector, the insertion on the list without empty entries. */
  predicate PositionAccepted(ir: StackIR, pos: nat) {
    pos <= |ir|
  }

  predicate PositionInList(ir: StackIR, pos: nat) {
    pos <= |Compact(ir)|
  }

  /** The position check keeps every insertion inside the list exactly when the vector has no empty entries. */
  lemma PositionCheckExact(ir: StackIR)
    ensures (forall pos: nat :: PositionAccepted(ir, pos) ==> PositionInList(ir, pos)) <==> None !in ir
  {
    CompactLength(ir);
    if None in ir {
      assert PositionAccepted(ir, |ir|) && !PositionInList(ir, |ir|);
    }
  }

  lemma SameName(fs: seq<ModFunc>, i: nat, k: nat)
    requires Distinct(Names(fs)) && i < |fs| && k < |fs| && fs[i].name == fs[k].name
    ensures i == k
  {
    assert Names(fs)[i] == Names(fs)[k];
  }

  /** A function as the visitor leaves it. */
  function VisitedFunc(f: ModFunc, scope: set<string>, ops: seq<Operation>): ModFunc {
    if f.body.None? || f.name !in scope then f
    else f.(body := Some(Full(Instrumented(Compact(f.body.value), ops))))
  }

  /** The functions after the visitor has been at the first n of them. */
  function Visited(fs: seq<ModFunc>, scope: set<string>, ops: seq<Operation>, n: nat): (r: seq<ModFunc>)
    ensures |r| == |fs|
    ensures forall j :: 0 <= j < |fs| ==> r[j] == if j < n then VisitedFunc(fs[j], scope, ops) else fs[j]
  {
    seq(|fs|, j requires 0 <= j < |fs| => if j < n then VisitedFunc(fs[j], scope, ops) else fs[j])
  }

  lemma VisitOne(fs: seq<ModFunc>, scope: set<string>, ops: seq<Operation>, n: nat)
    requires n < |fs|
    ensures Visited(fs, scope, ops, n)[n] == fs[n]
    ensures Visited(fs, scope, ops, n + 1) == Visited(fs, scope, ops, n)[n := VisitedFunc(fs[n], scope, ops)]
  {
    hide VisitedFunc;
  }

  lemma VisitNone(fs: seq<ModFunc>, scope: set<string>, ops: seq<Operation>)
    ensures Visited(fs, scope, ops, 0) == fs
  {
    hide VisitedFunc;
  }

  lemma VisitIs(f: ModFunc, scope: set<string>, ops: seq<Operation>)
    ensures var g := VisitedFunc(f, scope, ops);
      if f.body.None? || f.name !in scope then g == f
      else g == f.(body := Some(Full(Instrumented(Compact(f.body.value), ops))))
  {
  }

  /** What the visitor does to the body of one function in scope. */
  method InstrumentBody(ir: StackIR, ops: seq<Operation>, added: seq<Added>) returns (out: StackIR)
    requires added == AddedOf(ops)
    ensures out == Full(Instrumented(Compact(ir), ops))
  {
    var list := new InstList(ir);
    ghost var visited := InsertAround(list, ops, added);
    out := Full(list.items);
  }

  class Instrumenter {
    const mod: Module
    var scope: set<string>
    var state: InstrumentState

    constructor (m: Module)
      ensures mod == m && state == IdleState && scope == {}
    {
      mod, state, scope := m, IdleState, {};
    }

    /** `valid` is the verdict of the final module validation. */
    method Instrument(ops: seq<Operation>, prefix: string, valid: bool) returns (result: InstrumentResult)
      requires Distinct(Names(mod.funcs)) && Fresh(mod.funcs, prefix)
      modifies mod
      ensures state != ValidState ==> result == InvalidState && mod.funcs == old(mod.funcs)
      ensures state == ValidState ==>
                && result == (if valid then Success else ValidateError)
                && |mod.funcs| == |old(mod.funcs)|
                && forall i :: 0 <= i < |mod.funcs| ==>
                     var f, g := old(mod.funcs)[i], mod.funcs[i];
                     if f.body.None? || f.name !in scope then g == f
                     else g == f.(body := Some(Full(Instrumented(Compact(f.body.value), ops))))
    {
      if state != ValidState {
        return InvalidState;
      }
      hide Builder.Fresh, Distinct, Instrumented, VisitedFunc, AddedOf;
      var added := MakeOperations(mod, ops, prefix);
      assert added == AddedOf(ops);
      ghost var fs := mod.funcs;
      VisitNone(fs, scope, ops);
      for i := 0 to |mod.funcs|
        invariant mod.funcs == Visited(fs, scope, ops, i)
      {
        var f := mod.funcs[i];
        VisitOne(fs, scope, ops, i);
        VisitIs(f, scope, ops);
        if f.body.Some? && f.name in scope {
          var ir := InstrumentBody(f.body.value, ops, added);
          mod.funcs := mod.funcs[i := f.(body := Some(ir))];
        }
      }
      forall i | 0 <= i < |fs|
        ensures var f, g := fs[i], mod.funcs[i];
          if f.body.None? || f.name !in scope then g == f
          else g == f.(body := Some(Full(Instrumented(Compact(f.body.value), ops))))
      {
        VisitIs(fs[i], scope, ops);
      }
      result := if valid then Success else ValidateError;
    }

    /** Inserts the operation's second fragment into the function called `name`. */
    method InstrumentFunction(op: Operation, name: string, pos: nat, prefix: string, valid: bool)
      returns (result: InstrumentResult)
      requires Distinct(Names(mod.funcs)) && Fresh(mod.funcs, prefix)
      modifies mod
      ensures result == InvalidState <==> state != ValidState
      ensures state == ValidState ==>
                (result == InstrumentError <==>
                  !exists i :: 0 <= i < |old(mod.funcs)| && old(mod.funcs)[i].name == name
                     && old(mod.funcs)[i].body.Some? && pos <= |old(mod.funcs)[i].body.value|)
      ensures state == ValidState ==>
                (result == Undefined <==>
                  exists i :: 0 <= i < |old(mod.funcs)| && old(mod.funcs)[i].name == name
                     && old(mod.funcs)[i].body.Some?
                     && |Compact(old(mod.funcs)[i].body.value)| < pos <= |old(mod.funcs)[i].body.value|)
      ensures result == Success || result == ValidateError ==>
                && (result == Success <==> valid)
                && |mod.funcs| == |old(mod.funcs)|
                && forall i :: 0 <= i < |mod.funcs| ==>
                     var f, g := old(mod.funcs)[i], mod.funcs[i];
                     if f.name != name then g == f
                     else
                       && f.body.Some? && pos <= |Compact(f.body.value)|
                       && g == f.(body := Some(Full(InsertedAt(Compact(f.body.value), pos, op.post.code))))
      ensures result == InstrumentError || result == InvalidState || result == Undefined ==>
                mod.funcs == old(mod.funcs)
    {
      if state != ValidState {
        return InvalidState;
      }
      var added := MakeOperations(mod, [op], prefix);
      ghost var fs := mod.funcs;
      var k := FindFunction(mod.funcs, name);
      forall i | 0 <= i < |fs| && fs[i].name == name ensures i == k {
        SameName(fs, i, k);
      }
      if k == |mod.funcs| || mod.funcs[k].body.None? {
        return InstrumentError;
      }
      if pos > |mod.funcs[k].body.value| {
        return InstrumentError;
      }
      assert pos <= |fs[k].body.value|;
      var list := new InstList(mod.funcs[k].body.value);
      if pos > |list.items| {
        return Undefined;
      }
      var xs := VecToList(added[0].post);
      CompactFull(op.post.code);
      var iter := list.Splice(pos, xs);
      mod.funcs := mod.funcs[k := mod.funcs[k].(body := Some(Full(list.items)))];
      result := if valid then Success else ValidateError;
    }
  }

  /** With null-free fragments the gaps hold the fragments' own code. */
  lemma FragmentsAround(s: StackInst, ops: seq<Operation>)
    ensures var k := FirstMatch(s, ops);
      && PreOf(s, ops, AddedOf(ops)) == (if k < |ops| then ops[k].pre.code else [])
      && PostOf(s, ops, AddedOf(ops)) == (if k < |ops| then ops[k].post.code else [])
  {
    var k := FirstMatch(s, ops);
    if k < |ops| {
      CompactFull(ops[k].pre.code);
      CompactFull(ops[k].post.code);
    }
  }

  /** Erasing what an instrumentation inserted gives back the original code. */
  lemma InstrumentedErases(code: Code, ops: seq<Operation>)
    ensures var gaps := MatchGaps(code, ops, AddedOf(ops));
      |Instrumented(code, ops)| == Site(gaps, |gaps| - 1) && Erase(Instrumented(code, ops), gaps) == code
  {
    EraseWeave(code, MatchGaps(code, ops, AddedOf(ops)));
  }

  lemma SomeMatch(s: StackInst, ops: seq<Operation>, perm: seq<Operation>)
    requires forall op :: op in ops ==> op in perm
    requires FirstMatch(s, ops) < |ops|
    ensures FirstMatch(s, perm) < |perm| && perm[FirstMatch(s, perm)] in perm
  {
    assert ops[FirstMatch(s, ops)] in perm;
  }

  /** When the targets are orthogonal, the order of the operations does not matter. */
  lemma OrderIrrelevant(s: StackInst, ops: seq<Operation>, perm: seq<Operation>)
    requires forall op :: op in ops <==> op in perm
    requires forall a, b :: a in ops && b in ops && MatchTargets(s, a.targets) && MatchTargets(s, b.targets) ==> a == b
    ensures PreOf(s, ops, AddedOf(ops)) == PreOf(s, perm, AddedOf(perm))
    ensures PostOf(s, ops, AddedOf(ops)) == PostOf(s, perm, AddedOf(perm))
  {
    FragmentsAround(s, ops);
    FragmentsAround(s, perm);
    if FirstMatch(s, ops) < |ops| {
      SomeMatch(s, ops, perm);
    }
    if FirstMatch(s, perm) < |perm| {
      SomeMatch(s, perm, ops);
    }
  }
}
