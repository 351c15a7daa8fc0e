/**
 * The programs of the tools as they put the instrumentation together: the module that is left is the
 * instrumented program the theorems about runs speak of.
 */
module Toolchain {
  import opened Values
  import opened Machine
  import opened Fragments
  import opened Rewriter
  import opened Builder
  import opened Meaning
  import opened Decimals
  import opened BacktraceHooks
  import Instrumenting
  import Counter
  import CanaryRuns
  import StackCanary
  import Backtrace
  import VariableInspection

  // ----- modules as programs -----

  /** What a program has besides its functions. */
  datatype Surroundings = Surroundings(table: seq<Option<nat>>, host: Host, maxPages: nat)

  function FuncOf(f: ModFunc): Func {
    if f.body.None? then Import(f.ft) else Defined(f.ft, f.vars, Compact(f.body.value))
  }

  function FuncsOf(fs: seq<ModFunc>): (r: seq<Func>)
    ensures |r| == |fs| && forall k :: 0 <= k < |fs| ==> r[k] == FuncOf(fs[k])
  {
    seq(|fs|, k requires 0 <= k < |fs| => FuncOf(fs[k]))
  }

  function ProgramOf(fs: seq<ModFunc>, s: Surroundings): Program {
    Program(FuncsOf(fs), s.table, s.host, s.maxPages)
  }

  /** A module that holds the program, its functions named by their numbers. */
  function ModuleOf(P: Program): (fs: seq<ModFunc>)
    ensures |fs| == |P.funcs|
  {
    seq(|P.funcs|, k requires 0 <= k < |P.funcs| =>
      var f := P.funcs[k];
      ModFunc(Decimal(k), f.ft, if f.Defined? then f.vars else [], if f.Defined? then Some(Full(f.code)) else None))
  }

  /** Every program is that of a module with distinct names. */
  lemma EveryProgram(P: Program)
    ensures ProgramOf(ModuleOf(P), Surroundings(P.table, P.host, P.maxPages)) == P
    ensures Distinct(Names(ModuleOf(P)))
  {
    var fs := ModuleOf(P);
    forall k | 0 <= k < |fs| ensures FuncOf(fs[k]) == P.funcs[k] {
      if P.funcs[k].Defined? {
        CompactFull(P.funcs[k].code);
      }
    }
    forall j, k | 0 <= j < k < |fs| ensures fs[j].name != fs[k].name {
      if Decimal(j) == Decimal(k) {
        DecimalInjective(j, k);
      }
    }
    assert FuncsOf(fs) == P.funcs;
  }

  /** The numbers of the functions in scope. */
  function ScopeOf(fs: seq<ModFunc>, scope: set<string>): set<nat> {
    set k | 0 <= k < |fs| && fs[k].name in scope
  }

  lemma NewBody(f: ModFunc, code: Code)
    requires f.body.Some?
    ensures FuncOf(f.(body := Some(Full(code)))) == Defined(f.ft, f.vars, code)
  {
    CompactFull(code);
  }

  // ----- match and insert -----

  /** What match-and-insert does to the functions of a module. */
  ghost predicate MatchInserted(before: seq<ModFunc>, after: seq<ModFunc>, scope: set<string>, ops: seq<Operation>) {
    && |after| == |before|
    && forall i :: 0 <= i < |after| ==>
         var f, g := before[i], after[i];
         if f.body.None? || f.name !in scope then g == f
         else g == f.(body := Some(Full(Instrumenting.Instrumented(Compact(f.body.value), ops))))
  }

  /** Functions changed by match-and-insert are the rewritten program; the module may hold further functions. */
  lemma RewrittenProgram(before: seq<ModFunc>, after: seq<ModFunc>, n: nat, scope: set<string>, ops: seq<Operation>,
                         s: Surroundings, s2: Surroundings)
    requires MatchInserted(before, after, scope, ops) && n <= |before| && s2.table == s.table
    ensures Rewritten(ProgramOf(before[..n], s), ProgramOf(after, s2), ScopeOf(before, scope), ops)
  {
    hide Instrumenting.Instrumented, Compact;
    var P, P2 := ProgramOf(before[..n], s), ProgramOf(after, s2);
    forall i | 0 <= i < n ensures P2.funcs[i] == RewrittenFunc(P.funcs[i], i in ScopeOf(before, scope), ops) {
      var f, g := before[i], after[i];
      if f.body.Some? && f.name in scope {
        NewBody(f, Instrumenting.Instrumented(Compact(f.body.value), ops));
      }
    }
  }

  /**
   * The call counter of the test: with add_call in the module and not in scope, one operation on direct
   * calls. The module is then the program whose runs `CountExact` describes, for the program of its
   * first n functions.
   */
  method CountCalls(inst: Instrumenting.Instrumenter, addCall: nat, globals: nat, prefix: string, valid: bool,
                    ghost n: nat, ghost s: Surroundings, ghost s2: Surroundings)
    returns (result: Instrumenting.InstrumentResult)
    requires inst.state == Instrumenting.ValidState && Distinct(Names(inst.mod.funcs)) && Fresh(inst.mod.funcs, prefix)
    requires n <= addCall < |inst.mod.funcs| && inst.mod.funcs[addCall].name !in inst.scope
    requires FuncOf(inst.mod.funcs[addCall]) == Counter.AddCall(globals) && s2.table == s.table
    modifies inst.mod
    ensures result == if valid then Instrumenting.Success else Instrumenting.ValidateError
    ensures var P, P2 := ProgramOf(old(inst.mod.funcs)[..n], s), ProgramOf(inst.mod.funcs, s2);
      && |P.funcs| <= addCall < |P2.funcs| && P2.funcs[addCall] == Counter.AddCall(globals)
      && Rewritten(P, P2, ScopeOf(old(inst.mod.funcs), inst.scope), Counter.CountOps(addCall))
  {
    ghost var before := inst.mod.funcs;
    result := inst.Instrument(Counter.CountOps(addCall), prefix, valid);
    RewrittenProgram(before, inst.mod.funcs, n, inst.scope, Counter.CountOps(addCall), s, s2);
  }

  // ----- positional insertion -----

  /** The inspection of locals or globals: the code goes into one function, behind one of its instructions. */
  method InspectVariables(inst: Instrumenting.Instrumenter, op: Operation, name: string, line: nat, prefix: string,
                          valid: bool, ghost n: nat, ghost s: Surroundings, ghost s2: Surroundings)
    returns (result: Instrumenting.InstrumentResult, ghost fn: nat)
    requires Distinct(Names(inst.mod.funcs)) && Fresh(inst.mod.funcs, prefix)
    requires n <= |inst.mod.funcs| && s2.table == s.table
    modifies inst.mod
    ensures result == Instrumenting.Success ==>
              valid && fn < |old(inst.mod.funcs)| == |inst.mod.funcs| && old(inst.mod.funcs)[fn].name == name
    ensures var P, P2 := ProgramOf(old(inst.mod.funcs)[..n], s), ProgramOf(inst.mod.funcs, s2);
      result == Instrumenting.Success && fn < n && GoodCode(P2, op.post.code) ==>
        VariableInspection.Inspected(P, P2, VariableInspection.Position(fn, line, op.post.code))
  {
    ghost var before := inst.mod.funcs;
    result := inst.InstrumentFunction(op, name, line, prefix, valid);
    fn := 0;
    if result == Instrumenting.Success {
      fn := NamedFunction(before, name);
      InsertedProgram(before, inst.mod.funcs, n, fn, name, line, op.post.code, s, s2);
    }
  }

  lemma NamedFunction(fs: seq<ModFunc>, name: string) returns (fn: nat)
    requires exists i :: 0 <= i < |fs| && fs[i].name == name
    ensures fn < |fs| && fs[fn].name == name
  {
    fn :| fn < |fs| && fs[fn].name == name;
  }

  lemma OtherName(fs: seq<ModFunc>, i: nat, k: nat)
    requires Distinct(Names(fs)) && i < |fs| && k < |fs| && i != k
    ensures fs[i].name != fs[k].name
  {
    assert Names(fs)[i] != Names(fs)[k];
  }

  lemma InsertedProgram(before: seq<ModFunc>, after: seq<ModFunc>, n: nat, fn: nat, name: string, line: nat, xs: Code,
                        s: Surroundings, s2: Surroundings)
    requires n <= |before| == |after| && s2.table == s.table && Distinct(Names(before))
    requires fn < |before| && before[fn].name == name
    requires forall i :: 0 <= i < |after| ==>
               var f, g := before[i], after[i];
               if f.name != name then g == f
               else
                 && f.body.Some? && line <= |Compact(f.body.value)|
                 && g == f.(body := Some(Full(Instrumenting.InsertedAt(Compact(f.body.value), line, xs))))
    ensures var P, P2 := ProgramOf(before[..n], s), ProgramOf(after, s2);
      fn < n && GoodCode(P2, xs) ==> VariableInspection.Inspected(P, P2, VariableInspection.Position(fn, line, xs))
  {
    hide Compact, Instrumenting.InsertedAt, GoodCode;
    var P, P2 := ProgramOf(before[..n], s), ProgramOf(after, s2);
    if fn < n {
      forall i | 0 <= i < n
        ensures P.funcs[fn].Defined? && line <= |P.funcs[fn].code|
        ensures P2.funcs[i] == if i != fn then P.funcs[i]
                               else P.funcs[i].(code := Instrumenting.InsertedAt(P.funcs[i].code, line, xs))
      {
        if i == fn {
          NewBody(before[i], Instrumenting.InsertedAt(Compact(before[i].body.value), line, xs));
        } else {
          OtherName(before, i, fn);
        }
      }
    }
  }

  // ----- the backtrace -----

  /**
   * The backtrace inspection: the positional insertion, then the hook pass over all functions in scope.
   * The module is then the hooked program of `BacktraceCorrect`.
   */
  method InspectBacktrace(inst: Instrumenting.Instrumenter, hooker: Hooker, op: Operation, name: string, prefix: string,
                          valid: bool, ghost n: nat, ghost gt: seq<ValType>, ghost s: Surroundings, ghost s2: Surroundings)
    returns (result: Instrumenting.InstrumentResult, ghost fn: nat)
    requires Distinct(Names(inst.mod.funcs)) && Fresh(inst.mod.funcs, prefix) && name in inst.scope
    requires hooker.Valid() && !hooker.inInspectFunc && hooker.lineNum == 0 && hooker.globals == |gt|
    requires n <= |inst.mod.funcs| && s2.table == s.table
    modifies inst.mod, hooker
    ensures result == Instrumenting.Success ==>
              valid && fn < |old(inst.mod.funcs)| == |inst.mod.funcs| && old(inst.mod.funcs)[fn].name == name
    ensures var P, P2 := ProgramOf(old(inst.mod.funcs)[..n], s), ProgramOf(inst.mod.funcs, s2);
      var I := Backtrace.Inspection(ScopeOf(old(inst.mod.funcs), inst.scope), fn, hooker.inspectLine, op.post.code, gt,
                                    hooker.Events());
      result == Instrumenting.Success && fn < n && GoodCode(P2, op.post.code) ==> Backtrace.HookedProgram(P, P2, I)
  {
    ghost var before := inst.mod.funcs;
    result := inst.InstrumentFunction(op, name, hooker.inspectLine, prefix, valid);
    fn := 0;
    if result == Instrumenting.Success {
      fn := NamedFunction(before, name);
      ghost var between := inst.mod.funcs;
      SameNames(before, between);
      hooker.HookModule(inst.mod, inst.scope, name);
      HookedIsProgram(before, between, inst.mod.funcs, n, inst.scope, fn, name, hooker.inspectLine, op.post.code, gt,
                      hooker.Events(), s, s2);
    }
  }

  lemma SameNames(a: seq<ModFunc>, b: seq<ModFunc>)
    requires |a| == |b| && Distinct(Names(a)) && forall i :: 0 <= i < |a| ==> b[i].name == a[i].name
    ensures Distinct(Names(b))
  {
    assert Names(a) == Names(b);
  }

  lemma HookedIsProgram(before: seq<ModFunc>, between: seq<ModFunc>, after: seq<ModFunc>, n: nat, scope: set<string>,
                        fn: nat, name: string, line: nat, xs: Code, gt: seq<ValType>, event: nat -> int,
                        s: Surroundings, s2: Surroundings)
    requires n <= |before| == |between| == |after| && s2.table == s.table && Distinct(Names(before)) && name in scope
    requires fn < |before| && before[fn].name == name
    requires forall i :: 0 <= i < |before| ==>
               var f, g := before[i], between[i];
               if f.name != name then g == f
               else
                 && f.body.Some? && line <= |Compact(f.body.value)|
                 && g == f.(body := Some(Full(Instrumenting.InsertedAt(Compact(f.body.value), line, xs))))
    requires forall i :: 0 <= i < |before| ==>
               var f, g := between[i], after[i];
               if f.body.None? || f.name !in scope then g == f
               else
                 var limit := if f.name == name then Some(line) else None;
                 g == f.(body := Some(Full(HookedCode(Compact(f.body.value), limit, |gt|, event))))
    ensures var P, P2 := ProgramOf(before[..n], s), ProgramOf(after, s2);
      fn < n && GoodCode(P2, xs) ==>
        Backtrace.HookedProgram(P, P2, Backtrace.Inspection(ScopeOf(before, scope), fn, line, xs, gt, event))
  {
    hide Compact, Instrumenting.InsertedAt, GoodCode, HookedCode;
    var P, P2 := ProgramOf(before[..n], s), ProgramOf(after, s2);
    var I := Backtrace.Inspection(ScopeOf(before, scope), fn, line, xs, gt, event);
    if fn < n {
      forall i | 0 <= i < n
        ensures P.funcs[fn].Defined? && line <= |P.funcs[fn].code|
        ensures P2.funcs[i] == if P.funcs[i].Import? then P.funcs[i]
                               else P.funcs[i].(code := Backtrace.InspectedCode(I, i, P.funcs[i].code))
      {
        OneHooked(before[i], between[i], after[i], i, scope, I, name, before);
      }
    }
  }

  lemma OneHooked(f: ModFunc, g: ModFunc, h: ModFunc, i: nat, scope: set<string>, I: Backtrace.Inspection, name: string,
                  before: seq<ModFunc>)
    requires Distinct(Names(before)) && i < |before| && I.fn < |before| && before[i] == f && before[I.fn].name == name
    requires I.scope == ScopeOf(before, scope)
    requires if f.name != name then g == f
             else
               && f.body.Some? && I.line <= |Compact(f.body.value)|
               && g == f.(body := Some(Full(Instrumenting.InsertedAt(Compact(f.body.value), I.line, I.code))))
    requires if g.body.None? || g.name !in scope then h == g
             else
               var limit := if g.name == name then Some(I.line) else None;
               h == g.(body := Some(Full(HookedCode(Compact(g.body.value), limit, |I.globals|, I.event))))
    requires name in scope
    ensures FuncOf(h) == if f.body.None? then FuncOf(f)
                         else Defined(f.ft, f.vars, Backtrace.InspectedCode(I, i, Compact(f.body.value)))
  {
    hide Compact, HookedCode;
    if i != I.fn {
      OtherName(before, i, I.fn);
    } else {
      CompactFull(Instrumenting.InsertedAt(Compact(f.body.value), I.line, I.code));
    }
    if g.body.Some? && g.name in scope {
      var limit := if g.name == name then Some(I.line) else None;
      NewBody(g, HookedCode(Compact(g.body.value), limit, |I.globals|, I.event));
    }
  }

  // ----- the canary -----

  /** The functions behind the injections into those whose names are not in `todo` any more. */
  ghost predicate Injected(fs: seq<ModFunc>, gs: seq<ModFunc>, todo: set<string>, xs: Code) {
    && |gs| == |fs|
    && forall i :: 0 <= i < |fs| ==>
         if fs[i].body.None? || fs[i].name in todo then gs[i] == fs[i]
         else gs[i] == fs[i].(body := Some(Full(Instrumenting.InsertedAt(Compact(fs[i].body.value), 0, xs))))
  }

  /** What one insertion at position 0 does to the functions. */
  ghost predicate InjectedOne(gs: seq<ModFunc>, hs: seq<ModFunc>, name: string, xs: Code) {
    && |hs| == |gs|
    && forall i :: 0 <= i < |gs| ==>
         if gs[i].name != name then hs[i] == gs[i]
         else
           && gs[i].body.Some?
           && hs[i] == gs[i].(body := Some(Full(Instrumenting.InsertedAt(Compact(gs[i].body.value), 0, xs))))
  }

  lemma InjectOneMore(fs: seq<ModFunc>, gs: seq<ModFunc>, hs: seq<ModFunc>, todo: set<string>, name: string, xs: Code)
    requires Injected(fs, gs, todo, xs) && InjectedOne(gs, hs, name, xs) && name in todo
    ensures Injected(fs, hs, todo - {name}, xs)
  {
    hide Compact, Instrumenting.InsertedAt;
  }

  lemma InjectedNames(fs: seq<ModFunc>, gs: seq<ModFunc>, todo: set<string>, xs: Code, prefix: string)
    requires Injected(fs, gs, todo, xs) && Distinct(Names(fs)) && Fresh(fs, prefix)
    ensures Distinct(Names(gs)) && Fresh(gs, prefix)
    ensures forall i :: 0 <= i < |gs| && fs[i].body.Some? ==> gs[i].body.Some?
  {
    hide Compact, Instrumenting.InsertedAt;
    forall i | 0 <= i < |fs| ensures gs[i].name == fs[i].name && (fs[i].body.Some? ==> gs[i].body.Some?) {
    }
    assert Names(gs) == Names(fs);
  }

  /** The names in scope are those of the defined functions, as in a new Instrumenter. */
  ghost predicate FullScope(fs: seq<ModFunc>, scope: set<string>) {
    && (forall i :: 0 <= i < |fs| && fs[i].body.Some? ==> fs[i].name in scope)
    && (forall name :: name in scope ==> exists i :: 0 <= i < |fs| && fs[i].name == name && fs[i].body.Some?)
  }

  /**
   * The stack canary example: the check behind every call, then the injection at the start of every
   * function in scope, in any order. The module is then the program the canary theorems are about.
   */
  method InsertCanary(inst: Instrumenting.Instrumenter, sp: nat, canary: nat, prefix: string, valid: bool,
                      ghost s: Surroundings)
    returns (ghost P1: Program)
    requires inst.state == Instrumenting.ValidState && Distinct(Names(inst.mod.funcs)) && Fresh(inst.mod.funcs, prefix)
    requires FullScope(inst.mod.funcs, inst.scope)
    modifies inst.mod
    ensures CanaryRuns.Canaried(ProgramOf(old(inst.mod.funcs), s), P1, ProgramOf(inst.mod.funcs, s),
                                ScopeOf(old(inst.mod.funcs), inst.scope), sp, canary)
  {
    hide CanaryRuns.ValidateOps, StackCanary.InjectCode, Injected, Compact, Instrumenting.InsertedAt,
      Instrumenting.Instrumented, CanaryRuns.Canaried, Fresh, FullScope;
    ghost var before := inst.mod.funcs;
    var ops, xs := CanaryRuns.ValidateOps(sp, canary), StackCanary.InjectCode(sp, canary);
    var result := inst.Instrument(ops, prefix, valid);
    ghost var between := inst.mod.funcs;
    P1 := ProgramOf(between, s);
    ScopeKept(before, between, inst.scope, ops, prefix);
    var inject := Operation([], Fragment([], [], []), Fragment(xs, [], []));
    var todo := inst.scope;
    NoneInjected(between, inst.scope, xs);
    while todo != {}
      invariant todo <= inst.scope && Injected(between, inst.mod.funcs, todo, xs)
    {
      var name :| name in todo;
      ghost var now := inst.mod.funcs;
      InjectedNames(between, now, todo, xs, prefix);
      ghost var k := HasName(between, now, inst.scope, todo, xs, name);
      assert 0 <= |now[k].body.value|;
      result := inst.InstrumentFunction(inject, name, 0, prefix, valid);
      assert InjectedOne(now, inst.mod.funcs, name, xs);
      InjectOneMore(between, now, inst.mod.funcs, todo, name, xs);
      todo := todo - {name};
    }
    CanariedProgram(before, between, inst.mod.funcs, inst.scope, sp, canary, s);
  }

  lemma ScopeKept(before: seq<ModFunc>, between: seq<ModFunc>, scope: set<string>, ops: seq<Operation>, prefix: string)
    requires MatchInserted(before, between, scope, ops)
    requires Distinct(Names(before)) && Fresh(before, prefix) && FullScope(before, scope)
    ensures Distinct(Names(between)) && Fresh(between, prefix) && FullScope(between, scope)
  {
    hide Compact, Instrumenting.Instrumented;
    forall i | 0 <= i < |before|
      ensures between[i].name == before[i].name && between[i].body.Some? == before[i].body.Some?
    {
    }
    assert Names(between) == Names(before);
  }

  lemma NoneInjected(fs: seq<ModFunc>, scope: set<string>, xs: Code)
    requires FullScope(fs, scope)
    ensures Injected(fs, fs, scope, xs)
  {
  }

  lemma HasName(fs: seq<ModFunc>, gs: seq<ModFunc>, scope: set<string>, todo: set<string>, xs: Code, name: string)
    returns (k: nat)
    requires Injected(fs, gs, todo, xs) && FullScope(fs, scope) && name in todo && todo <= scope
    ensures k < |gs| && gs[k].name == name && gs[k].body.Some?
  {
    hide Compact, Instrumenting.InsertedAt;
    k :| k < |fs| && fs[k].name == name && fs[k].body.Some?;
  }

  lemma CanariedProgram(before: seq<ModFunc>, between: seq<ModFunc>, after: seq<ModFunc>, scope: set<string>,
                        sp: nat, canary: nat, s: Surroundings)
    requires MatchInserted(before, between, scope, CanaryRuns.ValidateOps(sp, canary))
    requires Injected(between, after, {}, StackCanary.InjectCode(sp, canary)) && FullScope(before, scope)
    ensures CanaryRuns.Canaried(ProgramOf(before, s), ProgramOf(between, s), ProgramOf(after, s),
                                ScopeOf(before, scope), sp, canary)
  {
    hide CanaryRuns.ValidateOps, StackCanary.InjectCode, Compact, Instrumenting.InsertedAt, Instrumenting.Instrumented;
    var ops, xs := CanaryRuns.ValidateOps(sp, canary), StackCanary.InjectCode(sp, canary);
    var P1, P2 := ProgramOf(between, s), ProgramOf(after, s);
    assert before[..|before|] == before;
    RewrittenProgram(before, between, |before|, scope, ops, s, s);
    forall i | 0 <= i < |between|
      ensures P2.funcs[i] == if P1.funcs[i].Import? then P1.funcs[i]
                             else P1.funcs[i].(code := Instrumenting.InsertedAt(P1.funcs[i].code, 0, xs))
    {
      if between[i].body.Some? {
        NewBody(between[i], Instrumenting.InsertedAt(Compact(between[i].body.value), 0, xs));
      }
    }
  }
}
