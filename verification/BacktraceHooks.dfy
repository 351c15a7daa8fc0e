/**
 * The backtrace pass: an event is appended to the buffer before and after every direct call, in the
 * inspected function only up to the inspected line.
 */
module BacktraceHooks {
  import opened Values
  import opened Machine
  import opened Weaving
  import opened Rewriter
  import opened Builder
  import opened EventBuffer
  import Instrumenting

  // ----- names -----

  /** A function of the module as the name table sees it; an import also has the name it is imported by. */
  datatype FuncName = FuncName(name: string, base: Option<string>)

  /** What a function is called in a printed backtrace. */
  function Shown(f: FuncName): string {
    if f.base.Some? then f.base.value else f.name
  }

  /** The table gives every shown name the first index that has it. */
  ghost predicate TableOf(fs: seq<FuncName>, names: seq<string>, table: map<string, nat>) {
    && |names| == |fs|
    && (forall k :: 0 <= k < |fs| ==> names[k] == Shown(fs[k]) && names[k] in table)
    && (forall s :: s in table ==>
          && table[s] < |names| && names[table[s]] == s
          && forall j :: 0 <= j < table[s] ==> names[j] != s)
  }

  method BuildTable(fs: seq<FuncName>) returns (names: seq<string>, table: map<string, nat>)
    ensures TableOf(fs, names, table)
  {
    names, table := [], map[];
    for i := 0 to |fs|
      invariant TableOf(fs[..i], names, table)
    {
      assert fs[..i + 1] == fs[..i] + [fs[i]];
      var s := Shown(fs[i]);
      names := names + [s];
      if s !in table {
        table := table[s := i];
      }
    }
    assert fs[..|fs|] == fs;
  }

  /** The event recorded before a call of function t, which is looked up by its internal name. */
  function EventOf(fs: seq<FuncName>, table: map<string, nat>, t: nat): int {
    if t < |fs| && fs[t].name in table then table[fs[t].name] else -2
  }

  /** A recorded event names the call target; only unknown targets give -2. */
  lemma EventNamesTarget(fs: seq<FuncName>, names: seq<string>, table: map<string, nat>, t: nat)
    requires TableOf(fs, names, table) && t < |fs| <= 0x8000_0000
    ensures var v := EventOf(fs, table, t);
      && (v == -2 <==> forall j :: 0 <= j < |fs| ==> Shown(fs[j]) != fs[t].name)
      && (v != -2 ==> 0 <= v < |names| && names[v] == fs[t].name && Signed32(Int32(v).bits) == v)
      && (fs[t].base.None? || fs[t].base == Some(fs[t].name) ==> v != -2)
  {
    assert names[t] in table;
  }

  // ----- the pass -----

  /** Instruction k is a direct call on a line the pass reaches; lines are numbered from 1. */
  predicate Hooked(code: Code, k: nat, limit: Option<nat>)
    requires k < |code|
  {
    code[k].instr.Call? && (limit.Some? ==> k + 1 <= limit.value)
  }

  function HookPre(code: Code, k: nat, limit: Option<nat>, globals: nat, event: nat -> int): Code
    requires k < |code|
  {
    if Hooked(code, k, limit) then HookCode(globals, event(code[k].instr.target)) else []
  }

  function HookPost(code: Code, k: nat, limit: Option<nat>, globals: nat): Code
    requires k < |code|
  {
    if Hooked(code, k, limit) then HookCode(globals, -1) else []
  }

  function HookPres(code: Code, limit: Option<nat>, globals: nat, event: nat -> int): (pres: seq<Code>)
    ensures |pres| == |code| && forall k :: 0 <= k < |code| ==> pres[k] == HookPre(code, k, limit, globals, event)
  {
    seq(|code|, k requires 0 <= k < |code| => HookPre(code, k, limit, globals, event))
  }

  function HookPosts(code: Code, limit: Option<nat>, globals: nat): (posts: seq<Code>)
    ensures |posts| == |code| && forall k :: 0 <= k < |code| ==> posts[k] == HookPost(code, k, limit, globals)
  {
    seq(|code|, k requires 0 <= k < |code| => HookPost(code, k, limit, globals))
  }

  function HookGaps(code: Code, limit: Option<nat>, globals: nat, event: nat -> int): (gaps: seq<Code>)
    ensures |gaps| == |code| + 1
  {
    Around(HookPres(code, limit, globals, event), HookPosts(code, limit, globals))
  }

  function HookedCode(code: Code, limit: Option<nat>, globals: nat, event: nat -> int): Code {
    Weave(code, HookGaps(code, limit, globals, event))
  }

  lemma HookedOneMore(code: Code, k: nat, limit: Option<nat>, globals: nat, event: nat -> int)
    requires k < |code|
    ensures HookedCode(code[..k + 1], limit, globals, event)
         == HookedCode(code[..k], limit, globals, event)
            + HookPre(code, k, limit, globals, event) + [code[k]] + HookPost(code, k, limit, globals)
  {
    hide HookPre, HookPost;
    AroundOneMore(code, HookPres(code, limit, globals, event), HookPosts(code, limit, globals), k);
    HooksOfPrefix(code, k, limit, globals, event);
    HooksOfPrefix(code, k + 1, limit, globals, event);
  }

  lemma HooksOfPrefix(code: Code, n: nat, limit: Option<nat>, globals: nat, event: nat -> int)
    requires n <= |code|
    ensures HookPres(code, limit, globals, event)[..n] == HookPres(code[..n], limit, globals, event)
    ensures HookPosts(code, limit, globals)[..n] == HookPosts(code[..n], limit, globals)
  {
    hide HookCode;
    assert forall j {:trigger code[j]} :: 0 <= j < n ==> code[..n][j] == code[j];
  }

  /** Setting the constant of the hook gives the hook for that constant, whatever it was set to before. */
  lemma SetConstant(globals: nat, v: int, w: int)
    ensures |HookCode(globals, v)| == 9
    ensures HookCode(globals, v)[3 := Op(Const(Int32(w)), [I32])] == HookCode(globals, w)
    ensures HookCode(globals, v)[3] == Op(Const(Int32(v)), [I32])
  {
  }

  lemma HookCases(code: Code, k: nat, limit: Option<nat>, globals: nat, event: nat -> int)
    requires k < |code|
    ensures var pre, post := HookPre(code, k, limit, globals, event), HookPost(code, k, limit, globals);
      if Hooked(code, k, limit) then pre == HookCode(globals, event(code[k].instr.target)) && post == HookCode(globals, -1)
      else pre == post == []
  {
    hide HookCode;
  }

  class Hooker {
    const globals: nat
    const fs: seq<FuncName>
    const table: map<string, nat>
    const inspectLine: nat
    var hookInsts: Code
    var inInspectFunc: bool
    var lineNum: nat

    predicate Valid()
      reads this
    {
      hookInsts == HookCode(globals, -1)
    }

    ghost function Limit(): Option<nat>
      reads this
    {
      if inInspectFunc then Some(inspectLine) else None
    }

    ghost function Events(): nat -> int {
      (t: nat) => EventOf(fs, table, t)
    }

    constructor (g: nat, fns: seq<FuncName>, tbl: map<string, nat>, line: nat)
      ensures Valid() && !inInspectFunc && lineNum == 0
      ensures globals == g && fs == fns && table == tbl && inspectLine == line
    {
      globals, fs, table, inspectLine := g, fns, tbl, line;
      hookInsts, inInspectFunc, lineNum := HookCode(g, -1), false, 0;
    }

    /** The visitor on one instruction; the constant of the hook is set for the pushed event and put back. */
    method Visit(list: InstList, i: nat, ghost code: Code, ghost k: nat) returns (iter: nat)
      requires Valid() && i < |list.items|
      requires k < |code| && list.items[i] == code[k] && (inInspectFunc ==> lineNum == k)
      modifies this`hookInsts, this`lineNum, list
      ensures Valid() && lineNum == old(lineNum) + (if inInspectFunc then 1 else 0)
      ensures var pre, post := HookPre(code, k, Limit(), globals, Events()), HookPost(code, k, Limit(), globals);
        && list.items == old(list.items[..i]) + pre + [code[k]] + post + old(list.items[i + 1..])
        && iter == i + |pre| + |post|
    {
      hide HookCode, HookPre, HookPost;
      iter := i;
      HookCases(code, k, Limit(), globals, Events());
      ghost var front, back := list.items[..i], list.items[i + 1..];
      assert list.items == front + [] + [code[k]] + [] + back;
      if inInspectFunc {
        lineNum := lineNum + 1;
        if lineNum > inspectLine {
          return;
        }
      }
      var inst := list.items[i];
      if IdOf(inst.instr) == CallId {
        var t := inst.instr.target;
        ghost var v := EventOf(fs, table, t);
        SetConstant(globals, -1, v);
        SetConstant(globals, v, -1);
        var constNegOne := hookInsts[3];
        if t < |fs| && fs[t].name in table {
          hookInsts := hookInsts[3 := Op(Const(Int32(table[fs[t].name])), [I32])];
        } else {
          hookInsts := hookInsts[3 := Op(Const(Int32(-2)), [I32])];
        }
        assert hookInsts == HookCode(globals, v);
        iter := list.Splice(iter, hookInsts);
        hookInsts := hookInsts[3 := constNegOne];
      } else {
        return;
      }
      iter := iter + 1;
      ghost var pre := HookPre(code, k, Limit(), globals, Events());
      assert list.items == (front + pre + [code[k]]) + back;
      assert list.items[..iter] == front + pre + [code[k]] && list.items[iter..] == back;
      iter := list.Splice(iter, hookInsts);
      iter := iter - 1;
    }

    /** One function: only original instructions are visited and counted as lines. */
    method IterInstructions(ir: StackIR) returns (out: StackIR)
      requires Valid() && (inInspectFunc ==> lineNum == 0)
      modifies this`hookInsts, this`lineNum
      ensures Valid() && lineNum == old(lineNum) + (if inInspectFunc then |Compact(ir)| else 0)
      ensures out == Full(HookedCode(Compact(ir), Limit(), globals, Events()))
    {
      hide HookPre, HookPost, HookedCode, HookCode;
      ghost var limit, events := Limit(), Events();
      var list := new InstList(ir);
      ghost var code := list.items;
      ghost var k := 0;
      var i := 0;
      ghost var done := HookedCode(code[..0], limit, globals, events);
      assert done == [] by { NothingHooked(code[..0], limit, globals, events); }
      while i != |list.items|
        invariant fresh(list) && Valid() && k <= |code| && Limit() == limit
        invariant lineNum == old(lineNum) + (if inInspectFunc then k else 0)
        invariant done == HookedCode(code[..k], limit, globals, events)
        invariant i == |done| && list.items == done + code[k..]
        decreases |code| - k
      {
        RestOfList(done, code, k);
        ghost var pre, post := HookPre(code, k, limit, globals, events), HookPost(code, k, limit, globals);
        i := Visit(list, i, code, k);
        HookedOneMore(code, k, limit, globals, events);
        done := done + pre + [code[k]] + post;
        i := i + 1;
        k := k + 1;
      }
      assert code[..k] == code;
      out := Full(list.items);
    }

    /** The pass over all defined functions in scope. */
    method HookModule(mod: Module, scope: set<string>, inspectName: string)
      requires Valid() && !inInspectFunc && lineNum == 0 && Distinct(Names(mod.funcs))
      modifies this`hookInsts, this`lineNum, this`inInspectFunc, mod
      ensures |mod.funcs| == |old(mod.funcs)|
      ensures forall j :: 0 <= j < |mod.funcs| ==>
                var f, g := old(mod.funcs)[j], mod.funcs[j];
                if f.body.None? || f.name !in scope then g == f
                else
                  var limit := if f.name == inspectName then Some(inspectLine) else None;
                  g == f.(body := Some(Full(HookedCode(Compact(f.body.value), limit, globals, Events()))))
    {
      ghost var old_ := mod.funcs;
      for i := 0 to |mod.funcs|
        invariant Valid() && !inInspectFunc && |mod.funcs| == |old_|
        invariant lineNum == 0 || exists j :: 0 <= j < i && old_[j].name == inspectName
        invariant forall j :: 0 <= j < i ==>
                    mod.funcs[j] == HookedFunc(old_[j], scope, inspectName, inspectLine, globals, Events())
        invariant forall j :: i <= j < |old_| ==> mod.funcs[j] == old_[j]
      {
        var f := mod.funcs[i];
        if f.body.Some? && f.name in scope {
          if f.name == inspectName {
            assert lineNum == 0 by { FirstOfItsName(old_, i, inspectName); }
            inInspectFunc := true;
          }
          var ir := IterInstructions(f.body.value);
          mod.funcs := mod.funcs[i := f.(body := Some(ir))];
          inInspectFunc := false;
        }
      }
    }
  }

  function HookedFunc(f: ModFunc, scope: set<string>, inspectName: string, line: nat,
                      globals: nat, event: nat -> int): ModFunc {
    if f.body.None? || f.name !in scope then f
    else f.(body := Some(Full(HookedCode(Compact(f.body.value),
                                         if f.name == inspectName then Some(line) else None, globals, event))))
  }

  lemma FirstOfItsName(fs: seq<ModFunc>, i: nat, name: string)
    requires Distinct(Names(fs)) && i < |fs| && fs[i].name == name
    ensures !exists j :: 0 <= j < i && fs[j].name == name
  {
    assert forall j :: 0 <= j < |fs| ==> Names(fs)[j] == fs[j].name;
  }

  lemma NothingHooked(code: Code, limit: Option<nat>, globals: nat, event: nat -> int)
    requires code == []
    ensures HookedCode(code, limit, globals, event) == []
  {
    assert HookGaps(code, limit, globals, event)[0] == [] + [];
  }

  // ----- the positional insertion first, then the pass -----

  /** The gaps of the inspected function: a call at line n is popped before the inspection code runs. */
  function InspectGaps(code: Code, n: nat, xs: Code, globals: nat, event: nat -> int): (gaps: seq<Code>)
    ensures |gaps| == |code| + 1
  {
    seq(|code| + 1, k requires 0 <= k <= |code| =>
      (if k > 0 then HookPost(code, k - 1, Some(n), globals) else [])
      + (if k == n then xs else [])
      + (if k < |code| then HookPre(code, k, Some(n), globals, event) else []))
  }

  /** Up to line n the hooks are those of the original code; behind it there are none. */
  lemma HooksBefore(code: Code, all: Code, n: nat, k: nat, globals: nat, event: nat -> int)
    requires n <= |code| && n <= |all| && all[..n] == code[..n]
    ensures k < n ==> HookPre(all, k, Some(n), globals, event) == HookPre(code, k, Some(n), globals, event)
    ensures k < n ==> HookPost(all, k, Some(n), globals) == HookPost(code, k, Some(n), globals)
    ensures n <= k < |code| ==> HookPre(code, k, Some(n), globals, event) == HookPost(code, k, Some(n), globals) == []
    ensures n <= k < |all| ==> HookPre(all, k, Some(n), globals, event) == HookPost(all, k, Some(n), globals) == []
  {
    hide HookCode;
    if k < n {
      assert all[..n][k] == all[k] && code[..n][k] == code[k];
    }
  }

  lemma GapsAt(code: Code, all: Code, n: nat, xs: Code, k: nat, globals: nat, event: nat -> int)
    ensures k <= |all| ==>
              var post := if k > 0 then HookPost(all, k - 1, Some(n), globals) else [];
              var pre := if k < |all| then HookPre(all, k, Some(n), globals, event) else [];
              HookGaps(all, Some(n), globals, event)[k] == post + pre
    ensures k <= |code| ==>
              var post := if k > 0 then HookPost(code, k - 1, Some(n), globals) else [];
              var pre := if k < |code| then HookPre(code, k, Some(n), globals, event) else [];
              InspectGaps(code, n, xs, globals, event)[k] == post + (if k == n then xs else []) + pre
  {
    hide HookPre, HookPost;
  }

  lemma InspectGapsAgree(code: Code, n: nat, xs: Code, globals: nat, event: nat -> int)
    requires n <= |code|
    ensures var all := code[..n] + (xs + code[n..]);
      var g, h := HookGaps(all, Some(n), globals, event), InspectGaps(code, n, xs, globals, event);
      && g[..n] == h[..n] && h[n] == g[n] + xs
      && (forall k :: n < k < |g| ==> g[k] == [])
      && (forall k :: n < k < |h| ==> h[k] == [])
  {
    hide HookPre, HookPost, HookGaps, InspectGaps;
    var all := code[..n] + (xs + code[n..]);
    assert all[..n] == code[..n];
    var g, h := HookGaps(all, Some(n), globals, event), InspectGaps(code, n, xs, globals, event);
    forall k: nat | k < |g| ensures k < n ==> g[k] == h[k]
      ensures k > n ==> g[k] == [] && (k < |h| ==> h[k] == [])
      ensures k == n ==> h[k] == g[k] + xs
    {
      GapsAt(code, all, n, xs, k, globals, event);
      HooksBefore(code, all, n, k, globals, event);
      if k > 0 {
        HooksBefore(code, all, n, k - 1, globals, event);
      }
    }
  }

  /**
   * Inserting the inspection code behind line n and then running the pass hooks exactly the original
   * direct calls on lines up to n; no call of the inspection code is hooked.
   */
  lemma InspectThenHook(code: Code, n: nat, xs: Code, globals: nat, event: nat -> int)
    requires n <= |code|
    ensures HookedCode(Instrumenting.InsertedAt(code, n, xs), Some(n), globals, event)
         == Weave(code, InspectGaps(code, n, xs, globals, event))
  {
    hide HookGaps, InspectGaps, Weave;
    var a, b := code[..n], code[n..];
    var all := a + (xs + b);
    Assoc(a, xs, b);
    var g, h := HookGaps(all, Some(n), globals, event), InspectGaps(code, n, xs, globals, event);
    InspectGapsAgree(code, n, xs, globals, event);
    assert all[..n] == a && all[n..] == xs + b;
    WeaveRestAt(all, g, n);
    WeaveRestAt(code, h, n);
    Assoc(g[n], xs, b);
  }

  /** Erasing what the two insertions added gives back the original function. */
  lemma InspectErases(code: Code, n: nat, xs: Code, globals: nat, event: nat -> int)
    requires n <= |code|
    ensures var w := HookedCode(Instrumenting.InsertedAt(code, n, xs), Some(n), globals, event);
      var gaps := InspectGaps(code, n, xs, globals, event);
      |w| == Site(gaps, |gaps| - 1) && Erase(w, gaps) == code
  {
    InspectThenHook(code, n, xs, globals, event);
    EraseWeave(code, InspectGaps(code, n, xs, globals, event));
  }
}
