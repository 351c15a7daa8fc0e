/**
 * OperationBuilder on the abstract module: every fragment is wrapped into a function that first
 * pushes placeholders for its stack context; the parsed wrapper is found by name again, the
 * placeholders are cut off, and the wrappers are removed. Printing a module and parsing the text
 * back is taken to be the identity.
 */
module Builder {
  import opened Values
  import opened Machine
  import opened Fragments
  import opened Rewriter
  import opened Decimals

  /** A function of the module, `vars` its declared locals; an import has no body. */
  datatype ModFunc = ModFunc(name: string, ft: FuncType, vars: seq<ValType>, body: Option<StackIR>)

  class Module {
    var funcs: seq<ModFunc>

    constructor (fs: seq<ModFunc>)
      ensures funcs == fs
    {
      funcs := fs;
    }
  }

  function Names(fs: seq<ModFunc>): (ns: seq<string>)
    ensures |ns| == |fs| && forall k :: 0 <= k < |fs| ==> ns[k] == fs[k].name
  {
    seq(|fs|, k requires 0 <= k < |fs| => fs[k].name)
  }

  predicate Distinct<T(==)>(xs: seq<T>) {
    forall j, k :: 0 <= j < k < |xs| ==> xs[j] != xs[k]
  }

  function Placeholders(ts: seq<ValType>): (code: Code)
    ensures |code| == |ts|
  {
    seq(|ts|, k requires 0 <= k < |ts| => StackInst(Const(Zero(ts[k])), Results([ts[k]])))
  }

  function WrapperName(prefix: string, num: nat, suffix: string): string {
    prefix + Decimal(num) + suffix
  }

  /** The throw-away function in which a fragment is validated. */
  function Wrapper(f: Fragment, prefix: string, num: nat, suffix: string): ModFunc {
    ModFunc(WrapperName(prefix, num, suffix), FuncType(f.locals, f.context), [],
            Some(Full(Placeholders(f.context) + f.code)))
  }

  /** The two wrappers of operation number k, counted from 0. */
  function WrapperPair(op: Operation, prefix: string, k: nat): seq<ModFunc> {
    [Wrapper(op.pre, prefix, k + 1, "_1"), Wrapper(op.post, prefix, k + 1, "_2")]
  }

  /** The wrappers of the operations from number k on. */
  function Wrappers(ops: seq<Operation>, prefix: string, k: nat): seq<ModFunc>
    requires k <= |ops|
    decreases |ops| - k
  {
    if k == |ops| then [] else WrapperPair(ops[k], prefix, k) + Wrappers(ops, prefix, k + 1)
  }

  /** No function of the module is named like a wrapper. */
  ghost predicate Fresh(fs: seq<ModFunc>, prefix: string) {
    forall k :: 0 <= k < |fs| ==> !(prefix <= fs[k].name)
  }

  lemma WrapperNamesDiffer(prefix: string, m: nat, n: nat, s: string, t: string)
    requires |s| == |t| == 2 && WrapperName(prefix, m, s) == WrapperName(prefix, n, t)
    ensures m == n && s == t
  {
    var a, b := WrapperName(prefix, m, s), WrapperName(prefix, n, t);
    assert a[|a| - 2..] == s && b[|b| - 2..] == t;
    assert a[|prefix|..|a| - 2] == Decimal(m) && b[|prefix|..|b| - 2] == Decimal(n);
    DecimalInjective(m, n);
  }

  /** The name is that of a wrapper with a number above k. */
  ghost predicate NumberedAbove(name: string, prefix: string, k: nat) {
    exists n: nat, s :: n > k && |s| == 2 && name == WrapperName(prefix, n, s)
  }

  /** All generated names are pairwise distinct and differ from every name in the module. */
  lemma {:induction false} WrapperNamesFresh(fs: seq<ModFunc>, ops: seq<Operation>, prefix: string, k: nat)
    requires k <= |ops| && Fresh(fs, prefix) && Distinct(Names(fs))
    ensures Distinct(Names(fs + Wrappers(ops, prefix, k)))
    ensures forall j :: 0 <= j < |Wrappers(ops, prefix, k)| ==> NumberedAbove(Wrappers(ops, prefix, k)[j].name, prefix, k)
    decreases |ops| - k
  {
    hide NumberedAbove, WrapperPair;
    if k == |ops| {
      assert fs + [] == fs;
    } else {
      WrapperNamesFresh(fs, ops, prefix, k + 1);
      var rest := Wrappers(ops, prefix, k + 1);
      var pair := WrapperPair(ops[k], prefix, k);
      PairNames(ops[k], prefix, k, rest);
      StillAbove(rest, prefix, k);
      PairAdded(fs, pair, rest, prefix);
      assert Wrappers(ops, prefix, k) == pair + rest;
    }
  }

  lemma StillAbove(rest: seq<ModFunc>, prefix: string, k: nat)
    requires forall j :: 0 <= j < |rest| ==> NumberedAbove(rest[j].name, prefix, k + 1)
    ensures forall j :: 0 <= j < |rest| ==> NumberedAbove(rest[j].name, prefix, k)
  {
    forall j | 0 <= j < |rest| ensures NumberedAbove(rest[j].name, prefix, k) {
      var n: nat, s :| n > k + 1 && |s| == 2 && rest[j].name == WrapperName(prefix, n, s);
    }
  }

  lemma PairAdded(fs: seq<ModFunc>, pair: seq<ModFunc>, rest: seq<ModFunc>, prefix: string)
    requires Fresh(fs, prefix) && Distinct(Names(fs + rest)) && |pair| == 2 && pair[0].name != pair[1].name
    requires forall i :: 0 <= i < 2 ==> prefix <= pair[i].name
    requires forall i, j :: 0 <= i < 2 && 0 <= j < |rest| ==> pair[i].name != rest[j].name
    ensures Distinct(Names(fs + (pair + rest)))
  {
    var all, low := fs + (pair + rest), fs + rest;
    forall i, j | 0 <= i < j < |all| ensures all[i].name != all[j].name {
      var u, v := if i < |fs| then i else i - 2, if j < |fs| then j else j - 2;
      if (i < |fs| || i >= |fs| + 2) && (j < |fs| || j >= |fs| + 2) {
        assert all[i] == low[u] && all[j] == low[v];
        assert Names(low)[u] != Names(low)[v];
      } else if i < |fs| {
        assert !(prefix <= fs[i].name);
      }
    }
  }

  /** The two names of an operation differ, and from those of the operations behind it. */
  lemma PairNames(op: Operation, prefix: string, k: nat, rest: seq<ModFunc>)
    requires forall j :: 0 <= j < |rest| ==> NumberedAbove(rest[j].name, prefix, k + 1)
    ensures var pair := WrapperPair(op, prefix, k);
      && |pair| == 2 && pair[0].name != pair[1].name
      && (forall i :: 0 <= i < 2 ==> prefix <= pair[i].name && NumberedAbove(pair[i].name, prefix, k))
      && forall i, j :: 0 <= i < 2 && 0 <= j < |rest| ==> pair[i].name != rest[j].name
  {
    var pair := WrapperPair(op, prefix, k);
    var a, b := WrapperName(prefix, k + 1, "_1"), WrapperName(prefix, k + 1, "_2");
    assert pair[0].name == a && pair[1].name == b;
    hide WrapperName, WrapperPair;
    if a == b {
      WrapperNamesDiffer(prefix, k + 1, k + 1, "_1", "_2");
    }
    forall i, j | 0 <= i < 2 && 0 <= j < |rest| ensures pair[i].name != rest[j].name {
      var n: nat, s :| n > k + 1 && |s| == 2 && rest[j].name == WrapperName(prefix, n, s);
      if pair[i].name == rest[j].name {
        WrapperNamesDiffer(prefix, k + 1, n, if i == 0 then "_1" else "_2", s);
      }
    }
  }

  /** Position of the function called `name`; |fs| if there is none. */
  method FindFunction(fs: seq<ModFunc>, name: string) returns (k: nat)
    ensures k <= |fs| && (k < |fs| ==> fs[k].name == name)
    ensures forall j :: 0 <= j < k ==> fs[j].name != name
  {
    k := 0;
    while k < |fs| && fs[k].name != name
      invariant k <= |fs| && forall j :: 0 <= j < k ==> fs[j].name != name
    {
      k := k + 1;
    }
  }

  /** Copies the instructions behind the first n, the placeholders. */
  method StripPlaceholders(ir: StackIR, n: nat) returns (out: StackIR)
    ensures out == if n <= |ir| then ir[n..] else []
  {
    out := [];
    var i := n;
    while i < |ir|
      invariant n <= |ir| ==> n <= i <= |ir| && out == ir[n..i]
      invariant n > |ir| ==> out == []
    {
      out := out + [ir[i]];
      i := i + 1;
    }
  }

  lemma UniqueName(a: seq<ModFunc>, f: ModFunc, b: seq<ModFunc>, k: nat)
    requires Distinct(Names(a + [f] + b))
    requires k < |a + [f] + b| && (a + [f] + b)[k].name == f.name
    ensures k == |a|
  {
    var all := a + [f] + b;
    assert Names(all)[k] == Names(all)[|a|];
  }

  lemma DistinctRest(a: seq<ModFunc>, f: ModFunc, b: seq<ModFunc>)
    requires Distinct(Names(a + [f] + b))
    ensures Distinct(Names(a + b))
  {
    var all, rest := a + [f] + b, a + b;
    forall i, j | 0 <= i < j < |rest| ensures rest[i].name != rest[j].name {
      var u, v := if i < |a| then i else i + 1, if j < |a| then j else j + 1;
      assert Names(all)[u] != Names(all)[v];
    }
  }

  /** Looks a wrapper up by name, takes the fragment out of it, and removes it from the module. */
  method TakeFragment(m: Module, f: Fragment, prefix: string, num: nat, suffix: string,
                      ghost a: seq<ModFunc>, ghost b: seq<ModFunc>) returns (code: StackIR)
    requires m.funcs == a + [Wrapper(f, prefix, num, suffix)] + b && Distinct(Names(m.funcs))
    modifies m
    ensures m.funcs == a + b && Distinct(Names(m.funcs))
    ensures code == Full(f.code)
  {
    ghost var w := Wrapper(f, prefix, num, suffix);
    var k := FindFunction(m.funcs, WrapperName(prefix, num, suffix));
    assert m.funcs[|a|] == w;
    UniqueName(a, w, b, k);
    DistinctRest(a, w, b);
    code := StripPlaceholders(m.funcs[k].body.value, |f.context|);
    assert code == Full(f.code);
    m.funcs := m.funcs[..k] + m.funcs[k + 1..];
    assert m.funcs == a + b;
  }

  /**
   * Entry k of the result holds exactly operation k's two fragments, and the module is left with the
   * functions it had.
   */
  method MakeOperations(m: Module, ops: seq<Operation>, prefix: string) returns (added: seq<Added>)
    requires Distinct(Names(m.funcs)) && Fresh(m.funcs, prefix)
    modifies m
    ensures m.funcs == old(m.funcs)
    ensures |added| == |ops|
    ensures forall k :: 0 <= k < |ops| ==> added[k] == Added(Full(ops[k].pre.code), Full(ops[k].post.code))
  {
    ghost var fs := m.funcs;
    WrapperNamesFresh(fs, ops, prefix, 0);
    AddWrappers(m, ops, prefix);
    added := [];
    for k := 0 to |ops|
      invariant m.funcs == fs + Wrappers(ops, prefix, k) && Distinct(Names(m.funcs))
      invariant |added| == k
      invariant forall j :: 0 <= j < k ==> added[j] == Added(Full(ops[j].pre.code), Full(ops[j].post.code))
    {
      ghost var rest := Wrappers(ops, prefix, k + 1);
      ghost var pair := WrapperPair(ops[k], prefix, k);
      assert m.funcs == fs + [pair[0]] + ([pair[1]] + rest);
      var pre := TakeFragment(m, ops[k].pre, prefix, k + 1, "_1", fs, [pair[1]] + rest);
      assert m.funcs == fs + [pair[1]] + rest;
      var post := TakeFragment(m, ops[k].post, prefix, k + 1, "_2", fs, rest);
      added := added + [Added(pre, post)];
    }
    assert fs + [] == fs;
  }

  method AddWrappers(m: Module, ops: seq<Operation>, prefix: string)
    modifies m
    ensures m.funcs == old(m.funcs) + Wrappers(ops, prefix, 0)
  {
    ghost var fs := m.funcs;
    for k := 0 to |ops|
      invariant m.funcs + Wrappers(ops, prefix, k) == fs + Wrappers(ops, prefix, 0)
    {
      ghost var before := m.funcs;
      m.funcs := m.funcs + WrapperPair(ops[k], prefix, k);
      assert m.funcs + Wrappers(ops, prefix, k + 1) == before + Wrappers(ops, prefix, k);
    }
    assert m.funcs + [] == m.funcs;
  }
}
