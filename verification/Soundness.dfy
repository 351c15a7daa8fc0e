/**
 * Valid code never gets stuck. The machine's frames agree with what the validator knows at their
 * positions, every step keeps this, and so no run of a valid program ends in an Invalid trap.
 */
module Soundness {
  import opened Values
  import opened Machine
  import opened Runs
  import opened Validation
  import opened Typing
  import opened TypedFrames
  import Meaning

  /** What frame i still waits for: the results of the function the frame above it runs. */
  function Awaits(P: Program, fs: seq<Frame>, i: nat): seq<ValType> {
    if i + 1 < |fs| && fs[i + 1].fn < |P.funcs| then P.funcs[fs[i + 1].fn].ft.results else []
  }

  ghost predicate FrameGood(P: Program, gt: seq<ValType>, f: Frame, pending: seq<ValType>) {
    && FrameOf(P, f) && f.arity == |P.funcs[f.fn].ft.results|
    && FrameSound(CtxOf(P, gt, f.fn), f, pending)
  }

  ghost predicate FramesGood(P: Program, gt: seq<ValType>, fs: seq<Frame>) {
    forall i :: 0 <= i < |fs| ==> FrameGood(P, gt, fs[i], Awaits(P, fs, i))
  }

  ghost predicate ConfigSound(P: Program, gt: seq<ValType>, c: Config) {
    c.frames != [] && TypesOf(c.store.globals) == gt && FramesGood(P, gt, c.frames)
  }

  /** The outcome is no fault that validation rules out; results have the type of the outermost function. */
  ghost predicate OutcomeSound(P: Program, gt: seq<ValType>, fn: nat, o: Outcome)
    requires fn < |P.funcs|
  {
    match o
    case Next(c) => ConfigSound(P, gt, c) && c.frames[0].fn == fn
    case Done(vals, st) => TypesOf(vals) == P.funcs[fn].ft.results && TypesOf(st.globals) == gt
    case Trap(why) => why != Invalid
  }

  /** The callers below a frame: the topmost waits for that frame's results. */
  ghost predicate CallersGood(P: Program, gt: seq<ValType>, fs: seq<Frame>, callee: nat)
    requires callee < |P.funcs|
  {
    forall i :: 0 <= i < |fs| ==>
      FrameGood(P, gt, fs[i], if i + 1 < |fs| then Awaits(P, fs, i) else P.funcs[callee].ft.results)
  }

  lemma SplitTop(P: Program, gt: seq<ValType>, fs: seq<Frame>)
    requires fs != [] && FramesGood(P, gt, fs)
    ensures var n := |fs| - 1;
      FrameGood(P, gt, fs[n], []) && CallersGood(P, gt, fs[..n], fs[n].fn)
  {
    hide FrameGood;
    var n := |fs| - 1;
    assert FrameOf(P, fs[n]) by { GoodIsOf(P, gt, fs[n], []); }
    forall i | 0 <= i < n
      ensures FrameGood(P, gt, fs[..n][i], if i + 1 < n then Awaits(P, fs[..n], i) else P.funcs[fs[n].fn].ft.results)
    {
      assert FrameGood(P, gt, fs[i], Awaits(P, fs, i));
    }
  }

  lemma GoodIsOf(P: Program, gt: seq<ValType>, f: Frame, pending: seq<ValType>)
    requires FrameGood(P, gt, f, pending)
    ensures FrameOf(P, f)
  {
  }

  lemma JoinTop(P: Program, gt: seq<ValType>, fs: seq<Frame>, f: Frame)
    requires f.fn < |P.funcs| && CallersGood(P, gt, fs, f.fn) && FrameGood(P, gt, f, [])
    ensures FramesGood(P, gt, fs + [f])
  {
    hide FrameGood;
    var all := fs + [f];
    forall i | 0 <= i < |all| ensures FrameGood(P, gt, all[i], Awaits(P, all, i)) {
      assert i < |fs| ==> all[i] == fs[i];
    }
  }

  lemma EntryGood(P: Program, gt: seq<ValType>, callee: nat, args: seq<Value>)
    requires callee < |P.funcs| && P.funcs[callee].Defined? && TypesOf(args) == P.funcs[callee].ft.params
    ensures FrameGood(P, gt, Entry(P, callee, args), [])
  {
    var d, C := P.funcs[callee], CtxOf(P, gt, callee);
    var f := Entry(P, callee, args);
    assert StateBefore(C, f.code, 0) == Some(Body([], C.ret)) by { assert f.code[..0] == []; }
    TypesAppend(args, Zeros(d.vars));
    assert TypesOf(Zeros(d.vars)) == d.vars;
    assert Body([], C.ret)[..0] == [];
    assert Flat(Body([], C.ret)) == [] + [];
  }

  /** A caller to which results are returned. */
  lemma Returned(P: Program, gt: seq<ValType>, f: Frame, vals: seq<Value>)
    requires FrameGood(P, gt, f, TypesOf(vals))
    ensures FrameGood(P, gt, f.(stack := f.stack + vals), [])
  {
    hide LabelTyped, StateBefore;
    TypesAppend(f.stack, vals);
    assert TypesOf(f.stack + vals) + [] == TypesOf(f.stack) + TypesOf(vals);
  }

  lemma ApplySound(P: Program, gt: seq<ValType>, fs: seq<Frame>, f: Frame, st: Machine.Store, m: Move)
    requires FrameGood(P, gt, f, []) && CallersGood(P, gt, fs, f.fn) && TypesOf(st.globals) == gt
    requires MoveSound(P, CtxOf(P, gt, f.fn), f, m)
    ensures OutcomeSound(P, gt, (fs + [f])[0].fn, Apply(P, fs, st, m))
  {
    hide FrameSound;
    match m {
      case Stay(f2, st2) => JoinTop(P, gt, fs, f2);
      case Enter(f2, callee, args) =>
        var e := Entry(P, callee, args);
        EntryGood(P, gt, callee, args);
        assert CallersGood(P, gt, fs + [f2], callee) by { CallersMore(P, gt, fs, f2, callee); }
        JoinTop(P, gt, fs + [f2], e);
        assert fs + [f2] + [e] == fs + [f2, e];
      case Exit(vals) =>
        if fs != [] {
          var n := |fs| - 1;
          var g := fs[n].(stack := fs[n].stack + vals);
          Returned(P, gt, fs[n], vals);
          assert CallersGood(P, gt, fs[..n], g.fn) by { CallersFewer(P, gt, fs, f.fn); }
          JoinTop(P, gt, fs[..n], g);
        }
      case Fault(why) =>
    }
  }

  lemma CallersMore(P: Program, gt: seq<ValType>, fs: seq<Frame>, f: Frame, callee: nat)
    requires f.fn < |P.funcs| && callee < |P.funcs| && CallersGood(P, gt, fs, f.fn)
    requires FrameGood(P, gt, f, P.funcs[callee].ft.results)
    ensures CallersGood(P, gt, fs + [f], callee)
  {
    hide FrameGood;
    var all := fs + [f];
    forall i | 0 <= i < |all|
      ensures FrameGood(P, gt, all[i], if i + 1 < |all| then Awaits(P, all, i) else P.funcs[callee].ft.results)
    {
      assert i < |fs| ==> all[i] == fs[i];
    }
  }

  lemma CallersFewer(P: Program, gt: seq<ValType>, fs: seq<Frame>, callee: nat)
    requires fs != [] && callee < |P.funcs| && CallersGood(P, gt, fs, callee)
    ensures var n := |fs| - 1; fs[n].fn < |P.funcs| && CallersGood(P, gt, fs[..n], fs[n].fn)
  {
    hide FrameGood;
    var n := |fs| - 1;
    assert FrameGood(P, gt, fs[n], P.funcs[callee].ft.results);
    GoodIsOf(P, gt, fs[n], P.funcs[callee].ft.results);
    forall i | 0 <= i < n
      ensures FrameGood(P, gt, fs[..n][i], if i + 1 < n then Awaits(P, fs[..n], i) else P.funcs[fs[n].fn].ft.results)
    {
      assert FrameGood(P, gt, fs[i], Awaits(P, fs, i));
    }
  }

  /** Every step of a valid program keeps the agreement with the validator. */
  lemma StepSound(P: Program, gt: seq<ValType>, c: Config)
    requires ValidProgram(P, gt) && ConfigSound(P, gt, c)
    ensures c.frames[0].fn < |P.funcs| && OutcomeSound(P, gt, c.frames[0].fn, Step(P, c))
  {
    hide ValidProgram, FrameSound, MoveSound, Decide, Apply, OutcomeSound, CallersGood;
    var n := |c.frames| - 1;
    var f := c.frames[n];
    SplitTop(P, gt, c.frames);
    GoodIsOf(P, gt, c.frames[0], Awaits(P, c.frames, 0));
    DecideSound(P, gt, f, c.store);
    ApplySound(P, gt, c.frames[..n], f, c.store, Decide(P, f, c.store));
    assert c.frames[..n] + [f] == c.frames;
  }

  /**
   * Type safety: no run of a valid program, started on arguments of the right types, ends in an
   * Invalid trap; in every reachable state all frames agree with the validator; and the results
   * have the function's result types.
   */
  lemma {:induction false} ValidRuns(P: Program, gt: seq<ValType>, fn: nat, args: seq<Value>, st: Machine.Store, n: nat)
    requires ValidProgram(P, gt) && fn < |P.funcs| && P.funcs[fn].Defined?
    requires TypesOf(args) == P.funcs[fn].ft.params && TypesOf(st.globals) == gt
    ensures OutcomeSound(P, gt, fn, StateAt(P, Meaning.Start(P, fn, args, st), n))
  {
    hide ValidProgram, FrameGood, Step;
    var c := Meaning.Start(P, fn, args, st);
    if n == 0 {
      EntryGood(P, gt, fn, args);
    } else {
      ValidRuns(P, gt, fn, args, st, n - 1);
      StateStep(P, c, n - 1);
      var o := StateAt(P, c, n - 1);
      if o.Next? {
        StepSound(P, gt, o.c);
      }
    }
  }
}
