/** Fragments without control flow: their effect is the composition of the effects of their instructions. */
module StraightLine {
  import opened Values
  import opened Machine
  import opened Fragments

  predicate AllSimple(code: Code) {
    forall k :: 0 <= k < |code| ==> Simple(code[k].instr)
  }

  /** The combined effect of straight-line code. */
  function Effects(code: Code, locals: seq<Value>, stack: seq<Value>, st: Store): Effect
    requires AllSimple(code)
  {
    if code == [] then Ok(locals, stack, st)
    else
      var r := Exec(code[0].instr, locals, stack, st);
      if r.Bad? then r else Effects(code[1..], r.locals, r.stack, r.store)
  }

  lemma {:induction false} EffectsAppend(a: Code, b: Code, locals: seq<Value>, stack: seq<Value>, st: Store)
    requires AllSimple(a) && AllSimple(b)
    ensures AllSimple(a + b)
    ensures Effects(a + b, locals, stack, st) ==
            (var r := Effects(a, locals, stack, st); if r.Bad? then r else Effects(b, r.locals, r.stack, r.store))
  {
    if a == [] {
      assert a + b == b;
    } else {
      assert (a + b)[1..] == a[1..] + b;
      var r := Exec(a[0].instr, locals, stack, st);
      if r.Ok? {
        EffectsAppend(a[1..], b, r.locals, r.stack, r.store);
      }
    }
  }

  /** Straight-line code followed instruction by instruction, the locals unchanged. */
  lemma {:induction false} Follow(code: Code, locals: seq<Value>, ks: seq<seq<Value>>, ss: seq<Store>)
    requires AllSimple(code) && |ks| == |ss| == |code| + 1
    requires forall i :: 0 <= i < |code| ==>
               Exec(code[i].instr, locals, ks[i], ss[i]) == Ok(locals, ks[i + 1], ss[i + 1])
    ensures Effects(code, locals, ks[0], ss[0]) == Ok(locals, ks[|code|], ss[|code|])
  {
    hide Exec;
    if code != [] {
      Follow(code[1..], locals, ks[1..], ss[1..]);
    }
  }

  lemma {:induction false} StraightRun(P: Program, code: Code, k: nat, locals: seq<Value>, stack: seq<Value>, st: Store)
    requires k <= |code| && AllSimple(code[k..])
    requires Effects(code[k..], locals, stack, st).Ok?
    ensures var r := Effects(code[k..], locals, stack, st);
      Run(P, Next(Isolated(code, k, locals, stack, st)), |code| - k)
        == Next(Isolated(code, |code|, r.locals, r.stack, r.store))
    decreases |code| - k
  {
    if k < |code| {
      var r := Exec(code[k].instr, locals, stack, st);
      assert code[k..][0] == code[k] && code[k..][1..] == code[k + 1..];
      StraightRun(P, code, k + 1, r.locals, r.stack, r.store);
      OneStraightStep(P, code, k, locals, stack, st);
    }
  }

  lemma OneStraightStep(P: Program, code: Code, k: nat, locals: seq<Value>, stack: seq<Value>, st: Store)
    requires k < |code| && Simple(code[k].instr)
    requires Exec(code[k].instr, locals, stack, st).Ok?
    ensures var r := Exec(code[k].instr, locals, stack, st);
      Step(P, Isolated(code, k, locals, stack, st)) == Next(Isolated(code, k + 1, r.locals, r.stack, r.store))
  {
    hide Exec;
    var f := Isolated(code, k, locals, stack, st).frames[0];
    assert Isolated(code, k, locals, stack, st).frames[..0] == [];
    assert Decide(P, f, st) == Straight(f, code[k].instr, st);
  }

  /** Balanced straight-line code that leaves the locals alone runs clean. */
  lemma StraightClean(P: Program, code: Code, locals: seq<Value>, stack: seq<Value>, st: Store, st2: Store)
    requires AllSimple(code)
    requires Effects(code, locals, stack, st) == Ok(locals, stack, st2)
    ensures RunsClean(P, code, locals, stack, st, st2, |code|)
  {
    assert code[0..] == code;
    StraightRun(P, code, 0, locals, stack, st);
  }

  lemma StraightTraps(P: Program, code: Code, k: nat, locals: seq<Value>, stack: seq<Value>, st: Store, why: Reason)
    requires k < |code| && Simple(code[k].instr) && Exec(code[k].instr, locals, stack, st) == Bad(why)
    ensures Step(P, Isolated(code, k, locals, stack, st)) == Trap(why)
  {
    hide Exec;
    var c := Isolated(code, k, locals, stack, st);
    assert c.frames[..0] == [];
    assert Decide(P, c.frames[0], st) == Straight(c.frames[0], code[k].instr, st);
  }

  /** Straight-line code that fails runs to the instruction that fails, which traps. */
  lemma {:induction false} StraightFails(P: Program, code: Code, k: nat, locals: seq<Value>, stack: seq<Value>, st: Store)
    returns (n: nat)
    requires k <= |code| && AllSimple(code[k..]) && Effects(code[k..], locals, stack, st).Bad?
    ensures var o := Run(P, Next(Isolated(code, k, locals, stack, st)), n);
      o.Next? && |o.c.frames| == 1 && Step(P, o.c) == Trap(Effects(code[k..], locals, stack, st).why)
    decreases |code| - k
  {
    hide Step, Exec;
    var r := Exec(code[k].instr, locals, stack, st);
    assert code[k..][0] == code[k] && code[k..][1..] == code[k + 1..];
    if r.Bad? {
      StraightTraps(P, code, k, locals, stack, st, r.why);
      n := 0;
    } else {
      OneStraightStep(P, code, k, locals, stack, st);
      var m := StraightFails(P, code, k + 1, r.locals, r.stack, r.store);
      n := m + 1;
    }
  }

  ghost predicate Follows(code: Code, k: nat, locals: seq<Value>, ks: seq<seq<Value>>, ss: seq<Store>, i: nat)
    requires |ks| == |ss| && i + 1 < |ks| && k + i < |code|
  {
    Simple(code[k + i].instr) && Exec(code[k + i].instr, locals, ks[i], ss[i]) == Ok(locals, ks[i + 1], ss[i + 1])
  }

  /** A stretch of straight-line instructions, followed one by one on the machine. */
  lemma {:induction false} StepsFollow(P: Program, code: Code, k: nat, locals: seq<Value>,
                                       ks: seq<seq<Value>>, ss: seq<Store>)
    requires |ks| == |ss| >= 1 && k + |ks| - 1 <= |code|
    requires forall i: nat :: i < |ks| - 1 ==> Follows(code, k, locals, ks, ss, i)
    ensures var n := |ks| - 1;
      Run(P, Next(Isolated(code, k, locals, ks[0], ss[0])), n) == Next(Isolated(code, k + n, locals, ks[n], ss[n]))
    decreases |ks|
  {
    hide Step, Exec;
    if |ks| > 1 {
      assert Follows(code, k, locals, ks, ss, 0);
      OneStraightStep(P, code, k, locals, ks[0], ss[0]);
      var j, ks1, ss1 := k + 1, ks[1..], ss[1..];
      forall i: nat | i < |ks1| - 1 ensures Follows(code, j, locals, ks1, ss1, i) {
        assert Follows(code, k, locals, ks, ss, i + 1);
      }
      StepsFollow(P, code, j, locals, ks1, ss1);
    }
  }
}
