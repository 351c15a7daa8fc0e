/** The simulation over whole runs, in both directions. */
module Runs {
  import opened Values
  import opened Machine
  import opened Embedding
  import opened Fragments
  import opened Simulation

  function StateAt(P: Program, c: Config, n: nat): Outcome {
    Run(P, Next(c), n)
  }

  /** Every frame runs code of the program. */
  ghost predicate Proper(P: Program, fs: seq<Frame>) {
    fs != [] && forall i :: 0 <= i < |fs| ==> FrameOf(P, fs[i]) && fs[i].pc <= |fs[i].code|
  }

  /**
   * A move stays in its function. Control arrives behind a direct call only by falling through it
   * (or returning into it); every other arrival is behind a marker.
   */
  lemma MoveShape(P: Program, f: Frame, st: Store)
    ensures var m := Decide(P, f, st);
      && (m.Stay? || m.Enter? ==>
            && f.pc < |f.code| && m.f.fn == f.fn && m.f.code == f.code && 1 <= m.f.pc <= |f.code|
            && (m.f.pc == f.pc + 1 || (!f.code[m.f.pc - 1].instr.Call? && !f.code[f.pc].instr.Call?)))
      && (m.Exit? ==> f.pc >= |f.code| || !f.code[f.pc].instr.Call?)
      && (m.Enter? ==>
            && m.f.pc == f.pc + 1
            && (f.code[f.pc].instr == Call(m.callee) || f.code[f.pc].instr.CallIndirect?))
  {
    hide Exec;
    if f.pc < |f.code| {
      var i := f.code[f.pc].instr;
      if Opens(i) {
      } else if Closes(i) || i.IfElse? {
      } else if i.Br? {
        BranchShape(f, i.depth, st);
      } else if i.BrIf? {
        BranchShape(f.(stack := f.stack[..if f.stack == [] then 0 else |f.stack| - 1]), i.depth, st);
      } else if Simple(i) {
      }
    }
  }

  lemma BranchShape(f: Frame, l: nat, st: Store)
    ensures var m := Branch(f, l, st);
      && !m.Enter?
      && (m.Stay? ==> m.f.fn == f.fn && m.f.code == f.code && 1 <= m.f.pc <= |f.code|
                      && !f.code[m.f.pc - 1].instr.Call?)
  {
  }

  lemma ProperStep(P: Program, c: Config)
    requires Proper(P, c.frames) && Step(P, c).Next?
    ensures Proper(P, Step(P, c).c.frames)
  {
    hide Decide;
    var n := |c.frames| - 1;
    assert FrameOf(P, c.frames[n]);
    MoveShape(P, c.frames[n], c.store);
  }

  lemma {:induction false} ProperRun(P: Program, c: Config, n: nat)
    requires Proper(P, c.frames)
    ensures StateAt(P, c, n).Next? ==> Proper(P, StateAt(P, c, n).c.frames)
  {
    hide Step, Proper;
    if n > 0 {
      ProperRun(P, c, n - 1);
      StateStep(P, c, n - 1);
      if StateAt(P, c, n - 1).Next? && StateAt(P, c, n).Next? {
        ProperStep(P, StateAt(P, c, n - 1).c);
      }
    }
  }

  /** The events the pieces passed in the first n original steps record, in order. */
  function Log(P: Program, W: World, c: Config, n: nat): seq<int> {
    if n == 0 then []
    else
      var o := StateAt(P, c, n - 1);
      Log(P, W, c, n - 1) + if o.Next? then Emits(PiecesAt(W, o.c)) else []
  }

  /** Every state among the first n finds the pieces in front of it harmless. */
  ghost predicate ReadyFor(P: Program, P2: Program, W: World, c: Config, ev: seq<int>, n: nat) {
    forall i: nat :: i < n && StateAt(P, c, i).Next? ==>
      Ready(P2, W, StateAt(P, c, i).c, ev + Log(P, W, c, i))
  }

  lemma StateStep(P: Program, c: Config, n: nat)
    ensures StateAt(P, c, n + 1) ==
            (if StateAt(P, c, n).Next? then Step(P, StateAt(P, c, n).c) else StateAt(P, c, n))
  {
    hide Step;
    RunAdd(P, Next(c), n, 1);
    var o := StateAt(P, c, n);
    if o.Next? {
      assert Run(P, Step(P, o.c), 0) == Step(P, o.c);
    }
  }

  /** A finished run stays as it is. */
  lemma StateFinal(P: Program, c: Config, n: nat, m: nat)
    requires n <= m && !StateAt(P, c, n).Next?
    ensures StateAt(P, c, m) == StateAt(P, c, n)
  {
    hide Step;
    RunAdd(P, Next(c), n, m - n);
  }

  /**
   * Every original run lifts: after n original steps the instrumented program reaches the
   * corresponding outcome, and the owned state represents exactly the log of those steps.
   */
  lemma {:induction false} RunLifts(P: Program, P2: Program, W: World, c: Config, d: Config, own: Own, ev: seq<int>, n: nat)
    returns (m: nat, own2: Own)
    requires Instrumented(P, P2, W) && Match(P, P2, W, c, d, own) && W.rep(own, ev)
    requires ReadyFor(P, P2, W, c, ev, n)
    ensures OutcomeMatch(P, P2, W, StateAt(P, c, n), StateAt(P2, d, m), own2)
    ensures W.rep(own2, ev + Log(P, W, c, n))
    ensures StateAt(P, c, n).Next? ==> m >= n
  {
    hide Step, Instrumented, Match, Ready;
    if n == 0 {
      m, own2 := 0, own;
      assert ev + [] == ev;
    } else {
      m, own2 := RunLifts(P, P2, W, c, d, own, ev, n - 1);
      var o := StateAt(P, c, n - 1);
      StateStep(P, c, n - 1);
      if o.Next? {
        var q := StateAt(P2, d, m);
        var ev1 := ev + Log(P, W, c, n - 1);
        var k, own3 := StepSimulated(P, P2, W, o.c, q.c, own2, ev1);
        RunAdd(P2, Next(d), m, k);
        assert ev1 + Emits(PiecesAt(W, o.c)) == ev + Log(P, W, c, n);
        m, own2 := m + k, own3;
      } else {
        assert Log(P, W, c, n) == Log(P, W, c, n - 1) + [] == Log(P, W, c, n - 1);
      }
    }
  }

  /**
   * Where an instrumented run is after N steps: either it has met original state n and is on its way
   * through one gap to state n + 1, or the original run is over.
   */
  datatype Projection = Projection(n: nat, m: nat, own: Own, m2: nat, own2: Own)

  ghost predicate Projects(P: Program, P2: Program, W: World, c: Config, d: Config, N: nat, j: Projection) {
    if StateAt(P, c, j.n).Next? then
      && j.n <= j.m <= N < j.m2
      && OutcomeMatch(P, P2, W, StateAt(P, c, j.n), StateAt(P2, d, j.m), j.own)
      && OutcomeMatch(P, P2, W, StateAt(P, c, j.n + 1), StateAt(P2, d, j.m2), j.own2)
    else
      j.n <= j.m2 <= N && OutcomeMatch(P, P2, W, StateAt(P, c, j.n), StateAt(P2, d, j.m2), j.own2)
  }

  /** Every instrumented run projects to an original run. */
  lemma RunProjects(P: Program, P2: Program, W: World, c: Config, d: Config, own: Own, ev: seq<int>, N: nat)
    returns (j: Projection)
    requires Instrumented(P, P2, W) && Match(P, P2, W, c, d, own) && W.rep(own, ev)
    requires ReadyFor(P, P2, W, c, ev, N + 1)
    ensures Projects(P, P2, W, c, d, N, j)
  {
    hide Step, Instrumented, Match, Ready;
    var n, m: nat, own1 := 0, 0, own;
    assert ev + Log(P, W, c, 0) == ev;
    while true
      invariant n <= m <= N && StateAt(P, c, n).Next?
      invariant OutcomeMatch(P, P2, W, StateAt(P, c, n), StateAt(P2, d, m), own1)
      invariant W.rep(own1, ev + Log(P, W, c, n))
      decreases N - n
    {
      var o, q := StateAt(P, c, n), StateAt(P2, d, m);
      var k, own2 := StepSimulated(P, P2, W, o.c, q.c, own1, ev + Log(P, W, c, n));
      RunAdd(P2, Next(d), m, k);
      StateStep(P, c, n);
      assert ev + Log(P, W, c, n) + Emits(PiecesAt(W, o.c)) == ev + Log(P, W, c, n + 1);
      if m + k > N {
        return Projection(n, m, own1, m + k, own2);
      }
      n, m, own1 := n + 1, m + k, own2;
      if !StateAt(P, c, n).Next? {
        return Projection(n, m, own1, m, own1);
      }
    }
  }

  ghost predicate Finishes(P: Program, c: Config, vals: seq<Value>, st: Store) {
    exists n: nat :: StateAt(P, c, n) == Done(vals, st)
  }

  ghost predicate Traps(P: Program, c: Config, why: Reason) {
    exists n: nat :: StateAt(P, c, n) == Trap(why)
  }

  ghost predicate AlwaysReady(P: Program, P2: Program, W: World, c: Config, ev: seq<int>) {
    forall n: nat :: ReadyFor(P, P2, W, c, ev, n)
  }

  /**
   * The original run never ends for a reason validation rules out; nor with an access outside its
   * memory, if there is owned memory behind it that such an access would hit.
   */
  ghost predicate NeverStuck(P: Program, W: World, c: Config) {
    !Traps(P, c, Invalid) && (OwnsNoMemory(W) || !Traps(P, c, Bounds))
  }

  /** What a trap of the original is in the instrumented program. */
  ghost predicate SameTraps(P: Program, P2: Program, W: World, c: Config, d: Config) {
    && (Traps(P, c, Stop) <==> Traps(P2, d, Stop))
    && (OwnsNoMemory(W) ==> (Traps(P, c, Bounds) <==> Traps(P2, d, Bounds)))
    && !Traps(P2, d, Invalid)
    && (!OwnsNoMemory(W) ==> !Traps(P2, d, Bounds))
  }

  /**
   * The two programs end in the same way: with the same results, on stores that agree on everything
   * the program owns, or with the same trap, or not at all.
   */
  lemma SameResults(P: Program, P2: Program, W: World, c: Config, d: Config, own: Own, ev: seq<int>, vals: seq<Value>)
    requires Instrumented(P, P2, W) && Match(P, P2, W, c, d, own) && W.rep(own, ev)
    requires AlwaysReady(P, P2, W, c, ev) && NeverStuck(P, W, c)
    ensures forall st :: Finishes(P, c, vals, st) ==> exists own2 :: Finishes(P2, d, vals, Join(st, own2))
    ensures forall st2 :: Finishes(P2, d, vals, st2) ==>
              exists st, own2 :: st2 == Join(st, own2) && Finishes(P, c, vals, st)
    ensures SameTraps(P, P2, W, c, d)
  {
    hide Step, Instrumented, Match, Ready, ReadyFor, Run, Join, OwnsNoMemory, Traps;
    forall st | Finishes(P, c, vals, st) ensures exists own2 :: Finishes(P2, d, vals, Join(st, own2)) {
      var n: nat :| StateAt(P, c, n) == Done(vals, st);
      var m, own2 := EndLifts(P, P2, W, c, d, own, ev, n);
      assert Finishes(P2, d, vals, Join(st, own2));
    }
    forall st2 | Finishes(P2, d, vals, st2)
      ensures exists st, own2 :: st2 == Join(st, own2) && Finishes(P, c, vals, st)
    {
      var N: nat :| StateAt(P2, d, N) == Done(vals, st2);
      var own2 := EndProjects(P, P2, W, c, d, own, ev, N);
      assert Finishes(P, c, vals, StateAt(P, c, N).store);
    }
    forall why ensures Traps(P, c, why) ==> Traps(P2, d, why) {
      TrapLifts(P, P2, W, c, d, own, ev, why);
    }
    forall why ensures Traps(P2, d, why) ==> Traps(P, c, why) {
      TrapProjects(P, P2, W, c, d, own, ev, why);
    }
  }

  /** The end of an original run is the end of the instrumented one. */
  ghost predicate SameEnd(o: Outcome, q: Outcome, own: Own) {
    match o
    case Next(_) => false
    case Done(vals, st) => q == Done(vals, Join(st, own))
    case Trap(_) => q == o
  }

  lemma EndLifts(P: Program, P2: Program, W: World, c: Config, d: Config, own: Own, ev: seq<int>, n: nat)
    returns (m: nat, own2: Own)
    requires Instrumented(P, P2, W) && Match(P, P2, W, c, d, own) && W.rep(own, ev)
    requires AlwaysReady(P, P2, W, c, ev) && NeverStuck(P, W, c)
    requires !StateAt(P, c, n).Next?
    ensures SameEnd(StateAt(P, c, n), StateAt(P2, d, m), own2)
  {
    hide Step, Instrumented, Match, Ready, ReadyFor, Run, Join;
    assert ReadyFor(P, P2, W, c, ev, n);
    m, own2 := RunLifts(P, P2, W, c, d, own, ev, n);
    var o := StateAt(P, c, n);
    if o.Trap? {
      assert Traps(P, c, o.why);
    }
  }

  /** An instrumented run that has ended after N steps is the end of an original run of at most N steps. */
  lemma EndProjects(P: Program, P2: Program, W: World, c: Config, d: Config, own: Own, ev: seq<int>, N: nat)
    returns (own2: Own)
    requires Instrumented(P, P2, W) && Match(P, P2, W, c, d, own) && W.rep(own, ev)
    requires AlwaysReady(P, P2, W, c, ev) && NeverStuck(P, W, c)
    requires !StateAt(P2, d, N).Next?
    ensures SameEnd(StateAt(P, c, N), StateAt(P2, d, N), own2)
  {
    hide Step, Instrumented, Match, Ready, ReadyFor, Run, Join, NeverStuck;
    assert ReadyFor(P, P2, W, c, ev, N);
    var m;
    m, own2 := RunLifts(P, P2, W, c, d, own, ev, N);
    if StateAt(P, c, N).Next? {
      StateFinal(P2, d, N, m);
      assert false;
    } else {
      m, own2 := EndLifts(P, P2, W, c, d, own, ev, N);
      if m <= N {
        StateFinal(P2, d, m, N);
      } else {
        StateFinal(P2, d, N, m);
      }
    }
  }

  lemma TrapLifts(P: Program, P2: Program, W: World, c: Config, d: Config, own: Own, ev: seq<int>, why: Reason)
    requires Instrumented(P, P2, W) && Match(P, P2, W, c, d, own) && W.rep(own, ev)
    requires AlwaysReady(P, P2, W, c, ev) && NeverStuck(P, W, c)
    ensures Traps(P, c, why) ==> Traps(P2, d, why)
  {
    hide Step, Instrumented, Match, Ready, ReadyFor, Run, Join, NeverStuck;
    if Traps(P, c, why) {
      var n: nat :| StateAt(P, c, n) == Trap(why);
      var m, own2 := EndLifts(P, P2, W, c, d, own, ev, n);
      assert StateAt(P2, d, m) == Trap(why);
    }
  }

  lemma TrapProjects(P: Program, P2: Program, W: World, c: Config, d: Config, own: Own, ev: seq<int>, why: Reason)
    requires Instrumented(P, P2, W) && Match(P, P2, W, c, d, own) && W.rep(own, ev)
    requires AlwaysReady(P, P2, W, c, ev) && NeverStuck(P, W, c)
    ensures Traps(P2, d, why) ==> Traps(P, c, why)
  {
    hide Step, Instrumented, Match, Ready, ReadyFor, Run, Join, NeverStuck;
    if Traps(P2, d, why) {
      var N: nat :| StateAt(P2, d, N) == Trap(why);
      var own2 := EndProjects(P, P2, W, c, d, own, ev, N);
      assert StateAt(P, c, N) == Trap(why);
    }
  }
}
