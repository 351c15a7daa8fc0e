/** The call counter of the fibonacci test: `call $add_call` in front of every direct call. */
module Counter {
  import opened Values
  import opened Machine
  import opened Embedding
  import opened Nesting
  import opened Fragments
  import opened StraightLine
  import opened Simulation
  import opened Runs
  import opened Rewriter
  import opened Meaning
  import EventBuffer

  /** The body of add_call; the counter is the first global behind the program's. */
  function AddCallBody(globals: nat): Code {
    [Op(Const(Int32(1)), [I32]), Op(GlobalGet(globals), [I32]),
     Op(Binary(AddInt32), [I32]), Op(GlobalSet(globals), [])]
  }

  function AddCall(globals: nat): Func {
    Defined(FuncType([], []), [], AddCallBody(globals))
  }

  function CountOps(addCall: nat): seq<Operation> {
    [Operation([ExpName(CallId, None, None)],
               Fragment([Op(Call(addCall), [])], [], []), Fragment([], [], []))]
  }

  const COUNTED := [OpEvents([1], [])]

  function Bumped(own: Own, v: int): Own
    requires |own.globals| >= 1
  {
    own.(globals := own.globals[0 := Int32(v)])
  }

  /** The owned state is own0 with the recorded events counted, with 32-bit wrap-around. */
  predicate Counts(own0: Own, own: Own, ev: seq<int>) {
    |own0.globals| >= 1 && own == Bumped(own0, |ev|)
  }

  function Counting(own0: Own): Rep {
    (own: Own, ev: seq<int>) => Counts(own0, own, ev)
  }

  lemma BodyEffect(globals: nat, own: Own, n: nat, st: Store)
    requires |st.globals| == globals && |own.globals| >= 1 && own.globals[0] == Int32(n)
    ensures AllSimple(AddCallBody(globals))
    ensures Effects(AddCallBody(globals), [], [], Join(st, own)) == Ok([], [], Join(st, Bumped(own, n + 1)))
  {
    hide Exec, Join, Int32;
    var code := AddCallBody(globals);
    var s, s2 := Join(st, own), Join(st, Bumped(own, n + 1));
    var one, c, r := Int32(1), Int32(n), Int32(n + 1);
    var ks := [[], [one], [one, c], [r], []];
    assert ks[1] == [] + [one] && ks[2] == [one] + [c] == [] + [one] + [c] && ks[3] == [] + [r];
    EventBuffer.PushConst(one, [], [], s);
    EventBuffer.PushOwn(globals, 0, own, [], [one], st);
    EventBuffer.AddTop(1, n, [], [], s);
    EventBuffer.SetOwn(globals, 0, r, own, [], [], st);
    Follow(code, [], ks, [s, s, s, s, s2]);
  }

  /** Running `call $add_call` on its own: in, through the body, and out again. */
  lemma AddCallRuns(P2: Program, addCall: nat, globals: nat, locals: seq<Value>, stack: seq<Value>,
                    st: Store, own: Own, n: nat)
    returns (m: nat)
    requires addCall < |P2.funcs| && P2.funcs[addCall] == AddCall(globals) && Closed(P2)
    requires |st.globals| == globals && |own.globals| >= 1 && own.globals[0] == Int32(n)
    ensures RunsClean(P2, CountOps(addCall)[0].pre.code, locals, stack,
                      Join(st, own), Join(st, Bumped(own, n + 1)), m)
  {
    hide Run, Join, Exec;
    var body, s, s2 := AddCallBody(globals), Join(st, own), Join(st, Bumped(own, n + 1));
    BodyEffect(globals, own, n, st);
    StraightClean(P2, body, [], [], s, s2);
    CallRuns(P2, addCall, locals, stack, s, s2, |body|);
    m := |body| + 2;
  }

  lemma EmptyHarmless(P2: Program, f: Fragment, rep: Rep, sh: Shape, ev: seq<int>)
    requires f.code == []
    ensures Harmless(P2, Piece(f, []), rep, sh, ev)
  {
    var p := Piece(f, []);
    forall locals: seq<Value>, stack: seq<Value>, st: Store, own: Own |
      Fits(f, locals, stack) && InShape(sh, st) && rep(own, ev)
      ensures Clean(P2, p, rep, ev, locals, stack, st, own)
    {
      assert RunsClean(P2, [], locals, stack, Join(st, own), Join(st, own), 0);
      assert ev + [] == ev;
    }
  }

  lemma CountHarmless(P2: Program, addCall: nat, sh: Shape, own0: Own, ev: seq<int>)
    requires addCall < |P2.funcs| && P2.funcs[addCall] == AddCall(|sh.globals|) && Closed(P2)
    ensures Harmless(P2, Piece(CountOps(addCall)[0].pre, [1]), Counting(own0), sh, ev)
  {
    hide Run, Join;
    var p := Piece(CountOps(addCall)[0].pre, [1]);
    forall locals: seq<Value>, stack: seq<Value>, st: Store, own: Own |
      Fits(p.frag, locals, stack) && InShape(sh, st) && Counting(own0)(own, ev)
      ensures Clean(P2, p, Counting(own0), ev, locals, stack, st, own)
    {
      var steps := AddCallRuns(P2, addCall, |sh.globals|, locals, stack, st, own, |ev|);
      assert Counting(own0)(Bumped(own, |ev| + 1), ev + [1]);
    }
  }

  // ----- what is counted -----

  /** The next instruction of c is a direct call in a function in scope. */
  predicate AtCall(scope: set<nat>, c: Config) {
    c.frames != [] && Top(c).fn in scope && Top(c).pc < |Top(c).code| && Top(c).code[Top(c).pc].instr.Call?
  }

  /** How many of the first n steps of the original run are direct calls made from functions in scope. */
  function CallsMade(P: Program, scope: set<nat>, c: Config, n: nat): nat {
    if n == 0 then 0
    else
      var o := StateAt(P, c, n - 1);
      CallsMade(P, scope, c, n - 1) + if o.Next? && AtCall(scope, o.c) then 1 else 0
  }

  lemma CountMatch(s: StackInst, addCall: nat)
    ensures FirstMatch(s, CountOps(addCall)) == if s.instr.Call? then 0 else 1
  {
    var ops := CountOps(addCall);
    var t := ops[0].targets;
    assert MatchTarget(s, t[0]) <==> s.instr.Call?;
    assert MatchTargets(s, t) <==> s.instr.Call?;
    assert ops[1..] == [];
  }

  lemma GapEmits(code: Code, k: nat, addCall: nat)
    requires k <= |code|
    ensures var ps := GapPieces(code, k, CountOps(addCall), COUNTED);
      && Emits(ps) == (if k < |code| && code[k].instr.Call? then [1] else [])
      && (forall j :: 0 <= j < |ps| ==>
            ps[j] == Piece(CountOps(addCall)[0].pre, [1]) || ps[j] == Piece(CountOps(addCall)[0].post, []))
  {
    var ops := CountOps(addCall);
    var a := if k > 0 then PostPieces(code[k-1], ops, COUNTED) else [];
    var b := if k < |code| then PrePieces(code[k], ops, COUNTED) else [];
    if k > 0 {
      CountMatch(code[k-1], addCall);
      OnePiece(Piece(ops[0].post, []));
    }
    if k < |code| {
      CountMatch(code[k], addCall);
      OnePiece(Piece(ops[0].pre, [1]));
    }
    EmitsAppend(a, b);
  }

  lemma {:induction false} AllCounted(P2: Program, ps: seq<Piece>, W: World, addCall: nat, own0: Own, ev: seq<int>)
    requires W.rep == Counting(own0)
    requires addCall < |P2.funcs| && P2.funcs[addCall] == AddCall(|W.shape.globals|) && Closed(P2)
    requires forall j :: 0 <= j < |ps| ==>
               ps[j] == Piece(CountOps(addCall)[0].pre, [1]) || ps[j] == Piece(CountOps(addCall)[0].post, [])
    ensures AllHarmless(P2, ps, W.rep, W.shape, ev)
  {
    hide Harmless, Counting;
    if ps != [] {
      CountHarmless(P2, addCall, W.shape, own0, ev);
      EmptyHarmless(P2, CountOps(addCall)[0].post, W.rep, W.shape, ev);
      AllCounted(P2, ps[1..], W, addCall, own0, ev + ps[0].emits);
    }
  }

  lemma CountReady(P: Program, P2: Program, scope: set<nat>, addCall: nat, W: World, c: Config,
                   own0: Own, ev: seq<int>)
    requires W.plan == PlanOf(P, scope, CountOps(addCall), COUNTED) && W.rep == Counting(own0)
    requires addCall < |P2.funcs| && P2.funcs[addCall] == AddCall(|W.shape.globals|) && Closed(P2)
    requires Proper(P, c.frames)
    ensures Emits(PiecesAt(W, c)) == if AtCall(scope, c) then [1] else []
    ensures Ready(P2, W, c, ev)
  {
    hide Harmless, AllHarmless, GapPieces, Emits, Counting, PiecesAt, Proper, CountOps, AllFit;
    CountPieces(P, scope, addCall, W, c);
    var ps, f := PiecesAt(W, c), Top(c);
    if f.fn in scope {
      GapEmits(f.code, f.pc, addCall);
    } else {
      assert Emits([]) == [] by { NoEmits(); }
    }
    AllCounted(P2, ps, W, addCall, own0, ev);
    CountFits(ps, addCall, f.locals, f.stack);
  }

  /** The pieces at a place are those of the plan for its function. */
  lemma CountPieces(P: Program, scope: set<nat>, addCall: nat, W: World, c: Config)
    requires W.plan == PlanOf(P, scope, CountOps(addCall), COUNTED) && Proper(P, c.frames)
    ensures c.frames != [] && Top(c).pc <= |Top(c).code|
    ensures PiecesAt(W, c) ==
            if Top(c).fn in scope then GapPieces(Top(c).code, Top(c).pc, CountOps(addCall), COUNTED) else []
  {
    hide GapPieces, CountOps;
    assert FrameOf(P, Top(c));
  }

  lemma CountFits(ps: seq<Piece>, addCall: nat, locals: seq<Value>, stack: seq<Value>)
    requires forall j :: 0 <= j < |ps| ==>
               ps[j] == Piece(CountOps(addCall)[0].pre, [1]) || ps[j] == Piece(CountOps(addCall)[0].post, [])
    ensures AllFit(ps, locals, stack)
  {
    assert stack[|stack|..] == [] && TypesOf([]) == [];
  }

  lemma NoEmits()
    ensures Emits([]) == []
  {
  }

  lemma {:induction false} CountLog(P: Program, P2: Program, scope: set<nat>, addCall: nat, W: World, c: Config,
                                   own0: Own, n: nat)
    requires W.plan == PlanOf(P, scope, CountOps(addCall), COUNTED) && W.rep == Counting(own0)
    requires addCall < |P2.funcs| && P2.funcs[addCall] == AddCall(|W.shape.globals|) && Closed(P2)
    requires Proper(P, c.frames)
    ensures |Log(P, W, c, n)| == CallsMade(P, scope, c, n)
  {
    hide Run, Ready, PiecesAt, Counting;
    if n > 0 {
      CountLog(P, P2, scope, addCall, W, c, own0, n - 1);
      ProperRun(P, c, n - 1);
      var o := StateAt(P, c, n - 1);
      if o.Next? {
        CountReady(P, P2, scope, addCall, W, o.c, own0, []);
      }
    }
  }

  /** The program with the counting calls in front of its calls, and the counter as the owned state. */
  function CountWorld(P: Program, scope: set<nat>, addCall: nat, sh: Shape, own: Own): World {
    World(PlanOf(P, scope, CountOps(addCall), COUNTED), Counting(own), sh)
  }

  /**
   * The count is exact: however far the original run has come, to its end or not, the instrumented run
   * comes to the same point, every frame with the same locals and operands at the same place of its
   * function, with the counter at the number of direct calls made from functions in scope, modulo 2^32,
   * and nothing else of the owned state changed. Neither the inserted calls nor anything add_call does
   * is counted.
   */
  lemma CountExact(P: Program, P2: Program, scope: set<nat>, addCall: nat, size: Option<nat>,
                   fn: nat, args: seq<Value>, st: Store, own: Own, n: nat) returns (m: nat)
    requires |P.funcs| <= addCall < |P2.funcs| && P2.funcs[addCall] == AddCall(|st.globals|)
    requires Rewritten(P, P2, scope, CountOps(addCall)) && Regular(P, P2, size)
    requires if size.Some? then |st.mem| == size.value else own.mem == []
    requires fn < |P.funcs| && P.funcs[fn].Defined?
    requires own.globals != [] && own.globals[0] == Int32(0)
    ensures P2.funcs[fn].Defined?
    ensures var c, d := Start(P, fn, args, st), Start(P2, fn, args, Join(st, own));
      OutcomeMatch(P, P2, CountWorld(P, scope, addCall, Shape(TypesOf(st.globals), size), own),
                   StateAt(P, c, n), StateAt(P2, d, m), Bumped(own, CallsMade(P, scope, c, n)))
  {
    hide Run, Ready, PiecesAt, Regular, Step;
    var ops, c := CountOps(addCall), Start(P, fn, args, st);
    var W := CountWorld(P, scope, addCall, Shape(TypesOf(st.globals), size), own);
    assert Closed(P2) by { ClosedRewritten(P, P2, scope, ops, size); }
    GoodCountOps(P2, addCall);
    RewrittenIsInstrumented(P, P2, scope, ops, COUNTED, W);
    StartMatches(P, P2, W, fn, args, st, own);
    assert Proper(P, c.frames);
    forall i: nat | i < n && StateAt(P, c, i).Next?
      ensures Ready(P2, W, StateAt(P, c, i).c, [] + Log(P, W, c, i))
    {
      ProperRun(P, c, i);
      CountReady(P, P2, scope, addCall, W, StateAt(P, c, i).c, own, [] + Log(P, W, c, i));
    }
    var own2;
    m, own2 := RunLifts(P, P2, W, c, Start(P2, fn, args, Join(st, own)), own, [], n);
    CountLog(P, P2, scope, addCall, W, c, own, n);
    assert Counts(own, own2, [] + Log(P, W, c, n));
  }

  lemma GoodCountOps(P2: Program, addCall: nat)
    requires addCall < |P2.funcs|
    ensures GoodOps(P2, CountOps(addCall))
  {
    var op := CountOps(addCall)[0];
    assert op.pre.code[1..] == [];
    assert WellNested(op.pre.code) && WellNested(op.post.code);
  }

  lemma ClosedRewritten(P: Program, P2: Program, scope: set<nat>, ops: seq<Operation>, size: Option<nat>)
    requires Rewritten(P, P2, scope, ops) && Regular(P, P2, size)
    ensures Closed(P2)
  {
    assert forall k {:trigger P2.table[k]} :: 0 <= k < |P2.table| ==> P2.table[k] == P.table[k];
  }
}
