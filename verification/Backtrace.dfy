/**
 * The printed backtrace is the stack of active calls, for every run of the hooked program up to the
 * inspection point.
 */
module Backtrace {
  import opened Values
  import opened Machine
  import opened Weaving
  import opened Embedding
  import opened Nesting
  import opened Fragments
  import opened Simulation
  import opened Runs
  import opened Meaning
  import opened EventBuffer
  import opened BacktraceHooks
  import Instrumenting

  // ----- the decoder -----

  /** The complete 32-bit numbers of a file. */
  function ReadInts(file: seq<Byte>): seq<int> {
    if |file| < 4 then [] else [Signed32(FromBytes(file[..4]))] + ReadInts(file[4..])
  }

  /** The reader takes the file four bytes at a time; bytes left over at the end are not read. */
  lemma {:induction false} IntsRead(file: seq<Byte>)
    ensures |ReadInts(file)| == |file| / 4
    ensures forall k :: 0 <= k < |file| / 4 ==> ReadInts(file)[k] == Signed32(FromBytes(file[4 * k..4 * k + 4]))
  {
    if |file| >= 4 {
      var rest := file[4..];
      IntsRead(rest);
      forall k | 1 <= k < |file| / 4 ensures ReadInts(file)[k] == Signed32(FromBytes(file[4 * k..4 * k + 4])) {
        assert rest[4 * (k - 1)..4 * (k - 1) + 4] == file[4 * k..4 * k + 4];
      }
    }
  }

  /** -1 pops, any other event pushes; -2 and a pop of the empty stack are rejected. */
  function Unwind(ev: seq<int>, stack: seq<int>): Option<seq<int>> {
    if ev == [] then Some(stack)
    else if ev[0] == -2 then None
    else if ev[0] != -1 then Unwind(ev[1..], stack + [ev[0]])
    else if stack == [] then None
    else Unwind(ev[1..], stack[..|stack| - 1])
  }

  lemma {:induction false} UnwindAppend(a: seq<int>, b: seq<int>, s: seq<int>)
    ensures Unwind(a + b, s) == (var r := Unwind(a, s); if r.None? then None else Unwind(b, r.value))
  {
    if a == [] {
      assert a + b == b;
    } else {
      assert (a + b)[1..] == a[1..] + b;
      if a[0] == -1 {
        if s != [] {
          UnwindAppend(a[1..], b, s[..|s| - 1]);
        }
      } else if a[0] != -2 {
        UnwindAppend(a[1..], b, s + [a[0]]);
      }
    }
  }

  /** How many events push more than pop. */
  function Net(ev: seq<int>): int {
    if ev == [] then 0 else (if ev[0] == -1 then -1 else 1) + Net(ev[1..])
  }

  /** The events are rejected exactly if one is -2, or some part from the start has more pops than there is to pop. */
  lemma {:induction false} RejectedIff(ev: seq<int>, s: seq<int>)
    ensures Unwind(ev, s).None? <==> -2 in ev || exists k :: 0 <= k <= |ev| && |s| + Net(ev[..k]) < 0
    ensures Unwind(ev, s).Some? ==> |Unwind(ev, s).value| == |s| + Net(ev)
  {
    if ev != [] {
      var step, rest := if ev[0] == -1 then -1 else 1, ev[1..];
      forall k | 1 <= k <= |ev| ensures Net(ev[..k]) == step + Net(rest[..k - 1]) {
        assert ev[..k][1..] == rest[..k - 1];
      }
      assert ev[..0] == [] && ev[..1][1..] == [];
      if ev[0] == -1 && s != [] {
        RejectedIff(rest, s[..|s| - 1]);
        PrefixShifted(ev, rest, |s|, step);
      } else if ev[0] != -1 && ev[0] != -2 {
        RejectedIff(rest, s + [ev[0]]);
        PrefixShifted(ev, rest, |s|, step);
      } else if ev[0] == -1 {
        assert Net(ev[..1]) == -1;
      }
    }
  }

  lemma PrefixShifted(ev: seq<int>, rest: seq<int>, n: nat, step: int)
    requires |ev| == |rest| + 1 && forall k :: 1 <= k <= |ev| ==> Net(ev[..k]) == step + Net(rest[..k - 1])
    ensures (exists k :: 0 <= k <= |ev| && n + Net(ev[..k]) < 0)
       <==> (exists k :: 0 <= k <= |rest| && n + step + Net(rest[..k]) < 0)
  {
    if k :| 0 <= k <= |ev| && n + Net(ev[..k]) < 0 {
      assert ev[..0] == [];
      assert n + step + Net(rest[..k - 1]) < 0;
    }
    if k :| 0 <= k <= |rest| && n + step + Net(rest[..k]) < 0 {
      assert Net(ev[..k + 1]) == step + Net(rest[..k + 1 - 1]);
    }
  }

  predicate InRange(ev: seq<int>) {
    forall k :: 0 <= k < |ev| ==> -0x8000_0000 <= ev[k] < 0x8000_0000
  }

  /** The reader gets back the recorded events. */
  lemma {:induction false} EventsRoundTrip(ev: seq<int>)
    requires InRange(ev)
    ensures ReadInts(EventBytes(ev)) == ev
  {
    if ev != [] {
      var file := EventBytes(ev);
      assert file[..4] == Encode(Int32(ev[0])) && file[4..] == EventBytes(ev[1..]);
      BytesRoundTrip(Int32(ev[0]).bits, 4);
      SignedOfInt32(ev[0]);
      EventsRoundTrip(ev[1..]);
      assert ev == [ev[0]] + ev[1..];
    }
  }

  /** The lines of the printed backtrace: the innermost call first, then the outermost caller. */
  function Lines(idx: seq<int>, names: seq<string>): (lines: seq<string>)
    requires forall k :: 0 <= k < |idx| ==> 0 <= idx[k] < |names|
    ensures |lines| == |idx| + 1
  {
    seq(|idx|, k requires 0 <= k < |idx| => names[idx[|idx| - 1 - k]])
      + ["_start (or what runtime directly call)"]
  }

  /** The decoder as the tool runs it; None when an assertion or a pop of the empty vector is hit. */
  method PrintBacktrace(file: seq<Byte>, names: seq<string>) returns (out: Option<seq<string>>)
    requires var r := Unwind(ReadInts(file), []);
      r.Some? ==> forall k :: 0 <= k < |r.value| ==> 0 <= r.value[k] < |names|
    ensures var r := Unwind(ReadInts(file), []);
      out == if r.None? then None else Some(Lines(r.value, names))
  {
    var pos := 0;
    var idx: seq<int> := [];
    while pos + 4 <= |file|
      invariant pos <= |file|
      invariant Unwind(ReadInts(file), []) == Unwind(ReadInts(file[pos..]), idx)
      decreases |file| - pos
    {
      var number := Signed32(FromBytes(file[pos..pos + 4]));
      assert file[pos..][..4] == file[pos..pos + 4] && file[pos..][4..] == file[pos + 4..];
      ghost var rest := ReadInts(file[pos + 4..]);
      assert ReadInts(file[pos..]) == [number] + rest && ([number] + rest)[1..] == rest;
      pos := pos + 4;
      if number == -2 {
        return None;
      }
      if number != -1 {
        idx := idx + [number];
      } else if idx == [] {
        return None;
      } else {
        idx := idx[..|idx| - 1];
      }
    }
    assert Unwind(ReadInts(file), []) == Some(idx);
    var lines: seq<string> := [];
    var i := |idx| - 1;
    while i >= 0
      invariant -1 <= i < |idx| && |lines| == |idx| - 1 - i
      invariant forall k :: 0 <= k < |lines| ==> lines[k] == names[idx[|idx| - 1 - k]]
    {
      lines := lines + [names[idx[i]]];
      i := i - 1;
    }
    out := Some(lines + ["_start (or what runtime directly call)"]);
    assert lines == Lines(idx, names)[..|idx|];
  }

  // ----- the plan -----

  /**
   * One backtrace inspection: function and line, the code inserted there, the types of the program's
   * globals, and the event for each callee.
   */
  datatype Inspection =
    Inspection(scope: set<nat>, fn: nat, line: nat, code: Code, globals: seq<ValType>, event: nat -> int)

  function Limit(I: Inspection, fn: nat): Option<nat> {
    if fn == I.fn then Some(I.line) else None
  }

  predicate HookedAt(I: Inspection, fn: nat, code: Code, k: int) {
    fn in I.scope && 0 <= k < |code| && Hooked(code, k, Limit(I, fn))
  }

  /**
   * Hooked are exactly the direct calls in functions in scope, in the inspected function those on the
   * lines up to the inspected one; lines count from 1.
   */
  lemma HookedExactly(I: Inspection, fn: nat, code: Code, k: int)
    ensures HookedAt(I, fn, code, k) <==>
            && fn in I.scope && 0 <= k < |code| && (exists t :: code[k].instr == Call(t))
            && (fn == I.fn ==> k + 1 <= I.line)
  {
    if 0 <= k < |code| && code[k].instr.Call? {
      assert code[k].instr == Call(code[k].instr.target);
    }
  }

  function PopPieces(I: Inspection, fn: nat, code: Code, k: nat): seq<Piece> {
    if HookedAt(I, fn, code, k - 1) then [HookPiece(|I.globals|, -1)] else []
  }

  function InspectPieces(I: Inspection, fn: nat, k: nat): seq<Piece> {
    if fn == I.fn && k == I.line then [Piece(Fragment(I.code, [], []), [])] else []
  }

  function PushPieces(I: Inspection, fn: nat, code: Code, k: nat): seq<Piece> {
    if HookedAt(I, fn, code, k) then [HookPiece(|I.globals|, I.event(code[k].instr.target))] else []
  }

  function BtPieces(I: Inspection, fn: nat, code: Code, k: nat): seq<Piece> {
    PopPieces(I, fn, code, k) + InspectPieces(I, fn, k) + PushPieces(I, fn, code, k)
  }

  function BtGaps(I: Inspection, fn: nat, f: Func): (gs: seq<seq<Piece>>)
    ensures f.Defined? ==> |gs| == |f.code| + 1 && forall k :: 0 <= k < |gs| ==> gs[k] == BtPieces(I, fn, f.code, k)
  {
    if f.Import? then [] else seq(|f.code| + 1, k requires 0 <= k => BtPieces(I, fn, f.code, k))
  }

  function BtPlan(P: Program, I: Inspection): (plan: Plan)
    ensures |plan| == |P.funcs|
    ensures forall fn :: 0 <= fn < |P.funcs| ==> plan[fn] == BtGaps(I, fn, P.funcs[fn])
  {
    seq(|P.funcs|, fn requires 0 <= fn < |P.funcs| => BtGaps(I, fn, P.funcs[fn]))
  }

  function BtWorld(P: Program, I: Inspection, size: nat): World {
    World(BtPlan(P, I), Recording(size), Shape(I.globals, Some(size)))
  }

  /** The code of a function after the positional insertion and the backtrace pass. */
  function InspectedCode(I: Inspection, fn: nat, code: Code): Code {
    if fn !in I.scope then code
    else if fn == I.fn && I.line <= |code|
    then HookedCode(Instrumenting.InsertedAt(code, I.line, I.code), Some(I.line), |I.globals|, I.event)
    else HookedCode(code, Limit(I, fn), |I.globals|, I.event)
  }

  // ----- what the run of the original means for the events -----

  /** The event recorded before instruction k, if that is a hooked call. */
  function EventAt(I: Inspection, fn: nat, code: Code, k: int): seq<int> {
    if HookedAt(I, fn, code, k) then [I.event(code[k].instr.target)] else []
  }

  /** The event of the call a frame is waiting for, or has just come back from. */
  function Pending(I: Inspection, f: Frame): seq<int> {
    EventAt(I, f.fn, f.code, f.pc - 1)
  }

  function PendingAll(I: Inspection, fs: seq<Frame>): seq<int> {
    if fs == [] then [] else PendingAll(I, fs[..|fs| - 1]) + Pending(I, fs[|fs| - 1])
  }

  lemma PendingSnoc(I: Inspection, fs: seq<Frame>, f: Frame)
    ensures PendingAll(I, fs + [f]) == PendingAll(I, fs) + Pending(I, f)
  {
    assert (fs + [f])[..|fs|] == fs;
  }

  lemma GapEvents(I: Inspection, fn: nat, code: Code, k: nat)
    ensures Emits(BtPieces(I, fn, code, k)) ==
            (if HookedAt(I, fn, code, k - 1) then [-1] else []) + EventAt(I, fn, code, k)
  {
    hide HookCode;
    var a, b, c := PopPieces(I, fn, code, k), InspectPieces(I, fn, k), PushPieces(I, fn, code, k);
    EmitsAppend(a + b, c);
    EmitsAppend(a, b);
    EmitsShort(a);
    EmitsShort(b);
    EmitsShort(c);
  }

  lemma EmitsShort(ps: seq<Piece>)
    requires |ps| <= 1
    ensures Emits(ps) == if ps == [] then [] else ps[0].emits
  {
  }

  /** Passing a gap pops the call just returned from and pushes the call about to be made. */
  lemma GapUnwinds(I: Inspection, f: Frame, low: seq<int>)
    requires forall t :: I.event(t) != -1
    requires -2 !in Emits(BtPieces(I, f.fn, f.code, f.pc))
    ensures Unwind(Emits(BtPieces(I, f.fn, f.code, f.pc)), low + Pending(I, f))
         == Some(low + Pending(I, f.(pc := f.pc + 1)))
  {
    hide BtPieces;
    GapEvents(I, f.fn, f.code, f.pc);
    var a, b := if HookedAt(I, f.fn, f.code, f.pc - 1) then [-1] else [], EventAt(I, f.fn, f.code, f.pc);
    UnwindAppend(a, b, low + Pending(I, f));
    PopsOne(a, low, Pending(I, f));
    assert b != [] ==> b[0] in a + b;
    PushesOne(b, low);
  }

  lemma PopsOne(a: seq<int>, low: seq<int>, top: seq<int>)
    requires (a == [-1] && |top| == 1) || (a == [] && top == [])
    ensures Unwind(a, low + top) == Some(low)
  {
    assert low + [] == low;
    if a != [] {
      assert (low + top)[..|low|] == low && a[1..] == [];
    }
  }

  lemma PushesOne(b: seq<int>, low: seq<int>)
    requires |b| <= 1 && (b != [] ==> b[0] != -1 && b[0] != -2)
    ensures Unwind(b, low) == Some(low + b)
  {
    assert low + [] == low;
    if b != [] {
      assert b[1..] == [] && low + [b[0]] == low + b;
    }
  }

  lemma MoveIsPending(P: Program, I: Inspection, f: Frame, st: Store)
    ensures var m := Decide(P, f, st);
      && (m.Stay? || m.Enter? ==> Pending(I, m.f) == Pending(I, f.(pc := f.pc + 1)))
      && (m.Exit? ==> Pending(I, f.(pc := f.pc + 1)) == [])
  {
    hide Decide;
    MoveShape(P, f, st);
  }

  lemma PiecesOfPlan(P: Program, I: Inspection, W: World, c: Config)
    requires W.plan == BtPlan(P, I) && Proper(P, c.frames)
    ensures PiecesAt(W, c) == BtPieces(I, Top(c).fn, Top(c).code, Top(c).pc)
  {
    hide BtPieces;
    assert FrameOf(P, Top(c));
  }

  /** One original step keeps the decoded stack equal to the pending hooked calls of all frames. */
  lemma PendingStep(P: Program, I: Inspection, c: Config, W: World)
    requires Proper(P, c.frames) && Step(P, c).Next?
    requires PiecesAt(W, c) == BtPieces(I, Top(c).fn, Top(c).code, Top(c).pc)
    requires forall t :: I.event(t) != -1
    requires -2 !in Emits(PiecesAt(W, c))
    ensures Unwind(Emits(PiecesAt(W, c)), PendingAll(I, c.frames)) == Some(PendingAll(I, Step(P, c).c.frames))
  {
    hide Decide, BtPieces, Pending, Emits, Unwind, Apply;
    var n := |c.frames| - 1;
    var f, lower := c.frames[n], c.frames[..n];
    GapUnwinds(I, f, PendingAll(I, lower));
    MoveIsPending(P, I, f, c.store);
    PendingApply(P, I, lower, c.store, Decide(P, f, c.store), Pending(I, f.(pc := f.pc + 1)));
  }

  lemma PendingApply(P: Program, I: Inspection, lower: seq<Frame>, st: Store, m: Move, x: seq<int>)
    requires Apply(P, lower, st, m).Next?
    requires m.Stay? || m.Enter? ==> Pending(I, m.f) == x
    requires m.Exit? ==> x == []
    ensures PendingAll(I, Apply(P, lower, st, m).c.frames) == PendingAll(I, lower) + x
  {
    hide Pending;
    match m {
      case Stay(f2, st2) => PendingSnoc(I, lower, f2);
      case Enter(f2, callee, args) =>
        var e := Entry(P, callee, args);
        PendingSnoc(I, lower, f2);
        PendingSnoc(I, lower + [f2], e);
        EntryPending(P, I, callee, args);
        assert lower + [f2, e] == lower + [f2] + [e];
        assert PendingAll(I, lower + [f2]) + [] == PendingAll(I, lower + [f2]);
      case Exit(vals) =>
        ReturnPending(I, lower, vals);
        assert PendingAll(I, lower) + [] == PendingAll(I, lower);
    }
  }

  lemma EntryPending(P: Program, I: Inspection, callee: nat, args: seq<Value>)
    requires callee < |P.funcs| && P.funcs[callee].Defined?
    ensures Pending(I, Entry(P, callee, args)) == []
  {
  }

  lemma ReturnPending(I: Inspection, fs: seq<Frame>, vals: seq<Value>)
    requires fs != []
    ensures var n := |fs| - 1;
      PendingAll(I, fs[..n] + [fs[n].(stack := fs[n].stack + vals)]) == PendingAll(I, fs)
  {
    hide PendingAll, Pending;
    var n := |fs| - 1;
    PendingSnoc(I, fs[..n], fs[n]);
    PendingSnoc(I, fs[..n], fs[n].(stack := fs[n].stack + vals));
    assert fs[..n] + [fs[n]] == fs;
    PendingWhatever(I, fs[n], fs[n].stack + vals);
  }

  lemma PendingWhatever(I: Inspection, f: Frame, stack: seq<Value>)
    ensures Pending(I, f.(stack := stack)) == Pending(I, f)
  {
    hide EventAt;
  }

  /**
   * Over every run: decoding the events never pops an empty stack and yields exactly the pending
   * hooked calls, outermost first. The decoder rejects the events only if one of them is -2.
   */
  lemma {:induction false} EventsDecode(P: Program, I: Inspection, W: World, c: Config, n: nat)
    requires W.plan == BtPlan(P, I) && Proper(P, c.frames) && PendingAll(I, c.frames) == []
    requires forall t :: I.event(t) != -1
    requires StateAt(P, c, n).Next?
    ensures -2 !in Log(P, W, c, n) ==>
              Unwind(Log(P, W, c, n), []) == Some(PendingAll(I, StateAt(P, c, n).c.frames))
    ensures -2 in Log(P, W, c, n) ==> Unwind(Log(P, W, c, n), []) == None
    decreases n
  {
    hide Step, PiecesAt;
    UnknownRejected(Log(P, W, c, n), []);
    if n > 0 {
      StateStep(P, c, n - 1);
      var d := StateAt(P, c, n - 1).c;
      EventsDecode(P, I, W, c, n - 1);
      ProperRun(P, c, n - 1);
      var a, b := Log(P, W, c, n - 1), Emits(PiecesAt(W, d));
      UnwindAppend(a, b, []);
      if -2 !in a + b {
        PiecesOfPlan(P, I, W, d);
        PendingStep(P, I, d, W);
      }
    }
  }

  /** The next instruction of c is a hooked call of a function the name table does not know. */
  predicate CallsUnknown(I: Inspection, c: Config) {
    c.frames != []
    && var f := Top(c);
       HookedAt(I, f.fn, f.code, f.pc) && I.event(f.code[f.pc].instr.target) == -2
  }

  /** One of the first n steps is such a call. */
  ghost predicate MetUnknown(P: Program, I: Inspection, c: Config, n: nat) {
    exists i: nat :: i < n && StateAt(P, c, i).Next? && CallsUnknown(I, StateAt(P, c, i).c)
  }

  /** Over every run: -2 is recorded exactly when a hooked call of an unknown function has been reached. */
  lemma {:induction false} UnknownIff(P: Program, I: Inspection, W: World, c: Config, n: nat)
    requires W.plan == BtPlan(P, I) && Proper(P, c.frames)
    ensures -2 in Log(P, W, c, n) <==> MetUnknown(P, I, c, n)
  {
    hide Run, PiecesAt, BtPieces, HookedAt;
    if n > 0 {
      UnknownIff(P, I, W, c, n - 1);
      ProperRun(P, c, n - 1);
      var o := StateAt(P, c, n - 1);
      if o.Next? {
        PiecesOfPlan(P, I, W, o.c);
        GapEvents(I, Top(o.c).fn, Top(o.c).code, Top(o.c).pc);
        assert -2 in Emits(PiecesAt(W, o.c)) <==> CallsUnknown(I, o.c);
      }
    }
  }

  /** Every function called on a line the pass reaches is known; this can be read off the program. */
  ghost predicate KnownCallees(P: Program, I: Inspection) {
    forall fn: nat, k: nat :: fn < |P.funcs| && P.funcs[fn].Defined? && HookedAt(I, fn, P.funcs[fn].code, k) ==>
      I.event(P.funcs[fn].code[k].instr.target) != -2
  }

  /** Then no run is rejected. */
  lemma KnownNeverRejected(P: Program, I: Inspection, c: Config, n: nat)
    requires KnownCallees(P, I) && Proper(P, c.frames)
    ensures !MetUnknown(P, I, c, n)
  {
    hide Run, HookedAt;
    forall i: nat | i < n && StateAt(P, c, i).Next? ensures !CallsUnknown(I, StateAt(P, c, i).c) {
      ProperRun(P, c, i);
      assert FrameOf(P, Top(StateAt(P, c, i).c));
    }
  }

  lemma {:induction false} UnknownRejected(ev: seq<int>, s: seq<int>)
    ensures -2 in ev ==> Unwind(ev, s) == None
  {
    if ev != [] && ev[0] != -2 {
      UnknownRejected(ev[1..], s + [ev[0]]);
      if s != [] {
        UnknownRejected(ev[1..], s[..|s| - 1]);
      }
    }
  }

  // ----- the active calls -----

  /** The frame has just made a call, a direct one of function fn if it is direct. */
  predicate CallsInto(f: Frame, fn: nat) {
    && 1 <= f.pc <= |f.code|
    && (f.code[f.pc - 1].instr == Call(fn) || f.code[f.pc - 1].instr.CallIndirect?)
  }

  /** Each calling frame has just made the call that created the frame above it. */
  ghost predicate Linked(fs: seq<Frame>) {
    forall i :: 0 <= i < |fs| - 1 ==> CallsInto(fs[i], fs[i + 1].fn)
  }

  lemma LinkedTop(fs: seq<Frame>, f: Frame)
    requires fs != [] && Linked(fs) && f.fn == fs[|fs| - 1].fn
    ensures Linked(fs[..|fs| - 1] + [f])
  {
  }

  lemma LinkedPush(fs: seq<Frame>, g: Frame)
    requires fs != [] && Linked(fs) && CallsInto(fs[|fs| - 1], g.fn)
    ensures Linked(fs + [g])
  {
  }

  lemma LinkedStep(P: Program, c: Config)
    requires c.frames != [] && Linked(c.frames) && Step(P, c).Next?
    ensures Linked(Step(P, c).c.frames)
  {
    hide Decide, Linked;
    var n := |c.frames| - 1;
    var f, lower := c.frames[n], c.frames[..n];
    MoveShape(P, f, c.store);
    var m := Decide(P, f, c.store);
    match m {
      case Stay(f2, st2) => LinkedTop(c.frames, f2);
      case Enter(f2, callee, args) =>
        LinkedTop(c.frames, f2);
        LinkedPush(lower + [f2], Entry(P, callee, args));
        assert Step(P, c).c.frames == lower + [f2] + [Entry(P, callee, args)];
      case Exit(vals) =>
        assert Linked(lower) by { LinkedLower(c.frames); }
        LinkedTop(lower, lower[n-1].(stack := lower[n-1].stack + vals));
    }
  }

  lemma LinkedLower(fs: seq<Frame>)
    requires fs != [] && Linked(fs)
    ensures Linked(fs[..|fs| - 1])
  {
  }

  lemma {:induction false} LinkedRun(P: Program, c: Config, n: nat)
    requires Proper(P, c.frames) && Linked(c.frames)
    ensures StateAt(P, c, n).Next? ==> Linked(StateAt(P, c, n).c.frames)
  {
    hide Step, Proper, Linked;
    if n > 0 {
      LinkedRun(P, c, n - 1);
      StateStep(P, c, n - 1);
      ProperRun(P, c, n - 1);
      if StateAt(P, c, n - 1).Next? && StateAt(P, c, n).Next? {
        ProperHasTop(P, StateAt(P, c, n - 1).c);
        LinkedStep(P, StateAt(P, c, n - 1).c);
      }
    }
  }

  ghost predicate AllHooked(I: Inspection, fs: seq<Frame>) {
    forall i :: 0 <= i < |fs| - 1 ==> HookedAt(I, fs[i].fn, fs[i].code, fs[i].pc - 1)
  }

  /** The events of the functions that were called, outermost call first. */
  function Callees(I: Inspection, fs: seq<Frame>): (es: seq<int>)
    requires fs != []
    ensures |es| == |fs| - 1 && forall i :: 0 <= i < |es| ==> es[i] == I.event(fs[i + 1].fn)
  {
    seq(|fs| - 1, i requires 0 <= i < |fs| - 1 => I.event(fs[i + 1].fn))
  }

  lemma OneCallee(I: Inspection, f: Frame, fn: nat)
    requires CallsInto(f, fn) && HookedAt(I, f.fn, f.code, f.pc - 1)
    ensures Pending(I, f) == [I.event(fn)]
  {
  }

  /** When every active call is hooked, the decoded stack is the whole call stack. */
  lemma {:induction false} WholeStack(I: Inspection, fs: seq<Frame>)
    requires fs != [] && Linked(fs) && AllHooked(I, fs)
    ensures PendingAll(I, fs[..|fs| - 1]) == Callees(I, fs)
  {
    hide HookedAt, CallsInto, Pending;
    if |fs| > 1 {
      var low := fs[..|fs| - 1];
      WholeStack(I, low);
      OneCallee(I, fs[|fs| - 2], fs[|fs| - 1].fn);
    }
  }

  // ----- the hooked program -----

  lemma PopsThenInspection(I: Inspection, code: Code, k: nat)
    requires k == I.line
    ensures BtPieces(I, I.fn, code, k) == PopPieces(I, I.fn, code, k) + [Piece(Fragment(I.code, [], []), [])]
  {
    hide PopPieces;
    assert PushPieces(I, I.fn, code, k) == [];
  }

  ghost predicate AllHooks(I: Inspection, ps: seq<Piece>) {
    forall j :: 0 <= j < |ps| ==> exists v: int :: ps[j] == HookPiece(|I.globals|, v)
  }

  lemma {:induction false} HooksHarmless(P2: Program, I: Inspection, size: nat, ps: seq<Piece>, ev: seq<int>)
    requires AllHooks(I, ps) && 4 * (|ev| + |ps|) <= CAPACITY
    ensures AllHarmless(P2, ps, Recording(size), Shape(I.globals, Some(size)), ev) && |Emits(ps)| == |ps|
    decreases |ps|
  {
    hide Harmless, Recording, HookCode;
    if ps != [] {
      var v: int :| ps[0] == HookPiece(|I.globals|, v);
      HookHarmless(P2, I.globals, size, v, ev);
      HooksHarmless(P2, I, size, ps[1..], ev + ps[0].emits);
    }
  }

  lemma HooksAwayFromInspection(I: Inspection, fn: nat, code: Code, k: nat)
    ensures !(fn == I.fn && k == I.line) ==> AllHooks(I, BtPieces(I, fn, code, k))
    ensures AllHooks(I, PopPieces(I, fn, code, k))
  {
    hide HookCode;
  }

  lemma HooksFit(I: Inspection, ps: seq<Piece>, locals: seq<Value>, stack: seq<Value>)
    requires AllHooks(I, ps)
    ensures AllFit(ps, locals, stack)
  {
    hide HookCode;
    assert stack[|stack|..] == [] && TypesOf([]) == [];
  }

  /** Away from the inspection point the gap holds hooks only, which are harmless while there is room. */
  lemma GapReady(P: Program, P2: Program, I: Inspection, size: nat, W: World, c: Config, ev: seq<int>)
    requires W == BtWorld(P, I, size) && Proper(P, c.frames)
    requires !(Top(c).fn == I.fn && Top(c).pc == I.line)
    requires 4 * (|ev| + |Emits(PiecesAt(W, c))|) <= CAPACITY
    ensures Ready(P2, W, c, ev)
  {
    hide Recording, AllHarmless, AllFit, BtPlan, AllHooks, BtPieces;
    PiecesOfPlan(P, I, W, c);
    var f, ps := Top(c), PiecesAt(W, c);
    HooksAwayFromInspection(I, f.fn, f.code, f.pc);
    HookCount(I, ps);
    HooksHarmless(P2, I, size, ps, ev);
    HooksFit(I, ps, f.locals, f.stack);
  }

  lemma {:induction false} HookCount(I: Inspection, ps: seq<Piece>)
    requires AllHooks(I, ps)
    ensures |Emits(ps)| == |ps|
  {
    hide HookCode;
    if ps != [] {
      var v: int :| ps[0] == HookPiece(|I.globals|, v);
      HookCount(I, ps[1..]);
    }
  }

  lemma {:induction false} LogGrows(P: Program, W: World, c: Config, i: nat, n: nat)
    requires i <= n
    ensures Log(P, W, c, i) <= Log(P, W, c, n)
    decreases n
  {
    hide Run, PiecesAt;
    if i < n {
      LogGrows(P, W, c, i, n - 1);
    }
  }

  /** The inspection point is not reached in the first n states. */
  ghost predicate NotYet(P: Program, I: Inspection, c: Config, n: nat) {
    forall i: nat :: i < n && StateAt(P, c, i).Next? ==>
      var d := StateAt(P, c, i).c;
      d.frames != [] && !(Top(d).fn == I.fn && Top(d).pc == I.line)
  }

  lemma RunReady(P: Program, P2: Program, I: Inspection, size: nat, W: World, c: Config, n: nat)
    requires W == BtWorld(P, I, size) && Proper(P, c.frames) && NotYet(P, I, c, n)
    requires 4 * |Log(P, W, c, n)| <= CAPACITY
    ensures ReadyFor(P, P2, W, c, [], n)
  {
    hide Run, Ready, PiecesAt, BtWorld, Proper;
    forall i: nat | i < n && StateAt(P, c, i).Next?
      ensures Ready(P2, W, StateAt(P, c, i).c, [] + Log(P, W, c, i))
    {
      ProperRun(P, c, i);
      LogGrows(P, W, c, i + 1, n);
      var d := StateAt(P, c, i).c;
      assert Log(P, W, c, i + 1) == Log(P, W, c, i) + Emits(PiecesAt(W, d));
      assert [] + Log(P, W, c, i) == Log(P, W, c, i);
      ProperHasTop(P, d);
      GapReady(P, P2, I, size, W, d, Log(P, W, c, i));
    }
  }

  /** P2 is P after the positional insertion and the backtrace pass; P2 may have further functions. */
  ghost predicate HookedProgram(P: Program, P2: Program, I: Inspection) {
    && |P.funcs| <= |P2.funcs| && P2.table == P.table
    && (forall fn :: 0 <= fn < |P.funcs| ==>
          P2.funcs[fn] == if P.funcs[fn].Import? then P.funcs[fn]
                          else P.funcs[fn].(code := InspectedCode(I, fn, P.funcs[fn].code)))
    && I.fn < |P.funcs| && I.fn in I.scope && P.funcs[I.fn].Defined? && I.line <= |P.funcs[I.fn].code|
    && GoodCode(P2, I.code)
  }

  lemma HookCodeGood(P2: Program, globals: nat, v: int)
    ensures GoodCode(P2, HookCode(globals, v))
  {
    SimpleNested(HookCode(globals, v), []);
  }

  lemma BtGapCode(I: Inspection, fn: nat, code: Code, k: nat)
    requires fn in I.scope && k <= |code|
    ensures GapCode(BtPieces(I, fn, code, k)) ==
            (if k > 0 then HookPost(code, k - 1, Limit(I, fn), |I.globals|) else [])
            + (if fn == I.fn && k == I.line then I.code else [])
            + (if k < |code| then HookPre(code, k, Limit(I, fn), |I.globals|, I.event) else [])
  {
    hide HookCode;
    var a, b, c := PopPieces(I, fn, code, k), InspectPieces(I, fn, k), PushPieces(I, fn, code, k);
    GapCodeAppend(a + b, c);
    GapCodeAppend(a, b);
    ShortGap(a);
    ShortGap(b);
    ShortGap(c);
  }

  lemma ShortGap(ps: seq<Piece>)
    requires |ps| <= 1
    ensures GapCode(ps) == if ps == [] then [] else ps[0].frag.code
  {
  }

  lemma BtGapGood(P2: Program, I: Inspection, fn: nat, code: Code, k: nat)
    requires fn in I.scope && k <= |code| && GoodCode(P2, I.code)
    ensures GoodCode(P2, GapCode(BtPieces(I, fn, code, k)))
  {
    hide HookCode, BtPieces, GapCode;
    BtGapCode(I, fn, code, k);
    var a := if k > 0 then HookPost(code, k - 1, Limit(I, fn), |I.globals|) else [];
    var b := if fn == I.fn && k == I.line then I.code else [];
    var c := if k < |code| then HookPre(code, k, Limit(I, fn), |I.globals|, I.event) else [];
    HookCodeGood(P2, |I.globals|, -1);
    if k < |code| && code[k].instr.Call? {
      HookCodeGood(P2, |I.globals|, I.event(code[k].instr.target));
    }
    EmptyGood(P2);
    GoodConcat(P2, a, b);
    GoodConcat(P2, a + b, c);
  }

  lemma EmptyGood(P2: Program)
    ensures GoodCode(P2, [])
  {
  }

  lemma GoodConcat(P2: Program, a: Code, b: Code)
    requires GoodCode(P2, a) && GoodCode(P2, b)
    ensures GoodCode(P2, a + b)
  {
    NestAppend(a, b, []);
  }

  /** The pass's output is the plan woven into the code. */
  lemma InspectedIsWoven(I: Inspection, fn: nat, f: Func)
    requires f.Defined? && (fn == I.fn ==> I.line <= |f.code|)
    requires fn in I.scope
    ensures InspectedCode(I, fn, f.code) == Weave(f.code, GapCodes(BtGaps(I, fn, f)))
  {
    hide BtPieces, GapCode, HookPre, HookPost, Weave;
    var code, gaps := f.code, GapCodes(BtGaps(I, fn, f));
    if fn == I.fn {
      InspectThenHook(code, I.line, I.code, |I.globals|, I.event);
      forall k | 0 <= k <= |code| ensures gaps[k] == InspectGaps(code, I.line, I.code, |I.globals|, I.event)[k] {
        BtGapCode(I, fn, code, k);
      }
      assert gaps == InspectGaps(code, I.line, I.code, |I.globals|, I.event);
    } else {
      forall k | 0 <= k <= |code| ensures gaps[k] == HookGaps(code, None, |I.globals|, I.event)[k] {
        BtGapCode(I, fn, code, k);
      }
      assert gaps == HookGaps(code, None, |I.globals|, I.event);
    }
  }

  lemma HookedIsWoven(P: Program, P2: Program, I: Inspection, W: World, fn: nat)
    requires HookedProgram(P, P2, I) && W.plan == BtPlan(P, I)
    requires fn < |P.funcs| && P.funcs[fn].Defined? && CallsKnown(P, P.funcs[fn].code)
    ensures WovenFunc(P, P2, W, fn)
  {
    hide BtPieces, GapCode, Weave, InspectedCode;
    var f := P.funcs[fn];
    var gaps := GapCodes(W.plan[fn]);
    if fn in I.scope {
      InspectedIsWoven(I, fn, f);
      forall k | 0 <= k < |gaps| ensures WellNested(gaps[k]) && CallsKnown(P2, gaps[k]) {
        BtGapGood(P2, I, fn, f.code, k);
      }
    } else {
      forall k | 0 <= k < |gaps| ensures gaps[k] == [] {
        OutOfScope(I, fn, f.code, k);
      }
      WeaveNothing(f.code, gaps);
      assert InspectedCode(I, fn, f.code) == f.code by { OutOfScope(I, fn, f.code, 0); }
    }
    CallsWoven(P2, f.code, gaps);
  }

  lemma OutOfScope(I: Inspection, fn: nat, code: Code, k: nat)
    requires fn !in I.scope && I.fn in I.scope
    ensures GapCode(BtPieces(I, fn, code, k)) == [] && InspectedCode(I, fn, code) == code
  {
    assert BtPieces(I, fn, code, k) == [];
  }

  lemma HookedIsInstrumented(P: Program, P2: Program, I: Inspection, W: World)
    requires HookedProgram(P, P2, I) && Regular(P, P2, W.shape.size) && W.shape.size.Some? && W.plan == BtPlan(P, I)
    ensures Instrumented(P, P2, W)
  {
    hide BtPieces, InspectedCode, HostLift;
    forall fn | 0 <= fn < |P.funcs| ensures WovenFunc(P, P2, W, fn) && SameShape(P.funcs[fn], P2.funcs[fn]) {
      if P.funcs[fn].Defined? {
        HookedIsWoven(P, P2, I, W, fn);
      }
    }
    assert forall k {:trigger P2.table[k]} :: 0 <= k < |P2.table| ==> P2.table[k] == P.table[k];
    HostsLift(P, P2, W);
  }

  // ----- the main theorem -----

  /** The events are -1, or what the pass records for some callee. */
  lemma {:induction false} LogInRange(P: Program, I: Inspection, W: World, c: Config, n: nat)
    requires W.plan == BtPlan(P, I) && Proper(P, c.frames)
    requires forall t :: -2 <= I.event(t) < 0x8000_0000
    ensures InRange(Log(P, W, c, n))
  {
    hide Run, PiecesAt, BtPieces;
    if n > 0 {
      LogInRange(P, I, W, c, n - 1);
      ProperRun(P, c, n - 1);
      var o := StateAt(P, c, n - 1);
      if o.Next? {
        PiecesOfPlan(P, I, W, o.c);
        GapEvents(I, Top(o.c).fn, Top(o.c).code, Top(o.c).pc);
      }
    }
  }

  /**
   * The events up to the inspection code, with the last call popped, decode to the active calls, or are
   * rejected if an unknown function was called.
   */
  lemma InspectionEvents(P: Program, I: Inspection, W: World, c0: Config, n: nat, c: Config, ev: seq<int>)
    requires W.plan == BtPlan(P, I) && Proper(P, c0.frames) && PendingAll(I, c0.frames) == []
    requires forall t :: -2 <= I.event(t) < 0x8000_0000 && I.event(t) != -1
    requires StateAt(P, c0, n) == Next(c) && c.frames != []
    requires ev == Log(P, W, c0, n) + if HookedAt(I, Top(c).fn, Top(c).code, Top(c).pc - 1) then [-1] else []
    ensures Unwind(ReadInts(EventBytes(ev)), [])
         == if MetUnknown(P, I, c0, n) then None else Some(PendingAll(I, c.frames[..|c.frames| - 1]))
  {
    hide Run, HookedAt, ReadInts, EventBytes, Unwind, Log, Proper, PendingAll, MetUnknown;
    LogInRange(P, I, W, c0, n);
    EventsRoundTrip(ev);
    UnknownIff(P, I, W, c0, n);
    if MetUnknown(P, I, c0, n) {
      UnknownRejected(ev, []);
    } else {
      EventsDecode(P, I, W, c0, n);
      PopLast(I, c.frames, Log(P, W, c0, n), ev);
    }
  }

  /** If the active frame has just come back from a hooked call, one more pop takes that call off. */
  lemma PopLast(I: Inspection, fs: seq<Frame>, a: seq<int>, ev: seq<int>)
    requires fs != [] && Unwind(a, []) == Some(PendingAll(I, fs))
    requires var f := fs[|fs| - 1]; ev == a + if HookedAt(I, f.fn, f.code, f.pc - 1) then [-1] else []
    ensures Unwind(ev, []) == Some(PendingAll(I, fs[..|fs| - 1]))
  {
    hide HookedAt;
    var f, low := fs[|fs| - 1], PendingAll(I, fs[..|fs| - 1]);
    if HookedAt(I, f.fn, f.code, f.pc - 1) {
      UnwindAppend(a, [-1], []);
      assert [-1][1..] == [];
      assert (low + Pending(I, f))[..|low|] == low;
    } else {
      assert a + [] == a && low + [] == low;
    }
  }

  /** The instrumented run stands at the inspection code, in the state the original has there. */
  ghost predicate AtInspection(I: Inspection, c: Config, q: Config, own: Own) {
    && c.frames != [] && |q.frames| == |c.frames|
    && q.store == Join(c.store, own)
    && Top(q).fn == I.fn && Top(q).locals == Top(c).locals && Top(q).stack == Top(c).stack
    && Top(q).pc + |I.code| <= |Top(q).code|
    && Top(q).code[Top(q).pc..Top(q).pc + |I.code|] == I.code
  }

  /** The pop in front of the inspection code, if the line before it is a hooked call. */
  function LastPop(I: Inspection, code: Code): seq<int> {
    if HookedAt(I, I.fn, code, I.line - 1) then [-1] else []
  }

  /** The pieces in front of the inspection code run, and leave control at its first instruction. */
  lemma ToInspection(P: Program, P2: Program, I: Inspection, size: nat, W: World, c: Config, d: Config,
                     own: Own, ev: seq<int>)
    returns (m: nat, own2: Own)
    requires W == BtWorld(P, I, size) && Instrumented(P, P2, W) && Match(P, P2, W, c, d, own) && W.rep(own, ev)
    requires Proper(P, c.frames) && Top(c).fn == I.fn && Top(c).pc == I.line
    requires 4 * |ev + LastPop(I, Top(c).code)| <= CAPACITY
    ensures StateAt(P2, d, m).Next? && AtInspection(I, c, StateAt(P2, d, m).c, own2)
    ensures W.rep(own2, ev + LastPop(I, Top(c).code))
  {
    hide Run, Recording, HookCode, HookedAt, PopPieces, BtPieces, Join, Weave, GapCode, AllHarmless, AllFit, AllHooks,
      FrameRel, WovenCode, BtPlan, CallsKnown;
    var f, h := Top(c), Top(d);
    var lower := d.frames[..|d.frames| - 1];
    assert d.frames == lower + [h];
    TopOfMatch(P, P2, W, c, d, own);
    var pops := PopPieces(I, I.fn, f.code, f.pc);
    InspectionInPlace(P, I, W, f, h);
    HooksAwayFromInspection(I, I.fn, f.code, f.pc);
    HooksFit(I, pops, h.locals, h.stack);
    PopsEmit(I, I.fn, f.code, f.pc);
    HooksHarmless(P2, I, size, pops, ev);
    m, own2 := PiecesRun(P2, W, pops, lower, h, c.store, own, ev);
  }

  lemma PopsEmit(I: Inspection, fn: nat, code: Code, k: nat)
    ensures var ps := PopPieces(I, fn, code, k);
      |ps| == |Emits(ps)| && Emits(ps) == if HookedAt(I, fn, code, k - 1) then [-1] else []
  {
    hide HookCode;
    EmitsShort(PopPieces(I, fn, code, k));
  }

  lemma InspectionInPlace(P: Program, I: Inspection, W: World, f: Frame, h: Frame)
    requires W.plan == BtPlan(P, I) && FrameOf(P, f) && f.fn == I.fn && f.pc == I.line <= |f.code|
    requires h.code == WovenCode(W, f.fn, f.code) && h.pc == Arrive(GapCodes(W.plan[f.fn]), f.pc)
    ensures var g := |GapCode(PopPieces(I, I.fn, f.code, f.pc))|;
      && h.pc + g + |I.code| <= |h.code|
      && h.code[h.pc..h.pc + g] == GapCode(PopPieces(I, I.fn, f.code, f.pc))
      && h.code[h.pc + g..h.pc + g + |I.code|] == I.code
  {
    hide PopPieces, Weave, BtPieces, Site, Arrive, GapCode;
    var pops, rest := PopPieces(I, I.fn, f.code, f.pc), [Piece(Fragment(I.code, [], []), [])];
    GapInPlace(W, f, h);
    PopsThenInspection(I, f.code, f.pc);
    GapCodeAppend(pops, rest);
    ShortGap(rest);
    SplitSlice(h.code, h.pc, GapCode(pops), I.code);
  }

  lemma BacktraceRuns(P: Program, P2: Program, I: Inspection, size: nat, W: World, c0: Config, d: Config,
                      own: Own, n: nat, c: Config)
    returns (m: nat, own2: Own)
    requires W == BtWorld(P, I, size) && Instrumented(P, P2, W) && Match(P, P2, W, c0, d, own) && W.rep(own, [])
    requires Proper(P, c0.frames) && NotYet(P, I, c0, n) && StateAt(P, c0, n) == Next(c) && c.frames != []
    requires Top(c).fn == I.fn && Top(c).pc == I.line
    requires 4 * |Log(P, W, c0, n) + LastPop(I, Top(c).code)| <= CAPACITY
    ensures StateAt(P2, d, m).Next? && AtInspection(I, c, StateAt(P2, d, m).c, own2)
    ensures W.rep(own2, Log(P, W, c0, n) + LastPop(I, Top(c).code))
  {
    hide Run, Simulation.Instrumented, Log, Recording, HookedAt, Match, NotYet, Proper, AtInspection, Join, ReadyFor;
    RunReady(P, P2, I, size, W, c0, n);
    ProperRun(P, c0, n);
    assert [] + Log(P, W, c0, n) == Log(P, W, c0, n);
    var m1, own1 := RunLifts(P, P2, W, c0, d, own, [], n);
    var m2;
    m2, own2 := ToInspection(P, P2, I, size, W, c, StateAt(P2, d, m1).c, own1, Log(P, W, c0, n));
    RunAdd(P2, Next(d), m1, m2);
    m := m1 + m2;
  }

  /**
   * Backtrace correctness: whenever a run of the original first stands at the inspected line, the
   * instrumented program reaches the inspection code in the same state, and what is then in the
   * buffer decodes to the callees of the active hooked calls, outermost first. The decoder rejects it
   * exactly when a function the name table does not know has been called on a hooked line by then.
   */
  lemma BacktraceCorrect(P: Program, P2: Program, I: Inspection, size: nat,
                         fn: nat, args: seq<Value>, st: Store, own: Own, n: nat, c: Config)
    returns (m: nat, own2: Own, len: nat)
    requires HookedProgram(P, P2, I) && Regular(P, P2, Some(size))
    requires forall t :: -2 <= I.event(t) < 0x8000_0000 && I.event(t) != -1
    requires fn < |P.funcs| && P.funcs[fn].Defined?
    requires TypesOf(st.globals) == I.globals && |st.mem| == size && Recorded(size, own, [])
    requires StateAt(P, Start(P, fn, args, st), n) == Next(c) && c.frames != []
    requires Top(c).fn == I.fn && Top(c).pc == I.line && NotYet(P, I, Start(P, fn, args, st), n)
    requires 4 * |Log(P, BtWorld(P, I, size), Start(P, fn, args, st), n) + LastPop(I, Top(c).code)| <= CAPACITY
    ensures P2.funcs[fn].Defined?
    ensures var d := Start(P2, fn, args, Join(st, own));
      StateAt(P2, d, m).Next? && AtInspection(I, c, StateAt(P2, d, m).c, own2)
    ensures BufferAt(size, own2, len)
    ensures Unwind(ReadInts(Content(own2, len)), [])
         == if MetUnknown(P, I, Start(P, fn, args, st), n) then None else Some(PendingAll(I, c.frames[..|c.frames| - 1]))
  {
    hide Run, MetUnknown, Regular, Simulation.Instrumented, HookedAt, Log, NotYet, Join, Match, Proper,
      AtInspection, Unwind, ReadInts, Start, EventBytes;
    var W, c0 := BtWorld(P, I, size), Start(P, fn, args, st);
    HookedIsInstrumented(P, P2, I, W);
    StartMatches(P, P2, W, fn, args, st, own);
    StartPending(P, I, fn, args, st);
    m, own2 := BacktraceRuns(P, P2, I, size, W, c0, Start(P2, fn, args, Join(st, own)), own, n, c);
    var ev := Log(P, W, c0, n) + LastPop(I, Top(c).code);
    InspectionEvents(P, I, W, c0, n, c, ev);
    assert Recorded(size, own2, ev);
    len := 4 * |ev|;
    assert Content(own2, len) == EventBytes(ev);
  }

  lemma StartPending(P: Program, I: Inspection, fn: nat, args: seq<Value>, st: Store)
    requires fn < |P.funcs| && P.funcs[fn].Defined?
    ensures var c := Start(P, fn, args, st);
      PendingAll(I, c.frames) == [] && Proper(P, c.frames) && Linked(c.frames)
  {
    EntryPending(P, I, fn, args);
    assert [] + [Entry(P, fn, args)] == [Entry(P, fn, args)];
    PendingSnoc(I, [], Entry(P, fn, args));
  }

  /** The frame waits for a direct call, made in scope, and in the inspected function on a line up to the inspected one. */
  predicate WaitsHooked(I: Inspection, f: Frame) {
    && f.fn in I.scope && 1 <= f.pc <= |f.code| && f.code[f.pc - 1].instr.Call?
    && (f.fn == I.fn ==> f.pc <= I.line)
  }

  lemma WaitingHooked(I: Inspection, fs: seq<Frame>)
    requires forall i :: 0 <= i < |fs| - 1 ==> WaitsHooked(I, fs[i])
    ensures AllHooked(I, fs)
  {
  }

  /**
   * When every active call is a direct one made on a hooked line, the printed backtrace is the call stack
   * by name, innermost function first, and the line for the caller of the outermost function at the end.
   */
  lemma PrintedStack(I: Inspection, fds: seq<FuncName>, names: seq<string>, table: map<string, nat>, fs: seq<Frame>)
    requires TableOf(fds, names, table) && |fds| <= 0x8000_0000
    requires forall t :: I.event(t) == EventOf(fds, table, t)
    requires fs != [] && Linked(fs) && forall i :: 0 <= i < |fs| - 1 ==> WaitsHooked(I, fs[i])
    requires forall i :: 0 <= i < |fs| ==> fs[i].fn < |fds| && I.event(fs[i].fn) != -2
    ensures var idx := PendingAll(I, fs[..|fs| - 1]);
      && (forall k :: 0 <= k < |idx| ==> 0 <= idx[k] < |names|)
      && |Lines(idx, names)| == |fs|
      && (forall k :: 0 <= k < |fs| - 1 ==> Lines(idx, names)[k] == fds[fs[|fs| - 1 - k].fn].name)
      && Lines(idx, names)[|fs| - 1] == "_start (or what runtime directly call)"
  {
    hide Linked, AllHooked, PendingAll, TableOf, WaitsHooked;
    WaitingHooked(I, fs);
    WholeStack(I, fs);
    forall i | 0 <= i < |fs|
      ensures 0 <= I.event(fs[i].fn) < |names| && names[I.event(fs[i].fn)] == fds[fs[i].fn].name
    {
      EventNamesTarget(fds, names, table, fs[i].fn);
    }
  }
}
