/**
 * Where the stack pointer is in every state of the instrumented program, and what follows for the
 * checks: a book is kept of every activation, and the pointer is what the books say it is.
 */
module CanaryBooks {
  import opened Values
  import opened Machine
  import opened Simulation
  import opened Runs
  import opened Meaning
  import opened StackCanary
  import opened TypedFrames
  import opened Soundness
  import opened CanaryRuns

  // ----- books -----

  function Pointer(sp: nat, c: Config): nat {
    if sp < |c.store.globals| then c.store.globals[sp].bits else 0
  }

  /**
   * The book of an activation: where the pointer was when it was called; how far its own instructions
   * have moved the pointer, and the checks behind those of its calls for which nothing was injected;
   * and whether its last call was of a function with an injection.
   */
  datatype Book = Book(base: nat, net: int, injected: bool)

  /** The slot of an activation. */
  function Slot(b: Book): nat {
    (b.base - SLOT) % WORD
  }

  predicate Cong(a: int, b: int) {
    (a - b) % WORD == 0
  }

  /** The net movement once the check that may be next has been made. */
  function Settled(c: Config, b: Book): int {
    b.net + if AtCheck(c) && !b.injected then SLOT else 0
  }

  /** The books after an instruction that took the pointer from p1 to p2 and left `depth` activations. */
  function NextBooks(c: Config, p1: nat, p2: nat, depth: nat, bs: seq<Book>): seq<Book> {
    if bs == [] then []
    else
      var t := |bs| - 1;
      var b := bs[t].(net := Settled(c, bs[t]));
      if depth > |bs| then bs[..t] + [b.(injected := true), Book(p1, 0, false)]
      else if depth < |bs| then bs[..t]
      else bs[..t] + [b.(net := b.net + (p2 - p1), injected := false)]
  }

  function Books(P: Program, sp: nat, canary: nat, c: Config, n: nat): seq<Book> {
    if n == 0 then [Book(Pointer(sp, c), 0, false)]
    else
      var bs := Books(P, sp, canary, c, n - 1);
      var o, q := GuardedAt(P, sp, canary, c, n - 1), GuardedAt(P, sp, canary, c, n);
      if !o.Next? || !q.Next? || o.c.frames == [] || sp >= |o.c.store.globals| || !Gap(sp, canary, o.c).Next? then bs
      else NextBooks(o.c, Pointer(sp, Gap(sp, canary, o.c).c), Pointer(sp, q.c), |q.c.frames|, bs)
  }

  /** A valid program at the start of a function; the stack pointer is an i32 global. */
  ghost predicate Guardable(P: Program, gt: seq<ValType>, size: nat, sp: nat, c: Config) {
    && ValidProgram(P, gt) && KeepsSize(P, size) && Sound(P, gt, size, c) && sp < |gt| && gt[sp] == I32
    && |c.frames| == 1 && c.frames[0].pc == 0
  }

  /** One instruction of the guarded run: c, behind the inserted code g, and then y. */
  ghost predicate Turn(P: Program, sp: nat, canary: nat, c: Config, g: Config, y: Config) {
    && c.frames != [] && sp < |c.store.globals| && Gap(sp, canary, c) == Next(g) && Step(P, g) == Next(y)
    && g.frames == c.frames
  }

  lemma TurnAt(P: Program, gt: seq<ValType>, size: nat, sp: nat, canary: nat, c: Config, n: nat) returns (g: Config)
    requires Guardable(P, gt, size, sp, c)
    requires GuardedAt(P, sp, canary, c, n + 1).Next?
    ensures var o, q := GuardedAt(P, sp, canary, c, n), GuardedAt(P, sp, canary, c, n + 1);
      && o.Next? && Turn(P, sp, canary, o.c, g, q.c) && Sound(P, gt, size, o.c) && Sound(P, gt, size, g)
      && Books(P, sp, canary, c, n + 1)
         == NextBooks(o.c, Pointer(sp, g), Pointer(sp, q.c), |q.c.frames|, Books(P, sp, canary, c, n))
  {
    hide ValidProgram, KeepsSize, Step, Sound, Gap, NextBooks;
    GuardedSound(P, gt, size, sp, canary, c, n);
    var o := GuardedAt(P, sp, canary, c, n);
    GapSound(P, gt, size, sp, canary, o.c);
    g := Gap(sp, canary, o.c).c;
  }

  // ----- what one instruction does to the frames -----

  predicate Waiting(f: Frame) {
    0 < f.pc <= |f.code| && IsCall(f.code[f.pc - 1].instr)
  }

  /** An instruction stays in its activation, enters a new one, or returns to the one below. */
  ghost predicate TurnShape(g: Config, y: Config) {
    var t := |g.frames| - 1;
    && t >= 0
    && (|y.frames| == t + 1 ==> y.frames[..t] == g.frames[..t] && 1 <= y.frames[t].pc <= |y.frames[t].code|)
    && (|y.frames| > t + 1 ==>
          && |y.frames| == t + 2 && y.frames[..t] == g.frames[..t] && y.store == g.store
          && y.frames[t + 1].pc == 0 && Waiting(y.frames[t])
          && y.frames[t].code == g.frames[t].code && y.frames[t].pc == g.frames[t].pc + 1)
    && (|y.frames| < t + 1 ==>
          && |y.frames| == t >= 1 && y.frames[..t - 1] == g.frames[..t - 1] && y.store == g.store
          && y.frames[t - 1].code == g.frames[t - 1].code && y.frames[t - 1].pc == g.frames[t - 1].pc)
  }

  lemma StepShape(P: Program, g: Config, y: Config)
    requires Step(P, g) == Next(y)
    ensures TurnShape(g, y)
  {
    hide Decide;
    var t := |g.frames| - 1;
    MoveShape(P, g.frames[t], g.store);
  }

  // ----- the pointer is what the books say -----

  ghost predicate TopBalanced(sp: nat, c: Config, b: Book)
    requires c.frames != []
  {
    if Top(c).pc == 0 then b.net == 0 && Cong(Pointer(sp, c), b.base)
    else Cong(Pointer(sp, c), b.base - SLOT + b.net - if AtCheck(c) && b.injected then SLOT else 0)
  }

  ghost predicate CallerBalanced(f: Frame, b: Book, above: Book) {
    Waiting(f) && b.injected && Cong(above.base, b.base - SLOT + b.net)
  }

  ghost predicate Balanced(sp: nat, c: Config, bs: seq<Book>) {
    && c.frames != [] && |bs| == |c.frames|
    && TopBalanced(sp, c, bs[|bs| - 1])
    && forall i :: 0 <= i < |bs| - 1 ==> CallerBalanced(c.frames[i], bs[i], bs[i + 1])
  }

  /** What the inserted code does to the pointer and to memory. */
  lemma GapEffect(sp: nat, canary: nat, c: Config, g: Config)
    requires c.frames != [] && sp < |c.store.globals| && Gap(sp, canary, c) == Next(g)
    ensures g.frames == c.frames && |g.store.mem| == |c.store.mem|
    ensures Top(c).pc == 0 ==> Pointer(sp, g) == (Pointer(sp, c) - SLOT) % WORD
    ensures AtCheck(c) ==> Pointer(sp, g) == (Pointer(sp, c) + SLOT) % WORD && g.store.mem == c.store.mem
    ensures Top(c).pc != 0 && !AtCheck(c) ==> g == c
  {
    hide CanaryBytes, Write, AtCheck, Guarded;
    var r := RegionOf(sp, c.store);
    var guard := if Top(c).pc == 0 then Inject(canary, r) else Validate(canary, r);
    if Top(c).pc == 0 {
      NotAtCheck(c);
    }
    if Top(c).pc == 0 || AtCheck(c) {
      GuardedPass(sp, c, guard);
    }
  }

  lemma GuardedPass(sp: nat, c: Config, g: Guard)
    requires sp < |c.store.globals| && (g.Pass? ==> g.r.sp < WORD) && Guarded(sp, c, g).Next?
    ensures g.Pass?
    ensures var o := Guarded(sp, c, g).c; o.frames == c.frames && o.store.mem == g.r.mem && Pointer(sp, o) == g.r.sp
  {
    WordIsPow256();
  }

  lemma WrapCong(p: int, q: int, d: int)
    requires Cong(p, q)
    ensures Cong((p + d) % WORD, q + d)
  {
  }

  /** Behind the inserted code the pointer is 16 below its base, plus the net movement. */
  lemma GapPointer(sp: nat, canary: nat, c: Config, g: Config, b: Book)
    requires c.frames != [] && sp < |c.store.globals| && Gap(sp, canary, c) == Next(g) && TopBalanced(sp, c, b)
    ensures Cong(Pointer(sp, g), b.base - SLOT + Settled(c, b))
  {
    hide Gap, AtCheck, Cong, Pointer;
    GapEffect(sp, canary, c, g);
    var p := Pointer(sp, c);
    if Top(c).pc == 0 {
      assert !AtCheck(c) by { NotAtCheck(c); }
      WrapCong(p, b.base, -SLOT);
    } else if AtCheck(c) {
      WrapCong(p, b.base - SLOT + b.net - if b.injected then SLOT else 0, SLOT);
    }
  }

  lemma NotAtCheck(c: Config)
    requires c.frames != [] && Top(c).pc == 0
    ensures !AtCheck(c)
  {
  }

  lemma StayBalanced(sp: nat, c: Config, g: Config, y: Config, bs: seq<Book>)
    requires Balanced(sp, c, bs) && g.frames == c.frames && TurnShape(g, y) && |y.frames| == |bs|
    requires Cong(Pointer(sp, g), bs[|bs| - 1].base - SLOT + Settled(c, bs[|bs| - 1]))
    ensures Balanced(sp, y, NextBooks(c, Pointer(sp, g), Pointer(sp, y), |y.frames|, bs))
  {
    hide TopBalanced, CallerBalanced, Cong, Settled, Pointer;
    var t := |bs| - 1;
    var cs := NextBooks(c, Pointer(sp, g), Pointer(sp, y), |y.frames|, bs);
    Stayed(sp, y, Pointer(sp, g), bs[t].(net := Settled(c, bs[t])));
    forall i | 0 <= i < t ensures CallerBalanced(y.frames[i], cs[i], cs[i + 1]) {
      assert y.frames[i] == y.frames[..t][i] == c.frames[i];
      SameBase(c.frames[i], bs[i], bs[i + 1], cs[i + 1]);
    }
  }

  lemma EnterBalanced(sp: nat, c: Config, g: Config, y: Config, bs: seq<Book>)
    requires Balanced(sp, c, bs) && g.frames == c.frames && TurnShape(g, y) && |y.frames| > |bs|
    requires Cong(Pointer(sp, g), bs[|bs| - 1].base - SLOT + Settled(c, bs[|bs| - 1]))
    ensures Balanced(sp, y, NextBooks(c, Pointer(sp, g), Pointer(sp, y), |y.frames|, bs))
  {
    hide TopBalanced, CallerBalanced, Cong, Settled, Waiting;
    var t := |bs| - 1;
    var cs := NextBooks(c, Pointer(sp, g), Pointer(sp, y), |y.frames|, bs);
    Entered(sp, y, t, Pointer(sp, g), bs[t].(net := Settled(c, bs[t])));
    forall i | 0 <= i < t + 1 ensures CallerBalanced(y.frames[i], cs[i], cs[i + 1]) {
      if i < t {
        assert y.frames[i] == y.frames[..t][i] == c.frames[i];
        SameBase(c.frames[i], bs[i], bs[i + 1], cs[i + 1]);
      }
    }
  }

  lemma ExitBalanced(sp: nat, c: Config, g: Config, y: Config, bs: seq<Book>)
    requires Balanced(sp, c, bs) && g.frames == c.frames && TurnShape(g, y) && |y.frames| < |bs|
    requires Cong(Pointer(sp, g), bs[|bs| - 1].base - SLOT + Settled(c, bs[|bs| - 1]))
    requires Settled(c, bs[|bs| - 1]) % WORD == 0
    ensures Balanced(sp, y, NextBooks(c, Pointer(sp, g), Pointer(sp, y), |y.frames|, bs))
  {
    hide TopBalanced, CallerBalanced, Cong, Settled;
    var t := |bs| - 1;
    assert CallerBalanced(c.frames[t - 1], bs[t - 1], bs[t]);
    Exited(sp, c.frames[t - 1], y, Pointer(sp, g), bs[t - 1], bs[t], Settled(c, bs[t]));
    forall i | 0 <= i < t - 1 ensures CallerBalanced(y.frames[i], bs[i], bs[i + 1]) {
      assert y.frames[i] == y.frames[..t - 1][i] == c.frames[i];
    }
  }

  lemma TurnBalanced(P: Program, sp: nat, canary: nat, c: Config, g: Config, y: Config, bs: seq<Book>)
    requires Turn(P, sp, canary, c, g, y) && Balanced(sp, c, bs)
    requires |y.frames| < |bs| ==> Settled(c, bs[|bs| - 1]) % WORD == 0
    ensures Balanced(sp, y, NextBooks(c, Pointer(sp, g), Pointer(sp, y), |y.frames|, bs))
  {
    hide Step, Gap, TopBalanced, CallerBalanced, TurnShape, NextBooks, Settled, Pointer;
    StepShape(P, g, y);
    GapPointer(sp, canary, c, g, bs[|bs| - 1]);
    if |y.frames| == |bs| {
      StayBalanced(sp, c, g, y, bs);
    } else if |y.frames| > |bs| {
      EnterBalanced(sp, c, g, y, bs);
    } else {
      ExitBalanced(sp, c, g, y, bs);
    }
  }

  lemma SameBase(f: Frame, b: Book, above: Book, above2: Book)
    requires CallerBalanced(f, b, above) && above2.base == above.base
    ensures CallerBalanced(f, b, above2)
  {
  }

  lemma Stayed(sp: nat, y: Config, p: nat, b: Book)
    requires y.frames != [] && Top(y).pc >= 1 && Cong(p, b.base - SLOT + b.net)
    ensures TopBalanced(sp, y, b.(net := b.net + (Pointer(sp, y) - p), injected := false))
  {
  }

  lemma Entered(sp: nat, y: Config, t: nat, p: nat, b: Book)
    requires |y.frames| == t + 2 && y.frames[t + 1].pc == 0 && Waiting(y.frames[t])
    requires Pointer(sp, y) == p && Cong(p, b.base - SLOT + b.net)
    ensures TopBalanced(sp, y, Book(p, 0, false))
    ensures CallerBalanced(y.frames[t], b.(injected := true), Book(p, 0, false))
  {
  }

  lemma Exited(sp: nat, f: Frame, y: Config, p: nat, b: Book, above: Book, settled: int)
    requires y.frames != [] && Top(y).pc == f.pc && Top(y).code == f.code && CallerBalanced(f, b, above)
    requires Pointer(sp, y) == p && Cong(p, above.base - SLOT + settled) && settled % WORD == 0
    ensures TopBalanced(sp, y, b)
  {
    hide Cong, IsCall, Pointer;
    CongChain(p, above.base, settled, b.base - SLOT + b.net);
  }

  lemma CongChain(p: int, x: int, settled: int, y: int)
    requires Cong(p, x - SLOT + settled) && settled % WORD == 0 && Cong(x, y)
    ensures Cong(p, y - SLOT)
  {
    var a, b, k := (p - (x - SLOT + settled)) / WORD, (x - y) / WORD, settled / WORD;
    assert p - (y - SLOT) == WORD * (a + b + k);
  }

  // ----- whole runs -----

  /**
   * Every activation that returns within n instructions has moved the pointer, in all, by a multiple of
   * 2^32: its own instructions, and the checks behind calls for which nothing was injected.
   */
  ghost predicate Restoring(P: Program, sp: nat, canary: nat, c: Config, n: nat) {
    forall k: nat :: k < n ==> ReturnRestores(P, sp, canary, c, k)
  }

  ghost predicate ReturnRestores(P: Program, sp: nat, canary: nat, c: Config, k: nat) {
    var o, q, bs := GuardedAt(P, sp, canary, c, k), GuardedAt(P, sp, canary, c, k + 1), Books(P, sp, canary, c, k);
    o.Next? && q.Next? && bs != [] && |q.c.frames| < |bs| ==> Settled(o.c, bs[|bs| - 1]) % WORD == 0
  }

  lemma OneMoreBalanced(P: Program, gt: seq<ValType>, size: nat, sp: nat, canary: nat,
                        c: Config, n: nat)
    requires Guardable(P, gt, size, sp, c)
    requires GuardedAt(P, sp, canary, c, n + 1).Next? && ReturnRestores(P, sp, canary, c, n)
    requires GuardedAt(P, sp, canary, c, n).Next? ==>
               Balanced(sp, GuardedAt(P, sp, canary, c, n).c, Books(P, sp, canary, c, n))
    ensures Balanced(sp, GuardedAt(P, sp, canary, c, n + 1).c, Books(P, sp, canary, c, n + 1))
  {
    hide ValidProgram, KeepsSize, Sound, Turn, Settled, Balanced, NextBooks, Books, GuardedAt;
    var g := TurnAt(P, gt, size, sp, canary, c, n);
    var o, q, bs := GuardedAt(P, sp, canary, c, n).c, GuardedAt(P, sp, canary, c, n + 1).c, Books(P, sp, canary, c, n);
    BalancedSize(sp, o, bs);
    TurnBalanced(P, sp, canary, o, g, q, bs);
  }

  /** In every state of the guarded run the pointer, and every caller's, is what the books say it is. */
  lemma {:induction false} BooksBalanced(P: Program, gt: seq<ValType>, size: nat, sp: nat, canary: nat, c: Config, n: nat)
    requires Guardable(P, gt, size, sp, c)
    requires Restoring(P, sp, canary, c, n) && GuardedAt(P, sp, canary, c, n).Next?
    ensures Balanced(sp, GuardedAt(P, sp, canary, c, n).c, Books(P, sp, canary, c, n))
  {
    hide ValidProgram, KeepsSize, Sound, Balanced, Restoring, NextBooks, ReturnRestores, Gap, GuardedStep;
    if n == 0 {
      StartBalanced(sp, c);
    } else {
      RestoringBefore(P, sp, canary, c, n - 1, n);
      BooksBalanced(P, gt, size, sp, canary, c, n - 1);
      OneMoreBalanced(P, gt, size, sp, canary, c, n - 1);
    }
  }

  lemma StartBalanced(sp: nat, c: Config)
    requires |c.frames| == 1 && c.frames[0].pc == 0
    ensures Balanced(sp, c, [Book(Pointer(sp, c), 0, false)])
  {
    assert Top(c).pc == 0;
  }

  lemma BalancedSize(sp: nat, c: Config, bs: seq<Book>)
    requires Balanced(sp, c, bs)
    ensures |bs| == |c.frames| >= 1
  {
  }

  lemma RestoringBefore(P: Program, sp: nat, canary: nat, c: Config, m: nat, n: nat)
    requires m <= n && Restoring(P, sp, canary, c, n)
    ensures Restoring(P, sp, canary, c, m)
    ensures m < n ==> ReturnRestores(P, sp, canary, c, m)
  {
    hide ReturnRestores;
  }

  /**
   * Where an activation that returns leaves the pointer: at its own slot if and only if its net movement is
   * a multiple of 2^32, provided the activations that returned before it kept to that.
   */
  lemma ReturnsToSlotIff(P: Program, gt: seq<ValType>, size: nat, sp: nat, canary: nat, c: Config, k: nat)
    requires Guardable(P, gt, size, sp, c) && Restoring(P, sp, canary, c, k)
    requires GuardedAt(P, sp, canary, c, k).Next? && GuardedAt(P, sp, canary, c, k + 1).Next?
    requires |GuardedAt(P, sp, canary, c, k + 1).c.frames| < |GuardedAt(P, sp, canary, c, k).c.frames|
    ensures var o, q, bs := GuardedAt(P, sp, canary, c, k).c, GuardedAt(P, sp, canary, c, k + 1).c, Books(P, sp, canary, c, k);
      && |bs| == |o.frames| > 0
      && (Pointer(sp, q) == Slot(bs[|bs| - 1]) <==> Settled(o, bs[|bs| - 1]) % WORD == 0)
  {
    hide Restoring, GuardedAt, Books, Turn, NextBooks, Step, Settled, ValidProgram, KeepsSize, Sound, Gap, Pointer, TurnShape,
      CallerBalanced, Slot, Cong;
    var o, q, bs := GuardedAt(P, sp, canary, c, k).c, GuardedAt(P, sp, canary, c, k + 1).c, Books(P, sp, canary, c, k);
    BooksBalanced(P, gt, size, sp, canary, c, k);
    var g := TurnAt(P, gt, size, sp, canary, c, k);
    TurnParts(P, sp, canary, o, g, q);
    ReturnStore(g, q);
    SamePointer(sp, g, q);
    GapPointer(sp, canary, o, g, bs[|bs| - 1]);
    PointerBound(P, gt, size, sp, g);
    SlotIff(Pointer(sp, q), bs[|bs| - 1], Settled(o, bs[|bs| - 1]));
  }

  lemma ReturnStore(g: Config, y: Config)
    requires TurnShape(g, y) && |y.frames| < |g.frames|
    ensures y.store == g.store
  {
  }

  lemma SlotIff(p: nat, b: Book, settled: int)
    requires p < WORD && Cong(p, b.base - SLOT + settled)
    ensures p == Slot(b) <==> settled % WORD == 0
  {
    if settled % WORD == 0 {
      CalleeSlot(p, b, settled);
    }
    if p == Slot(b) {
      var x := b.base - SLOT;
      var u, v := x / WORD, (p - (x + settled)) / WORD;
      assert p == x - WORD * u && p - (x + settled) == WORD * v;
      assert settled == WORD * (-u - v);
    }
  }

  // ----- from a call to its return -----

  function FramesAt(P: Program, sp: nat, canary: nat, c: Config, n: nat): seq<Frame> {
    var o := GuardedAt(P, sp, canary, c, n);
    if o.Next? then o.c.frames else []
  }

  /** Instruction i is a call that enters a function with an injection, and j is where it has returned. */
  ghost predicate Span(P: Program, sp: nat, canary: nat, c: Config, i: nat, j: nat) {
    && i + 1 < j && GuardedAt(P, sp, canary, c, i).Next? && GuardedAt(P, sp, canary, c, j).Next?
    && |FramesAt(P, sp, canary, c, j)| == |FramesAt(P, sp, canary, c, i)|
    && forall k :: i < k < j ==> |FramesAt(P, sp, canary, c, k)| > |FramesAt(P, sp, canary, c, i)|
  }

  /** While the callee is active its caller's frames and books stay, and so does its own base. */
  ghost predicate Active(fs: seq<Frame>, bs: seq<Book>, fs0: seq<Frame>, bs0: seq<Book>, d: nat, base: nat) {
    && |fs| == |bs| > d && |fs0| >= d && |bs0| >= d
    && fs[..d] == fs0[..d] && bs[..d] == bs0[..d] && bs[d].base == base
  }

  lemma ActiveNext(c: Config, g: Config, y: Config, p1: nat, p2: nat, bs: seq<Book>, fs0: seq<Frame>, bs0: seq<Book>,
                   d: nat, base: nat)
    requires g.frames == c.frames && TurnShape(g, y) && Active(c.frames, bs, fs0, bs0, d, base)
    requires |y.frames| > d
    ensures Active(y.frames, NextBooks(c, p1, p2, |y.frames|, bs), fs0, bs0, d, base)
  {
    hide Settled, Waiting;
    var t, cs := |bs| - 1, NextBooks(c, p1, p2, |y.frames|, bs);
    assert y.frames[..d] == c.frames[..d] by {
      if |y.frames| < |bs| {
        assert y.frames[..t - 1][..d] == c.frames[..t - 1][..d] || d == t;
      } else {
        assert y.frames[..t][..d] == c.frames[..t][..d];
      }
    }
    assert cs[..d] == bs[..d];
  }

  /** The call itself: the caller waits, and the callee's base is the pointer at the call. */
  lemma Called(c: Config, g: Config, y: Config, p1: nat, p2: nat, bs: seq<Book>)
    requires g.frames == c.frames && |bs| == |c.frames| > 0 && TurnShape(g, y) && |y.frames| > |bs|
    ensures var d, cs := |bs|, NextBooks(c, p1, p2, |y.frames|, bs);
      && Active(y.frames, cs, y.frames, cs, d, p1) && Waiting(y.frames[d-1])
      && cs[d-1] == bs[d-1].(net := Settled(c, bs[d-1]), injected := true)
  {
    hide Settled, Waiting;
  }

  /** The return: the caller as it waited. */
  lemma CameBack(c: Config, g: Config, y: Config, p1: nat, p2: nat, bs: seq<Book>, fs0: seq<Frame>, bs0: seq<Book>,
                 d: nat, base: nat)
    requires g.frames == c.frames && TurnShape(g, y) && Active(c.frames, bs, fs0, bs0, d, base)
    requires |y.frames| == d >= 1
    ensures y.frames[d-1].pc == fs0[d-1].pc && y.frames[d-1].code == fs0[d-1].code
    ensures NextBooks(c, p1, p2, |y.frames|, bs) == bs0[..d]
  {
    hide Settled, Waiting;
    assert c.frames[..d][d-1] == fs0[..d][d-1];
  }

  lemma {:induction false} SpanActive(P: Program, gt: seq<ValType>, size: nat, sp: nat, canary: nat, c: Config,
                                      i: nat, j: nat, k: nat, base: nat)
    requires Guardable(P, gt, size, sp, c) && Span(P, sp, canary, c, i, j) && Restoring(P, sp, canary, c, j)
    requires i < k < j
    requires var d, fs := |FramesAt(P, sp, canary, c, i)|, FramesAt(P, sp, canary, c, i + 1);
      var bs := Books(P, sp, canary, c, i + 1);
      Active(fs, bs, fs, bs, d, base)
    ensures Active(FramesAt(P, sp, canary, c, k), Books(P, sp, canary, c, k), FramesAt(P, sp, canary, c, i + 1),
                   Books(P, sp, canary, c, i + 1), |FramesAt(P, sp, canary, c, i)|, base)
  {
    hide Guardable, Active, Restoring, GuardedAt, Books, Turn, NextBooks, TurnShape, Step;
    if k > i + 1 {
      SpanActive(P, gt, size, sp, canary, c, i, j, k - 1, base);
      assert |FramesAt(P, sp, canary, c, k)| > |FramesAt(P, sp, canary, c, i)|;
      var g := TurnAt(P, gt, size, sp, canary, c, k - 1);
      var o, q := GuardedAt(P, sp, canary, c, k - 1).c, GuardedAt(P, sp, canary, c, k).c;
      TurnParts(P, sp, canary, o, g, q);
      ActiveNext(o, g, q, Pointer(sp, g), Pointer(sp, q), Books(P, sp, canary, c, k - 1),
                 FramesAt(P, sp, canary, c, i + 1), Books(P, sp, canary, c, i + 1),
                 |FramesAt(P, sp, canary, c, i)|, base);
    }
  }

  lemma TurnParts(P: Program, sp: nat, canary: nat, c: Config, g: Config, y: Config)
    requires Turn(P, sp, canary, c, g, y)
    ensures g.frames == c.frames && TurnShape(g, y)
    ensures c.frames != [] && sp < |c.store.globals| && Gap(sp, canary, c) == Next(g)
  {
    hide Step, Gap, TurnShape;
    StepShape(P, g, y);
  }

  /** At the return the caller waits as it did, and its book is that of the call. */
  ghost predicate Returned(c: Config, bs: seq<Book>, y: Config, cs: seq<Book>) {
    && |bs| == |c.frames| == |y.frames| == |cs| > 0
    && Waiting(y.frames[|bs| - 1])
    && cs[|bs| - 1] == bs[|bs| - 1].(net := Settled(c, bs[|bs| - 1]), injected := true)
  }

  lemma SpanBegins(P: Program, gt: seq<ValType>, size: nat, sp: nat, canary: nat,
                   c: Config, i: nat, j: nat)
    returns (base: nat)
    requires Guardable(P, gt, size, sp, c) && Span(P, sp, canary, c, i, j) && Restoring(P, sp, canary, c, j)
    ensures var d, fs := |FramesAt(P, sp, canary, c, i)|, FramesAt(P, sp, canary, c, i + 1);
      var bs := Books(P, sp, canary, c, i + 1);
      && d == |Books(P, sp, canary, c, i)| > 0
      && Active(fs, bs, fs, bs, d, base) && |fs| > d && |bs| > d && Waiting(fs[d-1])
      && bs[d-1] == Books(P, sp, canary, c, i)[d-1].(
           net := Settled(GuardedAt(P, sp, canary, c, i).c, Books(P, sp, canary, c, i)[d-1]), injected := true)
  {
    hide Guardable, Active, Restoring, GuardedAt, Books, Turn, NextBooks, TurnShape, Step, Balanced, Waiting, Settled;
    var d, x := |FramesAt(P, sp, canary, c, i)|, GuardedAt(P, sp, canary, c, i).c;
    RestoringBefore(P, sp, canary, c, i, j);
    BooksBalanced(P, gt, size, sp, canary, c, i);
    BalancedSize(sp, x, Books(P, sp, canary, c, i));
    assert |FramesAt(P, sp, canary, c, i + 1)| > d;
    var g := TurnAt(P, gt, size, sp, canary, c, i);
    var x1 := GuardedAt(P, sp, canary, c, i + 1).c;
    TurnParts(P, sp, canary, x, g, x1);
    base := Pointer(sp, g);
    Called(x, g, x1, base, Pointer(sp, x1), Books(P, sp, canary, c, i));
    ActiveSize(x1.frames, Books(P, sp, canary, c, i + 1), d, base);
  }

  lemma SpanReturned(P: Program, gt: seq<ValType>, size: nat, sp: nat, canary: nat,
                     c: Config, i: nat, j: nat)
    requires Guardable(P, gt, size, sp, c) && Span(P, sp, canary, c, i, j) && Restoring(P, sp, canary, c, j)
    ensures Returned(GuardedAt(P, sp, canary, c, i).c, Books(P, sp, canary, c, i),
                     GuardedAt(P, sp, canary, c, j).c, Books(P, sp, canary, c, j))
  {
    hide Guardable, Active, Restoring, GuardedAt, Books, Turn, NextBooks, TurnShape, Step, Waiting, Settled;
    var base := SpanBegins(P, gt, size, sp, canary, c, i, j);
    var d, y := |FramesAt(P, sp, canary, c, i)|, GuardedAt(P, sp, canary, c, j).c;
    var fs, bs := FramesAt(P, sp, canary, c, i + 1), Books(P, sp, canary, c, i + 1);
    SpanActive(P, gt, size, sp, canary, c, i, j, j - 1, base);
    var h := TurnAt(P, gt, size, sp, canary, c, j - 1);
    var w := GuardedAt(P, sp, canary, c, j - 1).c;
    TurnParts(P, sp, canary, w, h, y);
    CameBack(w, h, y, Pointer(sp, h), Pointer(sp, y), Books(P, sp, canary, c, j - 1), fs, bs, d, base);
    WaitingSame(fs[d-1], y.frames[d-1]);
  }

  lemma ActiveSize(fs: seq<Frame>, bs: seq<Book>, d: nat, base: nat)
    requires Active(fs, bs, fs, bs, d, base)
    ensures |fs| == |bs| > d
  {
  }

  lemma WaitingSame(f: Frame, g: Frame)
    requires g.pc == f.pc && g.code == f.code && Waiting(f)
    ensures Waiting(g)
  {
  }

  lemma BackAgain(p: nat, q: nat, base: int)
    requires p < WORD && q < WORD && Cong(p, base) && Cong(q, base - SLOT)
    ensures q == (p - SLOT) % WORD && p == (q + SLOT) % WORD
  {
  }

  /**
   * Every call that enters a function with an injection, and returns, brings the pointer to the
   * callee's slot, 16 below the pointer at the call; and if the check behind it lets the run go on, the
   * pointer is then what it was at the call.
   */
  lemma CallRestores(P: Program, gt: seq<ValType>, size: nat, sp: nat, canary: nat, c: Config, i: nat, j: nat)
    returns (g: Config)
    requires Guardable(P, gt, size, sp, c) && Span(P, sp, canary, c, i, j) && Restoring(P, sp, canary, c, j)
    ensures var x, y := GuardedAt(P, sp, canary, c, i).c, GuardedAt(P, sp, canary, c, j).c;
      && x.frames != [] && sp < |x.store.globals| && Gap(sp, canary, x) == Next(g)
      && y.frames != [] && sp < |y.store.globals| && AtCheck(y)
      && Pointer(sp, y) == (Pointer(sp, g) - SLOT) % WORD
      && (Gap(sp, canary, y).Next? ==> Pointer(sp, Gap(sp, canary, y).c) == Pointer(sp, g))
  {
    hide Restoring, GuardedAt, Books, Turn, NextBooks, TurnShape, Step, Waiting, Settled, ValidProgram, KeepsSize, Sound,
      CallerBalanced, Gap, Pointer, Cong;
    var x, y := GuardedAt(P, sp, canary, c, i).c, GuardedAt(P, sp, canary, c, j).c;
    assert |FramesAt(P, sp, canary, c, i + 1)| > |FramesAt(P, sp, canary, c, i)|;
    g := TurnAt(P, gt, size, sp, canary, c, i);
    TurnParts(P, sp, canary, x, g, GuardedAt(P, sp, canary, c, i + 1).c);
    RestoringBefore(P, sp, canary, c, i, j);
    BooksBalanced(P, gt, size, sp, canary, c, i);
    BooksBalanced(P, gt, size, sp, canary, c, j);
    SpanReturned(P, gt, size, sp, canary, c, i, j);
    var b := Books(P, sp, canary, c, i)[|x.frames| - 1];
    GapPointer(sp, canary, x, g, b);
    GuardedSound(P, gt, size, sp, canary, c, j);
    SoundPointer(P, gt, size, sp, y);
    PointerBound(P, gt, size, sp, g);
    PointerBound(P, gt, size, sp, y);
    WaitingAtCheck(y);
    BackAgain(Pointer(sp, g), Pointer(sp, y), b.base - SLOT + Settled(x, b));
    if Gap(sp, canary, y).Next? {
      GapEffect(sp, canary, y, Gap(sp, canary, y).c);
    }
  }

  lemma PointerBound(P: Program, gt: seq<ValType>, size: nat, sp: nat, c: Config)
    requires Sound(P, gt, size, c) && sp < |gt| && gt[sp] == I32
    ensures Pointer(sp, c) < WORD
  {
    SoundPointer(P, gt, size, sp, c);
  }

  lemma WaitingAtCheck(c: Config)
    requires c.frames != [] && Waiting(Top(c))
    ensures AtCheck(c) && Top(c).pc != 0
  {
  }

  // ----- the check behind the call -----

  lemma InjectedSlot(sp: nat, canary: nat, c: Config, e: Config)
    requires c.frames != [] && sp < |c.store.globals| && Top(c).pc == 0 && Gap(sp, canary, c) == Next(e)
    ensures var a := (Pointer(sp, c) - SLOT) % WORD;
      && Pointer(sp, e) == a && a + 8 <= |e.store.mem| == |c.store.mem|
      && e.store.mem == Write(c.store.mem, a, CanaryBytes(canary))
      && e.store.mem[a..a + 8] == CanaryBytes(canary)
  {
    hide CanaryBytes;
  }

  lemma CheckedSlot(sp: nat, canary: nat, c: Config)
    requires c.frames != [] && sp < |c.store.globals| && AtCheck(c) && Pointer(sp, c) + 8 <= |c.store.mem|
    ensures var a, o := Pointer(sp, c), Gap(sp, canary, c);
      if c.store.mem[a..a + 8] == CanaryBytes(canary) then o.Next? else o == Trap(Stop)
  {
    hide CanaryBytes, IsCall;
  }

  /**
   * The check behind such a call stops the program if and only if the 8 bytes of the callee's own slot
   * are not what they were when the callee had put its canary there. e is the callee behind its injection.
   */
  lemma CheckTrapsIffChanged(P: Program, gt: seq<ValType>, size: nat, sp: nat, canary: nat, c: Config, i: nat, j: nat)
    returns (g: Config, e: Config)
    requires Guardable(P, gt, size, sp, c) && Span(P, sp, canary, c, i, j) && Restoring(P, sp, canary, c, j)
    ensures var x, x1 := GuardedAt(P, sp, canary, c, i).c, GuardedAt(P, sp, canary, c, i + 1);
      var y := GuardedAt(P, sp, canary, c, j).c;
      && x.frames != [] && sp < |x.store.globals| && Gap(sp, canary, x) == Next(g)
      && x1.Next? && x1.c.frames != [] && sp < |x1.c.store.globals| && Gap(sp, canary, x1.c) == Next(e)
      && y.frames != [] && sp < |y.store.globals| && AtCheck(y)
      && var a, o := (Pointer(sp, g) - SLOT) % WORD, Gap(sp, canary, y);
         && Pointer(sp, e) == Pointer(sp, y) == a && a + 8 <= |e.store.mem| == |y.store.mem|
         && e.store.mem[a..a + 8] == CanaryBytes(canary)
         && (o == Trap(Stop) <==> y.store.mem[a..a + 8] != e.store.mem[a..a + 8])
         && (y.store.mem[a..a + 8] == e.store.mem[a..a + 8] ==> o.Next? && Pointer(sp, o.c) == Pointer(sp, g))
  {
    hide Restoring, GuardedAt, Books, Turn, NextBooks, Step, Waiting, Settled, ValidProgram, KeepsSize, ConfigSound,
      Gap, Pointer, AtCheck, CanaryBytes, Write;
    g := CallRestores(P, gt, size, sp, canary, c, i, j);
    assert |FramesAt(P, sp, canary, c, i + 1)| > |FramesAt(P, sp, canary, c, i)|;
    var g1 := TurnAt(P, gt, size, sp, canary, c, i);
    var x, x1 := GuardedAt(P, sp, canary, c, i).c, GuardedAt(P, sp, canary, c, i + 1).c;
    var y := GuardedAt(P, sp, canary, c, j).c;
    TurnParts(P, sp, canary, x, g1, x1);
    assert g1 == g;
    SpanNext(P, sp, canary, c, i, j);
    e := TurnAt(P, gt, size, sp, canary, c, i + 1);
    TurnParts(P, sp, canary, x1, e, GuardedAt(P, sp, canary, c, i + 2).c);
    SamePointer(sp, g, x1);
    InjectedSlot(sp, canary, x1, e);
    GuardedSound(P, gt, size, sp, canary, c, i + 1);
    GuardedSound(P, gt, size, sp, canary, c, j);
    CheckedSlot(sp, canary, y);
  }

  lemma SamePointer(sp: nat, a: Config, b: Config)
    requires a.store == b.store
    ensures Pointer(sp, a) == Pointer(sp, b)
  {
  }

  lemma SpanNext(P: Program, sp: nat, canary: nat, c: Config, i: nat, j: nat)
    requires Span(P, sp, canary, c, i, j)
    ensures GuardedAt(P, sp, canary, c, i + 2).Next?
  {
    hide GuardedStep;
    if i + 2 < j {
      assert |FramesAt(P, sp, canary, c, i + 2)| > |FramesAt(P, sp, canary, c, i)|;
    }
  }

  // ----- calls for which nothing is injected -----

  /** A call that stays in its activation: the callee is imported. Otherwise it enters a defined function. */
  lemma CallStep(P: Program, g: Config, y: Config)
    requires Step(P, g) == Next(y) && g.frames != []
    requires var f := Top(g); f.pc < |f.code| && IsCall(f.code[f.pc].instr)
    ensures |y.frames| == |g.frames| || |y.frames| == |g.frames| + 1
    ensures |y.frames| == |g.frames| ==>
              y.store.globals == g.store.globals && Top(y).code == Top(g).code && Top(y).pc == Top(g).pc + 1
    ensures var i := Top(g).code[Top(g).pc].instr;
      i.Call? ==> i.target < |P.funcs| && (|y.frames| == |g.frames| + 1 <==> P.funcs[i.target].Defined?)
  {
  }

  /**
   * Behind the check of a call, direct or indirect, the pointer is what it was at the call if and only if
   * the call entered a function with an injection; for a direct call, if and only if its target is
   * defined in the module. Behind the check of an imported callee it is 16 too high.
   */
  lemma PointerKeptIff(P: Program, gt: seq<ValType>, size: nat, sp: nat, canary: nat, c: Config, i: nat, j: nat)
    returns (g: Config)
    requires Guardable(P, gt, size, sp, c) && Restoring(P, sp, canary, c, j) && GuardedAt(P, sp, canary, c, j).Next?
    requires Span(P, sp, canary, c, i, j)
             || (j == i + 1 && |FramesAt(P, sp, canary, c, j)| == |FramesAt(P, sp, canary, c, i)|)
    requires var o := GuardedAt(P, sp, canary, c, i);
      o.Next? && o.c.frames != [] && Top(o.c).pc < |Top(o.c).code| && IsCall(Top(o.c).code[Top(o.c).pc].instr)
    ensures var x, y := GuardedAt(P, sp, canary, c, i).c, GuardedAt(P, sp, canary, c, j).c;
      && sp < |x.store.globals| && Gap(sp, canary, x) == Next(g) && y.frames != [] && sp < |y.store.globals| && AtCheck(y)
      && (Gap(sp, canary, y).Next? ==>
            var z := Gap(sp, canary, y).c;
            && (Pointer(sp, z) == Pointer(sp, g) <==> Span(P, sp, canary, c, i, j))
            && (!Span(P, sp, canary, c, i, j) ==> Pointer(sp, z) == (Pointer(sp, g) + SLOT) % WORD)
            && (var ins := Top(x).code[Top(x).pc].instr;
                ins.Call? ==> ins.target < |P.funcs|
                              && (Pointer(sp, z) == Pointer(sp, g) <==> P.funcs[ins.target].Defined?)))
  {
    hide Restoring, GuardedAt, Books, Turn, NextBooks, Step, Settled, ValidProgram, KeepsSize, Sound, Gap, Pointer,
      TurnShape;
    var x, y := GuardedAt(P, sp, canary, c, i).c, GuardedAt(P, sp, canary, c, j).c;
    if Span(P, sp, canary, c, i, j) {
      assert |FramesAt(P, sp, canary, c, i + 1)| > |FramesAt(P, sp, canary, c, i)|;
      g := CallRestores(P, gt, size, sp, canary, c, i, j);
      var g1 := TurnAt(P, gt, size, sp, canary, c, i);
      TurnParts(P, sp, canary, x, g1, GuardedAt(P, sp, canary, c, i + 1).c);
      TurnStep(P, sp, canary, x, g1, GuardedAt(P, sp, canary, c, i + 1).c);
    } else {
      g := TurnAt(P, gt, size, sp, canary, c, i);
      TurnParts(P, sp, canary, x, g, y);
      TurnStep(P, sp, canary, x, g, y);
      GuardedSound(P, gt, size, sp, canary, c, j);
      SoundPointer(P, gt, size, sp, y);
      ImportedBack(sp, canary, g, y);
      PointerBound(P, gt, size, sp, g);
    }
  }

  lemma TurnStep(P: Program, sp: nat, canary: nat, c: Config, g: Config, y: Config)
    requires Turn(P, sp, canary, c, g, y)
    requires var f := Top(c); f.pc < |f.code| && IsCall(f.code[f.pc].instr)
    ensures |y.frames| == |g.frames| || |y.frames| == |g.frames| + 1
    ensures |y.frames| == |g.frames| ==>
              y.store.globals == g.store.globals && Top(y).code == Top(g).code && Top(y).pc == Top(g).pc + 1
    ensures var i := Top(c).code[Top(c).pc].instr;
      i.Call? ==> i.target < |P.funcs| && (|y.frames| == |g.frames| + 1 <==> P.funcs[i.target].Defined?)
  {
    hide Step, Gap;
    CallStep(P, g, y);
  }

  lemma ImportedBack(sp: nat, canary: nat, g: Config, y: Config)
    requires g.frames != [] && y.frames != [] && sp < |y.store.globals| && y.store.globals == g.store.globals
    requires Top(g).pc < |Top(g).code| && IsCall(Top(g).code[Top(g).pc].instr)
    requires Top(y).code == Top(g).code && Top(y).pc == Top(g).pc + 1
    ensures AtCheck(y)
    ensures Gap(sp, canary, y).Next? ==> Pointer(sp, Gap(sp, canary, y).c) == (Pointer(sp, g) + SLOT) % WORD
    ensures Pointer(sp, g) < WORD ==> (Pointer(sp, g) + SLOT) % WORD != Pointer(sp, g)
  {
    hide Gap;
    if Gap(sp, canary, y).Next? {
      GapEffect(sp, canary, y, Gap(sp, canary, y).c);
    }
  }

  // ----- in the instrumented program -----

  /** The moments of an instrumented call: at the call, behind the injection, at the return, behind the check. */
  datatype Moments = Moments(call: nat, entered: nat, returned: nat, end: nat)

  /**
   * The discipline, in states of the instrumented program: from the call to the callee's canary at the
   * address a, 16 below the pointer; from there to the return, with the pointer at a again; from there
   * behind the check, with the pointer as at the call, if the 8 bytes at a are still what they were behind
   * the injection, and into a trap if they are not.
   */
  ghost predicate Disciplined(P2: Program, sp: nat, canary: nat, d: Config, t: Moments) {
    var o0, o1 := StateAt(P2, d, t.call), StateAt(P2, d, t.entered);
    var o2, o3 := StateAt(P2, d, t.returned), StateAt(P2, d, t.end);
    && t.call <= t.entered <= t.returned <= t.end
    && o0.Next? && o1.Next? && o2.Next? && o0.c.frames != []
    && Top(o0.c).pc < |Top(o0.c).code| && IsCall(Top(o0.c).code[Top(o0.c).pc].instr)
    && |o1.c.frames| == |o0.c.frames| + 1 && |o2.c.frames| == |o0.c.frames|
    && var a := (Pointer(sp, o0.c) - SLOT) % WORD;
       && Pointer(sp, o1.c) == Pointer(sp, o2.c) == a && a + 8 <= |o1.c.store.mem| == |o2.c.store.mem|
       && o1.c.store.mem[a..a + 8] == CanaryBytes(canary)
       && (if o2.c.store.mem[a..a + 8] == o1.c.store.mem[a..a + 8]
           then o3.Next? && Pointer(sp, o3.c) == Pointer(sp, o0.c) && |o3.c.frames| == |o0.c.frames|
           else o3 == Trap(Stop))
  }

  lemma AtTheCall(P: Program, gt: seq<ValType>, size: nat, sp: nat, canary: nat, c: Config, i: nat, j: nat)
    requires Guardable(P, gt, size, sp, c) && Span(P, sp, canary, c, i, j)
    ensures var x, x1 := GuardedAt(P, sp, canary, c, i), GuardedAt(P, sp, canary, c, i + 1);
      && x.Next? && x1.Next? && x.c.frames != [] && |x1.c.frames| == |x.c.frames| + 1
      && Top(x.c).pc < |Top(x.c).code| && IsCall(Top(x.c).code[Top(x.c).pc].instr)
  {
    hide Guardable, GuardedAt, Turn, Step, TurnShape;
    assert |FramesAt(P, sp, canary, c, i + 1)| > |FramesAt(P, sp, canary, c, i)|;
    var g := TurnAt(P, gt, size, sp, canary, c, i);
    var x, x1 := GuardedAt(P, sp, canary, c, i).c, GuardedAt(P, sp, canary, c, i + 1).c;
    TurnParts(P, sp, canary, x, g, x1);
    EnteredFromCall(x, g, x1);
  }

  lemma EnteredFromCall(c: Config, g: Config, y: Config)
    requires g.frames == c.frames && TurnShape(g, y) && |y.frames| > |c.frames|
    ensures c.frames != [] && |y.frames| == |c.frames| + 1
    ensures Top(c).pc < |Top(c).code| && IsCall(Top(c).code[Top(c).pc].instr)
  {
  }

  /**
   * The canary discipline over whole runs: for every run of the instrumented program from the start of
   * any function, and every call in it that enters a function and returns, if the activations that have
   * returned by then have each moved the pointer by a multiple of 2^32 in all, the call is disciplined.
   * The moments are those of the call from i to j: the callee is entered right behind `call`, and
   * `returned` is where its return stands.
   */
  lemma CanaryDiscipline(P: Program, P1: Program, P2: Program, scope: set<nat>, sp: nat, canary: nat, gt: seq<ValType>,
                         fn: nat, args: seq<Value>, st: Machine.Store, i: nat, j: nat) returns (t: Moments)
    requires Setting(P, P1, P2, scope, sp, canary, gt, |st.mem|) && fn < |P.funcs| && P.funcs[fn].Defined?
    requires TypesOf(args) == P.funcs[fn].ft.params && TypesOf(st.globals) == gt
    requires Span(P, sp, canary, Start(P, fn, args, st), i, j) && Restoring(P, sp, canary, Start(P, fn, args, st), j)
    ensures P2.funcs[fn].Defined?
    ensures var W := CanaryWorld(P, sp, canary, gt, |st.mem|);
      var c, d := Start(P, fn, args, st), Start(P2, fn, args, st);
      && SameOutcome(P, P2, W, GuardedAt(P, sp, canary, c, i + 1), StateAt(P2, d, t.call + 1))
      && SameOutcome(P, P2, W, GuardedAt(P, sp, canary, c, j), StateAt(P2, d, t.returned))
    ensures Disciplined(P2, sp, canary, Start(P2, fn, args, st), t)
  {
    hide Restoring, GuardedAt, Step, Run, ValidProgram, KeepsSize, ConfigSound, Span, Canaried, CanaryWorld, SamePlace,
      Gap, Pointer, AtCheck, CanaryBytes, Start, SameOutcome, Disciplined, Guardable, Sound;
    var size := |st.mem|;
    StartPlace(P, P1, P2, scope, sp, canary, gt, size, fn, args, st);
    var c, d := Start(P, fn, args, st), Start(P2, fn, args, st);
    StartGuardable(P, gt, sp, fn, args, st);
    AtTheCall(P, gt, size, sp, canary, c, i, j);
    var m := GuardedLifts(P, P1, P2, scope, sp, canary, gt, size, c, d, i);
    t := CallFollowed(P, P1, P2, scope, sp, canary, gt, size, c, d, i, j, m);
  }

  lemma StartGuardable(P: Program, gt: seq<ValType>, sp: nat, fn: nat, args: seq<Value>, st: Machine.Store)
    requires fn < |P.funcs| && P.funcs[fn].Defined? && Sound(P, gt, |st.mem|, Start(P, fn, args, st))
    requires ValidProgram(P, gt) && KeepsSize(P, |st.mem|) && sp < |gt| && gt[sp] == I32
    ensures Guardable(P, gt, |st.mem|, sp, Start(P, fn, args, st))
  {
  }

  lemma GuardableParts(P: Program, gt: seq<ValType>, size: nat, sp: nat, c: Config)
    requires Guardable(P, gt, size, sp, c)
    ensures ValidProgram(P, gt) && KeepsSize(P, size) && Sound(P, gt, size, c) && sp < |gt| && gt[sp] == I32
  {
  }

  /** The call followed in the instrumented program, from the place of instruction i. */
  lemma CallFollowed(P: Program, P1: Program, P2: Program, scope: set<nat>, sp: nat, canary: nat,
                     gt: seq<ValType>, size: nat, c: Config, d: Config, i: nat, j: nat, m: nat) returns (t: Moments)
    requires Setting(P, P1, P2, scope, sp, canary, gt, size) && Guardable(P, gt, size, sp, c)
    requires Span(P, sp, canary, c, i, j) && Restoring(P, sp, canary, c, j)
    requires SameOutcome(P, P2, CanaryWorld(P, sp, canary, gt, size), GuardedAt(P, sp, canary, c, i), StateAt(P2, d, m))
    ensures var W := CanaryWorld(P, sp, canary, gt, size);
      && SameOutcome(P, P2, W, GuardedAt(P, sp, canary, c, i + 1), StateAt(P2, d, t.call + 1))
      && SameOutcome(P, P2, W, GuardedAt(P, sp, canary, c, j), StateAt(P2, d, t.returned))
    ensures Disciplined(P2, sp, canary, d, t)
  {
    hide Restoring, GuardedAt, Step, Run, Guardable, Span, Setting, CanaryWorld, Gap, Pointer, AtCheck, CanaryBytes,
      SameOutcome, Sound, SamePlace, Turn;
    var W := CanaryWorld(P, sp, canary, gt, size);
    AtTheCall(P, gt, size, sp, canary, c, i, j);
    var g, e := CheckTrapsIffChanged(P, gt, size, sp, canary, c, i, j);
    SpanSteps(P, gt, size, sp, canary, c, i, j, g, e);
    var x, x1 := GuardedAt(P, sp, canary, c, i).c, GuardedAt(P, sp, canary, c, i + 1).c;
    var y := GuardedAt(P, sp, canary, c, j).c;
    var n0 := BehindGapAt(P, P1, P2, scope, sp, canary, gt, size, c, d, m, x, g);
    var n1 := BehindGapAt(P, P1, P2, scope, sp, canary, gt, size, c, d, n0 + 1, x1, e);
    GuardableParts(P, gt, size, sp, c);
    var m2 := GuardedLiftsOn(P, P1, P2, scope, sp, canary, gt, size, c, d, i + 2, n1 + 1, j);
    OutcomePlace(P, P2, W, y, StateAt(P2, d, m2));
    var end := CheckFollowed(P, P1, P2, scope, sp, canary, gt, size, c, d, m2, y);
    t := Moments(n0, n1, m2, end);
    SamePointer(sp, StateAt(P2, d, n0).c, g);
    SamePointer(sp, StateAt(P2, d, n1).c, e);
    SamePointer(sp, StateAt(P2, d, m2).c, y);
  }

  /** The steps at both ends of a span, with the states they start from. */
  lemma SpanSteps(P: Program, gt: seq<ValType>, size: nat, sp: nat, canary: nat, c: Config, i: nat, j: nat,
                  g: Config, e: Config)
    requires Guardable(P, gt, size, sp, c) && Span(P, sp, canary, c, i, j)
    requires var x, x1 := GuardedAt(P, sp, canary, c, i), GuardedAt(P, sp, canary, c, i + 1);
      && x.Next? && x1.Next? && x.c.frames != [] && sp < |x.c.store.globals| && Gap(sp, canary, x.c) == Next(g)
      && x1.c.frames != [] && sp < |x1.c.store.globals| && Gap(sp, canary, x1.c) == Next(e)
    ensures i + 2 <= j && GuardedAt(P, sp, canary, c, i + 2).Next? && GuardedAt(P, sp, canary, c, j).Next?
    ensures Step(P, g) == GuardedAt(P, sp, canary, c, i + 1) && Step(P, e) == GuardedAt(P, sp, canary, c, i + 2)
    ensures Sound(P, gt, size, GuardedAt(P, sp, canary, c, i).c)
    ensures Sound(P, gt, size, GuardedAt(P, sp, canary, c, i + 1).c)
    ensures Sound(P, gt, size, GuardedAt(P, sp, canary, c, j).c)
    ensures |GuardedAt(P, sp, canary, c, j).c.frames| == |GuardedAt(P, sp, canary, c, i).c.frames|
  {
    hide GuardedAt, Step, Gap, Sound, ValidProgram, KeepsSize, Books, NextBooks;
    SpanNext(P, sp, canary, c, i, j);
    var g1 := TurnAt(P, gt, size, sp, canary, c, i);
    var e1 := TurnAt(P, gt, size, sp, canary, c, i + 1);
    GuardedSound(P, gt, size, sp, canary, c, j);
  }

  /** The check at the return. */
  lemma CheckFollowed(P: Program, P1: Program, P2: Program, scope: set<nat>, sp: nat, canary: nat,
                      gt: seq<ValType>, size: nat, c: Config, d: Config, m: nat, y: Config) returns (end: nat)
    requires Setting(P, P1, P2, scope, sp, canary, gt, size) && Sound(P, gt, size, y)
    requires SameOutcome(P, P2, CanaryWorld(P, sp, canary, gt, size), Next(y), StateAt(P2, d, m))
    requires y.frames != [] && sp < |y.store.globals|
    ensures end >= m
    ensures var o := Gap(sp, canary, y);
      if o.Next? then
        && StateAt(P2, d, end).Next? && StateAt(P2, d, end).c.store == o.c.store
        && Pointer(sp, StateAt(P2, d, end).c) == Pointer(sp, o.c)
        && |StateAt(P2, d, end).c.frames| == |y.frames|
      else StateAt(P2, d, end) == o
  {
    hide Step, Run, Setting, CanaryWorld, Gap, SameOutcome, Sound, SamePlace, Pointer;
    var o := Gap(sp, canary, y);
    if o.Next? {
      end := BehindGapAt(P, P1, P2, scope, sp, canary, gt, size, c, d, m, y, o.c);
      SamePointer(sp, StateAt(P2, d, end).c, o.c);
    } else {
      OutcomePlace(P, P2, CanaryWorld(P, sp, canary, gt, size), y, StateAt(P2, d, m));
      var k := GapLifts(P, P1, P2, scope, sp, canary, gt, size, y, StateAt(P2, d, m).c);
      RunAdd(P2, Next(d), m, k);
      end := m + k;
    }
  }

  // ----- no false alarms -----

  ghost predicate HoldsCanary(mem: seq<Byte>, a: nat, canary: nat) {
    a + 8 <= |mem| && mem[a..a + 8] == CanaryBytes(canary)
  }

  /** The slots of all activations that have run their injection, and that of a callee whose check is due. */
  ghost predicate SlotsHold(sp: nat, canary: nat, c: Config, bs: seq<Book>)
    requires c.frames != [] && |bs| == |c.frames|
  {
    && (forall i :: 0 <= i < |bs| && (i < |bs| - 1 || Top(c).pc != 0) ==> HoldsCanary(c.store.mem, Slot(bs[i]), canary))
    && (AtCheck(c) && bs[|bs| - 1].injected ==> HoldsCanary(c.store.mem, Pointer(sp, c), canary))
  }

  predicate Apart(a: nat, b: nat) {
    a + 8 <= b || b + 8 <= a
  }

  ghost predicate SameSlot(m: seq<Byte>, m2: seq<Byte>, a: nat) {
    a + 8 <= |m| && a + 8 <= |m2| ==> m[a..a + 8] == m2[a..a + 8]
  }

  /**
   * The instruction keeps off the slots of the active functions: an injection makes its slot apart from
   * the others, and the original instruction, which may be a call of an imported function, leaves all of
   * them as they are.
   */
  ghost predicate Careful(c: Config, g: Config, y: Config, bs: seq<Book>)
    requires c.frames != [] && |bs| == |c.frames|
  {
    && (Top(c).pc == 0 ==> forall i :: 0 <= i < |bs| - 1 ==> Apart(Slot(bs[i]), Slot(bs[|bs| - 1])))
    && (forall i :: 0 <= i < |bs| ==> SameSlot(g.store.mem, y.store.mem, Slot(bs[i])))
  }

  ghost predicate CarefulAt(P: Program, sp: nat, canary: nat, c: Config, k: nat) {
    var o, q, bs := GuardedAt(P, sp, canary, c, k), GuardedAt(P, sp, canary, c, k + 1), Books(P, sp, canary, c, k);
    o.Next? && q.Next? && o.c.frames != [] && |bs| == |o.c.frames| && sp < |o.c.store.globals|
    && Gap(sp, canary, o.c).Next? ==>
      Careful(o.c, Gap(sp, canary, o.c).c, q.c, bs)
  }

  lemma WriteApart(m: seq<Byte>, a: nat, bs: seq<Byte>, b: nat)
    requires |bs| == 8 && a + 8 <= |m| && b + 8 <= |m| && Apart(a, b)
    ensures Write(m, a, bs)[b..b + 8] == m[b..b + 8]
  {
  }

  lemma ModUnique(p: nat, q: nat, base: int)
    requires p < WORD && Cong(p, base) && q == base % WORD
    ensures p == q
  {
  }

  /** Behind the inserted code every active slot holds the canary. */
  lemma GapHolds(sp: nat, canary: nat, c: Config, g: Config, y: Config, bs: seq<Book>)
    requires c.frames != [] && |bs| == |c.frames| && sp < |c.store.globals| && Gap(sp, canary, c) == Next(g)
    requires SlotsHold(sp, canary, c, bs) && Careful(c, g, y, bs) && TopBalanced(sp, c, bs[|bs| - 1])
    ensures forall i :: 0 <= i < |bs| ==> HoldsCanary(g.store.mem, Slot(bs[i]), canary)
  {
    hide Gap, CanaryBytes, Write, AtCheck;
    var t := |bs| - 1;
    GapEffect(sp, canary, c, g);
    if Top(c).pc == 0 {
      InjectedSlot(sp, canary, c, g);
      var a := (Pointer(sp, c) - SLOT) % WORD;
      SameSlotAddress(Pointer(sp, c), bs[t].base);
      forall i | 0 <= i < t ensures HoldsCanary(g.store.mem, Slot(bs[i]), canary) {
        assert HoldsCanary(c.store.mem, Slot(bs[i]), canary);
        WriteApart(c.store.mem, a, CanaryBytes(canary), Slot(bs[i]));
      }
    } else {
      assert g.store.mem == c.store.mem;
    }
  }

  lemma SameSlotAddress(p: nat, base: nat)
    requires Cong(p, base)
    ensures (p - SLOT) % WORD == (base - SLOT) % WORD
  {
    assert p - SLOT == base - SLOT + WORD * ((p - base) / WORD);
  }

  lemma HeldOn(m: seq<Byte>, m2: seq<Byte>, a: nat, canary: nat)
    requires |m| == |m2| && HoldsCanary(m, a, canary) && SameSlot(m, m2, a)
    ensures HoldsCanary(m2, a, canary)
  {
  }

  lemma TurnHolds(P: Program, sp: nat, canary: nat, c: Config, g: Config, y: Config, bs: seq<Book>)
    requires Turn(P, sp, canary, c, g, y) && Balanced(sp, c, bs) && |g.store.mem| == |y.store.mem|
    requires |y.frames| < |bs| ==> Settled(c, bs[|bs| - 1]) % WORD == 0
    requires SlotsHold(sp, canary, c, bs) && Careful(c, g, y, bs) && Pointer(sp, y) < WORD
    ensures var cs := NextBooks(c, Pointer(sp, g), Pointer(sp, y), |y.frames|, bs);
      y.frames != [] && |cs| == |y.frames| && SlotsHold(sp, canary, y, cs)
  {
    hide Step, Gap, HoldsCanary, AtCheck, Settled, Pointer, Cong, Slot, SameSlot, CallerBalanced;
    var t, cs := |bs| - 1, NextBooks(c, Pointer(sp, g), Pointer(sp, y), |y.frames|, bs);
    TurnParts(P, sp, canary, c, g, y);
    GapHolds(sp, canary, c, g, y, bs);
    forall i | 0 <= i <= t ensures HoldsCanary(y.store.mem, Slot(bs[i]), canary) {
      HeldOn(g.store.mem, y.store.mem, Slot(bs[i]), canary);
    }
    forall i | 0 <= i < |cs| && i <= t ensures Slot(cs[i]) == Slot(bs[i]) {
      SlotOfBase(cs[i], bs[i]);
    }
    if |y.frames| < |bs| {
      GapPointer(sp, canary, c, g, bs[t]);
      SamePointer(sp, g, y);
      CalleeSlot(Pointer(sp, y), bs[t], Settled(c, bs[t]));
    } else if |y.frames| > |bs| {
      NotAtCheck(y);
    }
  }

  lemma SlotOfBase(a: Book, b: Book)
    requires a.base == b.base
    ensures Slot(a) == Slot(b)
  {
  }

  lemma CalleeSlot(p: nat, b: Book, settled: int)
    requires p < WORD && Cong(p, b.base - SLOT + settled) && settled % WORD == 0
    ensures p == Slot(b)
  {
    var x := b.base - SLOT;
    assert x + settled == x + WORD * (settled / WORD);
    assert (x + settled) % WORD == x % WORD;
    ModUnique(p, (x + settled) % WORD, x + settled);
  }

  /** All instructions up to n keep off the active slots. */
  ghost predicate AllCareful(P: Program, sp: nat, canary: nat, c: Config, n: nat) {
    forall k: nat :: k < n ==> CarefulAt(P, sp, canary, c, k)
  }

  lemma {:induction false} SlotsHeld(P: Program, gt: seq<ValType>, size: nat, sp: nat, canary: nat, c: Config, n: nat)
    requires Guardable(P, gt, size, sp, c) && Restoring(P, sp, canary, c, n) && AllCareful(P, sp, canary, c, n)
    requires GuardedAt(P, sp, canary, c, n).Next?
    ensures var x, bs := GuardedAt(P, sp, canary, c, n).c, Books(P, sp, canary, c, n);
      x.frames != [] && |bs| == |x.frames| && SlotsHold(sp, canary, x, bs)
  {
    hide ValidProgram, KeepsSize, ConfigSound, Restoring, NextBooks, ReturnRestores, Gap, GuardedStep, AllCareful,
      CarefulAt, SlotsHold, Balanced, Pointer;
    if n == 0 {
      StartHolds(sp, canary, c);
    } else {
      OneLess(P, sp, canary, c, n);
      RestoringBefore(P, sp, canary, c, n - 1, n);
      SlotsHeld(P, gt, size, sp, canary, c, n - 1);
      OneMoreHolds(P, gt, size, sp, canary, c, n - 1);
    }
  }

  lemma StartHolds(sp: nat, canary: nat, c: Config)
    requires |c.frames| == 1 && c.frames[0].pc == 0
    ensures SlotsHold(sp, canary, c, [Book(Pointer(sp, c), 0, false)])
  {
    assert Top(c).pc == 0;
  }

  lemma OneLess(P: Program, sp: nat, canary: nat, c: Config, n: nat)
    requires n > 0 && GuardedAt(P, sp, canary, c, n).Next? && AllCareful(P, sp, canary, c, n)
    ensures GuardedAt(P, sp, canary, c, n - 1).Next? && AllCareful(P, sp, canary, c, n - 1)
    ensures CarefulAt(P, sp, canary, c, n - 1)
  {
    hide GuardedStep, CarefulAt;
  }

  lemma OneMoreHolds(P: Program, gt: seq<ValType>, size: nat, sp: nat, canary: nat, c: Config, n: nat)
    requires Guardable(P, gt, size, sp, c) && Restoring(P, sp, canary, c, n) && ReturnRestores(P, sp, canary, c, n)
    requires GuardedAt(P, sp, canary, c, n + 1).Next? && CarefulAt(P, sp, canary, c, n)
    requires GuardedAt(P, sp, canary, c, n).Next?
    requires var x, bs := GuardedAt(P, sp, canary, c, n).c, Books(P, sp, canary, c, n);
      x.frames != [] && |bs| == |x.frames| && SlotsHold(sp, canary, x, bs)
    ensures var x, bs := GuardedAt(P, sp, canary, c, n + 1).c, Books(P, sp, canary, c, n + 1);
      x.frames != [] && |bs| == |x.frames| && SlotsHold(sp, canary, x, bs)
  {
    hide Guardable, Restoring, Turn, Settled, Balanced, NextBooks, Books, GuardedAt, Gap, SlotsHold, Careful, Sound,
      Pointer;
    var g := TurnAt(P, gt, size, sp, canary, c, n);
    var o, q, bs := GuardedAt(P, sp, canary, c, n).c, GuardedAt(P, sp, canary, c, n + 1).c, Books(P, sp, canary, c, n);
    TurnParts(P, sp, canary, o, g, q);
    BooksBalanced(P, gt, size, sp, canary, c, n);
    GuardableParts(P, gt, size, sp, c);
    GuardedSound(P, gt, size, sp, canary, c, n + 1);
    SoundSize(P, gt, size, g);
    SoundSize(P, gt, size, q);
    PointerBound(P, gt, size, sp, q);
    TurnHolds(P, sp, canary, o, g, q, bs);
  }

  lemma SoundSize(P: Program, gt: seq<ValType>, size: nat, c: Config)
    requires Sound(P, gt, size, c)
    ensures |c.store.mem| == size
  {
  }

  /**
   * No false alarms: in a run that keeps off the slots of the active functions, the check behind a call
   * of a function with an injection never stops the program.
   */
  lemma NoFalseAlarm(P: Program, gt: seq<ValType>, size: nat, sp: nat, canary: nat, c: Config, n: nat)
    requires Guardable(P, gt, size, sp, c) && Restoring(P, sp, canary, c, n) && AllCareful(P, sp, canary, c, n)
    requires GuardedAt(P, sp, canary, c, n).Next?
    ensures var x, bs := GuardedAt(P, sp, canary, c, n).c, Books(P, sp, canary, c, n);
      && x.frames != [] && |bs| == |x.frames| && sp < |x.store.globals|
      && (AtCheck(x) && bs[|bs| - 1].injected ==> Gap(sp, canary, x).Next?)
  {
    hide ValidProgram, KeepsSize, Restoring, Gap, AllCareful, AtCheck, Books, GuardedAt, CanaryBytes, Pointer, Sound;
    var x, bs := GuardedAt(P, sp, canary, c, n).c, Books(P, sp, canary, c, n);
    SlotsHeld(P, gt, size, sp, canary, c, n);
    GuardedSound(P, gt, size, sp, canary, c, n);
    SoundPointer(P, gt, size, sp, x);
    if AtCheck(x) && bs[|bs| - 1].injected {
      CheckedSlot(sp, canary, x);
    }
  }
}
