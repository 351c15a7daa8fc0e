/**
 * The I/O buffer of the inspection tool: where it lies, the code that appends one 32-bit event to
 * it, and the bytes that are found there afterwards.
 */
module EventBuffer {
  import opened Values
  import opened Machine
  import opened Embedding
  import opened Fragments
  import opened StraightLine

  const GUIDE := 1024
  const IOBUF := 5120
  const CAPACITY := 60416

  /** Positions of the instrumentation's globals, counted from the end of the program's globals. */
  const BASE_ADDR := 1
  const WASI_RET_ADDR := 2
  const IOBUF_ADDR := 3
  const IOBUF_LEN := 4
  const OWN_GLOBALS := 6

  function AddrCode(globals: nat): Code {
    [Op(GlobalGet(globals + IOBUF_ADDR), [I32]), Op(GlobalGet(globals + IOBUF_LEN), [I32]),
     Op(Binary(AddInt32), [I32])]
  }

  /** Leaves with `width` added to the length global. */
  function AdvanceCode(globals: nat, width: nat): Code {
    [Op(Const(Int32(width)), [I32]), Op(GlobalGet(globals + IOBUF_LEN), [I32]),
     Op(Binary(AddInt32), [I32]), Op(GlobalSet(globals + IOBUF_LEN), [])]
  }

  /** Appends to the buffer the value that `push` puts on the stack. */
  function AppendCode(globals: nat, push: StackInst, t: ValType): Code {
    AddrCode(globals) + [push, Op(Machine.Instr.Store(t, 0), [])] + AdvanceCode(globals, Size(t))
  }

  /** The nine instructions that append the event v. */
  function HookCode(globals: nat, v: int): Code {
    AppendCode(globals, Op(Const(Int32(v)), [I32]), I32)
  }

  function EventBytes(ev: seq<int>): (bs: seq<Byte>)
    ensures |bs| == 4 * |ev|
  {
    if ev == [] then [] else Encode(Int32(ev[0])) + EventBytes(ev[1..])
  }

  lemma {:induction false} EventBytesAppend(a: seq<int>, v: int)
    ensures EventBytes(a + [v]) == EventBytes(a) + Encode(Int32(v))
  {
    if a == [] {
      assert [] + [v] == [v];
    } else {
      EventBytesAppend(a[1..], v);
      assert (a + [v])[1..] == a[1..] + [v];
    }
  }

  /** The owned state holds a buffer of n bytes in the page that starts at `size`. */
  predicate BufferAt(size: nat, own: Own, n: nat) {
    && size + PAGE <= WORD
    && |own.globals| >= OWN_GLOBALS && |own.mem| == PAGE
    && own.globals[IOBUF_ADDR] == Int32(size + IOBUF)
    && own.globals[IOBUF_LEN] == Int32(n)
    && n <= CAPACITY
  }

  function Content(own: Own, n: nat): seq<Byte>
    requires n <= CAPACITY && |own.mem| >= PAGE
  {
    own.mem[IOBUF..IOBUF + n]
  }

  predicate Recorded(size: nat, own: Own, ev: seq<int>) {
    BufferAt(size, own, 4 * |ev|) && Content(own, 4 * |ev|) == EventBytes(ev)
  }

  function Recording(size: nat): Rep {
    (own: Own, ev: seq<int>) => Recorded(size, own, ev)
  }

  /** The owned state after bs has been appended to a buffer of n bytes. */
  function Appended(own: Own, n: nat, bs: seq<Byte>): Own
    requires |own.globals| >= OWN_GLOBALS && IOBUF + n + |bs| <= |own.mem|
  {
    Own(own.globals[IOBUF_LEN := Int32(n + |bs|)], Write(own.mem, IOBUF + n, bs))
  }

  // ----- single instructions -----

  lemma PushConst(v: Value, locals: seq<Value>, stack: seq<Value>, st: Store)
    ensures Exec(Const(v), locals, stack, st) == Ok(locals, stack + [v], st)
  {
  }

  lemma PushOwn(globals: nat, x: nat, own: Own, locals: seq<Value>, stack: seq<Value>, st: Store)
    requires |st.globals| == globals && x < |own.globals|
    ensures Exec(GlobalGet(globals + x), locals, stack, Join(st, own)) == Ok(locals, stack + [own.globals[x]], Join(st, own))
  {
  }

  lemma SetOwn(globals: nat, x: nat, v: Value, own: Own, locals: seq<Value>, stack: seq<Value>, st: Store)
    requires |st.globals| == globals && x < |own.globals| && own.globals[x].ty == v.ty
    ensures Exec(GlobalSet(globals + x), locals, stack + [v], Join(st, own))
         == Ok(locals, stack, Join(st, own.(globals := own.globals[x := v])))
  {
    assert (stack + [v])[..|stack|] == stack;
    assert (st.globals + own.globals)[globals + x := v] == st.globals + own.globals[x := v];
  }

  lemma SumWraps(a: int, b: int)
    ensures Int32(Int32(a).bits + Int32(b).bits) == Int32(a + b)
  {
    var x, y := Int32(a).bits, Int32(b).bits;
    assert a + b == x + y + WORD * (a / WORD + b / WORD);
  }

  lemma AddTop(a: int, b: int, locals: seq<Value>, stack: seq<Value>, st: Store)
    ensures Exec(Binary(AddInt32), locals, stack + [Int32(a)] + [Int32(b)], st) == Ok(locals, stack + [Int32(a + b)], st)
  {
    var k := stack + [Int32(a)] + [Int32(b)];
    SumWraps(a, b);
    assert k[..|k| - 2] == stack && k[|k| - 2] == Int32(a) && k[|k| - 1] == Int32(b);
  }

  lemma AddrEffect(globals: nat, size: nat, own: Own, n: nat, locals: seq<Value>, stack: seq<Value>, st: Store)
    requires |st.globals| == globals && BufferAt(size, own, n)
    ensures AllSimple(AddrCode(globals))
    ensures Effects(AddrCode(globals), locals, stack, Join(st, own))
         == Ok(locals, stack + [Int32(size + IOBUF + n)], Join(st, own))
  {
    hide Exec, Join, Effects;
    var code := AddrCode(globals);
    var a, l := Int32(size + IOBUF), Int32(n);
    PushOwn(globals, IOBUF_ADDR, own, locals, stack, st);
    PushOwn(globals, IOBUF_LEN, own, locals, stack + [a], st);
    AddTop(size + IOBUF, n, locals, stack, Join(st, own));
    var s := Join(st, own);
    Follow(code, locals, [stack, stack + [a], stack + [a] + [l], stack + [Int32(size + IOBUF + n)]], [s, s, s, s]);
  }

  lemma AdvanceEffect(globals: nat, own: Own, n: nat, width: nat, locals: seq<Value>, stack: seq<Value>, st: Store)
    requires |st.globals| == globals && |own.globals| >= OWN_GLOBALS && own.globals[IOBUF_LEN] == Int32(n)
    ensures AllSimple(AdvanceCode(globals, width))
    ensures Effects(AdvanceCode(globals, width), locals, stack, Join(st, own))
         == Ok(locals, stack, Join(st, own.(globals := own.globals[IOBUF_LEN := Int32(n + width)])))
  {
    hide Exec, Join, Effects;
    var code := AdvanceCode(globals, width);
    var s := Join(st, own);
    var w, l, r := Int32(width), Int32(n), Int32(width + n);
    PushConst(w, locals, stack, s);
    PushOwn(globals, IOBUF_LEN, own, locals, stack + [w], st);
    AddTop(width, n, locals, stack, s);
    SetOwn(globals, IOBUF_LEN, r, own, locals, stack, st);
    var s2 := Join(st, own.(globals := own.globals[IOBUF_LEN := r]));
    Follow(code, locals, [stack, stack + [w], stack + [w] + [l], stack + [r], stack], [s, s, s, s, s2]);
  }

  lemma WriteBehind(m: seq<Byte>, ext: seq<Byte>, a: nat, bs: seq<Byte>)
    requires a + |bs| <= |ext|
    ensures Write(m + ext, |m| + a, bs) == m + Write(ext, a, bs)
  {
    var s := m + ext;
    assert s[..|m| + a] == m + ext[..a];
    assert s[|m| + a + |bs|..] == ext[a + |bs|..];
  }

  /** A store behind the end of the buffer changes the owned memory there and nothing else. */
  lemma StoreEffect(t: ValType, size: nat, own: Own, n: nat, v: Value, locals: seq<Value>, stack: seq<Value>, st: Store)
    requires |st.mem| == size && BufferAt(size, own, n) && v.ty == t && n + Size(t) <= CAPACITY
    ensures Exec(Machine.Instr.Store(t, 0), locals, stack + [Int32(size + IOBUF + n)] + [v], Join(st, own))
         == Ok(locals, stack, Join(st, own.(mem := Write(own.mem, IOBUF + n, Encode(v)))))
  {
    hide Encode, Write;
    var a, bs := size + IOBUF + n, Encode(v);
    var k := stack + [Int32(a)] + [v];
    assert k[..|k| - 2] == stack && k[|k| - 2].bits == a && k[|k| - 1] == v;
    WriteBehind(st.mem, own.mem, IOBUF + n, bs);
  }

  lemma AppendedContent(own: Own, n: nat, bs: seq<Byte>)
    requires |own.globals| >= OWN_GLOBALS && |own.mem| >= PAGE && n + |bs| <= CAPACITY
    ensures Content(Appended(own, n, bs), n + |bs|) == Content(own, n) + bs
  {
  }

  /** Storing v behind the buffer and advancing the length appends the bytes of v. */
  lemma AppendEffect(globals: nat, size: nat, own: Own, n: nat, push: StackInst, v: Value,
                     locals: seq<Value>, stack: seq<Value>, st: Store)
    requires |st.globals| == globals && |st.mem| == size && BufferAt(size, own, n) && n + Size(v.ty) <= CAPACITY
    requires Simple(push.instr)
    requires var k := stack + [Int32(size + IOBUF + n)];
      Exec(push.instr, locals, k, Join(st, own)) == Ok(locals, k + [v], Join(st, own))
    ensures AllSimple(AppendCode(globals, push, v.ty))
    ensures Effects(AppendCode(globals, push, v.ty), locals, stack, Join(st, own))
         == Ok(locals, stack, Join(st, Appended(own, n, Encode(v))))
  {
    hide Exec, Join, Effects, Write, Encode;
    var mid := [push, Op(Machine.Instr.Store(v.ty, 0), [])];
    var a, z := AddrCode(globals), AdvanceCode(globals, Size(v.ty));
    var k := stack + [Int32(size + IOBUF + n)];
    var own1 := own.(mem := Write(own.mem, IOBUF + n, Encode(v)));
    AddrEffect(globals, size, own, n, locals, stack, st);
    StoreEffect(v.ty, size, own, n, v, locals, stack, st);
    Follow(mid, locals, [k, k + [v], stack], [Join(st, own), Join(st, own), Join(st, own1)]);
    AdvanceEffect(globals, own1, n, Size(v.ty), locals, stack, st);
    ThreeParts(a, mid, z, locals, stack, Join(st, own));
  }

  lemma ThreeParts(a: Code, b: Code, c: Code, locals: seq<Value>, stack: seq<Value>, st: Store)
    requires AllSimple(a) && AllSimple(b) && AllSimple(c)
    ensures AllSimple(a + b + c)
    ensures var r := Effects(a, locals, stack, st);
      r.Ok? ==>
        (var q := Effects(b, r.locals, r.stack, r.store);
         q.Ok? ==> Effects(a + b + c, locals, stack, st) == Effects(c, q.locals, q.stack, q.store))
  {
    hide Exec, Effects;
    EffectsAppend(a, b, locals, stack, st);
    EffectsAppend(a + b, c, locals, stack, st);
  }

  /** Running the hook appends the event to the buffer, and changes nothing else. */
  lemma HookEffect(globals: nat, size: nat, own: Own, n: nat, v: int, locals: seq<Value>, stack: seq<Value>, st: Store)
    requires |st.globals| == globals && |st.mem| == size && BufferAt(size, own, n) && n + 4 <= CAPACITY
    ensures AllSimple(HookCode(globals, v))
    ensures Effects(HookCode(globals, v), locals, stack, Join(st, own))
         == Ok(locals, stack, Join(st, Appended(own, n, Encode(Int32(v)))))
  {
    PushConst(Int32(v), locals, stack + [Int32(size + IOBUF + n)], Join(st, own));
    AppendEffect(globals, size, own, n, Op(Const(Int32(v)), [I32]), Int32(v), locals, stack, st);
  }

  function HookPiece(globals: nat, v: int): Piece {
    Piece(Fragment(HookCode(globals, v), [], []), [v])
  }

  /** As long as the buffer has room, the hook is harmless and records its event. */
  lemma HookHarmless(P: Program, globals: seq<ValType>, size: nat, v: int, ev: seq<int>)
    requires 4 * (|ev| + 1) <= CAPACITY
    ensures Harmless(P, HookPiece(|globals|, v), Recording(size), Shape(globals, Some(size)), ev)
  {
    hide Exec, Join;
    var p, rep := HookPiece(|globals|, v), Recording(size);
    forall locals: seq<Value>, stack: seq<Value>, st: Store, own: Own |
      Fits(p.frag, locals, stack) && InShape(Shape(globals, Some(size)), st) && rep(own, ev)
      ensures Clean(P, p, rep, ev, locals, stack, st, own)
    {
      var n, bs := 4 * |ev|, Encode(Int32(v));
      var own2 := Appended(own, n, bs);
      HookEffect(|globals|, size, own, n, v, locals, stack, st);
      StraightClean(P, p.frag.code, locals, stack, Join(st, own), Join(st, own2));
      AppendedContent(own, n, bs);
      EventBytesAppend(ev, v);
      assert rep(own2, ev + p.emits);
    }
  }
}
