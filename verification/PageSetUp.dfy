/**
 * The set-up function `__instr_load_data` as code on the machine: it adds the inspection tool's page to
 * the memory, computes the addresses in it, and copies the two strings there.
 */
module PageSetUp {
  import opened Values
  import opened Machine
  import opened Embedding
  import opened Fragments
  import opened StraightLine
  import opened EventBuffer
  import opened PageLayout

  /** Computes the base address from the page count that is on the stack. */
  function BaseCode(g: nat): Code {
    [Op(Const(Int32(65536)), [I32]), Op(Binary(MulInt32), [I32]), Op(GlobalGet(g), [I32]),
     Op(Binary(AddInt32), [I32]), Op(GlobalSet(g + BASE_ADDR), [])]
  }

  function AddressCode(g: nat, offset: nat, x: nat): Code {
    [Op(GlobalGet(g + BASE_ADDR), [I32]), Op(Const(Int32(offset)), [I32]),
     Op(Binary(AddInt32), [I32]), Op(GlobalSet(g + x), [])]
  }

  function DotCode(g: nat): Code {
    [Op(GlobalGet(g + BASE_ADDR), [I32]), Op(Const(Int32(0)), [I32]), Op(Const(Int32(2)), [I32]),
     Op(MemoryInit(DOT), [])]
  }

  function FileCode(g: nat): Code {
    [Op(GlobalGet(g + BASE_ADDR), [I32]), Op(Const(Int32(FILENAME)), [I32]), Op(Binary(AddInt32), [I32]),
     Op(Const(Int32(0)), [I32]), Op(Const(Int32(19)), [I32]), Op(MemoryInit(CACHE_FILE), [])]
  }

  function GrowCode(): Code {
    [Op(Const(Int32(1)), [I32]), Op(MemoryGrow, [I32])]
  }

  function AddressesCode(g: nat): Code {
    BaseCode(g) + AddressCode(g, WASI_RET, WASI_RET_ADDR) + AddressCode(g, BUFFER, IOBUF_ADDR)
  }

  /** The body of the set-up function; g is the number of the first global of the instrumentation. */
  function LoadDataCode(g: nat): Code {
    GrowCode() + (AddressesCode(g) + (DotCode(g) + FileCode(g)))
  }

  function LoadDataFunc(g: nat): Func {
    Defined(FuncType([], []), [], LoadDataCode(g))
  }

  // ----- the parts -----

  lemma GetGlobal(x: nat, stack: seq<Value>, s: Store)
    requires x < |s.globals|
    ensures Exec(GlobalGet(x), [], stack, s) == Ok([], stack + [s.globals[x]], s)
  {
  }

  lemma SetGlobal(x: nat, v: Value, s: Store)
    requires x < |s.globals| && s.globals[x].ty == v.ty
    ensures Exec(GlobalSet(x), [], [v], s) == Ok([], [], s.(globals := s.globals[x := v]))
  {
    assert [v][..0] == [];
  }

  lemma MulWraps(a: int, b: nat)
    ensures Int32(Int32(a).bits * b) == Int32(a * b)
  {
    var q, r := a / WORD, a % WORD;
    assert a * b == WORD * (q * b) + r * b by { assert a == WORD * q + r; }
    ModShift(r * b, q * b);
  }

  lemma ModShift(x: int, k: int)
    ensures (WORD * k + x) % WORD == x % WORD
  {
  }

  lemma Multiplies(a: int, b: nat, s: Store)
    requires b < WORD
    ensures Exec(Binary(MulInt32), [], [Int32(a), Int32(b)], s) == Ok([], [Int32(a * b)], s)
  {
    MulWraps(a, b);
    assert [Int32(a), Int32(b)][..0] == [];
  }

  /** The instrumentation's six globals, from number g on. */
  predicate HasGlobals(g: nat, s: Store) {
    g + OWN_GLOBALS == |s.globals| && s.globals[g] == Int32(GUIDE)
    && forall x :: g <= x < g + OWN_GLOBALS ==> s.globals[x].ty == I32
  }

  lemma BaseEffect(g: nat, grown: int, s: Store)
    requires HasGlobals(g, s)
    ensures AllSimple(BaseCode(g))
    ensures Effects(BaseCode(g), [], [Int32(grown)], s)
         == Ok([], [], s.(globals := s.globals[g + BASE_ADDR := Int32(BaseOf(grown))]))
  {
    hide Exec, Effects, Int32;
    var p, k, a, u, r := Int32(grown), Int32(65536), Int32(grown * 65536), Int32(GUIDE), Int32(BaseOf(grown));
    PushConst(k, [], [p], s);
    Multiplies(grown, 65536, s);
    GetGlobal(g, [a], s);
    AddTop(a.bits, GUIDE, [], [], s);
    BitsBack(a);
    BitsBack(Int32(a.bits + GUIDE));
    SetGlobal(g + BASE_ADDR, r, s);
    var s2 := s.(globals := s.globals[g + BASE_ADDR := r]);
    assert [p] + [k] == [p, k] && [a] + [u] == [a, u] && [] + [a] + [u] == [a, u] && [] + [r] == [r];
    Follow(BaseCode(g), [], [[p], [p, k], [a], [a, u], [r], []], [s, s, s, s, s, s2]);
  }

  lemma BitsBack(v: Value)
    requires v.ty == I32
    ensures Int32(v.bits) == v
  {
    WordIsPow256();
  }

  lemma AddressEffect(g: nat, base: nat, offset: nat, x: nat, s: Store)
    requires g + OWN_GLOBALS == |s.globals| && s.globals[g + BASE_ADDR] == Int32(base)
    requires x < OWN_GLOBALS && s.globals[g + x].ty == I32
    ensures AllSimple(AddressCode(g, offset, x))
    ensures Effects(AddressCode(g, offset, x), [], [], s)
         == Ok([], [], s.(globals := s.globals[g + x := Int32(base + offset)]))
  {
    hide Exec, Effects, Int32;
    var b, o, r := Int32(base), Int32(offset), Int32(base + offset);
    GetGlobal(g + BASE_ADDR, [], s);
    PushConst(o, [], [b], s);
    AddTop(base, offset, [], [], s);
    SetGlobal(g + x, r, s);
    var s2 := s.(globals := s.globals[g + x := r]);
    assert [] + [b] == [b] && [b] + [o] == [b, o] && [] + [b] + [o] == [b, o] && [] + [r] == [r];
    Follow(AddressCode(g, offset, x), [], [[], [b], [b, o], [r], []], [s, s, s, s, s2]);
  }

  /** The globals with the three addresses. */
  function WithAddresses(g: nat, base: nat, s: Store): Store
    requires g + OWN_GLOBALS == |s.globals|
  {
    s.(globals := s.globals[g + BASE_ADDR := Int32(base)][g + WASI_RET_ADDR := Int32(base + WASI_RET)]
                           [g + IOBUF_ADDR := Int32(base + BUFFER)])
  }

  lemma AddressesEffect(g: nat, grown: int, s: Store)
    requires HasGlobals(g, s)
    ensures AllSimple(AddressesCode(g))
    ensures Effects(AddressesCode(g), [], [Int32(grown)], s) == Ok([], [], WithAddresses(g, BaseOf(grown), s))
  {
    hide Effects, Int32, BaseCode, AddressCode;
    var base := BaseOf(grown);
    var s1 := s.(globals := s.globals[g + BASE_ADDR := Int32(base)]);
    var s2 := s1.(globals := s1.globals[g + WASI_RET_ADDR := Int32(base + WASI_RET)]);
    BaseEffect(g, grown, s);
    AddressEffect(g, base, WASI_RET, WASI_RET_ADDR, s1);
    AddressEffect(g, base, BUFFER, IOBUF_ADDR, s2);
    ThreeParts(BaseCode(g), AddressCode(g, WASI_RET, WASI_RET_ADDR), AddressCode(g, BUFFER, IOBUF_ADDR),
               [], [Int32(grown)], s);
  }

  /** Copying a string to address a. */
  function Copied(a: nat, bs: seq<Byte>, s: Store): Effect {
    if a + |bs| <= |s.mem| then Ok([], [], s.(mem := Write(s.mem, a, bs))) else Bad(Bounds)
  }

  lemma InitEffect(a: nat, bs: seq<Byte>, s: Store)
    requires a < WORD && |bs| < WORD
    ensures Exec(MemoryInit(bs), [], [Int32(a), Int32(0), Int32(|bs|)], s) == Copied(a, bs, s)
  {
    hide Write;
    var k := [Int32(a), Int32(0), Int32(|bs|)];
    assert k[..0] == [] && bs[0..0 + |bs|] == bs;
  }

  lemma DotEffect(g: nat, base: nat, s: Store)
    requires g + OWN_GLOBALS == |s.globals| && s.globals[g + BASE_ADDR] == Int32(base) && base < WORD
    ensures AllSimple(DotCode(g))
    ensures Effects(DotCode(g), [], [], s) == Copied(base, DOT, s)
  {
    hide Exec, Effects, Int32, Copied;
    var code, b, z, n := DotCode(g), Int32(base), Int32(0), Int32(2);
    assert |DOT| == 2;
    GetGlobal(g + BASE_ADDR, [], s);
    InitEffect(base, DOT, s);
    assert [] + [b] == [b];
    CountsEffect(code, 1, b, 2, s);
    Follow(code[..1], [], [[], [b]], [s, s]);
    assert code[..3] == code[..1] + code[1..3];
    EffectsAppend(code[..1], code[1..3], [], [], s);
    LastEffect(code, 3, [b, z, n], s);
  }

  /** The offset in the segment, which is 0, and the length. */
  lemma CountsEffect(code: Code, k: nat, a: Value, len: nat, s: Store)
    requires k + 2 <= |code| && code[k].instr == Const(Int32(0)) && code[k + 1].instr == Const(Int32(len))
    ensures AllSimple(code[k..k + 2])
    ensures Effects(code[k..k + 2], [], [a], s) == Ok([], [a, Int32(0), Int32(len)], s)
  {
    hide Exec, Int32;
    var part, z, n := code[k..k + 2], Int32(0), Int32(len);
    PushConst(z, [], [a], s);
    PushConst(n, [], [a, z], s);
    assert [a] + [z] == [a, z] && [a, z] + [n] == [a, z, n];
    Follow(part, [], [[a], [a, z], [a, z, n]], [s, s, s]);
  }

  lemma FileEffect(g: nat, base: nat, s: Store)
    requires g + OWN_GLOBALS == |s.globals| && s.globals[g + BASE_ADDR] == Int32(base) && base + FILENAME < WORD
    ensures AllSimple(FileCode(g))
    ensures Effects(FileCode(g), [], [], s) == Copied(base + FILENAME, CACHE_FILE, s)
  {
    hide Exec, Effects, Int32, Copied;
    var code, b, o, a, z, n := FileCode(g), Int32(base), Int32(FILENAME), Int32(base + FILENAME), Int32(0), Int32(19);
    GetGlobal(g + BASE_ADDR, [], s);
    PushConst(o, [], [b], s);
    AddTop(base, FILENAME, [], [], s);
    InitEffect(base + FILENAME, CACHE_FILE, s);
    assert [] + [b] == [b] && [b] + [o] == [b, o] && [] + [b] + [o] == [b, o] && [] + [a] == [a];
    CountsEffect(code, 3, a, 19, s);
    Follow(code[..3], [], [[], [b], [b, o], [a]], [s, s, s, s]);
    assert code[..5] == code[..3] + code[3..5];
    EffectsAppend(code[..3], code[3..5], [], [], s);
    LastEffect(code, 5, [a, z, n], s);
  }

  lemma LastEffect(code: Code, n: nat, stack: seq<Value>, s: Store)
    requires |code| == n + 1 && AllSimple(code) && Effects(code[..n], [], [], s) == Ok([], stack, s)
    ensures Effects(code, [], [], s) == Exec(code[n].instr, [], stack, s)
  {
    hide Exec;
    assert code == code[..n] + code[n..];
    EffectsAppend(code[..n], code[n..], [], [], s);
    assert code[n..] == [code[n]] && code[n..][1..] == [];
  }

  // ----- the whole function -----

  function Pages(st: Store): nat {
    |st.mem| / PAGE
  }

  function Grown(P: Program, s: Store): Store {
    if Pages(s) + 1 <= P.maxPages then s.(mem := s.mem + ZeroBytes(PAGE)) else s
  }

  lemma GrowRuns(P: Program, g: nat, s: Store)
    ensures Run(P, Next(Isolated(LoadDataCode(g), 0, [], [], s)), 2)
         == Next(Isolated(LoadDataCode(g), 2, [], [Int32(GrowResult(Pages(s), P.maxPages))], Grown(P, s)))
  {
    hide Step, Run, AddressesCode, DotCode, FileCode, ZeroBytes;
    var code, one := LoadDataCode(g), Int32(1);
    var c0, c1 := Isolated(code, 0, [], [], s), Isolated(code, 1, [], [one], s);
    PushConst(one, [], [], s);
    assert [] + [one] == [one];
    OneStraightStep(P, code, 0, [], [], s);
    GrowStep(P, code, s);
    RunOne(P, c0);
    RunOne(P, c1);
    RunAdd(P, Next(c0), 1, 1);
  }

  lemma GrowStep(P: Program, code: Code, s: Store)
    requires |code| > 1 && code[1].instr == MemoryGrow
    ensures Step(P, Isolated(code, 1, [], [Int32(1)], s))
         == Next(Isolated(code, 2, [], [Int32(GrowResult(Pages(s), P.maxPages))], Grown(P, s)))
  {
    hide ZeroBytes;
    var c := Isolated(code, 1, [], [Int32(1)], s);
    var f := c.frames[0];
    assert c.frames[..0] == [] && f.stack[..0] == [];
    assert Decide(P, f, s) == Grow(P, f, s);
    assert [] + [Int32(GrowResult(Pages(s), P.maxPages))] == [Int32(GrowResult(Pages(s), P.maxPages))];
  }

  /** The two strings, copied one after the other. */
  function BothCopied(base: nat, s: Store): Effect {
    var r := Copied(base, DOT, s);
    if r.Bad? then r else Copied(base + FILENAME, CACHE_FILE, r.store)
  }

  /** What is left when the page count is on the stack. */
  lemma RestEffect(g: nat, grown: int, s: Store)
    requires HasGlobals(g, s) && BaseOf(grown) + FILENAME < WORD
    ensures |LoadDataCode(g)| > 2 && AllSimple(LoadDataCode(g)[2..])
    ensures Effects(LoadDataCode(g)[2..], [], [Int32(grown)], s)
         == BothCopied(BaseOf(grown), WithAddresses(g, BaseOf(grown), s))
  {
    hide Effects, Int32, AddressesCode, DotCode, FileCode, BothCopied, LoadDataCode, WithAddresses, BaseOf, AllSimple,
      HasGlobals;
    var base, a, b := BaseOf(grown), AddressesCode(g), DotCode(g) + FileCode(g);
    WithBase(g, base, s);
    var s2 := WithAddresses(g, base, s);
    BehindGrow(g);
    AddressesEffect(g, grown, s);
    StringsEffect(g, base, s2);
    EffectsAppend(a, b, [], [Int32(grown)], s);
  }

  lemma BehindGrow(g: nat)
    ensures |LoadDataCode(g)| > 2 && LoadDataCode(g)[2..] == AddressesCode(g) + (DotCode(g) + FileCode(g))
  {
    hide AddressesCode, DotCode;
  }

  lemma WithBase(g: nat, base: nat, s: Store)
    requires HasGlobals(g, s)
    ensures g + OWN_GLOBALS == |s.globals|
    ensures var s2 := WithAddresses(g, base, s); |s2.globals| == |s.globals| && s2.globals[g + BASE_ADDR] == Int32(base)
  {
    hide Int32;
  }

  lemma StringsEffect(g: nat, base: nat, s: Store)
    requires g + OWN_GLOBALS == |s.globals| && s.globals[g + BASE_ADDR] == Int32(base) && base + FILENAME < WORD
    ensures AllSimple(DotCode(g) + FileCode(g))
    ensures Effects(DotCode(g) + FileCode(g), [], [], s) == BothCopied(base, s)
  {
    hide Effects, DotCode, FileCode, Write;
    var r := Copied(base, DOT, s);
    DotEffect(g, base, s);
    FileEffect(g, base, if r.Ok? then r.store else s);
    EffectsAppend(DotCode(g), FileCode(g), [], [], s);
  }

  lemma CopiedPlainly(base: nat, s: Store)
    ensures var r := BothCopied(base, s); r.Ok? ==> r.locals == [] && r.stack == []
  {
  }

  /** The set-up function, from its first instruction to its end or into its trap. */
  lemma LoadDataEnds(P: Program, g: nat, s: Store) returns (n: nat)
    requires HasGlobals(g, s) && BaseOf(GrowResult(Pages(s), P.maxPages)) + FILENAME < WORD
    ensures var base := BaseOf(GrowResult(Pages(s), P.maxPages));
      var r := BothCopied(base, WithAddresses(g, base, Grown(P, s)));
      if r.Ok? then RunsClean(P, LoadDataCode(g), [], [], s, r.store, n)
      else RunsIntoTrap(P, LoadDataCode(g), [], [], s, r.why, n)
  {
    hide Run, Step, Effects, LoadDataCode, BothCopied, WithAddresses;
    var grown := GrowResult(Pages(s), P.maxPages);
    var s1, code := Grown(P, s), LoadDataCode(g);
    GrowRuns(P, g, s);
    RestEffect(g, grown, s1);
    CopiedPlainly(BaseOf(grown), WithAddresses(g, BaseOf(grown), s1));
    var c0 := Isolated(code, 0, [], [], s);
    if Effects(code[2..], [], [Int32(grown)], s1).Ok? {
      StraightRun(P, code, 2, [], [Int32(grown)], s1);
      RunAdd(P, Next(c0), 2, |code| - 2);
      n := |code|;
    } else {
      var m := StraightFails(P, code, 2, [], [Int32(grown)], s1);
      RunAdd(P, Next(c0), 2, m);
      n := 2 + m;
    }
  }

  // ----- the three cases -----

  /** Six globals of the declared types, the first with the offset of the base address. */
  predicate OwnGlobals(gl: seq<Value>) {
    |gl| == OWN_GLOBALS && gl[0] == Int32(GUIDE) && forall x :: 0 <= x < OWN_GLOBALS ==> gl[x].ty == I32
  }

  /** The new page with its two strings. */
  function FreshPage(): (page: seq<Byte>)
    ensures |page| == PAGE
  {
    Write(Write(ZeroBytes(PAGE), GUIDE, DOT), GUIDE + FILENAME, CACHE_FILE)
  }

  lemma JoinHasGlobals(st: Store, gl: seq<Value>, s: Store)
    requires OwnGlobals(gl) && s.globals == st.globals + gl
    ensures HasGlobals(|st.globals|, s)
    ensures forall base: nat :: WithAddresses(|st.globals|, base, s).globals == st.globals + AddressGlobals(gl, base)
  {
    hide Int32;
  }

  /** Where memory can grow: a fresh page behind the program's memory, with the addresses in the globals. */
  lemma LoadDataRuns(P: Program, st: Store, gl: seq<Value>) returns (n: nat)
    requires OwnGlobals(gl) && |st.mem| % PAGE == 0 && Pages(st) + 1 <= P.maxPages <= MAX_PAGES
    ensures RunsClean(P, LoadDataCode(|st.globals|), [], [], Join(st, Own(gl, [])),
                      Join(st, Own(AddressGlobals(gl, |st.mem| + GUIDE), FreshPage())), n)
  {
    hide RunsClean, LoadDataCode, WithAddresses, AddressGlobals, Write, BaseOf;
    var g, s, base := |st.globals|, Join(st, Own(gl, [])), |st.mem| + GUIDE;
    assert s.mem == st.mem;
    BaseAddress(|st.mem|, P.maxPages);
    JoinHasGlobals(st, gl, s);
    JoinHasGlobals(st, gl, Grown(P, s));
    WriteBehind(st.mem, ZeroBytes(PAGE), GUIDE, DOT);
    WriteBehind(st.mem, Write(ZeroBytes(PAGE), GUIDE, DOT), GUIDE + FILENAME, CACHE_FILE);
    n := LoadDataEnds(P, g, s);
    WithAddressesMem(g, base, Grown(P, s));
  }

  lemma WithAddressesMem(g: nat, base: nat, s: Store)
    requires g + OWN_GLOBALS == |s.globals|
    ensures WithAddresses(g, base, s).mem == s.mem && WithAddresses(g, base, s).world == s.world
  {
  }

  /** Where it cannot, and the memory is not of the largest size: the function traps. */
  lemma LoadDataTraps(P: Program, st: Store, gl: seq<Value>) returns (n: nat)
    requires OwnGlobals(gl) && |st.mem| % PAGE == 0 && P.maxPages < Pages(st) + 1 <= MAX_PAGES
    ensures RunsIntoTrap(P, LoadDataCode(|st.globals|), [], [], Join(st, Own(gl, [])), Bounds, n)
  {
    hide RunsIntoTrap, LoadDataCode, WithAddresses, Write, BaseOf;
    var g, s := |st.globals|, Join(st, Own(gl, []));
    assert s.mem == st.mem;
    BaseAddress(|st.mem|, P.maxPages);
    JoinHasGlobals(st, gl, s);
    n := LoadDataEnds(P, g, s);
    WithAddressesMem(g, 0xFFFF_0400, s);
  }

  /** At the largest size: the strings overwrite what the program has in its last page. */
  lemma LoadDataOverwrites(P: Program, st: Store, gl: seq<Value>) returns (n: nat)
    requires OwnGlobals(gl) && |st.mem| == MAX_PAGES * PAGE && P.maxPages <= MAX_PAGES
    ensures RunsClean(P, LoadDataCode(|st.globals|), [], [], Join(st, Own(gl, [])),
                      Join(st.(mem := Write(Write(st.mem, 0xFFFF_0400, DOT), 0xFFFF_0800, CACHE_FILE)),
                           Own(AddressGlobals(gl, 0xFFFF_0400), [])), n)
  {
    hide RunsClean, LoadDataCode, WithAddresses, AddressGlobals, Write, BaseOf;
    var g, s := |st.globals|, Join(st, Own(gl, []));
    assert s.mem == st.mem;
    BaseAddress(|st.mem|, P.maxPages);
    JoinHasGlobals(st, gl, s);
    n := LoadDataEnds(P, g, s);
    WithAddressesMem(g, 0xFFFF_0400, s);
    var m := Write(Write(st.mem, 0xFFFF_0400, DOT), 0xFFFF_0800, CACHE_FILE);
    assert m + [] == m;
  }

  /** The call of the set-up function, and what it leaves: an empty buffer in a page of its own. */
  lemma SetUpRuns(P: Program, load: nat, locals: seq<Value>, stack: seq<Value>, st: Store, gl: seq<Value>)
    returns (n: nat, own: Own)
    requires Closed(P) && load < |P.funcs| && P.funcs[load] == LoadDataFunc(|st.globals|)
    requires OwnGlobals(gl) && gl[IOBUF_LEN] == Int32(0)
    requires |st.mem| % PAGE == 0 && Pages(st) + 1 <= P.maxPages <= MAX_PAGES
    ensures RunsClean(P, CallOf(load), locals, stack, Join(st, Own(gl, [])), Join(st, own), n)
    ensures Recorded(|st.mem|, own, [])
  {
    hide RunsClean, LoadDataCode, AddressGlobals, Recorded, Join;
    own := Own(AddressGlobals(gl, |st.mem| + GUIDE), FreshPage());
    var k := LoadDataRuns(P, st, gl);
    LoadDataCalls(P, |st.globals|);
    CallRuns(P, load, locals, stack, Join(st, Own(gl, [])), Join(st, own), k);
    n := k + 2;
    BaseAddress(|st.mem|, P.maxPages);
    SetUpRecording(|st.mem|, gl, FreshPage());
  }

  lemma LoadDataCalls(P: Program, g: nat)
    ensures CallsKnown(P, LoadDataCode(g))
  {
  }
}
