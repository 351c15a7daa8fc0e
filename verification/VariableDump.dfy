/** The locals and globals inspections: the generated code that dumps values, and the reader of the dump. */
module VariableDump {
  import opened Values
  import opened Machine
  import opened Embedding
  import opened Fragments
  import opened StraightLine
  import opened EventBuffer

  /** 'l' for locals, 'g' for globals. */
  datatype Item = LocalItem | GlobalItem

  /** A variable's type; None where the tool has marked it as not printable. */
  type VarType = Option<ValType>

  function GetInstr(item: Item, i: nat, t: ValType): StackInst {
    Op(if item.LocalItem? then LocalGet(i) else GlobalGet(i), [t])
  }

  function DumpOne(globals: nat, item: Item, i: nat, t: VarType): Code {
    if t.None? then [] else AppendCode(globals, GetInstr(item, i, t.value), t.value)
  }

  /** The code for the variables from number k on. */
  function DumpFrom(globals: nat, item: Item, types: seq<VarType>, k: nat): Code
    requires k <= |types|
    decreases |types| - k
  {
    if k == |types| then [] else DumpOne(globals, item, k, types[k]) + DumpFrom(globals, item, types, k + 1)
  }

  /** The operation that is being put together. */
  class PendingOp {
    var instructions: Code
    var localTypes: seq<VarType>

    constructor ()
      ensures instructions == [] && localTypes == []
    {
      instructions, localTypes := [], [];
    }
  }

  method MakeVariableOp(globals: nat, types: seq<VarType>, item: Item, op: PendingOp)
    modifies op
    ensures op.instructions == old(op.instructions) + DumpFrom(globals, item, types, 0)
    ensures op.localTypes == if item.LocalItem? then types else old(op.localTypes)
  {
    hide AppendCode;
    if item.LocalItem? {
      op.localTypes := types;
    }
    ghost var before := op.instructions;
    for i := 0 to |types|
      invariant op.instructions + DumpFrom(globals, item, types, i) == before + DumpFrom(globals, item, types, 0)
      invariant op.localTypes == if item.LocalItem? then types else old(op.localTypes)
    {
      if types[i].None? {
        continue;
      }
      var t := types[i].value;
      ghost var now := op.instructions;
      op.instructions := op.instructions + AddrCode(globals) + [GetInstr(item, i, t)];
      op.instructions := op.instructions + [Op(Machine.Instr.Store(t, 0), [])];
      op.instructions := op.instructions + AdvanceCode(globals, Size(t));
      assert op.instructions == now + DumpOne(globals, item, i, types[i]) by { Pieces(globals, item, i, t, now); }
    }
    assert op.instructions + [] == op.instructions;
  }

  lemma Pieces(globals: nat, item: Item, i: nat, t: ValType, now: Code)
    ensures now + AddrCode(globals) + [GetInstr(item, i, t)] + [Op(Machine.Instr.Store(t, 0), [])]
              + AdvanceCode(globals, Size(t))
         == now + DumpOne(globals, item, i, Some(t))
  {
    hide AddrCode, AdvanceCode;
    var a, g, s, z := AddrCode(globals), GetInstr(item, i, t), Op(Machine.Instr.Store(t, 0), []), AdvanceCode(globals, Size(t));
    assert now + a + [g] + [s] + z == now + (a + [g, s] + z);
  }

  // ----- what the code does -----

  /** Every printable variable has a value of its type. */
  ghost predicate ValuesFit(types: seq<VarType>, vals: seq<Value>) {
    |types| <= |vals| && forall i :: 0 <= i < |types| && types[i].Some? ==> vals[i].ty == types[i].value
  }

  function BytesFrom(types: seq<VarType>, vals: seq<Value>, k: nat): (bs: seq<Byte>)
    requires ValuesFit(types, vals) && k <= |types|
    decreases |types| - k
  {
    if k == |types| then [] else (if types[k].None? then [] else Encode(vals[k])) + BytesFrom(types, vals, k + 1)
  }

  /** The bytes of all dumped values: the sum of their sizes. */
  function DumpSize(types: seq<VarType>, k: nat): nat
    requires k <= |types|
    decreases |types| - k
  {
    if k == |types| then 0 else (if types[k].None? then 0 else Size(types[k].value)) + DumpSize(types, k + 1)
  }

  lemma {:induction false} BytesSize(types: seq<VarType>, vals: seq<Value>, k: nat)
    requires ValuesFit(types, vals) && k <= |types|
    ensures |BytesFrom(types, vals, k)| == DumpSize(types, k)
    decreases |types| - k
  {
    if k < |types| {
      BytesSize(types, vals, k + 1);
    }
  }

  lemma AppendTwice(own: Own, n: nat, a: seq<Byte>, b: seq<Byte>)
    requires |own.globals| >= OWN_GLOBALS && IOBUF + n + |a| + |b| <= |own.mem|
    ensures Appended(Appended(own, n, a), n + |a|, b) == Appended(own, n, a + b)
  {
    var x := IOBUF + n;
    var m1 := Write(own.mem, x, a);
    assert Write(m1, x + |a|, b) == own.mem[..x] + (a + b) + own.mem[x + |a| + |b|..] by {
      assert m1[..x + |a|] == own.mem[..x] + a;
      assert m1[x + |a| + |b|..] == own.mem[x + |a| + |b|..];
    }
  }

  lemma AppendNothing(own: Own, n: nat)
    requires |own.globals| >= OWN_GLOBALS && IOBUF + n <= |own.mem| && own.globals[IOBUF_LEN] == Int32(n)
    ensures Appended(own, n, []) == own
  {
    assert Write(own.mem, IOBUF + n, []) == own.mem;
  }

  lemma AppendKeepsBuffer(size: nat, own: Own, n: nat, bs: seq<Byte>)
    requires BufferAt(size, own, n) && n + |bs| <= CAPACITY
    ensures BufferAt(size, Appended(own, n, bs), n + |bs|)
  {
  }

  /** The variables the code reads. */
  function Source(item: Item, locals: seq<Value>, st: Store): seq<Value> {
    if item.LocalItem? then locals else st.globals
  }

  lemma GetEffect(item: Item, i: nat, t: ValType, locals: seq<Value>, stack: seq<Value>, st: Store, own: Own)
    requires i < |Source(item, locals, st)|
    ensures Simple(GetInstr(item, i, t).instr)
    ensures Exec(GetInstr(item, i, t).instr, locals, stack, Join(st, own))
         == Ok(locals, stack + [Source(item, locals, st)[i]], Join(st, own))
  {
  }

  lemma {:induction false} DumpEffect(globals: nat, size: nat, item: Item, types: seq<VarType>, k: nat,
                                      own: Own, n: nat, locals: seq<Value>, stack: seq<Value>, st: Store)
    requires |st.globals| == globals && |st.mem| == size && BufferAt(size, own, n) && k <= |types|
    requires ValuesFit(types, Source(item, locals, st))
    requires n + DumpSize(types, k) <= CAPACITY
    ensures |BytesFrom(types, Source(item, locals, st), k)| == DumpSize(types, k)
    ensures AllSimple(DumpFrom(globals, item, types, k))
    ensures Effects(DumpFrom(globals, item, types, k), locals, stack, Join(st, own))
         == Ok(locals, stack, Join(st, Appended(own, n, BytesFrom(types, Source(item, locals, st), k))))
    decreases |types| - k
  {
    hide Exec, Join, AppendCode, Appended, BufferAt, GetInstr, Encode;
    var vals := Source(item, locals, st);
    BytesSize(types, vals, k);
    BufferFacts(size, own, n);
    if k == |types| {
      AppendNothing(own, n);
    } else if types[k].None? {
      DumpEffect(globals, size, item, types, k + 1, own, n, locals, stack, st);
      assert [] + DumpFrom(globals, item, types, k + 1) == DumpFrom(globals, item, types, k + 1);
      assert [] + BytesFrom(types, vals, k + 1) == BytesFrom(types, vals, k + 1);
    } else {
      var t, a, b := types[k].value, Encode(vals[k]), BytesFrom(types, vals, k + 1);
      BytesSize(types, vals, k + 1);
      OneDumped(globals, size, item, k, t, own, n, locals, stack, st);
      AppendKeepsBuffer(size, own, n, a);
      DumpEffect(globals, size, item, types, k + 1, Appended(own, n, a), n + |a|, locals, stack, st);
      AppendTwice(own, n, a, b);
      EffectsAppend(DumpOne(globals, item, k, types[k]), DumpFrom(globals, item, types, k + 1), locals, stack, Join(st, own));
    }
  }

  lemma OneDumped(globals: nat, size: nat, item: Item, k: nat, t: ValType, own: Own, n: nat,
                  locals: seq<Value>, stack: seq<Value>, st: Store)
    requires |st.globals| == globals && |st.mem| == size && BufferAt(size, own, n) && n + Size(t) <= CAPACITY
    requires k < |Source(item, locals, st)| && Source(item, locals, st)[k].ty == t
    ensures |own.globals| >= OWN_GLOBALS && IOBUF + CAPACITY <= |own.mem|
    ensures AllSimple(DumpOne(globals, item, k, Some(t)))
    ensures Effects(DumpOne(globals, item, k, Some(t)), locals, stack, Join(st, own))
         == Ok(locals, stack, Join(st, Appended(own, n, Encode(Source(item, locals, st)[k]))))
  {
    hide Exec, Join, AppendCode, Appended, GetInstr, Effects;
    var v := Source(item, locals, st)[k];
    GetEffect(item, k, t, locals, stack + [Int32(size + IOBUF + n)], st, own);
    AppendEffect(globals, size, own, n, GetInstr(item, k, t), v, locals, stack, st);
  }

  lemma BufferFacts(size: nat, own: Own, n: nat)
    requires BufferAt(size, own, n)
    ensures |own.globals| >= OWN_GLOBALS && IOBUF + CAPACITY <= |own.mem| && n <= CAPACITY
    ensures own.globals[IOBUF_LEN] == Int32(n)
  {
  }

  // ----- the reader -----

  /** The printable variables with their numbers. */
  function Listed(types: seq<VarType>, vals: seq<Value>, k: nat): seq<(nat, Value)>
    requires ValuesFit(types, vals) && k <= |types|
    decreases |types| - k
  {
    if k == |types| then []
    else (if types[k].None? then [] else [(k, vals[k])]) + Listed(types, vals, k + 1)
  }

  /** Exactly the printable variables are listed, each with its number and value, in ascending order. */
  lemma {:induction false} ListedExactly(types: seq<VarType>, vals: seq<Value>, k: nat)
    requires ValuesFit(types, vals) && k <= |types|
    ensures var r := Listed(types, vals, k);
      && (forall e :: e in r <==> k <= e.0 < |types| && types[e.0].Some? && e.1 == vals[e.0])
      && (forall i, j :: 0 <= i < j < |r| ==> r[i].0 < r[j].0)
    decreases |types| - k
  {
    if k < |types| {
      ListedExactly(types, vals, k + 1);
      var rest := Listed(types, vals, k + 1);
      assert forall i :: 0 <= i < |rest| ==> rest[i] in rest;
    }
  }

  /** What is read for the variables from number k on; None if the file ends too early. */
  function ReadFrom(types: seq<VarType>, k: nat, file: seq<Byte>): Option<seq<(nat, Value)>>
    requires k <= |types|
    decreases |types| - k
  {
    if k == |types| then Some([])
    else if types[k].None? then ReadFrom(types, k + 1, file)
    else
      var n := Size(types[k].value);
      if |file| < n then None
      else
        var r := ReadFrom(types, k + 1, file[n..]);
        if r.None? then None else Some([(k, Decode(types[k].value, file[..n]))] + r.value)
  }

  /** The reader fails exactly on a file that is too short; what stands behind the last value is not read. */
  lemma {:induction false} ReadExactly(types: seq<VarType>, k: nat, file: seq<Byte>, more: seq<Byte>)
    requires k <= |types|
    ensures ReadFrom(types, k, file).None? <==> |file| < DumpSize(types, k)
    ensures ReadFrom(types, k, file).Some? ==> ReadFrom(types, k, file + more) == ReadFrom(types, k, file)
    decreases |types| - k
  {
    if k < |types| {
      if types[k].None? {
        ReadExactly(types, k + 1, file, more);
      } else {
        var n := Size(types[k].value);
        if n <= |file| {
          ReadExactly(types, k + 1, file[n..], more);
          assert (file + more)[..n] == file[..n] && (file + more)[n..] == file[n..] + more;
        }
      }
    }
  }

  /** The printing loop: one value after the other from the file. */
  method PrintVariables(types: seq<VarType>, file: seq<Byte>) returns (out: Option<seq<(nat, Value)>>)
    ensures out == ReadFrom(types, 0, file)
  {
    var pos := 0;
    var lines: seq<(nat, Value)> := [];
    assert file[0..] == file;
    assert forall xs: seq<(nat, Value)> :: lines + xs == xs;
    for i := 0 to |types|
      invariant pos <= |file|
      invariant ReadFrom(types, 0, file) ==
                (var r := ReadFrom(types, i, file[pos..]); if r.None? then None else Some(lines + r.value))
    {
      if types[i].None? {
        continue;
      }
      var n := Size(types[i].value);
      if |file| - pos < n {
        return None;
      }
      assert file[pos..][..n] == file[pos..pos + n] && file[pos..][n..] == file[pos + n..];
      ghost var before := lines;
      lines := lines + [(i, Decode(types[i].value, file[pos..pos + n]))];
      assert forall xs: seq<(nat, Value)> :: before + ([lines[|lines| - 1]] + xs) == lines + xs;
      pos := pos + n;
    }
    out := Some(lines);
    assert lines + [] == lines;
  }

  lemma {:induction false} ReadBack(types: seq<VarType>, vals: seq<Value>, k: nat)
    requires ValuesFit(types, vals) && k <= |types|
    ensures ReadFrom(types, k, BytesFrom(types, vals, k)) == Some(Listed(types, vals, k))
    decreases |types| - k
  {
    if k < |types| {
      ReadBack(types, vals, k + 1);
      var rest := BytesFrom(types, vals, k + 1);
      if types[k].None? {
        assert [] + rest == rest && [] + Listed(types, vals, k + 1) == Listed(types, vals, k + 1);
      } else {
        var a := Encode(vals[k]);
        assert (a + rest)[..|a|] == a && (a + rest)[|a|..] == rest;
        ValueRoundTrip(vals[k]);
      }
    }
  }

  /**
   * The round trip: running the generated code on an empty buffer changes nothing but the buffer and
   * its length, and the reader gets back every printable variable's current value, in order.
   */
  lemma DumpRoundTrip(P: Program, globals: nat, size: nat, item: Item, types: seq<VarType>,
                      own: Own, locals: seq<Value>, stack: seq<Value>, st: Store)
    requires |st.globals| == globals && |st.mem| == size && BufferAt(size, own, 0)
    requires ValuesFit(types, Source(item, locals, st)) && DumpSize(types, 0) <= CAPACITY
    ensures |BytesFrom(types, Source(item, locals, st), 0)| == DumpSize(types, 0)
    ensures var vals, len := Source(item, locals, st), DumpSize(types, 0);
      var own2 := Appended(own, 0, BytesFrom(types, vals, 0));
      && RunsClean(P, DumpFrom(globals, item, types, 0), locals, stack, Join(st, own), Join(st, own2),
                   |DumpFrom(globals, item, types, 0)|)
      && own2.globals == own.globals[IOBUF_LEN := Int32(len)]
      && own2.mem[..IOBUF] == own.mem[..IOBUF] && own2.mem[IOBUF + len..] == own.mem[IOBUF + len..]
      && ReadFrom(types, 0, Content(own2, len)) == Some(Listed(types, vals, 0))
  {
    hide Exec, Join, Effects, RunsClean, DumpFrom, BytesFrom, ReadFrom, Listed;
    var vals := Source(item, locals, st);
    var bs := BytesFrom(types, vals, 0);
    DumpEffect(globals, size, item, types, 0, own, 0, locals, stack, st);
    BufferFacts(size, own, 0);
    var own2 := Appended(own, 0, bs);
    StraightClean(P, DumpFrom(globals, item, types, 0), locals, stack, Join(st, own), Join(st, own2));
    AppendedContent(own, 0, bs);
    assert Content(own, 0) + bs == bs;
    assert 0 + |bs| == DumpSize(types, 0);
    ReadBack(types, vals, 0);
  }
}
