/** Validation implies matching control markers, which the simulation asks of every fragment. */
module WrapperMarkers {
  import opened Values
  import opened Machine
  import opened Nesting
  import opened Fragments
  import opened Validation
  import opened Transplant

  function KindOf(k: CtrlKind): Kind {
    match k
    case FuncC => BlockK
    case BlockC => BlockK
    case LoopC => LoopK
    case IfC => IfK
    case ElseC => ElseK
  }

  function Kinds(s: VState): (ks: seq<Kind>)
    requires s != []
    ensures |ks| == |s| - 1 && forall k :: 0 <= k < |ks| ==> ks[k] == KindOf(s[k + 1].kind)
  {
    seq(|s| - 1, k requires 0 <= k < |s| - 1 => KindOf(s[k + 1].kind))
  }

  lemma KindsOne(C: Ctx, i: Instr, s: VState)
    requires s != [] && s[0].kind == FuncC && CheckOne(C, i, s).Some?
    requires forall k :: 1 <= k < |s| ==> s[k].kind != FuncC
    ensures var u := CheckOne(C, i, s).value;
      && u != [] && u[0].kind == FuncC && (forall k :: 1 <= k < |u| ==> u[k].kind != FuncC)
      && NestOne(i, Kinds(s)) == Some(Kinds(u))
  {
    hide Finished, Inside, PopAll, Kinds;
    var n, u := |s| - 1, CheckOne(C, i, s).value;
    if Opens(i) {
      PopAllKeepsKind(s[n], if i.IfBegin? then i.bt.params + [I32] else i.bt.params);
      assert Kinds(u) == Kinds(s) + [KindOf(OpensAs(i))];
    } else if i.IfElse? {
      assert n >= 1 && Kinds(s)[n-1] == IfK;
      assert Kinds(u) == Kinds(s)[..n-1] + [ElseK];
    } else if Closes(i) {
      assert Kinds(s)[n-1] == KindOf(s[n].kind);
      assert Kinds(u) == Kinds(s)[..n-1];
    } else {
      KeepsKind(C, i, if i.Br? || i.BrIf? then LabelTypes(s[n - i.depth]) else [], s[n]);
      assert Kinds(u) == Kinds(s);
    }
  }

  lemma {:induction false} KindsOf(C: Ctx, code: Code, s: VState)
    requires s != [] && s[0].kind == FuncC && Check(C, code, s).Some?
    requires forall k :: 1 <= k < |s| ==> s[k].kind != FuncC
    ensures Check(C, code, s).value != [] && Nest(code, Kinds(s)) == Some(Kinds(Check(C, code, s).value))
    decreases |code|
  {
    hide CheckOne;
    if code != [] {
      KindsOne(C, code[0].instr, s);
      KindsOf(C, code[1..], CheckOne(C, code[0].instr, s).value);
    }
  }

  /** A fragment that validates in its wrapper has matching control markers. */
  lemma WrapperNested(C: Ctx, f: Fragment)
    requires WrapperValid(C, f)
    ensures WellNested(f.code)
  {
    StrippedWrapper(C, f);
    var s := Body(KnownOf(f.context), f.context);
    KindsOf(WrapperCtx(C, f), f.code, s);
    assert Kinds(s) == [];
    assert Kinds(Check(WrapperCtx(C, f), f.code, s).value) == [];
  }
}
