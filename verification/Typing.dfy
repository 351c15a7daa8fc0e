/** What the validator knows at each position of valid code, and at the matching markers. */
module Typing {
  import opened Values
  import opened Machine
  import opened Validation

  /** The validator's state in front of instruction k. */
  function StateBefore(C: Ctx, code: Code, k: nat): Option<VState>
    requires k <= |code|
  {
    Check(C, code[..k], Body([], C.ret))
  }

  lemma StateNext(C: Ctx, code: Code, k: nat)
    requires k < |code| && StateBefore(C, code, k).Some?
    ensures StateBefore(C, code, k + 1) == CheckOne(C, code[k].instr, StateBefore(C, code, k).value)
  {
    hide CheckOne;
    assert code[..k + 1] == code[..k] + [code[k]] && [code[k]][1..] == [];
    CheckAppend(C, code[..k], [code[k]], Body([], C.ret));
    OneChecked(C, code[k], StateBefore(C, code, k).value);
  }

  lemma OneChecked(C: Ctx, x: StackInst, s: VState)
    ensures Check(C, [x], s) == CheckOne(C, x.instr, s)
  {
    hide CheckOne;
    assert [x][1..] == [];
    var r := CheckOne(C, x.instr, s);
    assert r.Some? ==> Check(C, [], r.value) == r;
  }

  lemma StateExists(C: Ctx, code: Code, k: nat)
    requires ValidBody(C, code) && k <= |code|
    ensures StateBefore(C, code, k).Some?
  {
    assert code == code[..k] + code[k..];
    CheckAppend(C, code[..k], code[k..], Body([], C.ret));
  }

  lemma StateAtEnd(C: Ctx, code: Code)
    requires ValidBody(C, code)
    ensures var r := StateBefore(C, code, |code|); r.Some? && |r.value| == 1 && Finished(r.value[0])
  {
    assert code[..|code|] == code;
  }

  /** The outermost frame is always the function's own. */
  lemma FunctionFrame(C: Ctx, code: Code, k: nat)
    requires k <= |code| && StateBefore(C, code, k).Some?
    ensures var s := StateBefore(C, code, k).value; s != [] && s[0].kind == FuncC && s[0].end == C.ret
  {
    BottomKept(C, code[..k], Body([], C.ret));
  }

  predicate SameFrame(f: Ctrl, g: Ctrl) {
    f.kind == g.kind && f.start == g.start && f.end == g.end
  }

  /** How one instruction changes the control frames: by opening, by closing, at an Else, or not at all. */
  lemma AfterOpening(C: Ctx, i: Instr, s: VState)
    requires CheckOne(C, i, s).Some? && Opens(i)
    ensures var u, n := CheckOne(C, i, s).value, |s| - 1;
      n >= 0 && |u| == n + 2 && u[..n] == s[..n] && SameFrame(s[n], u[n]) && u[n + 1] == NewFrame(OpensAs(i), i.bt)
  {
    hide PopAll, NewFrame;
    PopAllKeepsKind(s[|s| - 1], if i.IfBegin? then i.bt.params + [I32] else i.bt.params);
  }

  lemma AfterClosing(C: Ctx, i: Instr, s: VState)
    requires CheckOne(C, i, s).Some? && Closes(i)
    ensures var n := |s| - 1;
      n >= 1 && MayClose(i, s[n]) && CheckOne(C, i, s).value == s[..n-1] + [Push(s[n-1], s[n].end)]
  {
  }

  lemma AfterElse(C: Ctx, i: Instr, s: VState)
    requires CheckOne(C, i, s).Some? && i.IfElse?
    ensures var n := |s| - 1;
      && n >= 0 && s[n].kind == IfC
      && CheckOne(C, i, s).value == s[..n] + [NewFrame(ElseC, FuncType(s[n].start, s[n].end))]
  {
  }

  lemma AfterOther(C: Ctx, i: Instr, s: VState)
    requires CheckOne(C, i, s).Some? && !Opens(i) && !Closes(i) && !i.IfElse?
    ensures var u, n := CheckOne(C, i, s).value, |s| - 1;
      n >= 0 && |u| == n + 1 && u[..n] == s[..n] && SameFrame(s[n], u[n])
  {
    hide Inside;
    var n := |s| - 1;
    KeepsKind(C, i, if i.Br? || i.BrIf? then LabelTypes(s[n - i.depth]) else [], s[n]);
  }

  /** The frames of `base` are the outer ones of s, and the construct above them has type bt. */
  ghost predicate Within(base: VState, bt: FuncType, s: VState) {
    && base != [] && |s| > |base| && s[..|base|] == base
    && s[|base|].start == bt.params && s[|base|].end == bt.results
  }

  /** Behind the End of a construct: the frames around it, with its results pushed. */
  function Ended(base: VState, bt: FuncType): VState
    requires base != []
  {
    base[..|base| - 1] + [Push(base[|base| - 1], bt.results)]
  }

  lemma WithinNext(C: Ctx, i: Instr, base: VState, bt: FuncType, s: VState)
    requires Within(base, bt, s) && CheckOne(C, i, s).Some?
    ensures var u := CheckOne(C, i, s).value;
      && (Closes(i) && |s| == |base| + 1 ==> u == Ended(base, bt))
      && (!(Closes(i) && |s| == |base| + 1) ==>
            && Within(base, bt, u)
            && |u| == (if Opens(i) then |s| + 1 else if Closes(i) then |s| - 1 else |s|)
            && ((i.IfElse? && |s| == |base| + 1) || u[|base|].kind == s[|base|].kind))
  {
    hide CheckOne, NewFrame;
    var u, n, m := CheckOne(C, i, s).value, |s| - 1, |base|;
    if Closes(i) {
      AfterClosing(C, i, s);
      assert s[..n-1] + [s[n-1]] == s[..n];
      if n == m {
        assert base[..m-1] == s[..n-1];
      } else {
        assert u[..m] == s[..n-1][..m] == s[..m];
      }
    } else {
      if Opens(i) {
        AfterOpening(C, i, s);
      } else if i.IfElse? {
        AfterElse(C, i, s);
      } else {
        AfterOther(C, i, s);
      }
      assert u[..m] == u[..n][..m] && s[..m] == s[..n][..m] && u[..n] == s[..n];
      NewFrameType(s[n]);
    }
  }

  lemma NewFrameType(f: Ctrl)
    ensures var g := NewFrame(ElseC, FuncType(f.start, f.end)); g.start == f.start && g.end == f.end
  {
  }

  /** The End a branch finds closes the construct the validator has open there. */
  lemma {:induction false} EndFound(C: Ctx, code: Code, base: VState, bt: FuncType, i: nat)
    requires ValidBody(C, code) && i <= |code|
    requires var r := StateBefore(C, code, i); r.Some? && Within(base, bt, r.value)
    ensures var e := FindEnd(code, i, |StateBefore(C, code, i).value| - |base| - 1);
      e < |code| && StateBefore(C, code, e + 1) == Some(Ended(base, bt))
    decreases |code| - i
  {
    hide CheckOne, StateBefore, Ended, ValidBody, Within;
    var s := StateBefore(C, code, i).value;
    if i == |code| {
      AtEndNothingOpen(C, code, base, bt);
    } else {
      var x := code[i].instr;
      StateNext(C, code, i);
      StateExists(C, code, i + 1);
      WithinNext(C, x, base, bt, s);
      WithinSize(base, bt, s);
      if !(Closes(x) && |s| == |base| + 1) {
        WithinSize(base, bt, StateBefore(C, code, i + 1).value);
        EndFound(C, code, base, bt, i + 1);
      }
    }
  }

  lemma WithinSize(base: VState, bt: FuncType, s: VState)
    requires Within(base, bt, s)
    ensures |s| >= |base| + 1 >= 2
  {
  }

  lemma AtEndNothingOpen(C: Ctx, code: Code, base: VState, bt: FuncType)
    requires ValidBody(C, code)
    ensures var r := StateBefore(C, code, |code|); r.Some? && !Within(base, bt, r.value)
  {
    StateAtEnd(C, code);
  }

  /** The Else a false condition finds belongs to its If; without one the If returns what it takes. */
  lemma {:induction false} ElseFound(C: Ctx, code: Code, base: VState, bt: FuncType, i: nat)
    requires ValidBody(C, code) && i <= |code|
    requires var r := StateBefore(C, code, i);
      r.Some? && Within(base, bt, r.value) && r.value[|base|].kind == IfC
    ensures var e := FindElse(code, i, |StateBefore(C, code, i).value| - |base| - 1);
      && e < |code|
      && (if code[e].instr.IfElse? then StateBefore(C, code, e + 1) == Some(base + [NewFrame(ElseC, bt)])
          else bt.params == bt.results && StateBefore(C, code, e + 1) == Some(Ended(base, bt)))
    decreases |code| - i
  {
    hide CheckOne, StateBefore, Ended, ValidBody, NewFrame;
    var s := StateBefore(C, code, i).value;
    if i == |code| {
      AtEndNothingOpen(C, code, base, bt);
    } else {
      var x := code[i].instr;
      StateNext(C, code, i);
      StateExists(C, code, i + 1);
      WithinNext(C, x, base, bt, s);
      if x.IfElse? {
        AfterElse(C, x, s);
      } else if Closes(x) {
        AfterClosing(C, x, s);
      }
      if !((Closes(x) || x.IfElse?) && |s| == |base| + 1) {
        ElseFound(C, code, base, bt, i + 1);
      } else if x.IfElse? {
        assert s[..|s| - 1] == base;
      }
    }
  }
}
