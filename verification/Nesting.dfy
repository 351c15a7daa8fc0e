/** Control structure of flat code, and what weaving well-nested fragments into it preserves. */
module Nesting {
  import opened Values
  import opened Machine
  import opened Weaving
  import opened Embedding

  datatype Kind = BlockK | LoopK | IfK | ElseK

  /** The open constructs after one marker, outermost first; None when the marker does not fit. */
  function NestOne(i: Instr, ks: seq<Kind>): Option<seq<Kind>> {
    var n := |ks|;
    match i
    case BlockBegin(_) => Some(ks + [BlockK])
    case LoopBegin(_) => Some(ks + [LoopK])
    case IfBegin(_) => Some(ks + [IfK])
    case IfElse => if n > 0 && ks[n-1] == IfK then Some(ks[..n-1] + [ElseK]) else None
    case BlockEnd => if n > 0 && ks[n-1] == BlockK then Some(ks[..n-1]) else None
    case LoopEnd => if n > 0 && ks[n-1] == LoopK then Some(ks[..n-1]) else None
    case IfEnd => if n > 0 && (ks[n-1] == IfK || ks[n-1] == ElseK) then Some(ks[..n-1]) else None
    case _ => Some(ks)
  }

  function Nest(code: Code, ks: seq<Kind>): Option<seq<Kind>> {
    if code == [] then Some(ks)
    else
      var r := NestOne(code[0].instr, ks);
      if r.None? then None else Nest(code[1..], r.value)
  }

  predicate WellNested(code: Code) {
    Nest(code, []) == Some([])
  }

  lemma {:induction false} NestAppend(a: Code, b: Code, ks: seq<Kind>)
    ensures Nest(a + b, ks) == (var r := Nest(a, ks); if r.None? then None else Nest(b, r.value))
  {
    if a == [] {
      assert a + b == b;
    } else {
      assert (a + b)[1..] == a[1..] + b;
      var r := NestOne(a[0].instr, ks);
      if r.Some? {
        NestAppend(a[1..], b, r.value);
      }
    }
  }

  /** A fragment that fits some open constructs fits the same ones deeper inside any context. */
  lemma {:induction false} NestUnder(g: Code, base: seq<Kind>, ks: seq<Kind>)
    requires Nest(g, ks).Some?
    ensures Nest(g, base + ks) == Some(base + Nest(g, ks).value)
  {
    if g != [] {
      var r := NestOne(g[0].instr, ks);
      var n := |ks|;
      if n > 0 {
        assert (base + ks)[|base| + n - 1] == ks[n-1];
        assert (base + ks)[..|base| + n - 1] == base + ks[..n-1];
        assert base + ks[..n-1] + [ElseK] == base + (ks[..n-1] + [ElseK]);
      }
      assert base + ks + [BlockK] == base + (ks + [BlockK]);
      assert base + ks + [LoopK] == base + (ks + [LoopK]);
      assert base + ks + [IfK] == base + (ks + [IfK]);
      assert NestOne(g[0].instr, base + ks) == Some(base + r.value);
      NestUnder(g[1..], base, r.value);
    }
  }

  lemma {:induction false} SimpleNested(code: Code, ks: seq<Kind>)
    requires forall k :: 0 <= k < |code| ==> Simple(code[k].instr)
    ensures Nest(code, ks) == Some(ks)
  {
    if code != [] {
      SimpleNested(code[1..], ks);
    }
  }

  ghost predicate AllNested(gaps: seq<Code>) {
    forall k :: 0 <= k < |gaps| ==> WellNested(gaps[k])
  }

  /** Weaving well-nested gaps neither breaks nor repairs the nesting of the original. */
  lemma {:induction false} WeaveKeepsNesting(code: Code, gaps: seq<Code>, ks: seq<Kind>)
    requires |gaps| == |code| + 1 && AllNested(gaps)
    ensures Nest(Weave(code, gaps), ks) == Nest(code, ks)
  {
    assert WellNested(gaps[0]);
    NestUnder(gaps[0], ks, []);
    assert ks + [] == ks;
    if code != [] {
      var w1 := Weave(code[1..], gaps[1..]);
      assert Weave(code, gaps) == gaps[0] + ([code[0]] + w1);
      NestAppend(gaps[0], [code[0]] + w1, ks);
      assert ([code[0]] + w1)[1..] == w1;
      var r := NestOne(code[0].instr, ks);
      if r.Some? {
        WeaveKeepsNesting(code[1..], gaps[1..], r.value);
      }
    }
  }

  // ----- matching markers -----

  lemma NestOneDepth(i: Instr, ks: seq<Kind>)
    requires NestOne(i, ks).Some?
    ensures var n := |NestOne(i, ks).value|;
      && (Opens(i) ==> n == |ks| + 1)
      && (Closes(i) ==> |ks| > 0 && n == |ks| - 1)
      && (i.IfElse? ==> |ks| > 0)
      && (!Opens(i) && !Closes(i) ==> n == |ks|)
  {
  }

  lemma {:induction false} SkipNested(w: Code, i: nat, j: nat, ks: seq<Kind>, d: nat)
    requires i <= j <= |w|
    requires Nest(w[i..j], ks).Some?
    ensures var ks2 := Nest(w[i..j], ks).value;
      && FindEnd(w, i, d + |ks|) == FindEnd(w, j, d + |ks2|)
      && FindElse(w, i, d + |ks|) == FindElse(w, j, d + |ks2|)
    decreases j - i
  {
    hide NestOne;
    if i < j {
      assert w[i..j][1..] == w[i + 1..j];
      NestOneDepth(w[i].instr, ks);
      SkipNested(w, i + 1, j, NestOne(w[i].instr, ks).value, d);
    }
  }

  lemma AtGap(w: Code, code: Code, gaps: seq<Code>, at: seq<nat>, k: nat)
    requires Laid(w, code, gaps, at) && AllNested(gaps) && k <= |code|
    ensures |at| == |code| + 1 && GapStart(at, k) <= at[k] <= |w|
    ensures Nest(w[GapStart(at, k)..at[k]], []) == Some([])
    ensures if k < |code| then at[k] < |w| && w[at[k]] == code[k] && GapStart(at, k + 1) == at[k] + 1 else at[k] == |w|
  {
    assert LaidAt(w, code, gaps, at, k) && WellNested(gaps[k]);
  }

  lemma {:induction false} FindLaid(w: Code, code: Code, gaps: seq<Code>, at: seq<nat>, k: nat, d: nat)
    requires Laid(w, code, gaps, at) && AllNested(gaps) && k <= |code|
    ensures var t, u := FindEnd(code, k, d), FindElse(code, k, d);
      && FindEnd(w, GapStart(at, k), d) == at[t]
      && FindElse(w, GapStart(at, k), d) == at[u]
    decreases |code| - k
  {
    hide Laid, AllNested, GapStart, Nest;
    AtGap(w, code, gaps, at, k);
    SkipNested(w, GapStart(at, k), at[k], [], d);
    if k < |code| {
      var i := code[k].instr;
      FindLaid(w, code, gaps, at, k + 1, if Opens(i) then d + 1 else if Closes(i) && d > 0 then d - 1 else d);
    }
  }

  function WeaveEmb(gaps: seq<Code>): Emb
    requires gaps != []
  {
    Emb(0, Sites(gaps)[..|gaps| - 1])
  }

  /** Woven code embeds the original: each Begin is matched by its original Else and End. */
  lemma WeaveEmbeds(code: Code, gaps: seq<Code>)
    requires |gaps| == |code| + 1 && AllNested(gaps)
    ensures Embeds(WeaveEmb(gaps), code, Weave(code, gaps))
  {
    WeaveLaid(code, gaps);
    LaidEmbeds(Weave(code, gaps), code, gaps, Sites(gaps));
  }

  lemma LaidEmbeds(w: Code, code: Code, gaps: seq<Code>, at: seq<nat>)
    requires Laid(w, code, gaps, at) && AllNested(gaps)
    ensures Embeds(Emb(0, at[..|code|]), code, w)
  {
    var e := Emb(0, at[..|code|]);
    forall k | 0 <= k < |code|
      ensures e.site[k] < |w| && w[e.site[k]] == code[k] && FindsSame(e, code, w, k)
    {
      assert LaidAt(w, code, gaps, at, k);
      FindLaid(w, code, gaps, at, k + 1, 0);
    }
  }

  // ----- static branch targets -----

  /** The Begin markers open at position k, outermost first. */
  function Openers(code: Code, k: nat): (bs: seq<nat>)
    requires k <= |code|
    ensures forall j :: 0 <= j < |bs| ==> bs[j] < k
  {
    if k == 0 then []
    else
      var bs := Openers(code, k - 1);
      var i := code[k-1].instr;
      if Opens(i) then bs + [k - 1]
      else if Closes(i) && bs != [] then bs[..|bs| - 1]
      else bs
  }

  /** Where a branch to the label of the construct begun at b continues; None if the construct has no End. */
  function Continuation(code: Code, b: nat): Option<nat>
    requires b < |code|
  {
    if code[b].instr.LoopBegin? then Some(b + 1)
    else
      var e := FindEnd(code, b + 1, 0);
      if e == |code| then None else Some(e + 1)
  }

  /** Where a branch to label l taken at position k continues; None for the function's own label or a bad index. */
  function BranchTarget(code: Code, k: nat, l: nat): Option<nat>
    requires k <= |code|
  {
    var bs := Openers(code, k);
    if l >= |bs| then None else Continuation(code, bs[|bs| - 1 - l])
  }

  lemma {:induction false} OpenersSkip(w: Code, i: nat, j: nat)
    requires i <= j <= |w|
    requires Nest(w[i..j], []).Some?
    ensures Openers(w, i) <= Openers(w, j)
    ensures |Openers(w, j)| == |Openers(w, i)| + |Nest(w[i..j], []).value|
    decreases j - i
  {
    if i < j {
      NestAppend(w[i..j-1], [w[j-1]], []);
      assert w[i..j] == w[i..j-1] + [w[j-1]];
      OpenersSkip(w, i, j - 1);
    }
  }

  ghost predicate Moved(bs: seq<nat>, cs: seq<nat>, at: seq<nat>) {
    |cs| == |bs| && forall j {:trigger bs[j]} :: 0 <= j < |bs| ==> bs[j] < |at| && cs[j] == at[bs[j]]
  }

  lemma {:induction false} OneOpener(w: Code, code: Code, at: seq<nat>, k: nat)
    requires k < |code| && k < |at| && at[k] < |w| && w[at[k]] == code[k]
    requires Moved(Openers(code, k), Openers(w, at[k]), at)
    ensures Moved(Openers(code, k + 1), Openers(w, at[k] + 1), at)
  {
  }

  lemma {:induction false} OpenersLaid(w: Code, code: Code, gaps: seq<Code>, at: seq<nat>, k: nat)
    requires Laid(w, code, gaps, at) && AllNested(gaps) && k <= |code|
    ensures at[k] <= |w| && Moved(Openers(code, k), Openers(w, at[k]), at)
  {
    assert LaidAt(w, code, gaps, at, k) && WellNested(gaps[k]);
    OpenersSkip(w, GapStart(at, k), at[k]);
    assert Openers(w, at[k]) == Openers(w, GapStart(at, k));
    if k > 0 {
      assert LaidAt(w, code, gaps, at, k - 1);
      OpenersLaid(w, code, gaps, at, k - 1);
      OneOpener(w, code, at, k - 1);
    }
  }

  /** A branch of the original goes, after weaving, to the start of the gap before its original target. */
  lemma BranchTargetsKept(code: Code, gaps: seq<Code>, k: nat, l: nat)
    requires |gaps| == |code| + 1 && AllNested(gaps) && k < |code|
    ensures var w, at, t := Weave(code, gaps), Sites(gaps), BranchTarget(code, k, l);
      && at[k] < |w| && w[at[k]] == code[k]
      && (t.Some? ==> t.value <= |code|)
      && BranchTarget(w, at[k], l) == (if t.None? then None else Some(GapStart(at, t.value)))
  {
    WeaveLaid(code, gaps);
    TargetsLaid(Weave(code, gaps), code, gaps, Sites(gaps), k, l);
  }

  lemma TargetsLaid(w: Code, code: Code, gaps: seq<Code>, at: seq<nat>, k: nat, l: nat)
    requires Laid(w, code, gaps, at) && AllNested(gaps) && k < |code|
    ensures at[k] < |w| && w[at[k]] == code[k]
    ensures var t := BranchTarget(code, k, l);
      && (t.Some? ==> t.value <= |code|)
      && BranchTarget(w, at[k], l) == (if t.None? then None else Some(GapStart(at, t.value)))
  {
    hide Continuation;
    assert LaidAt(w, code, gaps, at, k);
    OpenersLaid(w, code, gaps, at, k);
    var bs := Openers(code, k);
    if l < |bs| {
      ContinuationLaid(w, code, gaps, at, bs[|bs| - 1 - l]);
    }
  }

  lemma ContinuationLaid(w: Code, code: Code, gaps: seq<Code>, at: seq<nat>, b: nat)
    requires Laid(w, code, gaps, at) && AllNested(gaps) && b < |code|
    ensures at[b] < |w|
    ensures var t := Continuation(code, b);
      && (t.Some? ==> t.value <= |code|)
      && Continuation(w, at[b]) == (if t.None? then None else Some(GapStart(at, t.value)))
  {
    var e := FindEnd(code, b + 1, 0);
    assert LaidAt(w, code, gaps, at, b) && LaidAt(w, code, gaps, at, e) && LaidAt(w, code, gaps, at, |code|);
    FindLaid(w, code, gaps, at, b + 1, 0);
  }
}
