/**
 * The shape every insertion produces: the original elements in order, with a gap of inserted
 * elements before the first, between any two, and after the last.
 */
module Weaving {

  function Weave<T>(code: seq<T>, gaps: seq<seq<T>>): seq<T>
    requires |gaps| == |code| + 1
  {
    if code == [] then gaps[0] else gaps[0] + [code[0]] + Weave(code[1..], gaps[1..])
  }

  /** Position of original element k after weaving; for k == |code|, the end. */
  function Site<T>(gaps: seq<seq<T>>, k: nat): nat
    requires k < |gaps|
  {
    if k == 0 then |gaps[0]| else |gaps[0]| + 1 + Site(gaps[1..], k - 1)
  }

  /** Position where gap k begins. */
  function Arrive<T>(gaps: seq<seq<T>>, k: nat): nat
    requires k < |gaps|
  {
    if k == 0 then 0 else Site(gaps, k - 1) + 1
  }

  lemma {:induction false} SiteStep<T>(gaps: seq<seq<T>>, k: nat)
    requires k < |gaps|
    ensures Site(gaps, k) == Arrive(gaps, k) + |gaps[k]|
  {
    if k > 0 {
      SiteStep(gaps[1..], k - 1);
    }
  }

  lemma {:induction false} WeaveLength<T>(code: seq<T>, gaps: seq<seq<T>>)
    requires |gaps| == |code| + 1
    ensures |Weave(code, gaps)| == Site(gaps, |code|)
  {
    if code != [] {
      WeaveLength(code[1..], gaps[1..]);
    }
  }

  /** The woven list holds original k at Site(k), and gap k just before it. */
  lemma {:induction false} WeaveAt<T>(code: seq<T>, gaps: seq<seq<T>>, k: nat)
    requires |gaps| == |code| + 1 && k <= |code|
    ensures Arrive(gaps, k) <= Site(gaps, k) <= |Weave(code, gaps)|
    ensures Weave(code, gaps)[Arrive(gaps, k)..Site(gaps, k)] == gaps[k]
    ensures k < |code| ==> Site(gaps, k) < |Weave(code, gaps)| && Weave(code, gaps)[Site(gaps, k)] == code[k]
  {
    WeaveLength(code, gaps);
    SiteStep(gaps, k);
    var w := Weave(code, gaps);
    if k == 0 {
      assert w[..|gaps[0]|] == gaps[0];
    } else {
      var w1 := Weave(code[1..], gaps[1..]);
      WeaveAt(code[1..], gaps[1..], k - 1);
      var d := |gaps[0]| + 1;
      assert w[d..] == w1;
      assert Arrive(gaps, k) == d + Arrive(gaps[1..], k - 1);
      assert w[Arrive(gaps, k)..Site(gaps, k)] == w1[Arrive(gaps[1..], k - 1)..Site(gaps[1..], k - 1)];
    }
  }

  /** All sites, the end of the woven list last. */
  function Sites<T>(gaps: seq<seq<T>>): (at: seq<nat>)
    ensures |at| == |gaps|
    ensures forall k :: 0 <= k < |gaps| ==> at[k] == Site(gaps, k)
  {
    seq(|gaps|, k requires 0 <= k < |gaps| => Site(gaps, k))
  }

  /** Start of gap k, given the sites. */
  function GapStart(at: seq<nat>, k: nat): nat
    requires k <= |at|
  {
    if k == 0 then 0 else at[k-1] + 1
  }

  ghost predicate LaidAt<T>(w: seq<T>, code: seq<T>, gaps: seq<seq<T>>, at: seq<nat>, k: nat)
    requires |gaps| == |at| == |code| + 1 && k <= |code|
  {
    && GapStart(at, k) <= at[k] <= |w|
    && w[GapStart(at, k)..at[k]] == gaps[k]
    && (if k < |code| then at[k] < |w| && w[at[k]] == code[k] else at[k] == |w|)
  }

  /** The woven list described position by position. */
  ghost predicate Laid<T>(w: seq<T>, code: seq<T>, gaps: seq<seq<T>>, at: seq<nat>) {
    |gaps| == |at| == |code| + 1 && forall k :: 0 <= k <= |code| ==> LaidAt(w, code, gaps, at, k)
  }

  lemma WeaveLaid<T>(code: seq<T>, gaps: seq<seq<T>>)
    requires |gaps| == |code| + 1
    ensures Laid(Weave(code, gaps), code, gaps, Sites(gaps))
  {
    WeaveLength(code, gaps);
    forall k | 0 <= k <= |code| ensures LaidAt(Weave(code, gaps), code, gaps, Sites(gaps), k) {
      WeaveAt(code, gaps, k);
    }
  }

  /** A list splits anywhere into two woven parts. */
  lemma {:induction false} WeaveSplit<T>(a: seq<T>, b: seq<T>, ga: seq<seq<T>>, gb: seq<seq<T>>)
    requires |ga| == |a| && |gb| == |b| + 1
    ensures Weave(a + b, ga + gb) == Weave(a, ga + [[]]) + Weave(b, gb)
  {
    if a == [] {
      assert a + b == b && ga + gb == gb;
    } else {
      WeaveSplit(a[1..], b, ga[1..], gb);
      assert (a + b)[1..] == a[1..] + b;
      assert (ga + gb)[1..] == ga[1..] + gb;
      assert (ga + [[]])[1..] == ga[1..] + [[]];
    }
  }

  /** Forgetting all inserted elements: the originals, at their sites, in order. */
  function Erase<T>(woven: seq<T>, gaps: seq<seq<T>>): seq<T>
    requires gaps != []
    requires |woven| == Site(gaps, |gaps| - 1)
  {
    if |gaps| == 1 then []
    else [woven[|gaps[0]|]] + Erase(woven[|gaps[0]| + 1..], gaps[1..])
  }

  lemma {:induction false} EraseWeave<T>(code: seq<T>, gaps: seq<seq<T>>)
    requires |gaps| == |code| + 1
    ensures |Weave(code, gaps)| == Site(gaps, |gaps| - 1)
    ensures Erase(Weave(code, gaps), gaps) == code
  {
    WeaveLength(code, gaps);
    if code != [] {
      EraseWeave(code[1..], gaps[1..]);
      assert Weave(code, gaps)[|gaps[0]| + 1..] == Weave(code[1..], gaps[1..]);
    }
  }

  /** The gaps that put pres[k] in front of element k and posts[k] behind it. */
  function Around<T>(pres: seq<seq<T>>, posts: seq<seq<T>>): (gaps: seq<seq<T>>)
    requires |pres| == |posts|
    ensures |gaps| == |pres| + 1
    ensures forall k :: 0 <= k <= |pres| ==>
              gaps[k] == (if k > 0 then posts[k-1] else []) + (if k < |pres| then pres[k] else [])
  {
    seq(|pres| + 1, k requires 0 <= k <= |pres| =>
      (if k > 0 then posts[k-1] else []) + (if k < |pres| then pres[k] else []))
  }

  lemma {:induction false} WeaveSnoc<T>(code: seq<T>, x: T, gaps: seq<seq<T>>, after: seq<T>)
    requires |gaps| == |code| + 1
    ensures Weave(code + [x], gaps + [after]) == Weave(code, gaps) + [x] + after
  {
    if code == [] {
      assert code + [x] == [x] && (code + [x])[1..] == [];
      assert (gaps + [after])[1..] == [after];
      assert Weave([], [after]) == after;
    } else {
      WeaveSnoc(code[1..], x, gaps[1..], after);
      assert (code + [x])[1..] == code[1..] + [x];
      assert (gaps + [after])[1..] == gaps[1..] + [after];
    }
  }

  lemma {:induction false} WeaveLastGap<T>(code: seq<T>, gaps: seq<seq<T>>, more: seq<T>)
    requires |gaps| == |code| + 1
    ensures Weave(code, gaps[|code| := gaps[|code|] + more]) == Weave(code, gaps) + more
  {
    var gaps2 := gaps[|code| := gaps[|code|] + more];
    if code != [] {
      assert gaps2[1..] == gaps[1..][|code| - 1 := gaps[1..][|code| - 1] + more];
      WeaveLastGap(code[1..], gaps[1..], more);
      assert gaps2[0] + [code[0]] + (Weave(code[1..], gaps[1..]) + more)
          == gaps[0] + [code[0]] + Weave(code[1..], gaps[1..]) + more;
    }
  }

  lemma AroundLonger<T>(pres: seq<seq<T>>, posts: seq<seq<T>>, k: nat)
    requires |pres| == |posts| && k < |pres|
    ensures var a := Around(pres[..k], posts[..k]);
      Around(pres[..k + 1], posts[..k + 1]) == a[k := a[k] + pres[k]] + [posts[k]]
  {
    hide Around;
    var a, b := Around(pres[..k], posts[..k]), Around(pres[..k + 1], posts[..k + 1]);
    var a2 := a[k := a[k] + pres[k]];
    forall j | 0 <= j < |b| ensures b[j] == (a2 + [posts[k]])[j] {
      if j == k + 1 {
        assert b[j] == posts[k] + [];
      } else if j == k {
        assert a[j] == (if k > 0 then posts[k-1] else []) + [];
      }
    }
  }

  lemma AroundOneMore<T>(code: seq<T>, pres: seq<seq<T>>, posts: seq<seq<T>>, k: nat)
    requires |code| == |pres| == |posts| && k < |code|
    ensures Weave(code[..k + 1], Around(pres[..k + 1], posts[..k + 1]))
         == Weave(code[..k], Around(pres[..k], posts[..k])) + pres[k] + [code[k]] + posts[k]
  {
    hide Weave, Around;
    var a := Around(pres[..k], posts[..k]);
    var a2 := a[k := a[k] + pres[k]];
    AroundLonger(pres, posts, k);
    WeaveLastGap(code[..k], a, pres[k]);
    WeaveSnoc(code[..k], code[k], a2, posts[k]);
    assert code[..k + 1] == code[..k] + [code[k]];
  }

  lemma {:induction false} WeaveNothing<T>(code: seq<T>, gaps: seq<seq<T>>)
    requires |gaps| == |code| + 1 && forall k :: 0 <= k < |gaps| ==> gaps[k] == []
    ensures Weave(code, gaps) == code
  {
    if code != [] {
      WeaveNothing(code[1..], gaps[1..]);
      assert code == [code[0]] + code[1..];
    }
  }

  lemma Assoc<T>(a: seq<T>, b: seq<T>, c: seq<T>)
    ensures a + b + c == a + (b + c)
  {
  }

  lemma WeaveFirst<T>(b: seq<T>, gap: seq<T>, gb: seq<seq<T>>)
    requires |gb| == |b| && forall k :: 0 <= k < |gb| ==> gb[k] == []
    ensures Weave(b, [gap] + gb) == gap + b
  {
    if b == [] {
      assert [gap] + gb == [gap];
    } else {
      assert ([gap] + gb)[1..] == gb;
      WeaveNothing(b[1..], gb);
      assert b == [b[0]] + b[1..];
    }
  }

  /** Once the remaining gaps are empty, the rest of the list follows as it is. */
  lemma WeaveRest<T>(a: seq<T>, b: seq<T>, ga: seq<seq<T>>, gap: seq<T>, gb: seq<seq<T>>)
    requires |ga| == |a| && |gb| == |b|
    requires forall k :: 0 <= k < |gb| ==> gb[k] == []
    ensures Weave(a + b, ga + [gap] + gb) == Weave(a, ga + [[]]) + (gap + b)
  {
    hide Weave;
    WeaveSplit(a, b, ga, [gap] + gb);
    Assoc(ga, [gap], gb);
    WeaveFirst(b, gap, gb);
  }

  lemma WeaveRestAt<T>(code: seq<T>, gaps: seq<seq<T>>, n: nat)
    requires |gaps| == |code| + 1 && n <= |code|
    requires forall k :: n < k < |gaps| ==> gaps[k] == []
    ensures Weave(code, gaps) == Weave(code[..n], gaps[..n] + [[]]) + (gaps[n] + code[n..])
  {
    hide Weave;
    assert code == code[..n] + code[n..];
    assert gaps == gaps[..n] + [gaps[n]] + gaps[n + 1..];
    WeaveRest(code[..n], code[n..], gaps[..n], gaps[n], gaps[n + 1..]);
  }
}
