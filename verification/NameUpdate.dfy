/** CommonWasmBuilder: renaming of WASI functions inside the stored function texts. */
module NameUpdate {
  import opened Texts

  /** Left-to-right replacement of the non-overlapping occurrences of old. */
  function ReplaceAll(s: string, old_: string, new_: string): string
    requires old_ != ""
    decreases |s|
  {
    if s == "" then ""
    else if old_ <= s then new_ + ReplaceAll(s[|old_|..], old_, new_)
    else [s[0]] + ReplaceAll(s[1..], old_, new_)
  }

  lemma PrefixOccurs(s: string, pat: string, i: nat)
    requires i <= |s|
    ensures pat <= s[i..] <==> OccursAt(s, pat, i)
  {
    if pat <= s[i..] {
      assert s[i..i + |pat|] == s[i..][..|pat|];
    }
    if OccursAt(s, pat, i) {
      assert s[i..][..|pat|] == s[i..i + |pat|];
    }
  }

  /** Up to the first occurrence nothing is replaced. */
  lemma {:induction false} ReplaceFrom(s: string, old_: string, new_: string, i: nat, j: nat)
    requires old_ != "" && i <= j <= |s|
    requires forall k: nat :: i <= k < j ==> !OccursAt(s, old_, k)
    ensures j == |s| ==> ReplaceAll(s[i..], old_, new_) == s[i..]
    ensures OccursAt(s, old_, j) ==>
              ReplaceAll(s[i..], old_, new_) == s[i..j] + new_ + ReplaceAll(s[j + |old_|..], old_, new_)
    decreases j - i
  {
    PrefixOccurs(s, old_, i);
    if i == j {
      if OccursAt(s, old_, j) {
        assert s[i..][|old_|..] == s[j + |old_|..];
        assert s[i..j] == "";
      }
    } else {
      ReplaceFrom(s, old_, new_, i + 1, j);
      assert s[i..][1..] == s[i + 1..];
      assert s[i..] == [s[i]] + s[i + 1..] && s[i..j] == [s[i]] + s[i + 1..j];
    }
  }

  lemma Spliced(v: string, idx: nat, at: nat, n: nat, new_: string)
    requires idx <= at && at + n <= |v|
    ensures var w := v[..at] + new_ + v[at + n..];
      && w[..at + |new_|] == v[..idx] + (v[idx..at] + new_) && w[at + |new_|..] == v[at + n..]
  {
  }

  /** The in-place loop. It terminates although the new name may contain the old one. */
  method ReplaceInPlace(text: string, old_: string, new_: string) returns (v: string)
    requires old_ != ""
    ensures v == ReplaceAll(text, old_, new_)
  {
    hide ReplaceAll;
    v := text;
    var idx := 0;
    assert v[0..] == v;
    while true
      invariant 0 <= idx <= |v| && v[..idx] + ReplaceAll(v[idx..], old_, new_) == ReplaceAll(text, old_, new_)
      decreases |v| - idx
    {
      var at := Find(v, old_, idx);
      if at > |v| {
        ReplaceFrom(v, old_, new_, idx, |v|);
        assert v[..idx] + v[idx..] == v;
        return;
      }
      ReplaceFrom(v, old_, new_, idx, at);
      Spliced(v, idx, at, |old_|, new_);
      v := v[..at] + new_ + v[at + |old_|..];
      idx := at + |new_|;
    }
  }

  // ----- texts as templates -----

  /** A function text is characters and references to WASI functions. */
  datatype Token = Ch(c: char) | Ref(wasi: string)

  type Template = seq<Token>

  function Shown(t: Token, names: map<string, string>): string {
    match t
    case Ch(c) => [c]
    case Ref(w) => if w in names then names[w] else w
  }

  function Render(ts: Template, names: map<string, string>): string {
    if ts == [] then "" else Shown(ts[0], names) + Render(ts[1..], names)
  }

  /** The current name of `wasi` occurs in the rendered text only where the template refers to it. */
  ghost predicate OnlyAtRefs(ts: Template, names: map<string, string>, wasi: string)
    requires wasi in names
  {
    ts == [] ||
    (&& (ts[0] != Ref(wasi) ==>
           forall j: nat :: j < |Shown(ts[0], names)| ==> !(names[wasi] <= Render(ts, names)[j..]))
     && OnlyAtRefs(ts[1..], names, wasi))
  }

  lemma {:induction false} ReplaceSkips(a: string, b: string, old_: string, new_: string)
    requires old_ != "" && forall j: nat :: j < |a| ==> !(old_ <= (a + b)[j..])
    ensures ReplaceAll(a + b, old_, new_) == a + ReplaceAll(b, old_, new_)
  {
    if a == "" {
      assert a + b == b;
    } else {
      assert (a + b)[0..] == a + b && (a + b)[1..] == a[1..] + b;
      forall j: nat | j < |a[1..]| ensures !(old_ <= (a[1..] + b)[j..]) {
        assert (a[1..] + b)[j..] == (a + b)[j + 1..];
      }
      ReplaceSkips(a[1..], b, old_, new_);
      assert a == [a[0]] + a[1..];
    }
  }

  /** Replacing the name in the text is changing the name the references are rendered with. */
  lemma {:induction false} RenameRendered(ts: Template, names: map<string, string>, wasi: string, name: string)
    requires wasi in names && names[wasi] != "" && OnlyAtRefs(ts, names, wasi)
    ensures ReplaceAll(Render(ts, names), names[wasi], name) == Render(ts, names[wasi := name])
  {
    if ts != [] {
      var a, b, old_ := Shown(ts[0], names), Render(ts[1..], names), names[wasi];
      RenameRendered(ts[1..], names, wasi, name);
      if ts[0] == Ref(wasi) {
        assert old_ <= a + b && (a + b)[|old_|..] == b;
      } else {
        ReplaceSkips(a, b, old_, name);
      }
    }
  }

  /** One renaming. */
  datatype Update = Update(wasi: string, name: string)

  function NamesAfter(names: map<string, string>, us: seq<Update>): map<string, string>
    decreases us
  {
    if us == [] then names else NamesAfter(names[us[0].wasi := us[0].name], us[1..])
  }

  /** The text after one renaming; a name not yet known is only entered. */
  function TextStep(text: string, names: map<string, string>, u: Update): string
    requires u.wasi in names ==> names[u.wasi] != ""
  {
    if u.wasi in names then ReplaceAll(text, names[u.wasi], u.name) else text
  }

  /** The text after a sequence of renamings. */
  function TextAfter(text: string, names: map<string, string>, us: seq<Update>): string
    requires NeverEmpty(names, us)
    decreases us
  {
    if us == [] then text
    else TextAfter(TextStep(text, names, us[0]), names[us[0].wasi := us[0].name], us[1..])
  }

  /** No renaming replaces an empty name. */
  predicate NeverEmpty(names: map<string, string>, us: seq<Update>)
    decreases us
  {
    us == [] ||
    ((us[0].wasi in names ==> names[us[0].wasi] != "") && NeverEmpty(names[us[0].wasi := us[0].name], us[1..]))
  }

  predicate Refers(ts: Template, wasi: string) {
    Ref(wasi) in ts
  }

  /** Known names occur only where the text refers to them, and the text refers to known names only. */
  ghost predicate AlwaysOnlyAtRefs(ts: Template, names: map<string, string>, us: seq<Update>)
    decreases us
  {
    us == [] ||
    (&& (if us[0].wasi in names then OnlyAtRefs(ts, names, us[0].wasi) else !Refers(ts, us[0].wasi))
     && AlwaysOnlyAtRefs(ts, names[us[0].wasi := us[0].name], us[1..]))
  }

  /** A name the text does not refer to does not matter for it. */
  lemma {:induction false} NotReferred(ts: Template, names: map<string, string>, wasi: string, name: string)
    requires !Refers(ts, wasi)
    ensures Render(ts, names[wasi := name]) == Render(ts, names)
  {
    if ts != [] {
      NotReferred(ts[1..], names, wasi, name);
    }
  }

  /** After any sequence of renamings every reference in the text uses the name currently reported for it. */
  lemma {:induction false} CallsUseCurrentNames(ts: Template, names: map<string, string>, us: seq<Update>)
    requires NeverEmpty(names, us) && AlwaysOnlyAtRefs(ts, names, us)
    ensures TextAfter(Render(ts, names), names, us) == Render(ts, NamesAfter(names, us))
    decreases us
  {
    if us != [] {
      var u := us[0];
      if u.wasi in names {
        RenameRendered(ts, names, u.wasi, u.name);
      } else {
        NotReferred(ts, names, u.wasi, u.name);
      }
      CallsUseCurrentNames(ts, names[u.wasi := u.name], us[1..]);
    }
  }

  // ----- the builder's texts -----

  /** Every stored text is its template rendered with the names. */
  ghost predicate Rendered(texts: map<string, string>, ts: map<string, Template>, names: map<string, string>) {
    texts.Keys == ts.Keys && forall k :: k in texts ==> texts[k] == Render(ts[k], names)
  }

  /** The renaming is of a name that occurs in the texts only where they refer to it. */
  ghost predicate Clean(ts: map<string, Template>, names: map<string, string>, u: Update) {
    forall k :: k in ts ==> if u.wasi in names then OnlyAtRefs(ts[k], names, u.wasi) else !Refers(ts[k], u.wasi)
  }

  /** So are all renamings of a sequence, with the names current at each. */
  ghost predicate AllClean(ts: map<string, Template>, names: map<string, string>, us: seq<Update>)
    decreases us
  {
    us == [] || (Clean(ts, names, us[0]) && AllClean(ts, names[us[0].wasi := us[0].name], us[1..]))
  }

  lemma StepRenders(text: string, ts: Template, names: map<string, string>, u: Update)
    requires u.wasi in names ==> names[u.wasi] != ""
    requires if u.wasi in names then OnlyAtRefs(ts, names, u.wasi) else !Refers(ts, u.wasi)
    requires text == Render(ts, names)
    ensures (if u.wasi in names then ReplaceAll(text, names[u.wasi], u.name) else text)
         == Render(ts, names[u.wasi := u.name])
  {
    if u.wasi in names {
      RenameRendered(ts, names, u.wasi, u.name);
    } else {
      NotReferred(ts, names, u.wasi, u.name);
    }
  }

  class CommonWasmBuilder {
    var wasiNames: map<string, string>
    var functions: map<string, string>

    constructor (names: map<string, string>, texts: map<string, string>)
      ensures wasiNames == names && functions == texts
    {
      wasiNames, functions := names, texts;
    }

    /**
     * Every stored text has the known name replaced, and the name is entered. Texts that were rendered
     * with the names before are then rendered with the names after.
     */
    method UpdateWasiName(wasi: string, name: string)
      requires wasi in wasiNames ==> wasiNames[wasi] != ""
      modifies this
      ensures wasiNames == old(wasiNames)[wasi := name] && functions.Keys == old(functions).Keys
      ensures forall k :: k in functions ==>
                functions[k] == if wasi in old(wasiNames) then ReplaceAll(old(functions)[k], old(wasiNames)[wasi], name)
                                else old(functions)[k]
      ensures forall ts :: Rendered(old(functions), ts, old(wasiNames)) && Clean(ts, old(wasiNames), Update(wasi, name)) ==>
                Rendered(functions, ts, wasiNames)
    {
      if wasi in wasiNames {
        var original := wasiNames[wasi];
        var todo := functions.Keys;
        while todo != {}
          invariant todo <= functions.Keys == old(functions).Keys
          invariant wasiNames == old(wasiNames)
          invariant forall k :: k in functions ==>
                      functions[k] == if k in todo then old(functions)[k] else ReplaceAll(old(functions)[k], original, name)
        {
          var k :| k in todo;
          var v := ReplaceInPlace(functions[k], original, name);
          functions := functions[k := v];
          todo := todo - {k};
        }
      }
      wasiNames := wasiNames[wasi := name];
      forall ts | Rendered(old(functions), ts, old(wasiNames)) && Clean(ts, old(wasiNames), Update(wasi, name))
        ensures Rendered(functions, ts, wasiNames)
      {
        forall k | k in functions ensures functions[k] == Render(ts[k], wasiNames) {
          StepRenders(old(functions)[k], ts[k], old(wasiNames), Update(wasi, name));
        }
      }
    }

    /** The renamings made while the imports are added, one after the other. */
    method UpdateAll(us: seq<Update>)
      requires NeverEmpty(wasiNames, us)
      modifies this
      ensures wasiNames == NamesAfter(old(wasiNames), us) && functions.Keys == old(functions).Keys
      ensures forall ts :: Rendered(old(functions), ts, old(wasiNames)) && AllClean(ts, old(wasiNames), us) ==>
                Rendered(functions, ts, wasiNames)
    {
      hide Rendered, Clean;
      var i := 0;
      assert us[0..] == us;
      while i < |us|
        invariant i <= |us| && functions.Keys == old(functions).Keys && NeverEmpty(wasiNames, us[i..])
        invariant NamesAfter(wasiNames, us[i..]) == NamesAfter(old(wasiNames), us)
        invariant forall ts :: Rendered(old(functions), ts, old(wasiNames)) && AllClean(ts, old(wasiNames), us) ==>
                    Rendered(functions, ts, wasiNames) && AllClean(ts, wasiNames, us[i..])
      {
        assert us[i..][0] == us[i] && us[i..][1..] == us[i + 1..];
        UpdateWasiName(us[i].wasi, us[i].name);
        i := i + 1;
      }
    }
  }
}
