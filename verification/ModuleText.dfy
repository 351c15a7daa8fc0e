/** The text in which the wrappers are appended to the printed module. */
module ModuleText {
  import opened Values
  import opened Decimals

  datatype TextFragment = TextFragment(instructions: seq<string>, locals: seq<ValType>, context: seq<ValType>)

  datatype TextOp = TextOp(pre: TextFragment, post: TextFragment)

  function TypeName(t: ValType): string {
    match t
    case I32 => "i32"
    case I64 => "i64"
    case F32 => "f32"
    case F64 => "f64"
    case V128 => "v128"
  }

  function Placeholder(t: ValType): string {
    match t
    case I32 => "i32.const 0\n"
    case I64 => "i64.const 0\n"
    case F32 => "f32.const 0\n"
    case F64 => "f64.const 0\n"
    case V128 => "v128.const i32x4 0x00 0x00 0x00 0x00\n"
  }

  function Names(ts: seq<ValType>): string {
    if ts == [] then "" else Names(ts[..|ts| - 1]) + " " + TypeName(ts[|ts| - 1])
  }

  /** " (param t ...)" or " (result t ...)"; nothing for an empty list. */
  function Clause(keyword: string, ts: seq<ValType>): string {
    if ts == [] then "" else " (" + keyword + Names(ts) + ")"
  }

  function PlaceholderLines(ts: seq<ValType>): string {
    if ts == [] then "" else PlaceholderLines(ts[..|ts| - 1]) + Placeholder(ts[|ts| - 1])
  }

  function InstructionLines(is_: seq<string>): string {
    if is_ == [] then "" else InstructionLines(is_[..|is_| - 1]) + (is_[|is_| - 1] + "\n")
  }

  function Header(f: TextFragment, prefix: string, num: nat, suffix: string): string {
    "func $" + prefix + Decimal(num) + suffix + Clause("param", f.locals) + Clause("result", f.context) + "\n"
  }

  function WrapperInside(f: TextFragment, prefix: string, num: nat, suffix: string): string {
    Header(f, prefix, num, suffix) + PlaceholderLines(f.context) + InstructionLines(f.instructions)
  }

  /** The wrapper without the newline that ends its line. */
  function WrapperText(f: TextFragment, prefix: string, num: nat, suffix: string): string {
    "(" + WrapperInside(f, prefix, num, suffix) + ")"
  }

  /** The wrappers of the first n operations, two for each. */
  function WrapperTexts(ops: seq<TextOp>, prefix: string, n: nat): (ws: seq<string>)
    requires n <= |ops|
    ensures |ws| == 2 * n
  {
    if n == 0 then []
    else WrapperTexts(ops, prefix, n - 1)
         + [WrapperText(ops[n-1].pre, prefix, n, "_1"), WrapperText(ops[n-1].post, prefix, n, "_2")]
  }

  function Lines(ws: seq<string>): string {
    if ws == [] then "" else Lines(ws[..|ws| - 1]) + (ws[|ws| - 1] + "\n")
  }

  /** Each text stands on a line of its own, in order. */
  lemma {:induction false} LinesInOrder(a: seq<string>, b: seq<string>)
    ensures Lines(a + b) == Lines(a) + Lines(b)
    ensures forall w: string :: Lines([w]) == w + "\n"
    ensures Lines([]) == ""
    decreases |b|
  {
    assert forall w: string :: [w][..0] == [];
    if b == [] {
      assert a + b == a;
    } else {
      var n := |b| - 1;
      LinesInOrder(a, b[..n]);
      assert (a + b)[..|a + b| - 1] == a + b[..n];
    }
  }

  // ----- the string loops -----

  method MakeClause(keyword: string, ts: seq<ValType>) returns (s: string)
    ensures s == Clause(keyword, ts)
  {
    s := "";
    if |ts| > 0 {
      s := " (" + keyword;
      for k := 0 to |ts|
        invariant s == " (" + keyword + Names(ts[..k])
      {
        assert ts[..k + 1][..k] == ts[..k];
        s := s + " ";
        s := s + TypeName(ts[k]);
        assert Names(ts[..k + 1]) == Names(ts[..k]) + " " + TypeName(ts[k]);
      }
      assert ts[..|ts|] == ts;
      s := s + ")";
    }
  }

  method AddPlaceholders(s0: string, ts: seq<ValType>) returns (s: string)
    ensures s == s0 + PlaceholderLines(ts)
  {
    hide Placeholder;
    s := s0;
    for k := 0 to |ts|
      invariant s == s0 + PlaceholderLines(ts[..k])
    {
      assert ts[..k + 1][..k] == ts[..k];
      s := s + Placeholder(ts[k]);
    }
    assert ts[..|ts|] == ts;
  }

  method AddInstructions(s0: string, instrs: seq<string>) returns (s: string)
    ensures s == s0 + InstructionLines(instrs)
  {
    s := s0;
    for k := 0 to |instrs|
      invariant s == s0 + InstructionLines(instrs[..k])
    {
      assert instrs[..k + 1][..k] == instrs[..k];
      s := s + instrs[k];
      s := s + "\n";
    }
    assert instrs[..|instrs|] == instrs;
  }

  method MakeFuncStr(f: TextFragment, num: nat, prefix: string, suffix: string) returns (s: string)
    ensures s == WrapperText(f, prefix, num, suffix) + "\n"
  {
    hide Clause, PlaceholderLines, InstructionLines;
    var params := MakeClause("param", f.locals);
    var results := MakeClause("result", f.context);
    s := "(func $" + prefix + Decimal(num) + suffix + params + results + "\n";
    assert s == "(" + Header(f, prefix, num, suffix) by { assert "(func $" == "(" + "func $"; }
    s := AddPlaceholders(s, f.context);
    s := AddInstructions(s, f.instructions);
    assert s == "(" + WrapperInside(f, prefix, num, suffix);
    s := s + ")\n";
    assert ")\n" == ")" + "\n";
  }

  /** Everything in front of the last closing parenthesis. */
  function Opened(s: string): string
    requires HasClose(s)
  {
    if s[|s| - 1] == ')' then s[..|s| - 1]
    else
      CloseKept(s);
      Opened(s[..|s| - 1])
  }

  predicate HasClose(s: string) {
    exists k :: 0 <= k < |s| && s[k] == ')'
  }

  lemma CloseKept(s: string)
    requires HasClose(s) && s[|s| - 1] != ')'
    ensures HasClose(s[..|s| - 1])
  {
    var k :| 0 <= k < |s| && s[k] == ')';
    assert s[..|s| - 1][k] == ')';
  }

  lemma {:induction false} OpenedIs(body: string, tail: string)
    requires forall k :: 0 <= k < |tail| ==> tail[k] != ')'
    ensures var s := body + ")" + tail; s[|body|] == ')' && HasClose(s) && Opened(s) == body
    decreases |tail|
  {
    var s := body + ")" + tail;
    assert s[|body|] == ')';
    if tail == "" {
      assert s[..|s| - 1] == body;
    } else {
      OpenedIs(body, tail[..|tail| - 1]);
      assert s[..|s| - 1] == body + ")" + tail[..|tail| - 1];
    }
  }

  /** The module text cut open at its last parenthesis, with the wrappers appended, and closed again. */
  method MakeModuleString(module0: string, ops: seq<TextOp>, prefix: string) returns (s: string)
    requires HasClose(module0)
    ensures s == Opened(module0) + Lines(WrapperTexts(ops, prefix, |ops|)) + ")"
  {
    hide Opened, WrapperText;
    s := module0;
    while s[|s| - 1] != ')'
      invariant HasClose(s) && Opened(s) == Opened(module0)
      decreases |s|
    {
      OpenedShorter(s);
      s := s[..|s| - 1];
    }
    OpenedEnd(s);
    s := s[..|s| - 1];
    ghost var body := s;
    for k := 0 to |ops|
      invariant s == body + Lines(WrapperTexts(ops, prefix, k))
    {
      var pre := MakeFuncStr(ops[k].pre, k + 1, prefix, "_1");
      var post := MakeFuncStr(ops[k].post, k + 1, prefix, "_2");
      TwoMoreLines(WrapperTexts(ops, prefix, k), WrapperText(ops[k].pre, prefix, k + 1, "_1"),
                   WrapperText(ops[k].post, prefix, k + 1, "_2"));
      s := s + (pre + post);
    }
    s := s + ")";
  }

  lemma OpenedShorter(s: string)
    requires HasClose(s) && s[|s| - 1] != ')'
    ensures HasClose(s[..|s| - 1]) && Opened(s[..|s| - 1]) == Opened(s)
  {
    CloseKept(s);
  }

  lemma OpenedEnd(s: string)
    requires HasClose(s) && s[|s| - 1] == ')'
    ensures Opened(s) == s[..|s| - 1]
  {
  }

  lemma TwoMoreLines(ws: seq<string>, a: string, b: string)
    ensures Lines(ws + [a, b]) == Lines(ws) + (a + "\n" + (b + "\n"))
  {
    var vs := ws + [a, b];
    assert vs[..|vs| - 1] == ws + [a] && (ws + [a])[..|ws|] == ws;
    assert Lines(ws + [a]) == Lines(ws) + (a + "\n");
  }

  // ----- parentheses -----

  /** The nesting depth behind s, starting at depth d; -1 when a parenthesis closes too much. */
  function Depth(s: string, d: int): int
    requires d >= -1
  {
    if s == "" || d < 0 then d
    else
      var last := s[|s| - 1];
      var r := Depth(s[..|s| - 1], d);
      if r < 0 then -1
      else if last == '(' then r + 1
      else if last == ')' then (if r == 0 then -1 else r - 1)
      else r
  }

  lemma {:induction false} DepthAppend(a: string, b: string, d: int)
    requires d >= -1
    ensures Depth(a + b, d) == (var r := Depth(a, d); if r < 0 then -1 else Depth(b, r))
    decreases |b|
  {
    if b == "" {
      assert a + b == a;
    } else {
      DepthAppend(a, b[..|b| - 1], d);
      assert (a + b)[..|a + b| - 1] == a + b[..|b| - 1];
    }
  }

  /** Text without net effect on the nesting, at any depth. */
  ghost predicate Balanced(s: string) {
    forall d: nat :: Depth(s, d) == d
  }

  lemma BalancedConcat(a: string, b: string)
    requires Balanced(a) && Balanced(b)
    ensures Balanced(a + b)
  {
    forall d: nat ensures Depth(a + b, d) == d {
      DepthAppend(a, b, d);
    }
  }

  lemma {:induction false} PlainBalanced(s: string)
    requires forall k :: 0 <= k < |s| ==> s[k] != '(' && s[k] != ')'
    ensures Balanced(s)
  {
    if s != "" {
      PlainBalanced(s[..|s| - 1]);
      forall d: nat ensures Depth(s, d) == d {
        assert Depth(s[..|s| - 1], d) == d;
      }
    }
  }

  lemma Enclosed(s: string)
    requires Balanced(s)
    ensures Balanced("(" + s + ")")
  {
    forall d: nat ensures Depth("(" + s + ")", d) == d {
      DepthAppend("(" + s, ")", d);
      DepthAppend("(", s, d);
      assert Depth("(", d) == d + 1 by { assert "("[..0] == ""; }
      assert Depth(s, d + 1) == d + 1;
      assert Depth(")", d + 1) == d by { assert ")"[..0] == ""; }
    }
  }

  lemma {:induction false} NamesPlain(ts: seq<ValType>)
    ensures forall k :: 0 <= k < |Names(ts)| ==> Names(ts)[k] != '(' && Names(ts)[k] != ')'
  {
    if ts != [] {
      NamesPlain(ts[..|ts| - 1]);
    }
  }

  lemma ClauseBalanced(keyword: string, ts: seq<ValType>)
    requires forall k :: 0 <= k < |keyword| ==> keyword[k] != '(' && keyword[k] != ')'
    ensures Balanced(Clause(keyword, ts))
  {
    hide Balanced, Names;
    var inside := keyword + Names(ts);
    NamesPlain(ts);
    PlainBalanced("");
    if ts != [] {
      PlainBalanced(inside);
      Enclosed(inside);
      PlainBalanced(" ");
      BalancedConcat(" ", "(" + inside + ")");
      assert " " + ("(" + inside + ")") == Clause(keyword, ts) by { ClauseIs(keyword, ts); }
    }
  }

  lemma ClauseIs(keyword: string, ts: seq<ValType>)
    requires ts != []
    ensures Clause(keyword, ts) == " " + ("(" + (keyword + Names(ts)) + ")")
  {
    hide Names;
    assert " (" == " " + "(";
  }

  lemma PlaceholderPlain(t: ValType)
    ensures PlainName(Placeholder(t))
  {
    if t == V128 {
      assert PlainName("v128.const i32x4 0x00 0x00 0x00 0x00\n");
    }
  }

  lemma {:induction false} PlaceholdersPlain(ts: seq<ValType>)
    ensures PlainName(PlaceholderLines(ts))
  {
    hide Placeholder;
    if ts != [] {
      PlaceholdersPlain(ts[..|ts| - 1]);
      PlaceholderPlain(ts[|ts| - 1]);
    }
  }

  lemma {:induction false} InstructionsBalanced(is_: seq<string>)
    requires forall k :: 0 <= k < |is_| ==> Balanced(is_[k])
    ensures Balanced(InstructionLines(is_))
  {
    if is_ == [] {
      PlainBalanced("");
    } else {
      var n := |is_| - 1;
      InstructionsBalanced(is_[..n]);
      PlainBalanced("\n");
      BalancedConcat(is_[n], "\n");
      BalancedConcat(InstructionLines(is_[..n]), is_[n] + "\n");
    }
  }

  ghost predicate GoodFragment(f: TextFragment) {
    forall k :: 0 <= k < |f.instructions| ==> Balanced(f.instructions[k])
  }

  ghost predicate PlainName(s: string) {
    forall k :: 0 <= k < |s| ==> s[k] != '(' && s[k] != ')'
  }

  lemma HeaderBalanced(f: TextFragment, prefix: string, num: nat, suffix: string)
    requires PlainName(prefix) && PlainName(suffix)
    ensures Balanced(Header(f, prefix, num, suffix))
  {
    hide Balanced, Clause;
    var name := "func $" + prefix + Decimal(num) + suffix;
    assert PlainName(name) by { DigitsPlain(num); }
    PlainBalanced(name);
    ClauseBalanced("param", f.locals);
    ClauseBalanced("result", f.context);
    PlainBalanced("\n");
    BalancedConcat(name, Clause("param", f.locals));
    BalancedConcat(name + Clause("param", f.locals), Clause("result", f.context));
    BalancedConcat(name + Clause("param", f.locals) + Clause("result", f.context), "\n");
  }

  /** A wrapper is one parenthesised item: what stands between its outer parentheses is balanced. */
  lemma WrapperIsItem(f: TextFragment, prefix: string, num: nat, suffix: string)
    requires GoodFragment(f) && PlainName(prefix) && PlainName(suffix)
    ensures Balanced(WrapperInside(f, prefix, num, suffix)) && IsItem(WrapperText(f, prefix, num, suffix))
  {
    hide Balanced, Header, PlaceholderLines, InstructionLines;
    HeaderBalanced(f, prefix, num, suffix);
    PlaceholdersPlain(f.context);
    PlainBalanced(PlaceholderLines(f.context));
    InstructionsBalanced(f.instructions);
    var h := Header(f, prefix, num, suffix);
    BalancedConcat(h, PlaceholderLines(f.context));
    BalancedConcat(h + PlaceholderLines(f.context), InstructionLines(f.instructions));
  }

  lemma DigitsPlain(n: nat)
    ensures PlainName(Decimal(n))
  {
    forall k | 0 <= k < |Decimal(n)| ensures Decimal(n)[k] != '(' && Decimal(n)[k] != ')' {
      assert IsDigit(Decimal(n)[k]);
    }
  }

  ghost predicate GoodOps(ops: seq<TextOp>) {
    forall k :: 0 <= k < |ops| ==> GoodFragment(ops[k].pre) && GoodFragment(ops[k].post)
  }

  /** A text in parentheses whose inside is balanced. */
  ghost predicate IsItem(s: string) {
    exists inner: string :: s == "(" + inner + ")" && Balanced(inner)
  }

  lemma PlainSuffixes()
    ensures PlainName("_1") && PlainName("_2")
  {
  }

  lemma TwoMore(ws: seq<string>, a: string, b: string)
    requires (forall k :: 0 <= k < |ws| ==> IsItem(ws[k])) && IsItem(a) && IsItem(b)
    ensures forall k :: 0 <= k < |ws + [a, b]| ==> IsItem((ws + [a, b])[k])
  {
    hide IsItem;
  }

  lemma {:induction false} WrappersAreItems(ops: seq<TextOp>, prefix: string, n: nat)
    requires n <= |ops| && GoodOps(ops) && PlainName(prefix)
    ensures forall k :: 0 <= k < 2 * n ==> IsItem(WrapperTexts(ops, prefix, n)[k])
  {
    hide Balanced, WrapperText, GoodFragment, IsItem;
    if n > 0 {
      WrappersAreItems(ops, prefix, n - 1);
      PlainSuffixes();
      WrapperIsItem(ops[n-1].pre, prefix, n, "_1");
      WrapperIsItem(ops[n-1].post, prefix, n, "_2");
      TwoMore(WrapperTexts(ops, prefix, n - 1), WrapperText(ops[n-1].pre, prefix, n, "_1"),
              WrapperText(ops[n-1].post, prefix, n, "_2"));
    }
  }

  lemma ItemBalanced(s: string)
    requires IsItem(s)
    ensures Balanced(s)
  {
    var inner: string :| s == "(" + inner + ")" && Balanced(inner);
    Enclosed(inner);
  }

  lemma {:induction false} LinesBalanced(ws: seq<string>)
    requires forall k :: 0 <= k < |ws| ==> IsItem(ws[k])
    ensures Balanced(Lines(ws))
  {
    hide Balanced;
    if ws == [] {
      PlainBalanced("");
    } else {
      var n := |ws| - 1;
      LinesBalanced(ws[..n]);
      ItemBalanced(ws[n]);
      PlainBalanced("\n");
      BalancedConcat(ws[n], "\n");
      BalancedConcat(Lines(ws[..n]), ws[n] + "\n");
    }
  }

  /**
   * From the printed module `(module items)` and trailing text the builder makes
   * `(module items wrappers)`: the wrappers are complete items behind the old ones, two for each
   * operation, whatever the old items contain. If those are balanced, so is the whole text again.
   */
  lemma AppendedModule(items: string, tail: string, ops: seq<TextOp>, prefix: string)
    requires GoodOps(ops) && PlainName(prefix)
    requires forall k :: 0 <= k < |tail| ==> tail[k] != ')'
    ensures HasClose("(module" + items + ")" + tail)
    ensures var ws := WrapperTexts(ops, prefix, |ops|);
      && (forall k :: 0 <= k < 2 * |ops| ==> IsItem(ws[k]))
      && Opened("(module" + items + ")" + tail) + Lines(ws) + ")" == "(module" + (items + Lines(ws)) + ")"
      && (Balanced(items) ==> Balanced("(module" + (items + Lines(ws)) + ")"))
  {
    hide Balanced, IsItem, WrapperTexts, GoodOps, Lines, Opened;
    var ws := WrapperTexts(ops, prefix, |ops|);
    AppendedTo("(module", items, tail, Lines(ws));
    WrappersAreItems(ops, prefix, |ops|);
    LinesBalanced(ws);
    if Balanced(items) {
      BalancedConcat(items, Lines(ws));
      ModuleBalanced(items + Lines(ws));
    }
  }

  lemma AppendedTo(head: string, items: string, tail: string, more: string)
    requires forall k :: 0 <= k < |tail| ==> tail[k] != ')'
    ensures HasClose(head + items + ")" + tail)
    ensures Opened(head + items + ")" + tail) + more + ")" == head + (items + more) + ")"
  {
    hide Opened, HasClose;
    var text := head + items;
    OpenedIs(text, tail);
    assert Opened(text + ")" + tail) == text;
    assert text + more == head + (items + more);
  }

  lemma ModuleBalanced(items: string)
    requires Balanced(items)
    ensures Balanced("(module" + items + ")")
  {
    hide Balanced;
    PlainBalanced("module");
    BalancedConcat("module", items);
    Enclosed("module" + items);
    assert "(module" == "(" + "module";
    assert "(" + ("module" + items) == "(module" + items;
  }
}
