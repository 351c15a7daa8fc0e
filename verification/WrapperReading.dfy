/**
 * The text of a wrapper, read back: split into words as the text format has it, its head declares the
 * name, the parameters and the results the builder's wrapper has, and its body begins with the
 * placeholders.
 */
module WrapperReading {
  import opened Values
  import opened Machine
  import opened Decimals
  import opened ModuleText
  import Builder
  import Fragments
  import Rewriter

  // ----- words -----

  predicate Delim(c: char) {
    c == ' ' || c == '\n' || c == '(' || c == ')'
  }

  function Flush(word: string): seq<string> {
    if word == "" then [] else [word]
  }

  /** The words and parentheses of s; `word` is the word being read. */
  function Words(s: string, word: string): seq<string>
    decreases |s|
  {
    if s == "" then Flush(word)
    else if s[0] == '(' || s[0] == ')' then Flush(word) + [[s[0]]] + Words(s[1..], "")
    else if Delim(s[0]) then Flush(word) + Words(s[1..], "")
    else Words(s[1..], word + [s[0]])
  }

  predicate IsWord(s: string) {
    forall k :: 0 <= k < |s| ==> !Delim(s[k])
  }

  lemma {:induction false} WordRead(w: string, rest: string, word: string)
    requires IsWord(w)
    ensures Words(w + rest, word) == Words(rest, word + w)
    decreases |w|
  {
    if w == "" {
      assert w + rest == rest && word + w == word;
    } else {
      assert (w + rest)[1..] == w[1..] + rest;
      WordRead(w[1..], rest, word + [w[0]]);
      assert word + [w[0]] + w[1..] == word + w;
    }
  }

  /** A word in front of a delimiter. */
  lemma WordThen(w: string, c: char, rest: string)
    requires IsWord(w) && w != "" && Delim(c)
    ensures Words(w + ([c] + rest), "") == [w] + Words([c] + rest, "")
  {
    WordRead(w, [c] + rest, "");
    assert "" + w == w;
    Flushed(c, rest, w);
  }

  lemma Flushed(c: char, rest: string, word: string)
    requires Delim(c)
    ensures Words([c] + rest, word) == Flush(word) + Words([c] + rest, "")
  {
    assert ([c] + rest)[1..] == rest;
    assert Flush(word) + [[c]] + Words(rest, "") == Flush(word) + ([[c]] + Words(rest, ""));
    assert [] + ([[c]] + Words(rest, "")) == [[c]] + Words(rest, "") == [] + [[c]] + Words(rest, "");
    assert [] + Words(rest, "") == Words(rest, "");
  }

  lemma BlankRead(c: char, rest: string)
    requires c == ' ' || c == '\n'
    ensures Words([c] + rest, "") == Words(rest, "")
  {
    assert ([c] + rest)[1..] == rest && [] + Words(rest, "") == Words(rest, "");
  }

  lemma ParenRead(c: char, rest: string)
    requires c == '(' || c == ')'
    ensures Words([c] + rest, "") == [[c]] + Words(rest, "")
  {
    assert ([c] + rest)[1..] == rest && [] + [[c]] + Words(rest, "") == [[c]] + Words(rest, "");
  }

  // ----- the reader -----

  function TypeNamed(w: string): Option<ValType> {
    if w == "i32" then Some(I32) else if w == "i64" then Some(I64) else if w == "f32" then Some(F32)
    else if w == "f64" then Some(F64) else if w == "v128" then Some(V128) else None
  }

  /** The types at the front, and the words behind them. */
  function ReadTypes(ws: seq<string>): (seq<ValType>, seq<string>) {
    if ws == [] || TypeNamed(ws[0]).None? then ([], ws)
    else
      var (ts, rest) := ReadTypes(ws[1..]);
      ([TypeNamed(ws[0]).value] + ts, rest)
  }

  /** A clause `( keyword type ... )` at the front, if there is one. */
  function ReadClause(keyword: string, ws: seq<string>): (seq<ValType>, seq<string>) {
    if |ws| < 2 || ws[0] != "(" || ws[1] != keyword then ([], ws)
    else
      var (ts, rest) := ReadTypes(ws[2..]);
      if rest == [] || rest[0] != ")" then ([], ws) else (ts, rest[1..])
  }

  /** A constant that is zero. */
  function ReadZero(ws: seq<string>): Option<(Value, seq<string>)> {
    if |ws| >= 2 && ws[0] == "i32.const" && ws[1] == "0" then Some((Zero(I32), ws[2..]))
    else if |ws| >= 2 && ws[0] == "i64.const" && ws[1] == "0" then Some((Zero(I64), ws[2..]))
    else if |ws| >= 2 && ws[0] == "f32.const" && ws[1] == "0" then Some((Zero(F32), ws[2..]))
    else if |ws| >= 2 && ws[0] == "f64.const" && ws[1] == "0" then Some((Zero(F64), ws[2..]))
    else if |ws| >= 6 && ws[..6] == ["v128.const", "i32x4", "0x00", "0x00", "0x00", "0x00"]
    then Some((Zero(V128), ws[6..]))
    else None
  }

  function ReadZeros(ws: seq<string>, n: nat): Option<(seq<Value>, seq<string>)> {
    if n == 0 then Some(([], ws))
    else
      var r := ReadZero(ws);
      if r.None? then None
      else
        var q := ReadZeros(r.value.1, n - 1);
        if q.None? then None else Some(([r.value.0] + q.value.0, q.value.1))
  }

  /** What stands at the front of a function's text: its head, and one zero for each result. */
  datatype Head = Head(name: string, params: seq<ValType>, results: seq<ValType>, zeros: seq<Value>, rest: seq<string>)

  function ReadHead(ws: seq<string>): Option<Head> {
    if |ws| < 3 || ws[0] != "(" || ws[1] != "func" then None
    else
      var (params, ws1) := ReadClause("param", ws[3..]);
      var (results, ws2) := ReadClause("result", ws1);
      var z := ReadZeros(ws2, |results|);
      if z.None? then None else Some(Head(ws[2], params, results, z.value.0, z.value.1))
  }

  // ----- the words of the parts -----

  function TypeNames(ts: seq<ValType>): (ws: seq<string>)
    ensures |ws| == |ts| && forall k :: 0 <= k < |ts| ==> ws[k] == TypeName(ts[k])
  {
    seq(|ts|, k requires 0 <= k < |ts| => TypeName(ts[k]))
  }

  lemma TypeNameRead(t: ValType)
    ensures IsWord(TypeName(t)) && TypeName(t) != "" && TypeNamed(TypeName(t)) == Some(t)
  {
    if t == V128 {
      assert |"v128"| != |"i32"|;
    }
  }

  lemma {:induction false} NamesWords(ts: seq<ValType>, c: char, rest: string)
    requires Delim(c)
    ensures Words(Names(ts) + ([c] + rest), "") == TypeNames(ts) + Words([c] + rest, "")
    ensures Names(ts) != "" ==> Names(ts)[0] == ' '
    ensures Names(ts) == "" <==> ts == []
    decreases |ts|
  {
    hide TypeName, Words;
    if ts == [] {
      assert Names(ts) + ([c] + rest) == [c] + rest && TypeNames(ts) == [];
      assert [] + Words([c] + rest, "") == Words([c] + rest, "");
    } else {
      var n := |ts| - 1;
      var w, more := TypeName(ts[n]), [c] + rest;
      TypeNameRead(ts[n]);
      NamesWords(ts[..n], ' ', w + more);
      assert Names(ts) + more == Names(ts[..n]) + ([' '] + (w + more)) by { assert " " == [' ']; }
      BlankRead(' ', w + more);
      WordThen(w, c, rest);
      assert TypeNames(ts[..n]) + ([w] + Words(more, "")) == TypeNames(ts) + Words(more, "");
    }
  }

  function ClauseWords(keyword: string, ts: seq<ValType>): seq<string> {
    if ts == [] then [] else ["(", keyword] + TypeNames(ts) + [")"]
  }

  lemma WordBefore(w: string, y: string)
    requires IsWord(w) && w != "" && y != "" && Delim(y[0])
    ensures Words(w + y, "") == [w] + Words(y, "")
  {
    assert y == [y[0]] + y[1..];
    WordThen(w, y[0], y[1..]);
  }

  lemma ClauseRead(keyword: string, ts: seq<ValType>, c: char, rest: string)
    requires IsWord(keyword) && keyword != "" && Delim(c)
    ensures Words(Clause(keyword, ts) + ([c] + rest), "") == ClauseWords(keyword, ts) + Words([c] + rest, "")
  {
    hide Words, Names;
    var more := [c] + rest;
    if ts == [] {
      assert "" + more == more && [] + Words(more, "") == Words(more, "");
    } else {
      var behind := [')'] + more;
      var names := Names(ts) + behind;
      NamesWords(ts, ')', more);
      assert Clause(keyword, ts) + more == [' '] + (['('] + (keyword + names)) by { ClauseParts(keyword, ts, more); }
      BlankRead(' ', ['('] + (keyword + names));
      ParenRead('(', keyword + names);
      assert names[0] == ' ';
      WordBefore(keyword, names);
      ParenRead(')', more);
      var ns, last := TypeNames(ts), Words(more, "");
      assert ["("] + ([keyword] + (ns + ([")"] + last))) == ["(", keyword] + ns + [")"] + last;
    }
  }

  lemma ClauseParts(keyword: string, ts: seq<ValType>, more: string)
    requires ts != []
    ensures Clause(keyword, ts) + more == [' '] + (['('] + (keyword + (Names(ts) + ([')'] + more))))
  {
    hide Names;
    assert " (" == [' '] + ['('] && ")" == [')'];
  }

  /** The words of the placeholders. */
  function ZeroWords(t: ValType): seq<string> {
    match t
    case I32 => ["i32.const", "0"]
    case I64 => ["i64.const", "0"]
    case F32 => ["f32.const", "0"]
    case F64 => ["f64.const", "0"]
    case V128 => ["v128.const", "i32x4", "0x00", "0x00", "0x00", "0x00"]
  }

  /** Words with blanks between them and a newline behind the last. */
  function Spelled(ws: seq<string>): string {
    if ws == [] then "\n" else if |ws| == 1 then ws[0] + "\n" else ws[0] + " " + Spelled(ws[1..])
  }

  lemma {:induction false} SpelledRead(ws: seq<string>, rest: string)
    requires forall k :: 0 <= k < |ws| ==> IsWord(ws[k]) && ws[k] != ""
    ensures Words(Spelled(ws) + rest, "") == ws + Words(rest, "")
    decreases |ws|
  {
    hide Words;
    if ws == [] {
      assert "\n" + rest == ['\n'] + rest && [] + Words(rest, "") == Words(rest, "");
      BlankRead('\n', rest);
    } else if |ws| == 1 {
      assert Spelled(ws) + rest == ws[0] + (['\n'] + rest) && [ws[0]] == ws;
      WordThen(ws[0], '\n', rest);
      BlankRead('\n', rest);
    } else {
      var more := Spelled(ws[1..]) + rest;
      assert Spelled(ws) + rest == ws[0] + ([' '] + more) by { assert " " == [' ']; }
      WordThen(ws[0], ' ', more);
      BlankRead(' ', more);
      SpelledRead(ws[1..], rest);
      assert ws + Words(rest, "") == [ws[0]] + (ws[1..] + Words(rest, ""));
    }
  }

  lemma PlaceholderSpelled(t: ValType)
    ensures Placeholder(t) == Spelled(ZeroWords(t))
    ensures forall k :: 0 <= k < |ZeroWords(t)| ==> IsWord(ZeroWords(t)[k]) && ZeroWords(t)[k] != ""
  {
    var ws := ZeroWords(t);
    if t == V128 {
      LongSpelled();
    } else {
      assert ws[1..] == [ws[1]] && Spelled(ws[1..]) == ws[1] + "\n";
      assert Spelled(ws) == ws[0] + " " + (ws[1] + "\n");
    }
  }

  lemma LongSpelled()
    ensures Spelled(["v128.const", "i32x4", "0x00", "0x00", "0x00", "0x00"]) == "v128.const i32x4 0x00 0x00 0x00 0x00\n"
  {
    var a, b, z := "v128.const", "i32x4", "0x00";
    LongWords(a, b, z);
    assert a + " " + (b + " " + (z + " " + (z + " " + (z + " " + (z + "\n")))))
        == "v128.const i32x4 0x00 0x00 0x00 0x00\n";
  }

  lemma LongWords(a: string, b: string, z: string)
    ensures Spelled([a, b, z, z, z, z])
         == a + " " + (b + " " + (z + " " + (z + " " + (z + " " + (z + "\n")))))
  {
    assert Spelled([z]) == z + "\n";
    assert [z, z][1..] == [z] && Spelled([z, z]) == z + " " + (z + "\n");
    assert [z, z, z][1..] == [z, z] && Spelled([z, z, z]) == z + " " + Spelled([z, z]);
    assert [z, z, z, z][1..] == [z, z, z] && Spelled([z, z, z, z]) == z + " " + Spelled([z, z, z]);
    assert [b, z, z, z, z][1..] == [z, z, z, z] && Spelled([b, z, z, z, z]) == b + " " + Spelled([z, z, z, z]);
    assert [a, b, z, z, z, z][1..] == [b, z, z, z, z];
  }

  function AllZeroWords(ts: seq<ValType>): seq<string> {
    if ts == [] then [] else AllZeroWords(ts[..|ts| - 1]) + ZeroWords(ts[|ts| - 1])
  }

  lemma {:induction false} PlaceholdersRead(ts: seq<ValType>, rest: string)
    ensures Words(PlaceholderLines(ts) + rest, "") == AllZeroWords(ts) + Words(rest, "")
    decreases |ts|
  {
    hide Words, Placeholder, ZeroWords, Spelled;
    if ts == [] {
      assert "" + rest == rest && [] + Words(rest, "") == Words(rest, "");
    } else {
      var n := |ts| - 1;
      var p := Placeholder(ts[n]);
      PlaceholderSpelled(ts[n]);
      SpelledRead(ZeroWords(ts[n]), rest);
      PlaceholdersRead(ts[..n], p + rest);
      assert PlaceholderLines(ts) + rest == PlaceholderLines(ts[..n]) + (p + rest);
      var a, b, c := AllZeroWords(ts[..n]), ZeroWords(ts[n]), Words(rest, "");
      assert a + (b + c) == a + b + c;
    }
  }

  // ----- reading them -----

  lemma {:induction false} TypesRead(ts: seq<ValType>, rest: seq<string>)
    requires rest == [] || TypeNamed(rest[0]).None?
    ensures ReadTypes(TypeNames(ts) + rest) == (ts, rest)
  {
    hide TypeNamed, TypeName;
    if ts == [] {
      assert TypeNames(ts) + rest == rest;
    } else {
      TypeNameRead(ts[0]);
      TypesRead(ts[1..], rest);
      assert (TypeNames(ts) + rest)[1..] == TypeNames(ts[1..]) + rest;
      assert [ts[0]] + ts[1..] == ts;
    }
  }

  /** The words do not begin like a clause with the keyword. */
  predicate NoClause(keyword: string, ws: seq<string>) {
    |ws| < 2 || ws[0] != "(" || ws[1] != keyword
  }

  lemma ClauseIsRead(keyword: string, ts: seq<ValType>, rest: seq<string>)
    requires NoClause(keyword, rest)
    ensures ReadClause(keyword, ClauseWords(keyword, ts) + rest) == (ts, rest)
  {
    hide ReadTypes, TypeNamed;
    if ts == [] {
      assert [] + rest == rest;
    } else {
      var close := ")";
      var behind := [close] + rest;
      ClauseFront(keyword, ts, rest);
      assert TypeNamed(close).None? by { CloseIsNoType(); }
      TypesRead(ts, behind);
      assert behind[1..] == rest;
    }
  }

  lemma ClauseFront(keyword: string, ts: seq<ValType>, rest: seq<string>)
    requires ts != []
    ensures var ws := ClauseWords(keyword, ts) + rest;
      |ws| >= 2 && ws[0] == "(" && ws[1] == keyword && ws[2..] == TypeNames(ts) + ([")"] + rest)
  {
    var front, types, close := ["(", keyword], TypeNames(ts), [")"];
    FourParts(front, types, close, rest);
  }

  lemma FourParts(front: seq<string>, a: seq<string>, b: seq<string>, c: seq<string>)
    ensures (front + a + b + c)[|front|..] == a + (b + c)
  {
  }

  lemma CloseIsNoType()
    ensures TypeNamed(")").None?
  {
    assert |")"| == 1;
  }

  lemma ZeroRead(t: ValType, rest: seq<string>)
    ensures ReadZero(ZeroWords(t) + rest) == Some((Zero(t), rest))
  {
    var ws := ZeroWords(t) + rest;
    assert ws[|ZeroWords(t)|..] == rest;
    assert "i32.const"[0] == 'i' && "i32.const"[1] == '3' && "i64.const"[1] == '6';
    assert "f32.const"[0] == 'f' && "f32.const"[1] == '3' && "f64.const"[0] == 'f' && "f64.const"[1] == '6';
    assert "v128.const"[0] == 'v';
    if t == V128 {
      assert ws[..6] == ZeroWords(V128);
    }
  }

  function Zeros(ts: seq<ValType>): (vs: seq<Value>)
    ensures |vs| == |ts| && forall k :: 0 <= k < |ts| ==> vs[k] == Zero(ts[k])
  {
    seq(|ts|, k requires 0 <= k < |ts| => Zero(ts[k]))
  }

  lemma {:induction false} ZeroWordsFront(ts: seq<ValType>)
    requires ts != []
    ensures AllZeroWords(ts) == ZeroWords(ts[0]) + AllZeroWords(ts[1..])
    decreases |ts|
  {
    hide ZeroWords;
    var n := |ts| - 1;
    if n == 0 {
      assert ts[..0] == [] && ts[1..] == [];
      assert AllZeroWords(ts) == [] + ZeroWords(ts[0]) == ZeroWords(ts[0]) + [];
    } else {
      ZeroWordsFront(ts[..n]);
      assert ts[1..][..n - 1] == ts[..n][1..];
      var a, b, c := ZeroWords(ts[0]), AllZeroWords(ts[..n][1..]), ZeroWords(ts[n]);
      assert a + b + c == a + (b + c);
    }
  }

  lemma {:induction false} ZerosRead(ts: seq<ValType>)
    ensures ReadZeros(AllZeroWords(ts), |ts|) == Some((Zeros(ts), []))
    decreases |ts|
  {
    hide ReadZero, ZeroWords, ReadZeros, AllZeroWords;
    if ts == [] {
      NoZeros();
    } else {
      var rest := AllZeroWords(ts[1..]);
      ZeroWordsFront(ts);
      ZeroRead(ts[0], rest);
      ZerosRead(ts[1..]);
      OneZero(ZeroWords(ts[0]) + rest, Zero(ts[0]), rest, |ts|, Zeros(ts[1..]));
      assert [Zero(ts[0])] + Zeros(ts[1..]) == Zeros(ts);
    }
  }

  lemma NoZeros()
    ensures ReadZeros(AllZeroWords([]), 0) == Some((Zeros([]), []))
  {
  }

  lemma OneZero(ws: seq<string>, v: Value, rest: seq<string>, n: nat, vs: seq<Value>)
    requires n > 0 && ReadZero(ws) == Some((v, rest)) && ReadZeros(rest, n - 1) == Some((vs, []))
    ensures ReadZeros(ws, n) == Some(([v] + vs, []))
  {
    hide ReadZero;
  }

  // ----- the wrapper -----

  /** The wrapper's text in front of the fragment's own instructions. */
  function FrontText(f: TextFragment, prefix: string, num: nat, suffix: string): string {
    "(" + Header(f, prefix, num, suffix) + PlaceholderLines(f.context)
  }

  function HeadWords(f: TextFragment, name: string): seq<string> {
    ["(", "func", name]
    + (ClauseWords("param", f.locals) + (ClauseWords("result", f.context) + AllZeroWords(f.context)))
  }

  lemma NameIsWord(prefix: string, num: nat, suffix: string)
    requires IsWord(prefix) && IsWord(suffix)
    ensures IsWord("$" + prefix + Decimal(num) + suffix)
  {
    forall k | 0 <= k < |Decimal(num)| ensures !Delim(Decimal(num)[k]) {
      assert IsDigit(Decimal(num)[k]);
    }
  }

  lemma FrontWords(f: TextFragment, prefix: string, num: nat, suffix: string)
    requires IsWord(prefix) && IsWord(suffix)
    ensures Words(FrontText(f, prefix, num, suffix), "") == HeadWords(f, "$" + prefix + Decimal(num) + suffix)
  {
    hide Words, Clause, PlaceholderLines, ClauseWords, AllZeroWords, IsWord;
    var name := "$" + prefix + Decimal(num) + suffix;
    NameIsWord(prefix, num, suffix);
    var places := PlaceholderLines(f.context);
    var results := Clause("result", f.context) + (['\n'] + places);
    var params := Clause("param", f.locals) + results;
    FrontParts(f, prefix, num, suffix);
    ParenRead('(', "func" + ([' '] + (name + params)));
    FuncIsWord();
    WordThen("func", ' ', name + params);
    BlankRead(' ', name + params);
    ResultsStart(f, places);
    WordBefore(name, params);
    assert results == [results[0]] + results[1..];
    ClauseRead("param", f.locals, results[0], results[1..]);
    ClauseRead("result", f.context, '\n', places);
    BlankRead('\n', places);
    PlaceholdersRead(f.context, "");
    assert places + "" == places;
    assert Words("", "") == [] by { NoWords(); }
    var z := AllZeroWords(f.context);
    assert z + [] == z;
    var all := ClauseWords("param", f.locals) + (ClauseWords("result", f.context) + z);
    assert ["("] + (["func"] + ([name] + all)) == ["(", "func", name] + all;
  }

  lemma NoWords()
    ensures Words("", "") == []
  {
  }

  lemma FuncIsWord()
    ensures IsWord("func") && IsWord("param") && IsWord("result")
  {
  }

  lemma FrontParts(f: TextFragment, prefix: string, num: nat, suffix: string)
    ensures var name := "$" + prefix + Decimal(num) + suffix;
      FrontText(f, prefix, num, suffix)
        == ['('] + ("func" + ([' '] + (name + (Clause("param", f.locals)
                                               + (Clause("result", f.context) + (['\n'] + PlaceholderLines(f.context)))))))
  {
    hide Clause, PlaceholderLines;
    assert "func $" == "func" + [' '] + "$" && "(" == ['('] && "\n" == ['\n'];
  }

  lemma ClauseStart(keyword: string, ts: seq<ValType>)
    ensures Clause(keyword, ts) != "" ==> Clause(keyword, ts)[0] == ' '
  {
  }

  /** The clauses begin with a blank; without them a newline follows. */
  lemma ResultsStart(f: TextFragment, places: string)
    ensures var results := Clause("result", f.context) + (['\n'] + places);
      var params := Clause("param", f.locals) + results;
      results != "" && Delim(results[0]) && params != "" && Delim(params[0])
  {
    hide Clause;
    ClauseStart("result", f.context);
    ClauseStart("param", f.locals);
  }

  lemma ZerosNoClause(keyword: string, ts: seq<ValType>)
    ensures NoClause(keyword, AllZeroWords(ts))
  {
    hide AllZeroWords;
    if ts == [] {
      NoZeroWords();
    } else {
      ZeroWordsFront(ts);
      ZeroWordFirst(ts[0], AllZeroWords(ts[1..]));
    }
  }

  lemma NoZeroWords()
    ensures AllZeroWords([]) == []
  {
  }

  lemma ZeroWordFirst(t: ValType, rest: seq<string>)
    ensures (ZeroWords(t) + rest)[0] != "("
  {
    assert |"("| == 1 && |ZeroWords(t)[0]| > 1;
  }

  /**
   * Read back, the wrapper's front declares the name, the parameters and the results of the function the
   * builder validates, and computes the placeholders; behind it the fragment's instructions follow.
   */
  lemma WrapperReads(f: TextFragment, prefix: string, num: nat, suffix: string)
    requires IsWord(prefix) && IsWord(suffix)
    ensures WrapperText(f, prefix, num, suffix) == FrontText(f, prefix, num, suffix) + InstructionLines(f.instructions) + ")"
    ensures var h := ReadHead(Words(FrontText(f, prefix, num, suffix), ""));
      && h.Some? && h.value.name == "$" + Builder.WrapperName(prefix, num, suffix)
      && h.value.params == f.locals && h.value.results == f.context && h.value.rest == []
      && |h.value.zeros| == |f.context|
      && forall k :: 0 <= k < |f.context| ==> Builder.Placeholders(f.context)[k].instr == Const(h.value.zeros[k])
  {
    hide Words, ReadClause, ReadZeros, ClauseWords, AllZeroWords, NoClause, IsWord, PlaceholderLines, Header;
    var name := "$" + prefix + Decimal(num) + suffix;
    FrontWords(f, prefix, num, suffix);
    assert name == "$" + Builder.WrapperName(prefix, num, suffix);
    var z := AllZeroWords(f.context);
    var results := ClauseWords("result", f.context) + z;
    var params := ClauseWords("param", f.locals) + results;
    assert HeadWords(f, name)[3..] == params;
    ZerosNoClause("result", f.context);
    ZerosNoClause("param", f.context);
    ResultIsNoParam(f.context, z);
    ClauseIsRead("param", f.locals, results);
    ClauseIsRead("result", f.context, z);
    ZerosRead(f.context);
  }

  lemma ResultIsNoParam(ts: seq<ValType>, z: seq<string>)
    requires NoClause("param", z)
    ensures NoClause("param", ClauseWords("result", ts) + z)
  {
    if ts == [] {
      assert [] + z == z;
    } else {
      assert (ClauseWords("result", ts) + z)[1] == "result";
      assert "result"[0] != "param"[0];
    }
  }

  /** Each instruction of the fragment stands on a line of its own, in order. */
  lemma {:induction false} InstructionsInOrder(a: seq<string>, b: seq<string>)
    ensures InstructionLines(a + b) == InstructionLines(a) + InstructionLines(b)
    ensures forall i: string :: InstructionLines([i]) == i + "\n"
    ensures InstructionLines([]) == ""
    decreases |b|
  {
    assert forall i: string :: [i][..0] == [];
    if b == [] {
      assert a + b == a;
    } else {
      var n := |b| - 1;
      InstructionsInOrder(a, b[..n]);
      assert (a + b)[..|a + b| - 1] == a + b[..n];
    }
  }

  /**
   * The text is that of the wrapper w around the instructions: what stands in front of them, read back,
   * has its name, parameters and results, and one zero for each result.
   */
  ghost predicate Declares(text: string, w: Builder.ModFunc, instructions: seq<string>) {
    exists front: string ::
      && text == front + InstructionLines(instructions) + ")"
      && var h := ReadHead(Words(front, ""));
         && h.Some? && h.value.name == "$" + w.name && h.value.params == w.ft.params && h.value.results == w.ft.results
         && h.value.zeros == Zeros(w.ft.results) && h.value.rest == []
  }

  /** The same fragment, as text and parsed. */
  predicate SameFragment(t: TextFragment, f: Fragments.Fragment) {
    t.locals == f.locals && t.context == f.context
  }

  lemma OneDeclared(t: TextFragment, f: Fragments.Fragment, prefix: string, num: nat, suffix: string)
    requires SameFragment(t, f) && IsWord(prefix) && IsWord(suffix)
    ensures Declares(WrapperText(t, prefix, num, suffix), Builder.Wrapper(f, prefix, num, suffix), t.instructions)
  {
    hide ReadHead, Words, FrontText, InstructionLines;
    WrapperReads(t, prefix, num, suffix);
    var front := FrontText(t, prefix, num, suffix);
    var h := ReadHead(Words(front, "")).value;
    forall k | 0 <= k < |t.context| ensures h.zeros[k] == Zero(t.context[k]) {
      assert Builder.Placeholders(t.context)[k].instr == Const(h.zeros[k]);
    }
    assert h.zeros == Zeros(t.context);
  }

  /** The texts appended to the module are those of the wrappers the builder then looks up, operation by operation. */
  lemma {:induction false} TextsAreWrappers(ts: seq<TextOp>, ops: seq<Rewriter.Operation>, prefix: string, n: nat, k: nat)
    requires k < n <= |ts| == |ops| && IsWord(prefix)
    requires SameFragment(ts[k].pre, ops[k].pre) && SameFragment(ts[k].post, ops[k].post)
    ensures var ws, pair := WrapperTexts(ts, prefix, n), Builder.WrapperPair(ops[k], prefix, k);
      Declares(ws[2 * k], pair[0], ts[k].pre.instructions) && Declares(ws[2 * k + 1], pair[1], ts[k].post.instructions)
    decreases n
  {
    hide WrapperText, Declares, Builder.Wrapper;
    if k == n - 1 {
      SuffixesAreWords();
      OneDeclared(ts[k].pre, ops[k].pre, prefix, k + 1, "_1");
      OneDeclared(ts[k].post, ops[k].post, prefix, k + 1, "_2");
    } else {
      TextsAreWrappers(ts, ops, prefix, n - 1, k);
    }
  }

  lemma SuffixesAreWords()
    ensures IsWord("_1") && IsWord("_2")
  {
  }
}
