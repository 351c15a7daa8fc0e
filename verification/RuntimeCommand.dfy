/** The rewriting of the user's runtime command before the instrumented file is executed. */
module RuntimeCommand {
  import opened Values
  import opened Texts

  const DIR := "--dir=."
  const WASM := ".wasm"

  /** Position of the last blank at or before `from`; -1 if there is none. */
  function LastBlank(s: string, from: nat): (i: int)
    requires from < |s|
    ensures -1 <= i <= from && (i >= 0 ==> s[i] == ' ')
    ensures forall j :: i < j <= from ==> s[j] != ' '
  {
    if s[from] == ' ' then from else if from == 0 then -1 else LastBlank(s, from - 1)
  }

  /** The command with the directory option put in behind the first word, unless it is there already. */
  function WithDir(cmd: string): string {
    if Contains(cmd, DIR) then cmd
    else
      var pos := Find(cmd, " ", 0);
      if pos > |cmd| then cmd + " " + DIR else cmd[..pos] + " " + DIR + cmd[pos..]
  }

  function SkipBlanks(s: string, i: nat): (j: nat)
    requires i <= |s|
    ensures i <= j <= |s| && (j < |s| ==> s[j] != ' ') && forall k :: i <= k < j ==> s[k] == ' '
    decreases |s| - i
  {
    if i < |s| && s[i] == ' ' then SkipBlanks(s, i + 1) else i
  }

  /** The command with its first .wasm file replaced; None where the tool's assertion fails. */
  function WithFile(cmd: string, file: string): Option<string> {
    var pos := Find(cmd, WASM, 0);
    if pos > |cmd| then Some(cmd + " " + file)
    else
      var b := LastBlank(cmd, pos);
      if b < 0 then None
      else
        var start := SkipBlanks(cmd, b);
        Some(cmd[..start] + file + cmd[pos + 5..])
  }

  method AddDir(cmd0: string) returns (cmd: string)
    ensures cmd == WithDir(cmd0)
  {
    hide Find, OccursAt;
    cmd := cmd0;
    ContainsFound(cmd, DIR);
    if Find(cmd, DIR, 0) > |cmd| {
      var pos := Find(cmd, " ", 0);
      assert " --dir=." == " " + DIR;
      if pos > |cmd| {
        cmd := cmd + " --dir=.";
        assert cmd == cmd0 + " " + DIR;
      } else {
        cmd := cmd[..pos] + " --dir=." + cmd[pos..];
        assert cmd == cmd0[..pos] + " " + DIR + cmd0[pos..];
      }
    }
  }

  method ReplaceFile(cmd: string, file: string) returns (out: Option<string>)
    ensures out == WithFile(cmd, file)
  {
    var pos := Find(cmd, WASM, 0);
    if pos > |cmd| {
      return Some(cmd + " " + file);
    }
    var b := LastBlank(cmd, pos);
    if b < 0 {
      return None;
    }
    var start := b;
    while start < |cmd| && cmd[start] == ' '
      invariant b <= start <= |cmd| && SkipBlanks(cmd, start) == SkipBlanks(cmd, b)
    {
      start := start + 1;
    }
    out := Some(cmd[..start] + file + cmd[pos + 5..]);
  }

  method ModifyRuntimeCommand(cmd: string, file: string) returns (out: Option<string>)
    ensures out == WithFile(WithDir(cmd), file)
  {
    var withDir := AddDir(cmd);
    out := ReplaceFile(withDir, file);
  }

  // ----- what it makes of a command -----

  predicate NoBlank(s: string) {
    forall k :: 0 <= k < |s| ==> s[k] != ' '
  }

  /** Every command is a first word and the rest, which begins with a blank if there is any. */
  lemma FirstWord(cmd: string) returns (word: string, rest: string)
    ensures cmd == word + rest && NoBlank(word) && (rest == "" || rest[0] == ' ')
  {
    var pos := Find(cmd, " ", 0);
    word, rest := if pos > |cmd| then cmd else cmd[..pos], if pos > |cmd| then "" else cmd[pos..];
    FirstWordOf(cmd, word, rest);
  }

  /** The option becomes the second word of a command that does not contain it. */
  lemma DirPlaced(word: string, rest: string)
    requires NoBlank(word) && (rest == "" || rest[0] == ' ')
    ensures var cmd := word + rest;
      WithDir(cmd) == if Contains(cmd, "--dir=.") then cmd else word + " --dir=." + rest
  {
    hide Contains;
    var cmd := word + rest;
    assert " --dir=." == " " + DIR;
    forall j: nat | j < |word| ensures !OccursAt(cmd, " ", j) {
      assert cmd[j] == word[j];
    }
    if rest == "" {
      assert Find(cmd, " ", 0) > |cmd| by { NoneFound(cmd, " "); }
      assert cmd + " " + DIR == word + " --dir=." + rest;
    } else {
      assert cmd[|word|..|word| + 1] == " ";
      FindIs(cmd, " ", |word|);
      assert cmd[..|word|] == word && cmd[|word|..] == rest;
    }
  }

  lemma NoneFound(s: string, pat: string)
    requires pat != "" && forall j: nat :: j < |s| ==> !OccursAt(s, pat, j)
    ensures Find(s, pat, 0) > |s|
  {
  }

  /**
   * A command with .wasm in it is a part that ends with a blank, or nothing, and then the first word
   * with .wasm: the characters in front of its first .wasm, .wasm, and the rest.
   */
  lemma WasmWord(cmd: string) returns (a: string, w: string, b: string)
    requires Contains(cmd, ".wasm")
    ensures cmd == a + w + ".wasm" + b && (a == "" || a[|a| - 1] == ' ') && NoBlank(w)
    ensures forall j: nat :: j < |a + w| ==> !OccursAt(cmd, ".wasm", j)
  {
    hide LastBlank, Contains;
    ContainsFound(cmd, WASM);
    var pos := Find(cmd, WASM, 0);
    FoundWasm(cmd);
    var start := LastBlank(cmd, pos) + 1;
    CharAt(cmd, WASM, pos, pos);
    a, w, b := cmd[..start], cmd[start..pos], cmd[pos + 5..];
    WordSplit(cmd, start, pos);
  }

  lemma WordSplit(cmd: string, start: nat, pos: nat)
    requires start <= pos <= |cmd| - 5 && OccursAt(cmd, WASM, pos)
    ensures cmd[..start] + cmd[start..pos] == cmd[..pos] && cmd == cmd[..start] + cmd[start..pos] + ".wasm" + cmd[pos + 5..]
  {
    assert cmd[pos..pos + 5] == WASM;
    assert cmd == cmd[..pos] + (cmd[pos..pos + 5] + cmd[pos + 5..]);
  }

  /** That word, up to its first .wasm, is replaced by the file; if it is the first word the tool stops. */
  lemma FileReplaced(a: string, w: string, b: string, file: string)
    requires (a == "" || a[|a| - 1] == ' ') && NoBlank(w)
    requires forall j: nat :: j < |a + w| ==> !OccursAt(a + w + ".wasm" + b, ".wasm", j)
    ensures WithFile(a + w + ".wasm" + b, file) == if a == "" then None else Some(a + file + b)
  {
    hide Find, OccursAt;
    var s, pos := a + w + ".wasm" + b, |a + w|;
    OccursIn(a + w, WASM, b, WASM, 0) by { Itself(); }
    FindIs(s, WASM, pos);
    assert forall k :: |a| <= k < pos ==> s[k] == w[k - |a|];
    assert s[pos] == '.';
    BlankIs(s, |a| as int - 1, pos);
    assert s[|a|] != ' ';
    assert a != "" ==> SkipBlanks(s, |a| - 1) == SkipBlanks(s, |a|) == |a|;
    assert s[..|a|] == a && s[pos + 5..] == b;
  }

  lemma {:induction false} BlankIs(s: string, i: int, from: nat)
    requires -1 <= i <= from < |s| && (i >= 0 ==> s[i] == ' ') && forall j :: i < j <= from ==> s[j] != ' '
    ensures LastBlank(s, from) == i
  {
    if i != from && from > 0 {
      BlankIs(s, i, from - 1);
    }
  }

  /** A command without .wasm gets the file as its last word. */
  lemma FileAppended(cmd: string, file: string)
    requires !Contains(cmd, ".wasm")
    ensures WithFile(cmd, file) == Some(cmd + " " + file)
  {
    ContainsFound(cmd, WASM);
  }

  // ----- running it twice -----

  /** The output file's name is one word that has .wasm at its end only. */
  ghost predicate PlainFile(file: string) {
    && 5 <= |file| && OccursAt(file, WASM, |file| - 5)
    && (forall k :: 0 <= k < |file| ==> file[k] != ' ')
    && (forall j: nat :: j < |file| - 5 ==> !OccursAt(file, WASM, j))
  }

  /** An occurrence in a + c that begins in a lies in a, when a ends with a blank and the pattern has none. */
  lemma OccursInFront(a: string, c: string, pat: string, j: nat)
    requires a != "" && a[|a| - 1] == ' ' && j < |a| && forall k :: 0 <= k < |pat| ==> pat[k] != ' '
    ensures OccursAt(a + c, pat, j) <==> OccursAt(a, pat, j)
  {
    hide OccursAt;
    if j + |pat| <= |a| {
      OccursWithin(a, c, pat, j);
    } else {
      TooLong(a, pat, j);
      if OccursAt(a + c, pat, j) {
        CharAt(a + c, pat, j, |a| - 1);
      }
    }
  }

  lemma TooLong(s: string, pat: string, j: nat)
    requires j + |pat| > |s|
    ensures !OccursAt(s, pat, j)
  {
  }

  /** Behind a blank the file's own .wasm is the first, if the part in front has none. */
  lemma FirstWasm(a: string, file: string, b: string)
    requires PlainFile(file) && a != "" && a[|a| - 1] == ' '
    requires forall j: nat :: j < |a| ==> !OccursAt(a, WASM, j)
    ensures Find(a + file + b, WASM, 0) == |a| + |file| - 5
  {
    hide Find, OccursAt;
    var s, i := a + file + b, |a| + |file| - 5;
    assert s == a + (file + b);
    OccursBehind(a, file + b, WASM, i);
    OccursWithin(file, b, WASM, |file| - 5);
    forall j: nat | j < i ensures !OccursAt(s, WASM, j) {
      if j < |a| {
        OccursInFront(a, file + b, WASM, j);
      } else {
        OccursBehind(a, file + b, WASM, j);
        OccursWithin(file, b, WASM, j - |a|);
      }
    }
    FindIs(s, WASM, i);
  }

  /** The last blank in front of the file is the one that ends the part before it. */
  lemma BlankBeforeFile(a: string, file: string, b: string)
    requires PlainFile(file) && a != "" && a[|a| - 1] == ' '
    ensures var s := a + file + b;
      LastBlank(s, |a| + |file| - 5) == |a| - 1 && SkipBlanks(s, |a| - 1) == |a|
  {
    var s := a + file + b;
    assert forall k :: 0 <= k < |file| ==> s[|a| + k] == file[k];
    assert s[|a| - 1] == ' ' && s[|a|] != ' ';
    assert forall j :: |a| - 1 < j <= |a| + |file| - 5 ==> s[j] == file[j - |a|];
  }

  /** A command whose .wasm word is already the file is left as it is. */
  lemma WithFileAgain(a: string, file: string, b: string)
    requires PlainFile(file) && a != "" && a[|a| - 1] == ' '
    requires forall j: nat :: j < |a| ==> !OccursAt(a, WASM, j)
    ensures WithFile(a + file + b, file) == Some(a + file + b)
  {
    var s := a + file + b;
    FirstWasm(a, file, b);
    BlankBeforeFile(a, file, b);
    assert s[..|a|] == a && s[|a| + |file| - 5 + 5..] == b;
  }

  /** What the first run puts together: a part ending with a blank and without .wasm, the file, the rest. */
  lemma FirstRun(cmd: string, file: string) returns (a: string, b: string)
    requires PlainFile(file) && WithFile(cmd, file).Some?
    ensures WithFile(cmd, file) == Some(a + file + b)
    ensures |a| <= |cmd| + 1
    ensures a != "" && a[|a| - 1] == ' ' && forall j: nat :: j < |a| ==> !OccursAt(a, WASM, j)
    ensures var pos := Find(cmd, WASM, 0);
      if pos > |cmd| then a == cmd + " " && b == ""
      else |a| <= pos && a == cmd[..|a|] && b == cmd[pos + 5..]
           && LastBlank(cmd, pos) >= 0 && |a| == SkipBlanks(cmd, LastBlank(cmd, pos))
  {
    var pos := Find(cmd, WASM, 0);
    if pos > |cmd| {
      a, b := cmd + " ", "";
      assert a + file + b == cmd + " " + file;
    } else {
      var start := SkipBlanks(cmd, LastBlank(cmd, pos));
      assert cmd[pos..pos + 5][0] == '.' && cmd[pos] == '.';
      a, b := cmd[..start], cmd[pos + 5..];
    }
    NoneInFront(cmd, a, pos);
  }

  lemma NoneInFront(cmd: string, a: string, pos: nat)
    requires pos == Find(cmd, WASM, 0)
    requires if pos > |cmd| then a == cmd + " " else |a| <= pos && a == cmd[..|a|]
    ensures forall j: nat :: j < |a| ==> !OccursAt(a, WASM, j)
  {
    hide OccursAt;
    forall j: nat | j < |a| ensures !OccursAt(a, WASM, j) {
      if pos > |cmd| {
        if j + 5 <= |cmd| {
          OccursWithin(cmd, " ", WASM, j);
        } else if OccursAt(a, WASM, j) {
          TailIsBlank(cmd, j);
        }
      } else if j + 5 <= |a| {
        assert cmd == a + cmd[|a|..];
        OccursWithin(a, cmd[|a|..], WASM, j);
      } else {
        TooLong(a, WASM, j);
      }
    }
  }

  lemma TailIsBlank(cmd: string, j: nat)
    requires j + 5 > |cmd|
    ensures !OccursAt(cmd + " ", WASM, j)
  {
    hide OccursAt;
    if j + 5 > |cmd| + 1 {
      TooLong(cmd + " ", WASM, j);
    } else if OccursAt(cmd + " ", WASM, j) {
      CharAt(cmd + " ", WASM, j, |cmd|);
    }
  }

  // ----- the directory option survives -----

  /** The word that is replaced does not itself carry the option. */
  ghost predicate TokenWithoutDir(cmd: string) {
    var pos := Find(cmd, WASM, 0);
    pos <= |cmd| && LastBlank(cmd, pos) >= 0 ==>
      !Contains(cmd[SkipBlanks(cmd, LastBlank(cmd, pos))..pos + 5], DIR)
  }

  lemma WithDirContains(cmd: string)
    ensures Contains(WithDir(cmd), DIR)
  {
    if !Contains(cmd, DIR) {
      var pos := Find(cmd, " ", 0);
      var a := if pos > |cmd| then cmd else cmd[..pos];
      var b := if pos > |cmd| then "" else cmd[pos..];
      assert WithDir(cmd) == (a + " ") + DIR + b;
      assert OccursAt(DIR, DIR, 0);
      OccursIn(a + " ", DIR, b, DIR, 0);
      assert OccursAt(WithDir(cmd), DIR, |a| + 1 + 0);
    }
  }

  lemma DirKept(cmd: string, file: string)
    requires PlainFile(file) && WithFile(cmd, file).Some? && Contains(cmd, DIR) && TokenWithoutDir(cmd)
    ensures Contains(WithFile(cmd, file).value, DIR)
  {
    hide LastBlank, SkipBlanks, WithFile, PlainFile, OccursAt, Contains;
    var a, b := FirstRun(cmd, file);
    var d := FindDir(cmd);
    if Find(cmd, WASM, 0) > |cmd| {
      KeepsPart("", cmd, " " + file, a + file + b, d);
    } else {
      FoundWasm(cmd);
      DirOutsideToken(cmd, a, b, Find(cmd, WASM, 0), d);
      if d < |a| {
        KeepsPart("", a, file + b, a + file + b, d);
      } else {
        KeepsPart(a + file, b, "", a + file + b, d - (Find(cmd, WASM, 0) + 5));
      }
    }
  }

  lemma FoundWasm(cmd: string)
    requires Find(cmd, WASM, 0) <= |cmd|
    ensures Find(cmd, WASM, 0) <= |cmd| - 5 && OccursAt(cmd, WASM, Find(cmd, WASM, 0))
  {
  }

  lemma FindDir(cmd: string) returns (d: nat)
    requires Contains(cmd, DIR)
    ensures d <= |cmd| && OccursAt(cmd, DIR, d)
  {
    d :| d <= |cmd| && OccursAt(cmd, DIR, d);
  }

  lemma KeepsPart(x: string, s: string, y: string, out: string, d: nat)
    requires OccursAt(s, DIR, d) && out == x + s + y
    ensures Contains(out, DIR)
  {
    OccursIn(x, s, y, DIR, d);
    assert OccursAt(out, DIR, |x| + d);
  }

  lemma ContainsPart(x: string, s: string, y: string, out: string)
    requires Contains(s, DIR) && out == x + s + y
    ensures Contains(out, DIR)
  {
    var d := FindDir(s);
    KeepsPart(x, s, y, out, d);
  }

  /** An occurrence of the option lies in front of the replaced word or behind it. */
  lemma DirOutsideToken(cmd: string, a: string, b: string, pos: nat, d: nat)
    requires pos <= |cmd| - 5 && OccursAt(cmd, WASM, pos) && OccursAt(cmd, DIR, d)
    requires a != "" && a[|a| - 1] == ' ' && |a| <= pos && a == cmd[..|a|] && b == cmd[pos + 5..]
    requires !Contains(cmd[|a|..pos + 5], DIR)
    ensures d < |a| ==> OccursAt(a, DIR, d)
    ensures d >= |a| ==> d >= pos + 5 && OccursAt(b, DIR, d - (pos + 5))
  {
    hide OccursAt;
    var t := cmd[|a|..pos + 5];
    assert cmd == a + cmd[|a|..] == a + (t + b) == cmd[..pos + 5] + b;
    if d < |a| {
      OccursInFront(a, cmd[|a|..], DIR, d);
    } else if d >= pos + 5 {
      OccursBehind(cmd[..pos + 5], b, DIR, d);
    } else if d + 7 <= pos + 5 {
      OccursBehind(a, t + b, DIR, d);
      OccursWithin(t, b, DIR, d - |a|);
    } else {
      CharAt(cmd, WASM, pos, pos + 4);
      CharAt(cmd, DIR, d, pos + 4);
    }
  }

  /**
   * The rewriting may be repeated: applied to its own result it changes nothing, provided the replaced
   * word did not carry the directory option.
   */
  lemma RewritingIdempotent(cmd: string, file: string)
    requires PlainFile(file) && WithFile(WithDir(cmd), file).Some? && TokenWithoutDir(WithDir(cmd))
    ensures var out := WithFile(WithDir(cmd), file).value;
      WithDir(out) == out && WithFile(out, file) == Some(out)
  {
    hide Find, WithFile, OccursAt;
    var c := WithDir(cmd);
    WithDirContains(cmd);
    DirKept(c, file);
    var a, b := FirstRun(c, file);
    WithFileAgain(a, file, b);
  }

  /** The option stands in front of the replaced word or behind it, or the file's own name carries it. */
  ghost predicate DirSurvives(cmd: string, file: string) {
    var pos := Find(cmd, WASM, 0);
    || Contains(file, DIR)
    || (if pos > |cmd| then Contains(cmd, DIR)
        else LastBlank(cmd, pos) >= 0
             && (Contains(cmd[..SkipBlanks(cmd, LastBlank(cmd, pos))], DIR) || Contains(cmd[pos + 5..], DIR)))
  }

  lemma WithDirSame(cmd: string)
    ensures WithDir(cmd) == cmd <==> Contains(cmd, DIR)
  {
    if WithDir(cmd) == cmd {
      WithDirContains(cmd);
    }
  }

  /** An occurrence of the option in a command lies in one of its parts: no part's end can share it. */
  lemma DirInParts(a: string, file: string, b: string)
    requires PlainFile(file) && a != "" && a[|a| - 1] == ' '
    ensures Contains(a + file + b, DIR) <==> Contains(a, DIR) || Contains(file, DIR) || Contains(b, DIR)
  {
    hide OccursAt;
    var out := a + file + b;
    assert out == a + (file + b);
    if Contains(out, DIR) {
      var d := FindDir(out);
      if d < |a| {
        OccursInFront(a, file + b, DIR, d);
      } else {
        OccursBehind(a, file + b, DIR, d);
        DirBehind(file, b, d - |a|);
      }
    }
    if Contains(a, DIR) {
      ContainsPart("", a, file + b, out);
    }
    if Contains(file, DIR) {
      ContainsPart(a, file, b, out);
    }
    if Contains(b, DIR) {
      ContainsPart(a + file, b, "", out);
    }
  }

  lemma DirBehind(file: string, b: string, d: nat)
    requires PlainFile(file) && OccursAt(file + b, DIR, d)
    ensures Contains(file, DIR) || Contains(b, DIR)
  {
    if d + 7 <= |file| {
      OccursWithin(file, b, DIR, d);
    } else if d >= |file| {
      OccursBehind(file, b, DIR, d);
    } else {
      CharAt(file + b, DIR, d, |file| - 1);
      CharAt(file, WASM, |file| - 5, |file| - 1);
    }
  }

  /** The rewriting may be repeated exactly when the directory option survives the first time. */
  lemma RepeatableIff(cmd: string, file: string)
    requires PlainFile(file) && WithFile(WithDir(cmd), file).Some?
    ensures var out := WithFile(WithDir(cmd), file).value;
      WithFile(WithDir(out), file) == Some(out) <==> DirSurvives(WithDir(cmd), file)
  {
    hide Find, WithFile, OccursAt, LastBlank, SkipBlanks;
    var c := WithDir(cmd);
    WithDirContains(cmd);
    var a, b := FirstRun(c, file);
    var out := a + file + b;
    WithDirSame(out);
    DirInParts(a, file, b);
    SurvivesIff(c, file, a, b);
    if Contains(out, DIR) {
      WithFileAgain(a, file, b);
    } else {
      SecondRun(a, file, b);
    }
  }

  lemma SurvivesIff(cmd: string, file: string, a: string, b: string)
    requires Contains(cmd, DIR)
    requires var pos := Find(cmd, WASM, 0);
      if pos > |cmd| then a == cmd + " " && b == ""
      else |a| <= pos && a == cmd[..|a|] && b == cmd[pos + 5..]
           && LastBlank(cmd, pos) >= 0 && |a| == SkipBlanks(cmd, LastBlank(cmd, pos))
    ensures DirSurvives(cmd, file) <==> Contains(a, DIR) || Contains(file, DIR) || Contains(b, DIR)
  {
    hide OccursAt, LastBlank, SkipBlanks, Contains;
    if Find(cmd, WASM, 0) > |cmd| {
      assert a == "" + cmd + " ";
      ContainsPart("", cmd, " ", a);
    }
  }

  /** Without the option the second run puts it in again, and then finds the file in its place. */
  lemma SecondRun(a: string, file: string, b: string)
    requires PlainFile(file) && a != "" && a[|a| - 1] == ' ' && !Contains(a + file + b, DIR)
    requires forall j: nat :: j < |a| ==> !OccursAt(a, WASM, j)
    ensures var c := WithDir(a + file + b); c != a + file + b && WithFile(c, file) == Some(c)
  {
    hide OccursAt, WithFile, WithDir, Find, PlainFile;
    WithDirSame(a + file + b);
    var p := WithDirInFront(a, file, b);
    NoneInserted(a, p);
    WithFileAgain(a[..p] + " " + DIR + a[p..], file, b);
  }

  /** The option is put in front of a blank of the first part. */
  lemma WithDirInFront(a: string, file: string, b: string) returns (p: nat)
    requires a != "" && a[|a| - 1] == ' ' && !Contains(a + file + b, DIR)
    ensures p < |a| && a[p] == ' ' && WithDir(a + file + b) == (a[..p] + " " + DIR + a[p..]) + file + b
  {
    hide OccursAt, Contains;
    var out := a + file + b;
    assert out == a + (file + b);
    BlankFound(a, file + b);
    p := Find(out, " ", 0);
    CharAt(out, " ", p, p);
    assert out[..p] == a[..p] && out[p..] == a[p..] + file + b;
  }

  lemma BlankFound(a: string, rest: string)
    requires a != "" && a[|a| - 1] == ' '
    ensures Find(a + rest, " ", 0) < |a|
  {
    var s := a + rest;
    assert s[|a| - 1..|a|] == " ";
    assert OccursAt(s, " ", |a| - 1);
  }

  /** Putting the option in front of a blank makes no new .wasm. */
  lemma NoneInserted(a: string, p: nat)
    requires p < |a| && a[p] == ' ' && forall j: nat :: j < |a| ==> !OccursAt(a, WASM, j)
    ensures var a2 := a[..p] + " " + DIR + a[p..]; forall j: nat :: j < |a2| ==> !OccursAt(a2, WASM, j)
  {
    hide OccursAt;
    var x, y, a2 := a[..p] + " ", DIR + a[p..], a[..p] + " " + DIR + a[p..];
    assert a2 == x + y && x == a[..p + 1] && a == x + a[p + 1..] && a == a[..p] + a[p..];
    forall j: nat | j < |a2| ensures !OccursAt(a2, WASM, j) {
      if j < |x| {
        OccursInFront(x, y, WASM, j);
        OccursInFront(x, a[p + 1..], WASM, j);
      } else {
        OccursBehind(x, y, WASM, j);
        var i := j - |x|;
        if i >= 7 {
          OccursBehind(DIR, a[p..], WASM, i);
          OccursBehind(a[..p], a[p..], WASM, p + i - 7);
        } else if OccursAt(y, WASM, i) {
          CharAt(y, WASM, i, i);
          CharAt(y, WASM, i, i + 1);
        }
      }
    }
  }

  const LOSING := "x --dir=..wasm"

  lemma LosingWasm()
    ensures Find(LOSING, WASM, 0) == 9 && LastBlank(LOSING, 9) == 1 && SkipBlanks(LOSING, 1) == 2
  {
    hide OccursAt;
    var c := LOSING;
    assert OccursAt(c, WASM, 9) by { LosingParts(); OccursBehind("x --dir=.", WASM, WASM, 9); Itself(); }
    forall j: nat | j < 9 ensures !OccursAt(c, WASM, j) {
      assert c[j] == '.' ==> c[j + 1] == '.';
      if OccursAt(c, WASM, j) {
        CharAt(c, WASM, j, j);
        CharAt(c, WASM, j, j + 1);
      }
    }
    FindIs(c, WASM, 9);
    assert c[1] == ' ' && c[2] != ' ' && forall k :: 1 < k <= 9 ==> c[k] != ' ';
  }

  lemma LosingParts()
    ensures LOSING == "x --dir=." + WASM && "x " + (DIR + WASM) == LOSING
  {
  }

  lemma Itself()
    ensures OccursAt(WASM, WASM, 0) && OccursAt(DIR, DIR, 0)
  {
  }

  /** The option is lost when it stands in the replaced word: a second run does not leave the command alone. */
  lemma OptionCanBeLost()
    ensures var out := WithFile(WithDir(LOSING), "o.wasm");
      out == Some("x o.wasm") && WithFile(WithDir(out.value), "o.wasm") != out
  {
    hide Find, LastBlank, SkipBlanks, WithFile;
    assert LOSING[2..2 + |DIR|] == DIR;
    assert OccursAt(LOSING, DIR, 2);
    WithDirSame(LOSING);
    LosingWasm();
    LosingResult();
    assert PlainFile("o.wasm") by { ShortFile(); }
    RepeatableIff(LOSING, "o.wasm");
  }

  lemma ShortFile()
    ensures PlainFile("o.wasm")
  {
    assert "o.wasm"[1..1 + |WASM|] == WASM;
    if OccursAt("o.wasm", WASM, 0) {
      CharAt("o.wasm", WASM, 0, 0);
    }
  }

  lemma LosingResult()
    ensures WithFile(LOSING, "o.wasm") == Some("x o.wasm") && !DirSurvives(LOSING, "o.wasm")
  {
    LosingWasm();
    assert LOSING[..2] == "x " && LOSING[14..] == "" && "x " + "o.wasm" + "" == "x o.wasm";
  }

  // ----- where the tool stops -----

  /** The first .wasm of the command stands in its first word. */
  predicate WasmInFirstWord(cmd: string) {
    var pos := Find(cmd, WASM, 0);
    pos <= |cmd| && forall k :: 0 <= k <= pos && k < |cmd| ==> cmd[k] != ' '
  }

  lemma ReplaceFails(cmd: string, file: string)
    ensures WithFile(cmd, file).None? <==> WasmInFirstWord(cmd)
  {
  }

  /** Whether .wasm stands in the first word depends on that word alone. */
  lemma FirstWordOnly(x: string, z: string)
    requires (forall k :: 0 <= k < |x| ==> x[k] != ' ') && (z == "" || z[0] == ' ')
    ensures WasmInFirstWord(x + z) <==> Contains(x, WASM)
  {
    hide OccursAt;
    var s := x + z;
    var pos := Find(s, WASM, 0);
    if Contains(x, WASM) {
      var j: nat :| j <= |x| && OccursAt(x, WASM, j);
      if j + 5 > |x| {
        TooLong(x, WASM, j);
      }
      OccursWithin(x, z, WASM, j);
      assert pos <= j;
    }
    if WasmInFirstWord(s) {
      if pos + 5 > |s| {
        TooLong(s, WASM, pos);
      }
      if pos + 5 > |x| {
        assert s[|x|] == ' ';
        CharAt(s, WASM, pos, |x|);
      }
      OccursWithin(x, z, WASM, pos);
    }
  }

  /** The tool's assertion fails exactly when the first .wasm of the user's command stands in its first word. */
  lemma FailsIffFirstWord(cmd: string, file: string)
    ensures WithFile(WithDir(cmd), file).None? <==> WasmInFirstWord(cmd)
  {
    hide WithFile, WasmInFirstWord, OccursAt, Contains;
    ReplaceFails(WithDir(cmd), file);
    if !Contains(cmd, DIR) {
      var pos := Find(cmd, " ", 0);
      var x := if pos > |cmd| then cmd else cmd[..pos];
      var y := if pos > |cmd| then "" else cmd[pos..];
      assert cmd == x + y && WithDir(cmd) == x + (" " + DIR + y);
      FirstWordOf(cmd, x, y);
      FirstWordOnly(x, y);
      FirstWordOnly(x, " " + DIR + y);
    }
  }

  lemma FirstWordOf(cmd: string, x: string, y: string)
    requires var pos := Find(cmd, " ", 0);
      if pos > |cmd| then x == cmd && y == "" else x == cmd[..pos] && y == cmd[pos..]
    ensures (forall k :: 0 <= k < |x| ==> x[k] != ' ') && (y == "" || y[0] == ' ')
  {
    var pos := Find(cmd, " ", 0);
    forall k | 0 <= k < |x| ensures x[k] != ' ' {
      assert !OccursAt(cmd, " ", k);
      assert cmd[k..k + 1] == [cmd[k]];
    }
    if pos <= |cmd| {
      CharAt(cmd, " ", pos, pos);
    }
  }
}
