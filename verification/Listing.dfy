/** The listing of a module: splitting into lines and numbering the instructions of each function. */
module Listing {
  import opened Machine
  import opened Decimals
  import opened Texts
  import Instrumenting

  // ----- lines -----

  function Joined(lines: seq<string>): string {
    if lines == [] then "" else lines[0] + Joined(lines[1..])
  }

  lemma {:induction false} JoinedSnoc(lines: seq<string>, l: string)
    ensures Joined(lines + [l]) == Joined(lines) + l
    ensures Joined([]) == ""
  {
    if lines == [] {
      assert [] + [l] == [l] && [l][1..] == [];
      assert Joined([l]) == l + "";
    } else {
      JoinedSnoc(lines[1..], l);
      assert (lines + [l])[1..] == lines[1..] + [l];
    }
  }

  /** A line ends with its only newline. */
  predicate IsLine(l: string) {
    l != "" && l[|l| - 1] == '\n' && forall k :: 0 <= k < |l| - 1 ==> l[k] != '\n'
  }

  /** Splitting loses nothing; it comes to an end because the text ends with a newline. */
  method SplitLines(text: string) returns (lines: seq<string>)
    requires text == "" || text[|text| - 1] == '\n'
    ensures Joined(lines) == text && forall k :: 0 <= k < |lines| ==> IsLine(lines[k])
  {
    lines := [];
    var pos := 0;
    while pos < |text|
      invariant pos <= |text| && Joined(lines) == text[..pos]
      invariant forall k :: 0 <= k < |lines| ==> IsLine(lines[k])
    {
      assert OccursAt(text, "\n", |text| - 1);
      var nl := Find(text, "\n", pos);
      assert text[nl..nl + 1] == "\n" && text[nl] == '\n';
      var next := nl + 1;
      var line := text[pos..next];
      forall k | 0 <= k < |line| - 1 ensures line[k] != '\n' {
        assert !OccursAt(text, "\n", pos + k);
        assert text[pos + k..pos + k + 1] == [text[pos + k]];
      }
      JoinedSnoc(lines, line);
      assert text[..next] == text[..pos] + line;
      lines := lines + [line];
      pos := next;
    }
    assert text[..pos] == text;
  }

  // ----- prefixes -----

  function Spaces(n: nat): (s: string)
    ensures |s| == n
  {
    seq(n, _ => ' ')
  }

  /** The column in front of a line: blank, or the right-aligned number and a blank. */
  function Indent(size: nat, num: nat): string {
    if num == 0 then Spaces(size)
    else
      var d := Decimal(num);
      Spaces(if size - 1 - |d| > 0 then size - 1 - |d| else 0) + d + " "
  }

  /** With the size taken from the largest number, all columns have the same width. */
  lemma IndentWidth(max: nat, num: nat)
    requires num <= max
    ensures |Indent(|Decimal(max)| + 1, num)| == |Decimal(max)| + 1
  {
    DecimalWidth(num, max);
  }

  /**
   * What the column shows: nothing for 0; for any other number blanks, the number in decimal notation
   * without leading zeros, and a blank.
   */
  lemma ColumnShows(max: nat, num: nat) returns (blanks: string, digits: string)
    requires num <= max
    ensures var column := Indent(|Decimal(max)| + 1, num);
      && |column| == |Decimal(max)| + 1
      && (num == 0 ==> forall k :: 0 <= k < |column| ==> column[k] == ' ')
      && (num > 0 ==> column == blanks + digits + " " && NumberOf(digits) == num && digits != "" && digits[0] != '0')
    ensures forall k :: 0 <= k < |blanks| ==> blanks[k] == ' '
    ensures forall k :: 0 <= k < |digits| ==> IsDigit(digits[k])
  {
    IndentWidth(max, num);
    digits := Decimal(num);
    blanks := Spaces(if |Decimal(max)| > |digits| then |Decimal(max)| - |digits| else 0);
    DecimalRoundTrip(num);
    NoLeadingZero(num);
  }

  function SkipSpaces(s: string): string {
    if s != "" && s[0] == ' ' then SkipSpaces(s[1..]) else s
  }

  /** The first characters after leading spaces, at most len of them. */
  function FirstNoneSpace(s: string, len: nat): string {
    var t := SkipSpaces(s);
    if len <= |t| then t[..len] else t
  }

  predicate StartsWith(s: string, prefix: string) {
    FirstNoneSpace(s, |prefix|) == prefix
  }

  /** A line starts with a prefix if it does so behind its leading blanks, however many there are. */
  lemma {:induction false} StartsWithIff(n: nat, rest: string, prefix: string)
    requires rest == "" || rest[0] != ' '
    ensures StartsWith(Spaces(n) + rest, prefix) <==> prefix <= rest
    decreases n
  {
    if n == 0 {
      assert Spaces(0) + rest == rest;
      assert SkipSpaces(rest) == rest;
    } else {
      StartsWithIff(n - 1, rest, prefix);
      assert (Spaces(n) + rest)[1..] == Spaces(n - 1) + rest;
    }
  }

  // ----- the scanner -----

  /** A printed item: a function has a line for each local and one for each instruction of its code. */
  datatype Item =
    | Other(line: string)
    | Function(header: string, vars: seq<string>, code: Code, close: string)

  /** How an instruction is printed, its line's newline included. */
  type Printer = StackInst -> string

  function Printed(code: Code, show: Printer): (ls: seq<string>)
    ensures |ls| == |code| && forall k :: 0 <= k < |code| ==> ls[k] == show(code[k])
  {
    seq(|code|, k requires 0 <= k < |code| => show(code[k]))
  }

  function ItemLines(i: Item, show: Printer): seq<string> {
    match i
    case Other(l) => [l]
    case Function(h, vs, b, c) => [h] + vs + Printed(b, show) + [c]
  }

  /** The numbers displayed for the lines of an item; 0 for a line without number. */
  function ItemNumbers(i: Item): (ns: seq<nat>)
    ensures |ns| == if i.Other? then 1 else |i.vars| + |i.code| + 2
  {
    match i
    case Other(l) => [0]
    case Function(h, vs, b, c) => [0] + Blank(|vs|) + Upwards(1, |b|) + [0]
  }

  function Blank(n: nat): (ns: seq<nat>)
    ensures |ns| == n
  {
    seq(n, _ => 0)
  }

  function Upwards(from: nat, n: nat): (ns: seq<nat>)
    ensures |ns| == n && forall k :: 0 <= k < n ==> ns[k] == from + k
  {
    seq(n, k => from + k)
  }

  function AllLines(items: seq<Item>, show: Printer): seq<string> {
    if items == [] then [] else ItemLines(items[0], show) + AllLines(items[1..], show)
  }

  function AllNumbers(items: seq<Item>): (ns: seq<nat>) {
    if items == [] then [] else ItemNumbers(items[0]) + AllNumbers(items[1..])
  }

  /** How functions and other items are printed; the prefixes may carry colour codes. */
  predicate WellPrinted(i: Item, show: Printer, func: string, local: string) {
    match i
    case Other(l) => !StartsWith(l, func)
    case Function(h, vs, b, c) =>
      && StartsWith(h, func)
      && (forall k :: 0 <= k < |vs| ==> StartsWith(vs[k], local))
      && (forall k :: 0 <= k < |b| ==> !StartsWith(show(b[k]), local) && !StartsWith(show(b[k]), ")"))
      && !StartsWith(c, local) && StartsWith(c, ")")
  }

  datatype Scan = OutFunc | InFunc | AfterLocals(next: nat)

  /** The scanner's reaction to one line: the new state and the number displayed. */
  function ScanLine(s: Scan, line: string, func: string, local: string): (Scan, nat) {
    if s.OutFunc? then (if StartsWith(line, func) then InFunc else OutFunc, 0)
    else if s.InFunc? && StartsWith(line, local) then (InFunc, 0)
    else
      var num := if s.InFunc? then 1 else s.next;
      if StartsWith(line, ")") then (OutFunc, 0) else (AfterLocals(num + 1), num)
  }

  function ScanAll(s: Scan, lines: seq<string>, func: string, local: string): (r: (Scan, seq<nat>))
    ensures |r.1| == |lines|
    decreases lines
  {
    if lines == [] then (s, [])
    else
      var (s2, num) := ScanLine(s, lines[0], func, local);
      var (s3, rest) := ScanAll(s2, lines[1..], func, local);
      (s3, [num] + rest)
  }

  lemma {:induction false} ScanAppend(s: Scan, a: seq<string>, b: seq<string>, func: string, local: string)
    ensures var (s2, na) := ScanAll(s, a, func, local);
      var (s3, nb) := ScanAll(s2, b, func, local);
      ScanAll(s, a + b, func, local) == (s3, na + nb)
    decreases a
  {
    hide ScanLine;
    if a == [] {
      assert a + b == b;
      assert [] + ScanAll(s, b, func, local).1 == ScanAll(s, b, func, local).1;
    } else {
      assert (a + b)[1..] == a[1..] + b;
      var (s1, num) := ScanLine(s, a[0], func, local);
      ScanAppend(s1, a[1..], b, func, local);
      var (s2, n2) := ScanAll(s1, a[1..], func, local);
      var (s3, n3) := ScanAll(s2, b, func, local);
      assert [num] + (n2 + n3) == [num] + n2 + n3;
    }
  }

  /** The result splits behind the lines already scanned. */
  ghost predicate Scanned(ns: seq<nat>, k: nat, s: Scan, rest: seq<string>, func: string, local: string) {
    k + |rest| == |ns| && ScanAll(s, rest, func, local).1 == ns[k..]
  }

  lemma ScannedStep(ns: seq<nat>, k: nat, s: Scan, rest: seq<string>, func: string, local: string)
    requires Scanned(ns, k, s, rest, func, local) && rest != []
    ensures ScanLine(s, rest[0], func, local).1 == ns[k]
    ensures Scanned(ns, k + 1, ScanLine(s, rest[0], func, local).0, rest[1..], func, local)
  {
    hide ScanLine;
    var (s2, num) := ScanLine(s, rest[0], func, local);
    var all := ScanAll(s, rest, func, local).1;
    assert all == [num] + ScanAll(s2, rest[1..], func, local).1;
    assert ns[k] == all[0] && ns[k + 1..] == all[1..];
  }

  /** The listing loop: every line behind its column. */
  method ListModule(lines: seq<string>, max: nat, func: string, local: string) returns (out: seq<string>)
    ensures |out| == |lines|
    ensures var ns := ScanAll(OutFunc, lines, func, local).1;
      forall k :: 0 <= k < |lines| ==> out[k] == Indent(|Decimal(max)| + 1, ns[k]) + lines[k]
  {
    hide ScanAll, Indent, StartsWith;
    out := [];
    var state, lineNum := 0, 0;
    var size := |Decimal(max)| + 1;
    ghost var ns := ScanAll(OutFunc, lines, func, local).1;
    assert lines[0..] == lines && ns[0..] == ns;
    for i := 0 to |lines|
      invariant 0 <= state <= 2 && |out| == i && (state == 2 ==> lineNum > 0)
      invariant Scanned(ns, i, Abs(state, lineNum), lines[i..], func, local)
      invariant forall k :: 0 <= k < i ==> out[k] == Indent(size, ns[k]) + lines[k]
    {
      var line := lines[i];
      assert lines[i..][0] == line && lines[i..][1..] == lines[i + 1..];
      ScannedStep(ns, i, Abs(state, lineNum), lines[i..], func, local);
      var l := Indent(size, 0) + line;
      if state == 0 {
        state := if StartsWith(line, func) then 1 else 0;
      } else {
        if state == 1 && !StartsWith(line, local) {
          state, lineNum := 2, 1;
        }
        if state == 2 {
          if StartsWith(line, ")") {
            state := 0;
          } else {
            l := Indent(size, lineNum) + line;
            lineNum := lineNum + 1;
          }
        }
      }
      out := out + [l];
    }
  }

  function Abs(state: int, lineNum: int): Scan
    requires 0 <= state <= 2 && (state == 2 ==> lineNum > 0)
  {
    if state == 0 then OutFunc else if state == 1 then InFunc else AfterLocals(lineNum)
  }

  // ----- numbers are positions -----

  lemma {:induction false} ScanBody(body: seq<string>, close: string, from: nat, func: string, local: string)
    requires forall k :: 0 <= k < |body| ==> !StartsWith(body[k], ")")
    requires StartsWith(close, ")")
    ensures ScanAll(AfterLocals(from), body + [close], func, local) == (OutFunc, Upwards(from, |body|) + [0])
  {
    hide StartsWith;
    if body == [] {
      assert body + [close] == [close] && [close][1..] == [];
      assert Upwards(from, 0) + [0] == [0] == [0] + [];
      assert ScanLine(AfterLocals(from), close, func, local) == (OutFunc, 0);
      assert ScanAll(OutFunc, [close][1..], func, local) == (OutFunc, []);
      assert ScanAll(AfterLocals(from), [close], func, local) == (OutFunc, [0] + []);
    } else {
      assert (body + [close])[1..] == body[1..] + [close];
      ScanBody(body[1..], close, from + 1, func, local);
      assert ScanLine(AfterLocals(from), body[0], func, local) == (AfterLocals(from + 1), from);
      assert [from] + (Upwards(from + 1, |body| - 1) + [0]) == Upwards(from, |body|) + [0];
    }
  }

  /** The first line behind the locals starts the numbering at 1. */
  lemma ScanFirst(body: seq<string>, close: string, func: string, local: string)
    requires forall k :: 0 <= k < |body| ==> !StartsWith(body[k], local) && !StartsWith(body[k], ")")
    requires !StartsWith(close, local) && StartsWith(close, ")")
    ensures ScanAll(InFunc, body + [close], func, local) == (OutFunc, Upwards(1, |body|) + [0])
  {
    hide StartsWith;
    ScanBody(body, close, 1, func, local);
    var ls := body + [close];
    assert !StartsWith(ls[0], local);
    assert ScanLine(InFunc, ls[0], func, local) == ScanLine(AfterLocals(1), ls[0], func, local);
  }

  lemma {:induction false} ScanLocals(vars: seq<string>, func: string, local: string)
    requires forall k :: 0 <= k < |vars| ==> StartsWith(vars[k], local)
    ensures ScanAll(InFunc, vars, func, local) == (InFunc, Blank(|vars|))
  {
    hide StartsWith;
    if vars != [] {
      ScanLocals(vars[1..], func, local);
      assert Blank(|vars|) == [0] + Blank(|vars| - 1);
    }
  }

  lemma ScanItem(i: Item, show: Printer, func: string, local: string)
    requires WellPrinted(i, show, func, local)
    ensures ScanAll(OutFunc, ItemLines(i, show), func, local) == (OutFunc, ItemNumbers(i))
  {
    hide StartsWith;
    match i {
      case Other(l) =>
        assert [l][1..] == [];
        assert [0] + [] == [0];
      case Function(h, vs, code, c) =>
        var b := Printed(code, show);
        ScanLocals(vs, func, local);
        ScanFirst(b, c, func, local);
        ScanAppend(InFunc, vs, b + [c], func, local);
        var rest := vs + (b + [c]);
        assert ItemLines(i, show) == [h] + rest && ([h] + rest)[1..] == rest;
        assert ItemNumbers(i) == [0] + (Blank(|vs|) + (Upwards(1, |b|) + [0]));
    }
  }

  /**
   * Over any well-printed module the scanner numbers exactly the instruction lines of each function,
   * 1, 2, 3, ... from its first instruction on; every other line stays without number.
   */
  lemma {:induction false} NumbersArePositions(items: seq<Item>, show: Printer, func: string, local: string)
    requires forall k :: 0 <= k < |items| ==> WellPrinted(items[k], show, func, local)
    ensures ScanAll(OutFunc, AllLines(items, show), func, local) == (OutFunc, AllNumbers(items))
  {
    hide WellPrinted;
    if items != [] {
      ScanItem(items[0], show, func, local);
      NumbersArePositions(items[1..], show, func, local);
      ScanAppend(OutFunc, ItemLines(items[0], show), AllLines(items[1..], show), func, local);
    }
  }

  /** The line of the instruction numbered k in item j. */
  function LineOf(items: seq<Item>, show: Printer, j: nat, k: nat): nat
    requires j < |items| && items[j].Function? && k >= 1
  {
    if j == 0 then |items[0].vars| + k else |ItemLines(items[0], show)| + LineOf(items[1..], show, j - 1, k)
  }

  lemma {:induction false} LineShows(items: seq<Item>, show: Printer, j: nat, k: nat)
    requires j < |items| && items[j].Function? && 1 <= k <= |items[j].code|
    ensures var l := LineOf(items, show, j, k);
      && l < |AllLines(items, show)| && AllLines(items, show)[l] == show(items[j].code[k-1])
      && l < |AllNumbers(items)| && AllNumbers(items)[l] == k
  {
    hide ItemLines, ItemNumbers;
    var a, ns, i := ItemLines(items[0], show), ItemNumbers(items[0]), LineOf(items, show, j, k);
    if j > 0 {
      SameSize(items[0], show);
      LineShows(items[1..], show, j - 1, k);
      Behind(a, AllLines(items[1..], show), i);
      Behind(ns, AllNumbers(items[1..]), i);
    } else {
      OwnLine(items[0], show, k);
    }
  }

  lemma Behind<T>(a: seq<T>, b: seq<T>, i: nat)
    requires |a| <= i < |a| + |b|
    ensures (a + b)[i] == b[i - |a|]
  {
  }

  lemma SameSize(i: Item, show: Printer)
    ensures |ItemLines(i, show)| == |ItemNumbers(i)|
  {
  }

  lemma OwnLine(i: Item, show: Printer, k: nat)
    requires i.Function? && 1 <= k <= |i.code|
    ensures var l := |i.vars| + k;
      && l < |ItemLines(i, show)| && ItemLines(i, show)[l] == show(i.code[k-1])
      && l < |ItemNumbers(i)| && ItemNumbers(i)[l] == k
  {
  }

  /**
   * The number displayed is the position the tool inserts at: the line numbered k in a function shows
   * instruction k of its list, and the positional insertion at k puts xs directly behind that instruction.
   */
  lemma NumberIsPosition(items: seq<Item>, show: Printer, func: string, local: string, j: nat, k: nat, xs: Code)
    requires forall n :: 0 <= n < |items| ==> WellPrinted(items[n], show, func, local)
    requires j < |items| && items[j].Function? && 1 <= k <= |items[j].code|
    ensures var l, ls, code := LineOf(items, show, j, k), AllLines(items, show), items[j].code;
      && l < |ls| && ls[l] == show(code[k-1]) && ScanAll(OutFunc, ls, func, local).1[l] == k
    ensures var code := items[j].code;
      var w := Instrumenting.InsertedAt(code, k, xs);
      && |w| == |code| + |xs| && w[k-1] == code[k-1] && w[k..k + |xs|] == xs
      && w[..k] == code[..k] && w[k + |xs|..] == code[k..]
  {
    hide WellPrinted, ScanAll;
    NumbersArePositions(items, show, func, local);
    LineShows(items, show, j, k);
  }

  /** The line displays the number: blanks, its decimal notation and a blank stand in front of the text. */
  ghost predicate Displays(line: string, num: nat, text: string) {
    exists blanks: string, digits: string :: line == blanks + digits + " " + text
      && (forall k :: 0 <= k < |blanks| ==> blanks[k] == ' ')
      && (forall k :: 0 <= k < |digits| ==> IsDigit(digits[k]))
      && NumberOf(digits) == num && digits != "" && digits[0] != '0'
  }

  /** The line is the text behind blanks alone. */
  ghost predicate DisplaysNone(line: string, text: string) {
    exists blanks: string :: line == blanks + text && forall k :: 0 <= k < |blanks| ==> blanks[k] == ' '
  }

  lemma ColumnDisplays(max: nat, num: nat, text: string)
    requires num <= max
    ensures var line := Indent(|Decimal(max)| + 1, num) + text;
      && |line| == |Decimal(max)| + 1 + |text|
      && (if num == 0 then DisplaysNone(line, text) else Displays(line, num, text))
  {
    var blanks, digits := ColumnShows(max, num);
    var column := Indent(|Decimal(max)| + 1, num);
    if num == 0 {
      assert column + text == column + text && DisplaysNone(column + text, text);
    } else {
      assert column + text == blanks + digits + " " + text;
    }
  }

  /** No function has more than max instructions. */
  predicate AtMost(items: seq<Item>, max: nat) {
    forall j :: 0 <= j < |items| && items[j].Function? ==> |items[j].code| <= max
  }

  lemma {:induction false} NumbersBounded(items: seq<Item>, max: nat)
    requires AtMost(items, max)
    ensures forall l :: 0 <= l < |AllNumbers(items)| ==> AllNumbers(items)[l] <= max
  {
    if items != [] {
      assert AtMost(items[1..], max) by { assert forall j :: 0 <= j < |items[1..]| ==> items[1..][j] == items[j + 1]; }
      NumbersBounded(items[1..], max);
      forall l | 0 <= l < |ItemNumbers(items[0])| ensures ItemNumbers(items[0])[l] <= max {
      }
    }
  }

  /** The line is that of an instruction of some function. */
  ghost predicate IsNumbered(items: seq<Item>, show: Printer, l: nat) {
    exists j, k :: 0 <= j < |items| && items[j].Function? && 1 <= k <= |items[j].code| && l == LineOf(items, show, j, k)
  }

  lemma {:induction false} NumberedLine(items: seq<Item>, show: Printer, l: nat)
    requires l < |AllNumbers(items)| && AllNumbers(items)[l] != 0
    ensures IsNumbered(items, show, l)
  {
    hide ItemLines, ItemNumbers, AllNumbers;
    NumbersFront(items);
    var i, rest := items[0], items[1..];
    var a, b := ItemNumbers(i), AllNumbers(rest);
    SameSize(i, show);
    if l < |a| {
      OwnNumber(i, l);
      assert l == LineOf(items, show, 0, l - |i.vars|);
    } else {
      Behind(a, b, l);
      NumberedLine(rest, show, l - |a|);
      var j, k :| 0 <= j < |rest| && rest[j].Function? && 1 <= k <= |rest[j].code|
                  && l - |a| == LineOf(rest, show, j, k);
      assert items[j + 1] == rest[j] && l == LineOf(items, show, j + 1, k);
    }
  }

  lemma NumbersFront(items: seq<Item>)
    requires AllNumbers(items) != []
    ensures items != [] && AllNumbers(items) == ItemNumbers(items[0]) + AllNumbers(items[1..])
  {
  }

  lemma OwnNumber(i: Item, l: nat)
    requires l < |ItemNumbers(i)| && ItemNumbers(i)[l] != 0
    ensures i.Function? && 1 <= l - |i.vars| <= |i.code|
  {
  }

  /**
   * The listing of a module: every line is printed behind a column of one width; the line of the k-th
   * instruction of a function displays k, any other line no number.
   */
  method ListItems(items: seq<Item>, show: Printer, max: nat, func: string, local: string) returns (out: seq<string>)
    requires AtMost(items, max) && forall n :: 0 <= n < |items| ==> WellPrinted(items[n], show, func, local)
    ensures var ls := AllLines(items, show);
      |out| == |ls| && forall l :: 0 <= l < |ls| ==> |out[l]| == |Decimal(max)| + 1 + |ls[l]|
    ensures forall j, k :: 0 <= j < |items| && items[j].Function? && 1 <= k <= |items[j].code| ==>
              var l := LineOf(items, show, j, k);
              l < |out| && Displays(out[l], k, show(items[j].code[k-1]))
    ensures forall l :: 0 <= l < |out| && !IsNumbered(items, show, l) ==> DisplaysNone(out[l], AllLines(items, show)[l])
  {
    hide Indent, Displays, DisplaysNone, AllLines, AllNumbers, WellPrinted, ScanAll, LineOf, AtMost, IsNumbered;
    ghost var ns, ls := AllNumbers(items), AllLines(items, show);
    NumbersArePositions(items, show, func, local);
    NumbersBounded(items, max);
    out := ListModule(AllLines(items, show), max, func, local);
    forall l | 0 <= l < |ls|
      ensures |out[l]| == |Decimal(max)| + 1 + |ls[l]|
      ensures if ns[l] == 0 then DisplaysNone(out[l], ls[l]) else Displays(out[l], ns[l], ls[l])
      ensures ns[l] != 0 ==> IsNumbered(items, show, l)
    {
      ColumnDisplays(max, ns[l], ls[l]);
      if ns[l] != 0 {
        NumberedLine(items, show, l);
      }
    }
    forall j, k | 0 <= j < |items| && items[j].Function? && 1 <= k <= |items[j].code|
      ensures var l := LineOf(items, show, j, k); l < |out| && Displays(out[l], k, show(items[j].code[k-1]))
    {
      LineShows(items, show, j, k);
    }
  }
}
